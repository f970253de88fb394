/** One call on the bytes in its receive buffer, turn by turn: the loop and the password
    code read on in bytes that the replies of the same call may have overwritten. */
module CallModel {
  import opened Messages
  import opened LinearMemory
  import opened SqlEngine
  import opened WireLoop
  import opened Handshake

  /** Where a call builds its reply: in the socket file from the start, or in the send buffer
      of size bytes at base, of which lead bytes were used before. A request that is read
      from memory ends at the address end. */
  datatype Place = InFile(base: nat, size: nat) | InMemory(base: nat, size: nat, lead: nat, end: nat)

  /** How many bytes the send buffer holds when the reply begins. */
  function LeadOf(place: Place): nat {
    if place.InMemory? then place.lead else 0
  }

  /** The unread bytes s, after b was appended to the n bytes of the send buffer. */
  function Seen(s: seq<byte>, place: Place, n: nat, b: seq<byte>): (r: seq<byte>)
    ensures |r| == |s|
  {
    if place.InFile? then s
    else Landed(s, if |s| <= place.end then place.end - |s| else 0, place.base, place.size, n, b)
  }

  /** The flags, canary_ex, the bytes the send buffer holds and the bytes left to read. */
  datatype View = View(st: Flags, canary: nat, n: nat, unread: seq<byte>)

  /** A turn: where control goes, what was sent, dispatched and taken, what the next turn
      finds, and whether the message was left unfinished. */
  datatype Move = Move(jump: Jump, out: seq<Msg>, ran: seq<Msg>, taken: seq<Input>, next: View, torn: bool)

  /** A turn of the while (pipelining) loop. */
  predicate LoopMove(e: Engine, place: Place, v: View, m: Move) {
    v.unread != [] &&
    var (input, rest) := NextInput(v.unread);
    var t := Turn(e, v.st, v.canary, input, rest != []);
    var sent := EncodeAll(t.out);
    && m.jump == t.jump && m.out == t.out && m.ran == t.ran && m.taken == [input] && m.torn == input.Eof?
    && (t.jump != Dead ==> m.next == View(t.st, t.canary, v.n + |sent|, Seen(rest, place, v.n, sent)))
  }

  /** A turn of startup_pass(), with the error recovery that may come back to it. */
  predicate PasswordMove(e: Engine, place: Place, v: View, m: Move) {
    v.unread != [] && m.ran == [] && m.taken == [] &&
    var (got, rest) := ReceivePassword(v.unread);
    var sent := EncodeAll(m.out);
    var unread := Seen(rest, place, v.n, sent);
    match got
    case Foreign => m.jump == Dead
    case Null => m.jump == Trap
    case Good =>
      && m.jump == ToFlush && m.out == Welcome(e, v.st.db) && !m.torn
      && m.next.st == Welcomed(v.st) && m.next.n == v.n + |sent| && m.next.unread == unread
    case Bad(msg) =>
      if place.InFile? then m.jump == Trap
      else
        var o := Rejected(e, v.st.db, msg);
        && m.out == o.out && !m.torn && m.next.st == ClearError(v.st, o.db)
        && m.next.n == v.n + |sent| && m.next.unread == unread
        && (if rest == [] then m.jump == ToFlush
            else if v.canary >= MAX_RECOVERIES then m.jump == Abort
            else m.jump == FallThrough && m.next.canary == v.canary + 1)
  }

  predicate IsMove(e: Engine, place: Place, password: bool, v: View, m: Move) {
    if password then PasswordMove(e, place, v, m) else LoopMove(e, place, v, m)
  }

  /** What the next turn finds after these, which began at v. */
  function Behind(v: View, moves: seq<Move>): View {
    if moves == [] then v else moves[|moves| - 1].next
  }

  /** From v on, these are turns that go on, and the next one begins behind them. */
  predicate LeadsBy(turn: (View, Move) -> bool, v: View, moves: seq<Move>) {
    moves == [] ||
    var front, m := moves[..|moves| - 1], moves[|moves| - 1];
    LeadsBy(turn, v, front) && turn(Behind(v, front), m) && m.jump == FallThrough
  }

  /** These are all the turns of a call: the last one ends it, or leaves nothing to read. */
  predicate PathBy(turn: (View, Move) -> bool, v: View, moves: seq<Move>) {
    moves != [] &&
    var front, m := moves[..|moves| - 1], moves[|moves| - 1];
    && LeadsBy(turn, v, front) && turn(Behind(v, front), m)
    && (m.jump == FallThrough ==> m.next.unread == [] && !m.torn)
  }

  function TurnOfCall(e: Engine, place: Place, password: bool): (View, Move) -> bool {
    (v, m) => IsMove(e, place, password, v, m)
  }

  predicate Leads(e: Engine, place: Place, password: bool, v: View, moves: seq<Move>) {
    LeadsBy(TurnOfCall(e, place, password), v, moves)
  }

  predicate Path(e: Engine, place: Place, password: bool, v: View, moves: seq<Move>) {
    PathBy(TurnOfCall(e, place, password), v, moves)
  }

  function OutOf(moves: seq<Move>): seq<Msg> {
    if moves == [] then [] else OutOf(moves[..|moves| - 1]) + moves[|moves| - 1].out
  }

  function RanOf(moves: seq<Move>): seq<Msg> {
    if moves == [] then [] else RanOf(moves[..|moves| - 1]) + moves[|moves| - 1].ran
  }

  function TakenOf(moves: seq<Move>): seq<Input> {
    if moves == [] then [] else TakenOf(moves[..|moves| - 1]) + moves[|moves| - 1].taken
  }

  /** wire_flush, and the end of the call. */
  function ByFlush(e: Engine, place: Place, out: seq<Msg>, ran: seq<Msg>, v: View, torn: bool): CallEnd {
    var ready := EncodeAll(FinalReady(e, v.st));
    CallEnd(Prepend(out, ran, Finish(e, v.st)), AfterFlush(v.st), Seen(v.unread, place, v.n, ready), torn)
  }

  /** How a call ends after its turns. */
  function EndOf(e: Engine, place: Place, moves: seq<Move>): CallEnd
    requires moves != []
  {
    var m := moves[|moves| - 1];
    match m.jump
    case FallThrough => ByFlush(e, place, OutOf(moves), RanOf(moves), m.next, m.torn)
    case ToFlush => ByFlush(e, place, OutOf(moves), RanOf(moves), m.next, m.torn)
    case Abort => Gone(Aborted, m.next.st)
    case Trap => Gone(Trapped, m.next.st)
    case _ => Gone(Fatal, m.next.st)
  }

  /** A call of startup_auth(), which leaves rest of the request. */
  function StartupEnd(e: Engine, st: Flags, place: Place, rest: seq<byte>, torn: bool): CallEnd {
    var out := [PasswordRequest()];
    var sent := EncodeAll(out);
    var n := LeadOf(place);
    ByFlush(e, place, out, [], View(st.(ready := false, auth := true), 0, n + |sent|, Seen(rest, place, n, sent)), torn)
  }

  // ---------- The first turns of a call ----------

  lemma {:induction false} LeadsFirst(turn: (View, Move) -> bool, v: View, moves: seq<Move>)
    requires LeadsBy(turn, v, moves) && moves != []
    ensures turn(v, moves[0]) && moves[0].jump == FallThrough
    ensures LeadsBy(turn, moves[0].next, moves[1..]) && Behind(moves[0].next, moves[1..]) == Behind(v, moves)
    decreases |moves|
  {
    if |moves| > 1 {
      var front := moves[..|moves| - 1];
      LeadsFirst(turn, v, front);
      assert moves[1..][..|moves| - 2] == front[1..];
    }
  }

  /** A call begins with a turn from its first view. It is the only one, or it goes on, and
      the others are a call from what it leaves. */
  lemma PathFirst(turn: (View, Move) -> bool, v: View, moves: seq<Move>)
    requires PathBy(turn, v, moves)
    ensures turn(v, moves[0])
    ensures if |moves| == 1 then moves[0].jump == FallThrough ==> moves[0].next.unread == []
            else moves[0].jump == FallThrough && PathBy(turn, moves[0].next, moves[1..])
  {
    if |moves| > 1 {
      var front := moves[..|moves| - 1];
      LeadsFirst(turn, v, front);
      assert moves[1..][..|moves| - 2] == front[1..];
    } else {
      assert moves[..0] == [];
    }
  }

  /** A call whose first turn goes on to the view v', where every turn ends it. */
  lemma TwoTurns(turn: (View, Move) -> bool, v: View, v': View, jump: Jump, moves: seq<Move>)
    requires PathBy(turn, v, moves) && v'.unread != [] && jump != FallThrough
    requires forall m :: turn(v, m) ==> m.jump == FallThrough && m.next == v'
    requires forall m :: turn(v', m) ==> m.jump == jump
    ensures |moves| == 2 && turn(v, moves[0]) && turn(v', moves[1]) && moves[1].jump == jump
  {
    PathFirst(turn, v, moves);
    PathFirst(turn, v', moves[1..]);
  }

  lemma TotalsOfOne(moves: seq<Move>)
    requires |moves| == 1
    ensures OutOf(moves) == moves[0].out && RanOf(moves) == moves[0].ran && TakenOf(moves) == moves[0].taken
  {
    assert moves[..0] == [];
  }

  /** A startup packet read as a message, as a shared call finds it after a startup in a
      file: its type byte is 0. Nothing is dispatched or sent; the process is gone at once, or
      the message is left unfinished, and the next call that reads one is FATAL. */
  lemma StaleTurn(e: Engine, place: Place, password: bool, v: View, m: Move)
    requires IsMove(e, place, password, v, m) && v.unread[0] == 0 && !v.st.ignore && !v.st.ready
    ensures m.jump == Dead || (m.jump == ToFlush && m.torn && m.out == [] && m.ran == [] && m.next.st.auth == v.st.auth
                               && !m.next.st.ready)
  {
  }

  /** The first byte of a message decides whether a turn is FATAL, outside the skip, and what
      doing_extended_query_message is behind it. */
  lemma TurnByType(e: Engine, place: Place, v: View, m: Move)
    requires LoopMove(e, place, v, m)
    ensures m.jump == Dead <==> !v.st.ignore && NextInput(v.unread).0.Message?
                                && v.unread[0] !in {81, 80, 66, 69, 70, 67, 68, 72, 83, 88, 100, 99, 102}
    ensures m.jump != Dead ==> (m.next.st.extended <==> v.unread[0] in {80, 66, 69, 67, 68, 72})
  {
    var (input, rest) := NextInput(v.unread);
    assert v.unread[0] == if input.Message? then input.m.kind else input.kind;
    TurnByKind(e, v.st, v.canary, input, rest != []);
  }

  // ---------- Requests that no reply overwrites ----------

  /** A request of k bytes does not overlap the send buffer. */
  predicate Aside(place: Place, k: nat) {
    place.InMemory? ==> k <= place.end && (place.end <= place.base || place.base + place.size + k <= place.end)
  }

  lemma SeenAside(s: seq<byte>, place: Place, n: nat, b: seq<byte>)
    requires Aside(place, |s|)
    ensures Seen(s, place, n, b) == s
  {
    if place.InMemory? {
      LandedNowhere(s, place.end - |s|, place.base, place.size, n, b);
    }
  }

  lemma SeenNothing(s: seq<byte>, place: Place, n: nat)
    ensures Seen(s, place, n, []) == s
  {
    if place.InMemory? {
      LandedNowhere(s, if |s| <= place.end then place.end - |s| else 0, place.base, place.size, n, []);
    }
  }

  lemma SeenTwice(s: seq<byte>, place: Place, n: nat, a: seq<byte>, b: seq<byte>)
    ensures Seen(Seen(s, place, n, a), place, n + |a|, b) == Seen(s, place, n, a + b)
  {
    if place.InMemory? {
      LandedTwice(s, if |s| <= place.end then place.end - |s| else 0, place.base, place.size, n, a, b);
    }
  }

  /** What memory holds of the unread bytes s from lo to hi, after b was sent. */
  lemma WrittenIsSeen(s: seq<byte>, place: Place, files: bool, m: seq<byte>, n: nat, b: seq<byte>, m': seq<byte>,
                      lo: nat, hi: nat)
    requires lo <= hi <= |m| && s == m[lo..hi] && Written(files, m, place.base, place.size, n, b, m')
    requires if place.InFile? then files else (files ==> n >= place.size) && (s != [] ==> hi == place.end)
    ensures |m'| == |m| && m'[lo..hi] == Seen(s, place, n, b)
  {
    if place.InMemory? && s != [] {
      if files {
        LandedNowhere(s, lo, place.base, place.size, n, b);
      } else {
        WrittenLands(m, place.base, place.size, n, b, m', lo, hi);
      }
    }
  }

  lemma LeadsOn(e: Engine, place: Place, password: bool, v: View, moves: seq<Move>, m: Move)
    requires Leads(e, place, password, v, moves) && IsMove(e, place, password, Behind(v, moves), m)
    ensures m.jump == FallThrough ==> Leads(e, place, password, v, moves + [m]) && Behind(v, moves + [m]) == m.next
    ensures (m.jump == FallThrough ==> m.next.unread == [] && !m.torn) ==> Path(e, place, password, v, moves + [m])
    ensures OutOf(moves + [m]) == OutOf(moves) + m.out
  {
    assert (moves + [m])[..|moves|] == moves;
  }

  /** After these turns the loop is where the functional one is, on the rest of the parse. */
  ghost predicate Between(e: Engine, v0: View, moves: seq<Move>, v: View) {
    && |v.unread| <= |v0.unread| && SameEnd(v.unread, v0.unread)
    && Progress(e, v0.st, ParseAll(v0.unread), v.st, v.canary, ParseAll(v.unread),
                TakenOf(moves), OutOf(moves), RanOf(moves))
  }

  lemma {:induction false} LeadsAside(e: Engine, place: Place, v0: View, moves: seq<Move>)
    requires Leads(e, place, false, v0, moves) && Aside(place, |v0.unread|) && v0.canary == 0
    ensures Between(e, v0, moves, Behind(v0, moves))
    decreases |moves|
  {
    if moves == [] {
      ProgressAtStart(e, v0.st, ParseAll(v0.unread));
    } else {
      LeadsAside(e, place, v0, moves[..|moves| - 1]);
      GoesOn(e, place, v0, moves);
    }
  }

  /** A turn that goes on. */
  lemma TurnGoesOn(e: Engine, place: Place, st0: Flags, packet: seq<byte>, v: View, m: Move,
                   taken: seq<Input>, out: seq<Msg>, ran: seq<Msg>)
    requires LoopMove(e, place, v, m) && m.jump == FallThrough && Aside(place, |packet|)
    requires |v.unread| <= |packet| && SameEnd(v.unread, packet)
    requires Progress(e, st0, ParseAll(packet), v.st, v.canary, ParseAll(v.unread), taken, out, ran)
    ensures |m.next.unread| <= |packet| && SameEnd(m.next.unread, packet)
    ensures Progress(e, st0, ParseAll(packet), m.next.st, m.next.canary, ParseAll(m.next.unread),
                     taken + m.taken, out + m.out, ran + m.ran)
  {
    var (input, rest) := NextInput(v.unread);
    FirstInput(v.unread);
    EndByInput(v.unread, packet);
    JumpOfTurn(e, v.st, v.canary, input, rest != []);
    SeenAside(rest, place, v.n, EncodeAll(m.out));
    ProgressByTurn(e, st0, ParseAll(packet), v.st, v.canary, ParseAll(v.unread), taken, out, ran, rest != []);
  }

  lemma GoesOn(e: Engine, place: Place, v0: View, moves: seq<Move>)
    requires moves != [] && Leads(e, place, false, v0, moves) && Aside(place, |v0.unread|)
    requires var front := moves[..|moves| - 1]; Between(e, v0, front, Behind(v0, front))
    ensures Between(e, v0, moves, Behind(v0, moves))
  {
    var front, m := moves[..|moves| - 1], moves[|moves| - 1];
    TurnGoesOn(e, place, v0.st, v0.unread, Behind(v0, front), m, TakenOf(front), OutOf(front), RanOf(front));
  }

  /** The call ends as the loop on the parse of its request says. */
  ghost predicate LoopEnds(e: Engine, v0: View, moves: seq<Move>, h: CallEnd) {
    var r := Drive(e, v0.st, 0, ParseAll(v0.unread));
    && h.r == r
    && (r.Returned? ==>
          && Session(h.st.db, h.st.ignore) == r.s && h.st.auth == v0.st.auth && (h.st.ready ==> h.st.auth)
          && h.rest == Unread(v0.unread) && h.torn == EndsTorn(v0.unread)
          && TakenOf(moves) == UpToClose(ParseAll(v0.unread)))
  }

  /** A turn that leaves nothing to read. */
  lemma LoopDrains(e: Engine, place: Place, v0: View, moves: seq<Move>)
    requires Path(e, place, false, v0, moves) && Aside(place, |v0.unread|) && moves[|moves| - 1].jump == FallThrough
    requires var front := moves[..|moves| - 1]; Between(e, v0, front, Behind(v0, front))
    ensures LoopEnds(e, v0, moves, EndOf(e, place, moves))
  {
    var front, m := moves[..|moves| - 1], moves[|moves| - 1];
    TurnGoesOn(e, place, v0.st, v0.unread, Behind(v0, front), m, TakenOf(front), OutOf(front), RanOf(front));
    FlushesAtEnd(e, v0.st, ParseAll(v0.unread), m.next.st, m.next.canary, TakenOf(moves), OutOf(moves), RanOf(moves));
    SeenAside([], place, m.next.n, EncodeAll(FinalReady(e, m.next.st)));
  }

  /** Where no reply lands, the turns of the loop are the loop on the parse. */
  lemma LoopAside(e: Engine, place: Place, v0: View, moves: seq<Move>)
    requires Path(e, place, false, v0, moves) && Aside(place, |v0.unread|) && v0.canary == 0
    ensures LoopEnds(e, v0, moves, EndOf(e, place, moves))
  {
    var m := moves[|moves| - 1];
    LeadsAside(e, place, v0, moves[..|moves| - 1]);
    if m.jump == FallThrough {
      LoopDrains(e, place, v0, moves);
    } else if m.jump != ToFlush {
      LoopIsLost(e, place, v0, moves);
    } else {
      LoopHalts(e, place, v0, moves);
    }
  }

  /** The turn that ends the loop: what the call comes to. */
  lemma LastFlush(e: Engine, place: Place, st0: Flags, all: seq<Input>, v: View, m: Move,
                  taken: seq<Input>, out: seq<Msg>, ran: seq<Msg>)
    requires LoopMove(e, place, v, m) && m.jump == ToFlush
    requires Progress(e, st0, all, v.st, v.canary, ParseAll(v.unread), taken, out, ran)
    ensures Flushes(e, st0, all, m.next.st, taken + m.taken, out + m.out, ran + m.ran)
  {
    var (input, rest) := NextInput(v.unread);
    FirstInput(v.unread);
    ProgressByTurn(e, st0, all, v.st, v.canary, ParseAll(v.unread), taken, out, ran, rest != []);
  }

  lemma LastLost(e: Engine, place: Place, st0: Flags, all: seq<Input>, v: View, m: Move,
                 taken: seq<Input>, out: seq<Msg>, ran: seq<Msg>)
    requires LoopMove(e, place, v, m) && m.jump !in {FallThrough, ToFlush}
    requires Progress(e, st0, all, v.st, v.canary, ParseAll(v.unread), taken, out, ran)
    ensures m.jump in {Abort, Dead}
    ensures Drive(e, st0, 0, all) == if m.jump == Abort then Aborted else Fatal
  {
    var (input, rest) := NextInput(v.unread);
    FirstInput(v.unread);
    JumpOfTurn(e, v.st, v.canary, input, rest != []);
    ProgressByTurn(e, st0, all, v.st, v.canary, ParseAll(v.unread), taken, out, ran, rest != []);
  }

  /** And what it leaves unread. */
  lemma LastRest(e: Engine, place: Place, packet: seq<byte>, v: View, m: Move)
    requires LoopMove(e, place, v, m) && m.jump == ToFlush
    requires |v.unread| <= |packet| && SameEnd(v.unread, packet) && Aside(place, |packet|)
    ensures |m.next.unread| <= |packet| && m.next.unread == Unread(packet) && m.torn == EndsTorn(packet)
  {
    var (input, rest) := NextInput(v.unread);
    EndByInput(v.unread, packet);
    JumpOfTurn(e, v.st, v.canary, input, rest != []);
    SeenAside(rest, place, v.n, EncodeAll(m.out));
  }

  /** The loop does not get to wire_flush. */
  lemma LoopIsLost(e: Engine, place: Place, v0: View, moves: seq<Move>)
    requires Path(e, place, false, v0, moves) && moves[|moves| - 1].jump !in {FallThrough, ToFlush}
    requires var front := moves[..|moves| - 1]; Between(e, v0, front, Behind(v0, front))
    ensures LoopEnds(e, v0, moves, EndOf(e, place, moves))
  {
    var front, m := moves[..|moves| - 1], moves[|moves| - 1];
    LastLost(e, place, v0.st, ParseAll(v0.unread), Behind(v0, front), m, TakenOf(front), OutOf(front), RanOf(front));
  }

  /** The loop jumps there. */
  lemma LoopHalts(e: Engine, place: Place, v0: View, moves: seq<Move>)
    requires Path(e, place, false, v0, moves) && Aside(place, |v0.unread|) && moves[|moves| - 1].jump == ToFlush
    requires var front := moves[..|moves| - 1]; Between(e, v0, front, Behind(v0, front))
    ensures LoopEnds(e, v0, moves, EndOf(e, place, moves))
  {
    var front, m := moves[..|moves| - 1], moves[|moves| - 1];
    var v := Behind(v0, front);
    LastFlush(e, place, v0.st, ParseAll(v0.unread), v, m, TakenOf(front), OutOf(front), RanOf(front));
    LastRest(e, place, v0.unread, v, m);
    SeenAside(m.next.unread, place, m.next.n, EncodeAll(FinalReady(e, m.next.st)));
  }

  // ---------- The password code ----------

  /** A turn of the password code where no reply lands. */
  lemma PasswordTurnAside(e: Engine, place: Place, v: View, m: Move)
    requires PasswordMove(e, place, v, m) && Aside(place, |v.unread|)
    ensures JumpsAs(PassOnce(e, v.st, v.canary, v.unread, place.InMemory?), e, v.canary,
                    m.jump, m.out, m.next.st, m.next.canary, m.next.unread, m.torn)
  {
    SeenAside(ReceivePassword(v.unread).1, place, v.n, EncodeAll(m.out));
  }

  /** After these turns the password code is where its function h is. */
  predicate PasswordBetween(h: CallEnd, e: Engine, v0: View, shared: bool, moves: seq<Move>, v: View) {
    && |v.unread| <= |v0.unread| && RanOf(moves) == []
    && Midway(h, e, OutOf(moves), v.st, v.canary, v.unread, shared)
  }

  lemma PasswordGoesOn(h: CallEnd, e: Engine, place: Place, v0: View, moves: seq<Move>)
    requires moves != [] && Leads(e, place, true, v0, moves) && Aside(place, |v0.unread|)
    requires var front := moves[..|moves| - 1]; PasswordBetween(h, e, v0, place.InMemory?, front, Behind(v0, front))
    ensures PasswordBetween(h, e, v0, place.InMemory?, moves, Behind(v0, moves))
  {
    var front, m := moves[..|moves| - 1], moves[|moves| - 1];
    var v := Behind(v0, front);
    PasswordTurnAside(e, place, v, m);
    MidwayByTurn(h, e, OutOf(front), v.st, v.canary, v.unread, place.InMemory?, m.jump, m.out,
                 m.next.st, m.next.canary, m.next.unread, m.torn);
  }

  lemma {:induction false} PasswordLeadsAside(h: CallEnd, e: Engine, place: Place, v0: View, moves: seq<Move>)
    requires Leads(e, place, true, v0, moves) && Aside(place, |v0.unread|)
    requires PasswordBetween(h, e, v0, place.InMemory?, [], v0)
    ensures PasswordBetween(h, e, v0, place.InMemory?, moves, Behind(v0, moves))
    decreases |moves|
  {
    if moves != [] {
      PasswordLeadsAside(h, e, place, v0, moves[..|moves| - 1]);
      PasswordGoesOn(h, e, place, v0, moves);
    }
  }

  lemma LastPassword(h: CallEnd, e: Engine, place: Place, v0: View, moves: seq<Move>)
    requires Path(e, place, true, v0, moves) && Aside(place, |v0.unread|)
    requires var front := moves[..|moves| - 1]; PasswordBetween(h, e, v0, place.InMemory?, front, Behind(v0, front))
    ensures var m := moves[|moves| - 1];
            && RanOf(moves) == [] && m.jump != FallThrough && (m.jump == ToFlush ==> Aside(place, |m.next.unread|))
            && LeadsTo(h, e, m.jump, OutOf(moves), m.next.st, m.next.canary, m.next.unread, m.torn, place.InMemory?)
  {
    var front, m := moves[..|moves| - 1], moves[|moves| - 1];
    var v := Behind(v0, front);
    PasswordTurnAside(e, place, v, m);
    MidwayByTurn(h, e, OutOf(front), v.st, v.canary, v.unread, place.InMemory?, m.jump, m.out,
                 m.next.st, m.next.canary, m.next.unread, m.torn);
  }

  /** Where no reply lands, the turns of the password code are its function. */
  lemma PasswordAside(e: Engine, place: Place, v0: View, moves: seq<Move>)
    requires Path(e, place, true, v0, moves) && Aside(place, |v0.unread|) && v0.canary == 0 && v0.unread != []
    ensures var h, c := EndOf(e, place, moves), PasswordCall(e, v0.st, 0, v0.unread, place.InMemory?);
            if c.r.Returned? then h == c else h.r == c.r
  {
    var c, m := PasswordCall(e, v0.st, 0, v0.unread, place.InMemory?), moves[|moves| - 1];
    BeforeBefore([], [], c);
    PasswordLeadsAside(c, e, place, v0, moves[..|moves| - 1]);
    LastPassword(c, e, place, v0, moves);
    if m.jump == ToFlush {
      SeenAside(m.next.unread, place, m.next.n, EncodeAll(FinalReady(e, m.next.st)));
    }
  }

  /** Where no reply lands, a startup leaves what discard_input left. */
  lemma StartupAside(e: Engine, st: Flags, place: Place, rest: seq<byte>, torn: bool)
    requires Aside(place, |rest|)
    ensures StartupEnd(e, st, place, rest, torn) == StartupCall(e, st, rest, torn)
  {
    var sent := EncodeAll([PasswordRequest()]);
    var st' := st.(ready := false, auth := true);
    SeenAside(rest, place, LeadOf(place), sent);
    SeenAside(rest, place, LeadOf(place) + |sent|, EncodeAll(FinalReady(e, st')));
  }
}
