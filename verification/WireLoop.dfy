/** One call of interactive_one() in wire mode, as a function of the inputs its packet
    parses into. The flags are the globals the loop, the message switch and the error
    recovery share; the long jump is a result value. */
module WireLoop {
  import opened Messages
  import opened SqlEngine

  /** What survives between two calls: the database and ignore_till_sync. */
  datatype Session = Session(db: Db, ignore: bool)

  /** ready is send_ready_for_query, extended is doing_extended_query_message, auth is
      ClientAuthInProgress. */
  datatype Flags = Flags(db: Db, ignore: bool, ready: bool, extended: bool, auth: bool)

  datatype StepResult =
    | Skipped(st: Flags)                 // continue, without reaching the switch
    | Handled(st: Flags, out: seq<Msg>)  // fell out of the switch
    | Raised(st: Flags, out: seq<Msg>)   // long jump, after clear_error
    | Closed(st: Flags)                  // X or EOF: goto wire_flush
    | Broken                             // ereport(FATAL): the process is gone

  /** ran lists the messages that reached an arm of the switch. */
  datatype CallResult =
    | Returned(s: Session, out: seq<Msg>, ran: seq<Msg>)
    | Aborted
    | Fatal
    | Trapped  // a NULL pointer freed, or a jump into a frame that is gone

  function AfterSocketBackend(st: Flags, input: Input): Flags {
    var kind := if input.Message? then input.m.kind else input.kind;
    st.(extended := ExtendedKind(kind), ignore := st.ignore && kind !in {SYNC, TERMINATE})
  }

  predicate SkippedTillSync(st: Flags, input: Input) {
    st.ignore && input.Message? && input.m.kind != SYNC
  }

  /** The assignments the switch makes to send_ready_for_query after an arm succeeds;
      more is the loop's pipelining flag. */
  function ReadyAfter(kind: byte, ready: bool, more: bool): bool {
    if CycleKind(kind) then true
    else if kind == PARSE then false
    else if kind in {BIND, EXECUTE, CLOSE, DESCRIBE} then ready && !more
    else ready
  }

  function ClearError(st: Flags, db: Db): Flags {
    var ignore := st.ignore || st.extended;
    st.(db := db, ignore := ignore, ready := st.ready || !ignore)
  }

  /** X and EOF, the two ways a frontend ends the session. */
  predicate Closes(input: Input) {
    input.Eof? || input.m.kind == TERMINATE
  }

  /** The switch of pg_proto.c, with the long jump of a failing handler. */
  function Switch(e: Engine, st: Flags, input: Input, more: bool): StepResult {
    if Closes(input) then Closed(st.(ignore := false, ready := false))
    else if !RegularKind(input.m.kind) then Broken
    else
      match Handle(e, st.db, input.m)
      case Done(db, out) => Handled(st.(db := db, ready := ReadyAfter(input.m.kind, st.ready, more)), out)
      case Failed(db, out) => Raised(ClearError(st, db), out)
  }

  /** One turn of the loop, up to the end of the switch. */
  function Step(e: Engine, st: Flags, input: Input, more: bool): StepResult {
    var st' := AfterSocketBackend(st, input);
    if SkippedTillSync(st', input) then Skipped(st') else Switch(e, st', input, more)
  }

  function Prepend(out: seq<Msg>, ran: seq<Msg>, r: CallResult): CallResult {
    match r
    case Returned(s, o, n) => Returned(s, out + o, ran + n)
    case _ => r
  }

  function PendingReady(e: Engine, st: Flags): seq<Msg> {
    if st.ready then [ReadyForQuery(e, st.db)] else []
  }

  /** The ReadyForQuery of wire_flush: never while the client authenticates. */
  function FinalReady(e: Engine, st: Flags): seq<Msg> {
    if st.auth then [] else PendingReady(e, st)
  }

  function AfterFlush(st: Flags): Flags {
    st.(ready := st.ready && st.auth)
  }

  function Finish(e: Engine, st: Flags): CallResult {
    Returned(Session(st.db, st.ignore), FinalReady(e, st), [])
  }

  /** The limit canary_ex puts on error recoveries that still have data to read. */
  const MAX_RECOVERIES: nat := 9

  /** The while (pipelining) loop with its re-entries at incoming, from inputs on. */
  function Drive(e: Engine, st: Flags, canary: nat, inputs: seq<Input>): CallResult
    decreases |inputs|
  {
    if inputs == [] then Finish(e, st)
    else
      var more := |inputs| > 1;
      var rest := inputs[1..];
      match Step(e, st, inputs[0], more)
      case Skipped(st') => Drive(e, st', canary, rest)
      case Closed(st') => Finish(e, st')
      case Broken => Fatal
      case Handled(st', out) =>
        if more then
          Prepend(out + PendingReady(e, st'), [inputs[0].m], Drive(e, st'.(ready := false), canary, rest))
        else
          Prepend(out, [inputs[0].m], Finish(e, st'))
      case Raised(st', out) =>
        if !more then Prepend(out, [inputs[0].m], Finish(e, st'))
        else if canary >= MAX_RECOVERIES then Aborted
        else Prepend(out, [inputs[0].m], Drive(e, st', canary + 1, rest))
  }

  lemma PrependPrepend(a: seq<Msg>, b: seq<Msg>, n: seq<Msg>, k: seq<Msg>, r: CallResult)
    ensures Prepend(a, n, Prepend(b, k, r)) == Prepend(a + b, n + k, r)
  {
    if r.Returned? {
      assert a + (b + r.out) == a + b + r.out;
      assert n + (k + r.ran) == n + k + r.ran;
    }
  }

  /** doing_extended_query_message is set anew by every message before anything reads it. */
  lemma ExtendedFlagIsFresh(e: Engine, st: Flags, extended: bool, canary: nat, inputs: seq<Input>)
    ensures Drive(e, st.(extended := extended), canary, inputs) == Drive(e, st, canary, inputs)
  {
  }

  /** The flags at the start of a call; the flag of extended-query messages never matters. */
  function Start(s: Session, auth: bool): Flags {
    Flags(s.db, s.ignore, false, false, auth)
  }

  /** A whole call on a packet already cut into inputs. */
  function Call(e: Engine, s: Session, auth: bool, inputs: seq<Input>): CallResult {
    Drive(e, Start(s, auth), 0, inputs)
  }

  /** Successive calls, one packet each, until one does not return. */
  function Calls(e: Engine, s: Session, auth: bool, packets: seq<seq<Input>>): CallResult
    decreases |packets|
  {
    if packets == [] then Returned(s, [], [])
    else
      var r := Call(e, s, auth, packets[0]);
      if r.Returned? then Prepend(r.out, r.ran, Calls(e, r.s, auth, packets[1..])) else r
  }

  /** The bytes the loop leaves unread: what follows an X, or an impossible length word. */
  function Unread(packet: seq<byte>): (rest: seq<byte>)
    ensures |rest| <= |packet| && rest == packet[|packet| - |rest|..]
    decreases |packet|
  {
    if packet == [] then []
    else
      var (input, rest) := NextInput(packet);
      if Closes(input) then rest else Unread(rest)
  }

  /** The loop reaches a message that is cut short or has an impossible length word. */
  predicate EndsTorn(packet: seq<byte>)
    decreases |packet|
  {
    packet != [] &&
    var (input, rest) := NextInput(packet);
    input.Eof? || (!Closes(input) && EndsTorn(rest))
  }

  /** The packet is whole messages, with an X at most at its end. */
  predicate WellFramed(packet: seq<byte>) {
    Unread(packet) == [] && !EndsTorn(packet)
  }

  /** The inputs are messages, and nothing follows an X. */
  predicate Complete(inputs: seq<Input>) {
    forall k :: 0 <= k < |inputs| ==> inputs[k].Message? && (k < |inputs| - 1 ==> !Closes(inputs[k]))
  }

  lemma CompleteByInput(input: Input, rest: seq<Input>)
    ensures Complete([input] + rest) <==> input.Message? && (rest != [] ==> !Closes(input)) && Complete(rest)
  {
    var inputs := [input] + rest;
    assert forall k :: 0 <= k < |rest| ==> rest[k] == inputs[k + 1];
    if Complete(inputs) {
      assert inputs[0].Message?;
    }
  }

  /** Which packets leave the next call at a message boundary. */
  lemma {:induction false} WellFramedIff(packet: seq<byte>)
    ensures WellFramed(packet) <==> Complete(ParseAll(packet))
    decreases |packet|
  {
    if packet != [] {
      var (input, rest) := NextInput(packet);
      if input.Eof? {
        CompleteByInput(input, []);
        assert [input] + [] == [input];
      } else {
        CompleteByInput(input, ParseAll(rest));
        ParseAllNonEmpty(rest);
        WellFramedIff(rest);
      }
    }
  }

  /** The inputs the loop takes if nothing kills it: all of them, or up to the first X. */
  function UpToClose(inputs: seq<Input>): seq<Input> {
    if inputs == [] then []
    else if inputs[0].Message? && inputs[0].m.kind == TERMINATE then [inputs[0]]
    else [inputs[0]] + UpToClose(inputs[1..])
  }

  /** Where control goes after the switch, or after a turn of the loop: Dead is a FATAL
      error, Trap a fault of the machine in the password code. */
  datatype Jump = FallThrough | LongJump | ToFlush | Dead | Abort | Trap

  datatype Turned = Turned(jump: Jump, st: Flags, canary: nat, out: seq<Msg>, ran: seq<Msg>)

  /** What follows a step in the same turn: the ReadyForQuery at the end of the loop body,
      or the way back to incoming through the error recovery. */
  function TurnOf(e: Engine, step: StepResult, st: Flags, canary: nat, input: Input, more: bool): Turned {
    match step
    case Skipped(st') => Turned(FallThrough, st', canary, [], [])
    case Closed(st') => Turned(ToFlush, st', canary, [], [])
    case Broken => Turned(Dead, st, canary, [], [])
    case Handled(st', out) =>
      if !input.Message? then Turned(Dead, st, canary, [], [])
      else if more then Turned(FallThrough, st'.(ready := false), canary, out + PendingReady(e, st'), [input.m])
      else Turned(FallThrough, st', canary, out, [input.m])
    case Raised(st', out) =>
      if !input.Message? then Turned(Dead, st, canary, [], [])
      else if !more then Turned(ToFlush, st', canary, out, [input.m])
      else Turned(if canary >= MAX_RECOVERIES then Abort else FallThrough, st', canary + 1, out, [input.m])
  }

  /** One whole turn of the loop. */
  function Turn(e: Engine, st: Flags, canary: nat, input: Input, more: bool): Turned {
    TurnOf(e, Step(e, st, input, more), st, canary, input, more)
  }

  /** The loop is its first turn, then the loop from there. */
  lemma DriveByTurn(e: Engine, st: Flags, canary: nat, inputs: seq<Input>)
    requires inputs != []
    ensures var t := Turn(e, st, canary, inputs[0], |inputs| > 1);
            var d := Drive(e, st, canary, inputs);
            match t.jump
            case FallThrough => d == Prepend(t.out, t.ran, Drive(e, t.st, t.canary, inputs[1..]))
            case ToFlush => d == Prepend(t.out, t.ran, Finish(e, t.st))
            case Abort => d == Aborted
            case _ => d == Fatal
  {
    var t := Turn(e, st, canary, inputs[0], |inputs| > 1);
    if Step(e, st, inputs[0], |inputs| > 1).Skipped? {
      PrependNothing(Drive(e, t.st, t.canary, inputs[1..]));
    }
    PrependNothing(Finish(e, t.st));
  }

  lemma PrependNothing(r: CallResult)
    ensures Prepend([], [], r) == r
  {
    if r.Returned? {
      assert [] + r.out == r.out && [] + r.ran == r.ran;
    }
  }

  lemma FirstInput(unread: seq<byte>)
    requires unread != []
    ensures var (input, rest) := NextInput(unread);
            var inputs := ParseAll(unread);
            && inputs != [] && inputs[0] == input
            && (input.Message? ==> inputs[1..] == ParseAll(rest) && (|inputs| > 1 <==> rest != []))
  {
    ParseAllNonEmpty(NextInput(unread).1);
  }

  /** What the loop leaves of packet is decided by what it has not read yet. */
  predicate SameEnd(unread: seq<byte>, packet: seq<byte>) {
    Unread(unread) == Unread(packet) && EndsTorn(unread) == EndsTorn(packet)
  }

  lemma EndByInput(unread: seq<byte>, packet: seq<byte>)
    requires unread != [] && SameEnd(unread, packet)
    ensures var (input, rest) := NextInput(unread);
            if Closes(input) then Unread(packet) == rest && EndsTorn(packet) == input.Eof?
            else SameEnd(rest, packet)
  {
  }

  /** In the middle of a call on the inputs all: what was taken, sent and dispatched so far,
      and the flags and inputs from which the rest of the call follows. */
  ghost predicate Progress(e: Engine, st0: Flags, all: seq<Input>, st: Flags, canary: nat, inputs: seq<Input>,
                           taken: seq<Input>, out: seq<Msg>, ran: seq<Msg>) {
    && Drive(e, st0, 0, all) == Prepend(out, ran, Drive(e, st, canary, inputs))
    && taken + UpToClose(inputs) == UpToClose(all) && st.auth == st0.auth
  }

  /** The call goes to wire_flush after these. */
  ghost predicate Flushes(e: Engine, st0: Flags, all: seq<Input>, st: Flags,
                          taken: seq<Input>, out: seq<Msg>, ran: seq<Msg>) {
    Drive(e, st0, 0, all) == Prepend(out, ran, Finish(e, st)) && taken == UpToClose(all) && st.auth == st0.auth
  }

  lemma ProgressAtStart(e: Engine, st0: Flags, all: seq<Input>)
    ensures Progress(e, st0, all, st0, 0, all, [], [], [])
  {
    PrependNothing(Drive(e, st0, 0, all));
  }

  lemma FlushesAtEnd(e: Engine, st0: Flags, all: seq<Input>, st: Flags, canary: nat,
                     taken: seq<Input>, out: seq<Msg>, ran: seq<Msg>)
    requires Progress(e, st0, all, st, canary, [], taken, out, ran)
    ensures Flushes(e, st0, all, st, taken, out, ran)
  {
  }

  lemma JumpOfTurn(e: Engine, st: Flags, canary: nat, input: Input, more: bool)
    ensures Turn(e, st, canary, input, more).st.auth == st.auth
    ensures Turn(e, st, canary, input, more).jump in {FallThrough, ToFlush, Dead, Abort}
    ensures var jump := Turn(e, st, canary, input, more).jump;
            && (jump == FallThrough ==> !Closes(input))
            && (jump == ToFlush ==> Closes(input) || !more)
  {
  }

  lemma TurnByKind(e: Engine, st: Flags, canary: nat, input: Input, more: bool)
    ensures var kind, t := if input.Message? then input.m.kind else input.kind, Turn(e, st, canary, input, more);
            && (t.jump == Dead <==> !st.ignore && input.Message?
                                    && kind !in {81, 80, 66, 69, 70, 67, 68, 72, 83, 88, 100, 99, 102})
            && (t.jump != Dead ==> (t.st.extended <==> kind in {80, 66, 69, 67, 68, 72}))
  {
  }

  lemma TakenByTurn(inputs: seq<Input>, taken: seq<Input>)
    requires inputs != []
    ensures taken + UpToClose(inputs) ==
      if inputs[0].Message? && inputs[0].m.kind == TERMINATE then taken + [inputs[0]]
      else taken + [inputs[0]] + UpToClose(inputs[1..])
  {
  }

  /** A turn in the middle of a call, with pipelining as pq_buffer_remaining_data reports
      it: true exactly when another input follows. */
  lemma ProgressByTurn(e: Engine, st0: Flags, all: seq<Input>, st: Flags, canary: nat, inputs: seq<Input>,
                       taken: seq<Input>, out: seq<Msg>, ran: seq<Msg>, more: bool)
    requires Progress(e, st0, all, st, canary, inputs, taken, out, ran) && inputs != []
    requires if inputs[0].Message? then more <==> |inputs| > 1 else |inputs| == 1
    ensures var t := Turn(e, st, canary, inputs[0], more);
            var taken' := taken + [inputs[0]];
            match t.jump
            case FallThrough => Progress(e, st0, all, t.st, t.canary, inputs[1..], taken', out + t.out, ran + t.ran)
            case ToFlush => Flushes(e, st0, all, t.st, taken', out + t.out, ran + t.ran)
            case Abort => Drive(e, st0, 0, all) == Aborted
            case _ => Drive(e, st0, 0, all) == Fatal
  {
    var t := Turn(e, st, canary, inputs[0], |inputs| > 1);
    assert Turn(e, st, canary, inputs[0], more) == t;
    DriveByTurn(e, st, canary, inputs);
    JumpOfTurn(e, st, canary, inputs[0], |inputs| > 1);
    TakenByTurn(inputs, taken);
    PrependPrepend(out, t.out, ran, t.ran, Drive(e, t.st, t.canary, inputs[1..]));
    PrependPrepend(out, t.out, ran, t.ran, Finish(e, t.st));
  }

  function ParsedPackets(packets: seq<seq<byte>>): (r: seq<seq<Input>>)
    ensures |r| == |packets|
  {
    seq(|packets|, i requires 0 <= i < |packets| => ParseAll(packets[i]))
  }
}
