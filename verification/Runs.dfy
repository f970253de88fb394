/** The protocol laws carried over to the machine: runs of the backend over shared memory
    answer with the bytes the message flow of the protocol prescribes. */
module Runs {
  import opened Messages
  import opened SqlEngine
  import opened WireLoop
  import opened ProtocolLaws
  import opened SkipLaws
  import opened LinearMemory
  import opened Transport
  import opened Handshake
  import opened CallModel
  import opened Backend

  /** Messages cut into packets, and the way each packet goes. */
  function Parcels(ps: seq<seq<Msg>>, shared: seq<bool>): (r: seq<Parcel>)
    requires |shared| == |ps|
    ensures |r| == |ps|
  {
    seq(|ps|, i requires 0 <= i < |ps| => Parcel(EncodeAll(ps[i]), shared[i]))
  }

  lemma ParsedParcels(ps: seq<seq<Msg>>, shared: seq<bool>)
    requires |shared| == |ps|
    ensures ParsedPackets(Contents(Parcels(ps, shared))) == Packets(ps)
  {
    forall i | 0 <= i < |ps| ensures ParsedPackets(Contents(Parcels(ps, shared)))[i] == Packets(ps)[i] {
      ParseOfEncodeAll(ps[i]);
    }
  }

  lemma RegularIsComplete(ms: seq<Msg>)
    requires Regular(ms)
    ensures Complete(Inputs(ms))
  {
    forall k | 0 <= k < |ms| ensures Inputs(ms)[k].Message? && !Closes(Inputs(ms)[k]) {
      assert ms[k] in ms;
    }
  }

  lemma EncodedIsWellFramed(ms: seq<Msg>)
    requires Regular(ms)
    ensures WellFramed(EncodeAll(ms))
  {
    ParseOfEncodeAll(ms);
    RegularIsComplete(ms);
    WellFramedIff(EncodeAll(ms));
  }

  /** Every packet holds regular messages and fits the way it goes. */
  predicate Fits(backend: Backend, ps: seq<seq<Msg>>, shared: seq<bool>) {
    |shared| == |ps| && forall i :: 0 <= i < |ps| ==>
      Regular(ps[i]) && ps[i] != [] && backend.FitsItsWay(Parcel(EncodeAll(ps[i]), shared[i]))
  }

  lemma FirstByte(ms: seq<Msg>)
    requires ms != []
    ensures |EncodeAll(ms)| >= 5 && EncodeAll(ms)[0] == ms[0].kind
  {
  }

  lemma EncodedParcelsAreSendable(backend: Backend, ps: seq<seq<Msg>>, shared: seq<bool>)
    requires Fits(backend, ps, shared)
    ensures forall p :: p in Parcels(ps, shared) ==> backend.Sendable(p)
  {
    forall i | 0 <= i < |ps| ensures backend.Sendable(Parcels(ps, shared)[i]) {
      assert ps[i][0] in ps[i];
      FirstByte(ps[i]);
      EncodedIsWellFramed(ps[i]);
    }
  }

  /** Any way to cut the messages into packets that meet the batching condition, each sent
      over shared memory or as a file, gives the reply bytes, the database and the skip
      state of the protocol run message by message. */
  method RunMessages(backend: Backend, ps: seq<seq<Msg>>, shared: seq<bool>) returns (exit: Exit, replies: seq<byte>)
    requires backend.Idle() && !backend.flags.auth && Fits(backend, ps, shared)
    requires EachPacketBatches(backend.engine, Session(backend.flags.db, backend.flags.ignore), ps)
    modifies backend, backend.comm, backend.comm.mem
    ensures var p := Protocol(backend.engine, old(Session(backend.flags.db, backend.flags.ignore)), Concat(ps));
            && exit == Replied && replies == EncodeAll(p.out)
            && Session(backend.flags.db, backend.flags.ignore) == p.s && !backend.flags.auth && backend.Idle()
  {
    EncodedParcelsAreSendable(backend, ps, shared);
    ParsedParcels(ps, shared);
    RunIsProtocol(backend.engine, Session(backend.flags.db, backend.flags.ignore), ps);
    exit, replies := backend.Run(Parcels(ps, shared));
  }

  // ---------- Leaving ----------

  lemma FirstOfPacket(ms: seq<Msg>, last: seq<byte>)
    requires Regular(ms) && last != [] && (ms == [] ==> last[0] !in {0, 112})
    ensures !IsHandshake(EncodeAll(ms) + last)
  {
    if ms != [] {
      assert ms[0] in ms;
      AppendedFrames(ms, last);
    }
  }

  /** A packet whose messages end in an X or an EOF, over either way: the host reads back the
      replies to the messages and nothing behind them. The skip is over; what follows the X is
      left in the buffer, and an EOF leaves the message unfinished. */
  method Leave(backend: Backend, ms: seq<Msg>, last: seq<byte>, shared: bool) returns (exit: Exit, reply: seq<byte>)
    requires backend.Idle() && backend.FitsItsWay(Parcel(EncodeAll(ms) + last, shared))
    requires Regular(ms) && last != [] && (last[0] == 88 || NextInput(last).0.Eof?)
    requires ms == [] ==> last[0] !in {0, 112}
    modifies backend, backend.comm, backend.comm.mem
    ensures var e, s := backend.engine, old(Session(backend.flags.db, backend.flags.ignore));
            var p := Through(e, Start(s, old(backend.flags.auth)), 0, ms);
            if p.canary > 9 then exit == AbortCalled
            else
              && exit == Replied && reply == EncodeAll(p.out) && backend.Quiet()
              && backend.flags.db == Protocol(e, s, ms).s.db && !backend.flags.ignore
              && backend.flags.auth == old(backend.flags.auth)
              && backend.comm.buffered == NextInput(last).1 && (backend.comm.reading <==> NextInput(last).0.Eof?)
  {
    var packet := EncodeAll(ms) + last;
    ghost var e, st := backend.engine, backend.flags;
    EndsPacket(e, Session(st.db, st.ignore), st.auth, ms, last);
    FirstOfPacket(ms, last);
    exit, reply := backend.ExchangeOwn(Parcel(packet, shared));
  }

  // ---------- Logging in ----------

  predicate Hello(backend: Backend, p: Parcel) {
    backend.FitsItsWay(p) && p.bytes[0] == 0
  }

  predicate GoodPassword(m: Msg) {
    m.kind == PASSWORD && 4 + |m.body| <= PG_MAX_AUTH_TOKEN_LENGTH && PasswordOk(m.body)
  }

  lemma StartupAnswer(e: Engine, st: Flags, rest: seq<byte>)
    ensures StartupCall(e, st, rest, false)
         == CallEnd(Returned(Session(st.db, st.ignore), [PasswordRequest()], []),
                      st.(ready := false, auth := true), rest, false)
  {
    var none: seq<Msg> := [];
    assert [PasswordRequest()] + none == [PasswordRequest()] && none + none == none;
  }

  /** A startup packet is answered by the request for a password. One in a file stays in the
      receive buffer unread, at address 1 if the last request was read out of shared memory;
      then it lies clear of the send buffer exactly when it ends below it. Behind a shared
      request of n bytes, that is when it has at most n + 1 bytes. */
  method SayHello(backend: Backend, hello: Parcel) returns (reply: seq<byte>)
    requires backend.Idle() && Hello(backend, hello)
    modifies backend, backend.comm, backend.comm.mem
    ensures backend.Quiet() && !backend.comm.reading && reply == EncodeAll([PasswordRequest()])
    ensures backend.flags == old(backend.flags).(ready := false, auth := true)
    ensures if hello.shared then backend.Idle() && backend.Clear() else backend.comm.buffered == hello.bytes
    ensures !hello.shared ==>
      && backend.comm.recv == Receive(old(backend.comm.recv.base), 0, |hello.bytes|)
      && backend.comm.send.base == old(backend.comm.send.base) && backend.comm.send.ptr == 0
      && backend.comm.send.size == old(backend.comm.send.size)
    ensures !hello.shared && old(backend.comm.recv.base) == 1 ==>
              (backend.Clear() <==> |hello.bytes| < old(backend.comm.send.base))
  {
    ghost var e, st := backend.engine, backend.flags;
    ghost var rest := if hello.shared then [] else hello.bytes;
    StartupAnswer(e, st, rest);
    var exit;
    ghost var d, moves;
    exit, reply, d, moves := backend.Exchange(hello);
    StartupAside(e, st, d.place, rest, false);
  }

  /** The next call reads its own packet if and only if that comes in a file, too, or the
      startup packet lies at address 1 and is as long as it. Over shared memory it reads the
      startup packet again, with its own packet written over it where the two overlap. If
      that left nothing of the packet, it dispatches nothing and answers nothing: the process
      is gone, or will be with the next message it reads. */
  method StartupThen(backend: Backend, hello: seq<byte>, next: Parcel)
    returns (exit: Exit, reply: seq<byte>, ghost request: seq<byte>, ghost d: Destination, ghost moves: seq<Move>)
    requires backend.Idle() && Hello(backend, Parcel(hello, false))
    requires backend.FitsItsWay(next) && next.bytes[0] != 0
    modifies backend, backend.comm, backend.comm.mem
    ensures request != [] && (request == next.bytes <==>
              !next.shared || (old(backend.comm.recv.base) == 1 && |hello| == |next.bytes|))
    ensures next.shared ==> request == Mixed(hello, old(backend.comm.recv.base), next.bytes)
    ensures var st := old(backend.flags).(ready := false, auth := true);
            backend.Concluded(exit, st, false, next.bytes[0], request, d, moves)
    ensures next.shared && old(backend.comm.recv.base) != 1 && !old(backend.flags.ignore) ==>
              || exit == FatalRaised
              || (exit == Replied && backend.cmaWsize == 0 && backend.comm.reading && backend.flags.auth)
  {
    ghost var st := backend.flags.(ready := false, auth := true);
    ghost var base := backend.comm.recv.base;
    reply := SayHello(backend, Parcel(hello, false));
    request := backend.Pending(next.bytes, next.shared);
    if next.shared {
      RequestAfterHello(hello, base, next.bytes);
    }
    exit, reply, d, moves := backend.Exchange(next);
    if next.shared && base != 1 && !st.ignore {
      StaleCall(backend, exit, st, next.bytes[0], request, d, moves);
    }
  }

  /** What is read of a startup packet at address base and a packet written to address 1. */
  function Mixed(hello: seq<byte>, base: nat, packet: seq<byte>): seq<byte> {
    if base != 1 then hello
    else if |packet| <= |hello| then packet + hello[|packet|..]
    else packet[..|hello|]
  }

  lemma RequestAfterHello(hello: seq<byte>, base: nat, packet: seq<byte>)
    requires hello != [] && packet != [] && hello[0] == 0 != packet[0] && (base == 1 || |packet| < base)
    ensures Overlaid(hello, base, 1, packet) == Mixed(hello, base, packet)
    ensures Overlaid(hello, base, 1, packet) == packet <==> base == 1 && |hello| == |packet|
  {
    if base == 1 {
      OverlaidFront(hello, 1, packet);
      if |hello| == |packet| {
        assert packet + hello[|packet|..] == packet;
      }
    } else {
      OverlaidElsewhere(hello, base, 1, packet);
    }
  }

  /** A call of the loop or the password code on a startup packet. */
  lemma StaleCall(backend: Backend, exit: Exit, st: Flags, first: byte, request: seq<byte>, d: Destination,
                  moves: seq<Move>)
    requires request != [] && request[0] == 0 && first != 0 && !st.ignore && !st.ready && st.auth
    requires backend.Concluded(exit, st, false, first, request, d, moves)
    ensures || exit == FatalRaised
            || (exit == Replied && backend.cmaWsize == 0 && backend.comm.reading && backend.flags.auth)
  {
    var v := View(st, 0, LeadOf(d.place), request);
    var password := first == PASSWORD;
    assert st.(ready := false) == st;
    PathFirst(TurnOfCall(backend.engine, d.place, password), v, moves);
    StaleTurn(backend.engine, d.place, password, v, moves[0]);
    TotalsOfOne(moves);
    var none: seq<Msg> := [];
    assert none + none == none;
  }

  /** A call on shared memory that reads its own packet leaves what it did not read clear of
      the send buffer. */
  lemma ClearAfterShared(backend: Backend, exit: Exit, st: Flags, packet: seq<byte>, d: Destination, moves: seq<Move>)
    requires packet != [] && |packet| + 2 <= backend.comm.cma && d.place == BehindRequest(backend.comm.cma, |packet|)
    requires backend.Concluded(exit, st, false, packet[0], packet, d, moves) && exit == Replied
    ensures backend.Clear()
  {
  }

  /** A simple Query of one byte. */
  const SMALL_QUERY: Msg := Msg(QUERY, [0])

  /** A reply that is read back as a message. After a shared request of 5 bytes, a startup in
      a file lies under the send buffer at address 7. A shared Query of 6 bytes is read from
      address 1; the ReadyForQuery for it is written to address 7, and the next turn takes
      it for the next message: its type is unknown, and the process is gone. */
  method ReadsItsOwnReply(backend: Backend, hello: seq<byte>) returns (exit: Exit, ghost moves: seq<Move>)
    requires backend.Idle() && Hello(backend, Parcel(hello, false)) && |hello| >= 12
    requires backend.comm.recv.base == 1 && backend.comm.send.base == 7 && backend.comm.send.size >= 6
    requires backend.FitsItsWay(Parcel(Encode(SMALL_QUERY), true)) && !backend.flags.ignore
    requires var o := Handle(backend.engine, backend.flags.db, SMALL_QUERY); o.Done? && o.out == []
    modifies backend, backend.comm, backend.comm.mem
    ensures exit == FatalRaised && |moves| == 2
    ensures var e := backend.engine;
            moves[0].out == [ReadyForQuery(e, Handle(e, old(backend.flags.db), SMALL_QUERY).db)]
    ensures moves[1].taken == [Message(moves[0].out[0])]
  {
    var query := Encode(SMALL_QUERY);
    ghost var e, st := backend.engine, backend.flags.(ready := false, auth := true);
    var reply := SayHello(backend, Parcel(hello, false));
    RequestAfterHello(hello, 1, query);
    ghost var d;
    exit, reply, d, moves := backend.Exchange(Parcel(query, true));
    OwnReplyPath(e, d.place, st, hello[6..], moves);
  }

  /** What the turn of the Query leaves: the ReadyForQuery is on the six bytes behind it. */
  function BehindQuery(e: Engine, st: Flags, rest: seq<byte>): View
    requires |rest| >= 6
  {
    var db := Handle(e, st.db, SMALL_QUERY).db;
    View(st.(db := db, ready := false, extended := false), 0, 6, Encode(ReadyForQuery(e, db)) + rest[6..])
  }

  lemma QueryTurn(e: Engine, place: Place, st: Flags, rest: seq<byte>, m: Move)
    requires |rest| >= 6 && !st.ignore && !st.ready
    requires place.InMemory? && place.size >= 6 && place.end == place.base + |rest|
    requires var o := Handle(e, st.db, SMALL_QUERY); o.Done? && o.out == []
    requires LoopMove(e, place, View(st, 0, 0, Encode(SMALL_QUERY) + rest), m)
    ensures m.jump == FallThrough && m.next == BehindQuery(e, st, rest)
    ensures m.out == [ReadyForQuery(e, Handle(e, st.db, SMALL_QUERY).db)]
  {
    var z := ReadyForQuery(e, Handle(e, st.db, SMALL_QUERY).db);
    NextInputOfEncode(SMALL_QUERY, rest);
    assert [] + [z] == [z] && EncodeAll([z]) == Encode(z) + [] == Encode(z);
    ReplyInFront(place, rest, Encode(z));
  }

  /** A turn that takes a ReadyForQuery for a message. */
  lemma ReplyTurn(e: Engine, place: Place, v: View, z: Msg, rest: seq<byte>, m: Move)
    requires v.unread == Encode(z) + rest && z.kind == READY_FOR_QUERY && !v.st.ignore && LoopMove(e, place, v, m)
    ensures m.jump == Dead && m.taken == [Message(z)]
  {
    NextInputOfEncode(z, rest);
  }

  /** The turns of that call. */
  lemma OwnReplyPath(e: Engine, place: Place, st: Flags, rest: seq<byte>, moves: seq<Move>)
    requires |rest| >= 6 && !st.ignore && !st.ready
    requires place.InMemory? && place.size >= 6 && place.end == place.base + |rest|
    requires var o := Handle(e, st.db, SMALL_QUERY); o.Done? && o.out == []
    requires Path(e, place, false, View(st, 0, 0, Encode(SMALL_QUERY) + rest), moves)
    ensures |moves| == 2 && EndOf(e, place, moves).r == Fatal
    ensures moves[0].out == [ReadyForQuery(e, Handle(e, st.db, SMALL_QUERY).db)]
    ensures moves[1].taken == [Message(moves[0].out[0])]
  {
    var turn, v := TurnOfCall(e, place, false), View(st, 0, 0, Encode(SMALL_QUERY) + rest);
    var v' := BehindQuery(e, st, rest);
    var z := ReadyForQuery(e, Handle(e, st.db, SMALL_QUERY).db);
    forall m | turn(v, m) ensures m.jump == FallThrough && m.next == v' && m.out == [z] {
      QueryTurn(e, place, st, rest, m);
    }
    forall m | turn(v', m) ensures m.jump == Dead && m.taken == [Message(z)] {
      ReplyTurn(e, place, v', z, rest[6..], m);
    }
    TwoTurns(turn, v, v', Dead, moves);
  }

  lemma ReplyInFront(place: Place, rest: seq<byte>, z: seq<byte>)
    requires place.InMemory? && |z| <= place.size && |z| <= |rest| && place.end == place.base + |rest|
    ensures Seen(rest, place, 0, z) == z + rest[|z|..]
  {
    assert z[..|z|] == z;
    OverlaidFront(rest, place.base, z);
  }

  /** A password message in front of a request is taken. */
  lemma PasswordTaken(e: Engine, place: Place, st: Flags, password: Msg, rest: seq<byte>, moves: seq<Move>)
    requires GoodPassword(password) && !st.ready
    requires Path(e, place, true, View(st, 0, LeadOf(place), Encode(password) + rest), moves)
    ensures var h := EndOf(e, place, moves);
            && h.r == Returned(Session(st.db, false), Welcome(e, st.db) + [ReadyForQuery(e, st.db)], [])
            && h.st == st.(ignore := false, auth := false) && !h.torn && |h.rest| == |rest|
  {
    var v := View(st, 0, LeadOf(place), Encode(password) + rest);
    NextInputOfEncode(password, rest);
    PathFirst(TurnOfCall(e, place, true), v, moves);
    TotalsOfOne(moves);
    var none: seq<Msg> := [];
    assert none + none == none;
  }

  /** One that is cut short is NULL for the code, which passes it to pfree. */
  lemma CutPassword(password: Msg, k: nat)
    requires GoodPassword(password) && 0 < k < |Encode(password)|
    ensures ReceivePassword(Encode(password)[..k]).0 == Null
  {
    var s, n := Encode(password), 4 + |password.body|;
    var cut := s[..k][1..];
    assert s[0] == PASSWORD && cut == s[1..k];
    if k > 4 {
      assert s[1..5] == Int32(n) && cut[..4] == s[1..5];
      Int32RoundTrip(n);
    }
  }

  lemma PasswordCut(e: Engine, place: Place, st: Flags, password: Msg, k: nat, moves: seq<Move>)
    requires GoodPassword(password) && 0 < k < |Encode(password)|
    requires Path(e, place, true, View(st, 0, LeadOf(place), Encode(password)[..k]), moves)
    ensures EndOf(e, place, moves).r == Trapped
  {
    CutPassword(password, k);
    PathFirst(TurnOfCall(e, place, true), View(st, 0, LeadOf(place), Encode(password)[..k]), moves);
    assert |moves| == 1;
  }

  /** The second packet of a login, from a state that reads the password and then rest. The
      reply is read back if the send buffer is where the host looks. */
  method SubmitPassword(backend: Backend, password: Msg, shared: bool, ghost rest: seq<byte>)
    returns (exit: Exit, reply: seq<byte>)
    requires backend.Quiet() && !backend.comm.reading && backend.flags.auth && !backend.flags.ready
    requires GoodPassword(password) && backend.FitsItsWay(Parcel(Encode(password), shared))
    requires backend.Pending(Encode(password), shared) == Encode(password) + rest
    modifies backend, backend.comm, backend.comm.mem
    ensures exit == Replied && backend.Quiet() && !backend.comm.reading && |backend.comm.buffered| == |rest|
    ensures backend.flags == old(backend.flags).(ignore := false, auth := false)
    ensures var e, db := backend.engine, old(backend.flags.db);
            var send, n := old(backend.comm.send), |Encode(password)|;
            !shared || old(backend.Idle()) || (send.ptr == 0 && send.base == n + 2) ==>
              reply == EncodeAll(Welcome(e, db) + [ReadyForQuery(e, db)])
  {
    ghost var e, st := backend.engine, backend.flags;
    assert st.(ready := false) == st;
    ghost var d, moves;
    exit, reply, d, moves := backend.Exchange(Parcel(Encode(password), shared));
    PasswordTaken(e, d.place, st, password, rest, moves);
  }

  /** A password that the call cannot take: it reads a startup packet, or is cut short. */
  method LosePassword(backend: Backend, password: Msg, ghost cut: bool) returns (exit: Exit, reply: seq<byte>)
    requires backend.Quiet() && !backend.comm.reading && backend.flags.auth && !backend.flags.ready
    requires GoodPassword(password) && backend.FitsItsWay(Parcel(Encode(password), true))
    requires var request := backend.Pending(Encode(password), true);
             if cut then 0 < |request| < |Encode(password)| && request == Encode(password)[..|request|]
             else request != [] && request[0] == 0
    modifies backend, backend.comm, backend.comm.mem
    ensures exit == if cut then TrapRaised else FatalRaised
  {
    ghost var e, st, request := backend.engine, backend.flags, backend.Pending(Encode(password), true);
    assert st.(ready := false) == st;
    ghost var d, moves;
    exit, reply, d, moves := backend.Exchange(Parcel(Encode(password), true));
    if cut {
      PasswordCut(e, d.place, st, password, |request|, moves);
    } else {
      PathFirst(TurnOfCall(e, d.place, true), View(st, 0, LeadOf(d.place), request), moves);
      assert moves[0].jump == Dead && |moves| == 1;
    }
  }

  /** s is the number n as a big-endian Int32. */
  predicate Spells(s: seq<byte>, n: int) {
    |s| == 4 && ((s[0] as int * 256 + s[1] as int) * 256 + s[2] as int) * 256 + s[3] as int == n
  }

  /** The reply to a password, byte by byte: R with 0, the parameters, K with the process id
      and then the key, and Z with the status. */
  predicate WelcomeReply(e: Engine, db: Db, s: seq<byte>) {
    var greeting := EncodeAll(e.greeting(db));
    var n := 9 + |greeting|;
    && |s| == n + 19
    && s[..9] == [82, 0, 0, 0, 8, 0, 0, 0, 0] && s[9..n] == greeting
    && s[n..n + 5] == [75, 0, 0, 0, 12] && Spells(s[n + 5..n + 9], e.pid) && Spells(s[n + 9..n + 13], e.key)
    && s[n + 13..] == [90, 0, 0, 0, 5, e.status(db)]
  }

  /** The replies to both packets of a login: R with 5 and the salt comes first. */
  predicate LoginReply(e: Engine, db: Db, s: seq<byte>) {
    && |s| >= 13 && s[..13] == [82, 0, 0, 0, 12, 0, 0, 0, 5, 0x01, 0x23, 0x45, 0x56]
    && WelcomeReply(e, db, s[13..])
  }

  lemma Int32Spells(n: Word)
    ensures Spells(Int32(n), n)
  {
    Int32RoundTrip(n);
  }

  lemma RequestInBytes()
    ensures EncodeAll([PasswordRequest()]) == [82, 0, 0, 0, 12, 0, 0, 0, 5, 0x01, 0x23, 0x45, 0x56]
  {
    assert EncodeAll([PasswordRequest()]) == Encode(PasswordRequest());
  }

  lemma KeyInBytes(pid: Word, key: Word)
    ensures var s := Encode(Msg(BACKEND_KEY_DATA, Int32(pid) + Int32(key)));
            |s| == 13 && s[..5] == [75, 0, 0, 0, 12] && Spells(s[5..9], pid) && Spells(s[9..], key)
  {
    var s := Encode(Msg(BACKEND_KEY_DATA, Int32(pid) + Int32(key)));
    Int32Spells(pid);
    Int32Spells(key);
    assert s[5..9] == Int32(pid) && s[9..] == Int32(key);
  }

  lemma ReadyInBytes(e: Engine, db: Db)
    ensures Encode(ReadyForQuery(e, db)) == [90, 0, 0, 0, 5, e.status(db)]
  {
  }

  lemma OkInBytes()
    ensures Encode(Msg(AUTHENTICATION, Int32(AUTH_REQ_OK))) == [82, 0, 0, 0, 8, 0, 0, 0, 0]
  {
  }

  lemma WelcomeInBytes(e: Engine, db: Db)
    ensures WelcomeReply(e, db, EncodeAll(Welcome(e, db) + [ReadyForQuery(e, db)]))
  {
    var ok, key := Msg(AUTHENTICATION, Int32(AUTH_REQ_OK)), Msg(BACKEND_KEY_DATA, Int32(e.pid) + Int32(e.key));
    EncodedInFour(ok, e.greeting(db), key, ReadyForQuery(e, db));
    KeyInBytes(e.pid, e.key);
    OkInBytes();
    ReadyInBytes(e, db);
    BytesOfWelcome(e, db, Encode(ok), Encode(key), Encode(ReadyForQuery(e, db)));
  }

  lemma EncodedInFour(first: Msg, ms: seq<Msg>, key: Msg, z: Msg)
    ensures EncodeAll([first] + ms + [key] + [z]) == Encode(first) + EncodeAll(ms) + Encode(key) + Encode(z)
  {
    EncodeAllAppend([first] + ms + [key], [z]);
    EncodeAllAppend([first] + ms, [key]);
    EncodeAllAppend([first], ms);
    OneFrame(first);
    OneFrame(key);
    OneFrame(z);
  }

  lemma OneFrame(m: Msg)
    ensures EncodeAll([m]) == Encode(m)
  {
    assert EncodeAll([m]) == Encode(m) + [];
  }

  lemma BytesOfWelcome(e: Engine, db: Db, ok: seq<byte>, key: seq<byte>, z: seq<byte>)
    requires ok == [82, 0, 0, 0, 8, 0, 0, 0, 0] && z == [90, 0, 0, 0, 5, e.status(db)]
    requires |key| == 13 && key[..5] == [75, 0, 0, 0, 12] && Spells(key[5..9], e.pid) && Spells(key[9..], e.key)
    ensures WelcomeReply(e, db, ok + EncodeAll(e.greeting(db)) + key + z)
  {
    var greeting := EncodeAll(e.greeting(db));
    var n, s := 9 + |greeting|, ok + greeting + key + z;
    assert s[n..n + 13] == key;
    assert s[n..n + 5] == key[..5] && s[n + 5..n + 9] == key[5..9] && s[n + 9..n + 13] == key[9..];
  }

  /** A call on one message of type p, from an idle state, whatever it holds. The text must
      be one string that is not empty, up to its NUL; then the client is welcome, and not
      checked further. Else, over shared memory, the error is reported: it starts a skip
      where a stale flag says that the last message was an extended-query one, and only a
      client that is not authenticating hears a ReadyForQuery. In a file the error has no
      place to go to, and a message that is too long is NULL for the code: neither is
      survived. */
  method TryPassword(backend: Backend, text: Body, shared: bool) returns (exit: Exit, reply: seq<byte>)
    requires backend.Idle() && backend.FitsItsWay(Parcel(Encode(Msg(112, text)), shared))
    modifies backend, backend.comm, backend.comm.mem
    ensures var e, st := backend.engine, old(backend.flags);
            var good := |text| >= 2 && text[|text| - 1] == 0 && 0 !in text[..|text| - 1];
            var skips, db := st.ignore || st.extended, e.abort(st.db);
            if |text| > 65531 || (!good && !shared) then exit == TrapRaised
            else
              && exit == Replied && backend.Idle()
              && if good then
                   && backend.flags == st.(ready := false, ignore := false, auth := false)
                   && WelcomeReply(e, st.db, reply)
                 else
                   && backend.flags.db == db && backend.flags.ignore == skips && backend.flags.auth == st.auth
                   && reply == Encode(Msg(69, e.complaint(st.db, Msg(112, text))))
                               + if skips || st.auth then [] else [90, 0, 0, 0, 5, e.status(db)]
  {
    ghost var e, st := backend.engine, backend.flags;
    exit, reply := backend.ExchangePassword(Parcel(Encode(Msg(112, text)), shared));
    OnePasswordInBytes(e, st.(ready := false), text, shared);
  }

  lemma RefusalInBytes(e: Engine, refusal: Msg, db: Db)
    ensures EncodeAll([refusal] + []) == Encode(refusal)
    ensures EncodeAll([refusal] + [Msg(90, [e.status(db)])]) == Encode(refusal) + [90, 0, 0, 0, 5, e.status(db)]
  {
    assert [refusal] + [] == [refusal];
    OneFrame(refusal);
    EncodeAllAppend([refusal], [Msg(90, [e.status(db)])]);
    ReadyInBytes(e, db);
    OneFrame(Msg(90, [e.status(db)]));
  }

  /** The functional call on one password. */
  lemma OnePassword(e: Engine, st: Flags, text: Body, shared: bool)
    requires !st.ready
    ensures var good := |text| >= 2 && text[|text| - 1] == 0 && 0 !in text[..|text| - 1];
            var skips, db, m := st.ignore || st.extended, e.abort(st.db), Msg(112, text);
            PasswordCall(e, st, 0, Encode(m), shared) ==
            if |text| > 65531 || (!good && !shared) then Gone(Trapped, st)
            else if good then
              CallEnd(Returned(Session(st.db, false), Welcome(e, st.db) + [ReadyForQuery(e, st.db)], []),
                      st.(ignore := false, auth := false), [], false)
            else
              var z := if skips || st.auth then [] else [Msg(90, [e.status(db)])];
              CallEnd(Returned(Session(db, skips), [Msg(69, e.complaint(st.db, m))] + z, []),
                      st.(db := db, ignore := skips, ready := !skips && st.auth), [], false)
  {
    var m := Msg(112, text);
    NextInputOfEncode(m, []);
    assert Encode(m) + [] == Encode(m);
    assert PasswordOk(text) <==> |text| >= 2 && text[|text| - 1] == 0 && 0 !in text[..|text| - 1];
    var none: seq<Msg> := [];
    assert none + none == none;
  }

  lemma OnePasswordInBytes(e: Engine, st: Flags, text: Body, shared: bool)
    requires !st.ready
    ensures var good := |text| >= 2 && text[|text| - 1] == 0 && 0 !in text[..|text| - 1];
            var skips, db, m := st.ignore || st.extended, e.abort(st.db), Msg(112, text);
            var h := PasswordCall(e, st, 0, Encode(m), shared);
            if |text| > 65531 || (!good && !shared) then h.r == Trapped
            else
              && h.r.Returned? && h.rest == [] && !h.torn
              && if good then
                   && h.st == st.(ignore := false, auth := false)
                   && WelcomeReply(e, st.db, EncodeAll(h.r.out))
                 else
                   && h.st.db == db && h.st.ignore == skips && h.st.auth == st.auth
                   && EncodeAll(h.r.out) == Encode(Msg(69, e.complaint(st.db, m)))
                               + if skips || st.auth then [] else [90, 0, 0, 0, 5, e.status(db)]
  {
    OnePassword(e, st, text, shared);
    WelcomeInBytes(e, st.db);
    RefusalInBytes(e, Msg(69, e.complaint(st.db, Msg(112, text))), e.abort(st.db));
  }

  /** The two packets of a login. It succeeds if and only if the second call reads the whole
      password: unless that comes over shared memory after a startup in a file, and the
      startup packet is not at address 1 or is shorter than the password. */
  method Login(backend: Backend, hello: Parcel, password: Msg, shared: bool) returns (exit: Exit, replies: seq<byte>)
    requires backend.Idle() && Hello(backend, hello)
    requires GoodPassword(password) && backend.FitsItsWay(Parcel(Encode(password), shared))
    modifies backend, backend.comm, backend.comm.mem
    ensures exit == if hello.shared || !shared then Replied
                    else if old(backend.comm.recv.base) != 1 then FatalRaised
                    else if |Encode(password)| <= |hello.bytes| then Replied
                    else TrapRaised
    ensures exit == Replied ==>
              && Session(backend.flags.db, backend.flags.ignore) == Session(old(backend.flags.db), false)
              && !backend.flags.auth && backend.Quiet() && !backend.comm.reading
              && (backend.Idle() <==> hello.shared || !shared || |Encode(password)| == |hello.bytes|)
    ensures var e, db := backend.engine, old(backend.flags.db);
            exit == Replied && (hello.shared || !shared || old(backend.comm.send.base) == |Encode(password)| + 2) ==>
              LoginReply(e, db, replies)
  {
    ghost var e, db, base := backend.engine, backend.flags.db, backend.comm.recv.base;
    var packet := Encode(password);
    RequestInBytes();
    WelcomeInBytes(e, db);
    var first := SayHello(backend, hello);
    if hello.shared || !shared {
      assert packet + [] == packet;
      exit, replies := SubmitPassword(backend, password, shared, []);
    } else {
      RequestAfterHello(hello.bytes, base, packet);
      if backend.comm.recv.base == 1 && |packet| <= |hello.bytes| {
        exit, replies := SubmitPassword(backend, password, shared, hello.bytes[|packet|..]);
      } else {
        exit, replies := LosePassword(backend, password, base == 1);
      }
    }
    replies := first + replies;
  }

  /** A whole connection from its first packet on, whatever session the last one left: what
      the client reads is the request for a password, the welcome with the first
      ReadyForQuery, and then the protocol on its messages, over either way. */
  method Connect(backend: Backend, hello: Parcel, password: Msg, byMemory: bool, ps: seq<seq<Msg>>, shared: seq<bool>)
    returns (exit: Exit, replies: seq<byte>)
    requires backend.Idle() && Hello(backend, hello) && (hello.shared || !byMemory)
    requires GoodPassword(password) && backend.FitsItsWay(Parcel(Encode(password), byMemory))
    requires Fits(backend, ps, shared)
    requires EachPacketBatches(backend.engine, Session(backend.flags.db, false), ps)
    modifies backend, backend.comm, backend.comm.mem
    ensures var e, db := backend.engine, old(backend.flags.db);
            var p := Protocol(e, Session(db, false), Concat(ps));
            var n := 41 + |EncodeAll(e.greeting(db))|;
            && exit == Replied
            && |replies| >= n && LoginReply(e, db, replies[..n]) && replies[n..] == EncodeAll(p.out)
            && Session(backend.flags.db, backend.flags.ignore) == p.s && !backend.flags.auth && backend.Idle()
  {
    var first, more;
    exit, first := Login(backend, hello, password, byMemory);
    exit, more := RunMessages(backend, ps, shared);
    replies := first + more;
  }
}
