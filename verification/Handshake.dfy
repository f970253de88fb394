/** The handshake: startup and password packets, which interactive_one() answers without
    the message switch, and what the loop does while a client authenticates. */
module Handshake {
  import opened Messages
  import opened Sequences
  import opened SqlEngine
  import opened WireLoop
  import opened ProtocolLaws

  const PG_MAX_AUTH_TOKEN_LENGTH: nat := 65535
  const AUTH_REQ_MD5: nat := 5
  const AUTH_REQ_OK: nat := 0
  const MD5_SALT: seq<byte> := [0x01, 0x23, 0x45, 0x56]

  /** How the call ends, the flags it leaves behind, the bytes it leaves unread, and
      whether pq_startmsgread was entered without reading a message to its end. */
  datatype CallEnd = CallEnd(r: CallResult, st: Flags, rest: seq<byte>, torn: bool)

  /** The handshake code jumps to wire_flush. */
  function Answered(e: Engine, st: Flags, out: seq<Msg>, rest: seq<byte>, torn: bool): CallEnd {
    CallEnd(Prepend(out, [], Finish(e, st)), AfterFlush(st), rest, torn)
  }

  function Gone(r: CallResult, st: Flags): CallEnd {
    CallEnd(r, st, [], false)
  }

  function PasswordRequest(): Msg {
    Msg(AUTHENTICATION, Int32(AUTH_REQ_MD5) + MD5_SALT)
  }

  /** startup_auth() and wire_flush. ProcessStartupPacket is a stub that accepts without
      reading, so rest and torn are what the call found, less what discard_input took. */
  function StartupCall(e: Engine, st: Flags, rest: seq<byte>, torn: bool): CallEnd {
    Answered(e, st.(ready := false, auth := true), [PasswordRequest()], rest, torn)
  }

  /** discard_input: count bytes of a shared request. */
  function Discarded(s: seq<byte>, count: nat): seq<byte> {
    if count >= |s| then [] else s[count..]
  }

  /** A password message holds one string that is not empty, up to its NUL. */
  predicate PasswordOk(body: Body) {
    |body| >= 2 && body[|body| - 1] == 0 && forall i :: 0 <= i < |body| - 1 ==> body[i] != 0
  }

  function Welcome(e: Engine, db: Db): seq<Msg> {
    [Msg(AUTHENTICATION, Int32(AUTH_REQ_OK))] + e.greeting(db) + [Msg(BACKEND_KEY_DATA, Int32(e.pid) + Int32(e.key))]
  }

  function Welcomed(st: Flags): Flags {
    st.(auth := false, ready := true, ignore := false)
  }

  function Before(out: seq<Msg>, h: CallEnd): CallEnd {
    h.(r := Prepend(out, [], h.r))
  }

  /** What recv_password_packet finds: a password, a message whose checks raise an error,
      NULL for one it cannot read, or a message of another type. */
  datatype Received = Good | Bad(m: Msg) | Null | Foreign

  function ReceivePassword(s: seq<byte>): (r: (Received, seq<byte>))
    requires s != []
    ensures |r.1| < |s|
  {
    if s[0] != PASSWORD then (Foreign, s[1..])
    else
      match NextInput(s)
      case (Eof(_), rest) => (Null, rest)
      case (Message(m), rest) =>
        if 4 + |m.body| > PG_MAX_AUTH_TOKEN_LENGTH then (Null, rest)
        else if PasswordOk(m.body) then (Good, rest)
        else (Bad(m), rest)
  }

  /** One turn of startup_pass: it ends the call, or sends out and goes back to incoming. */
  datatype PasswordTurn = Stop(h: CallEnd) | More(out: seq<Msg>, st: Flags, rest: seq<byte>)

  /** startup_pass() for one message. The error of a foreign message is raised inside the
      message, so clear_error makes it FATAL; NULL goes to pfree. A file is read before the
      call has set a place to jump to, so an error there has none. */
  function PassOnce(e: Engine, st: Flags, canary: nat, s: seq<byte>, shared: bool): (r: PasswordTurn)
    requires s != []
    ensures r.More? ==> r.rest != [] && |r.rest| < |s|
  {
    match ReceivePassword(s)
    case (Foreign, _) => Stop(Gone(Fatal, st))
    case (Null, _) => Stop(Gone(Trapped, st))
    case (Good, rest) => Stop(Answered(e, Welcomed(st), Welcome(e, st.db), rest, false))
    case (Bad(m), rest) =>
      if !shared then Stop(Gone(Trapped, st))
      else
        var o := Rejected(e, st.db, m);
        var st' := ClearError(st, o.db);
        if rest == [] then Stop(Answered(e, st', o.out, [], false))
        else if canary >= MAX_RECOVERIES then Stop(Gone(Aborted, st'))
        else More(o.out, st', rest)
  }

  /** The loop where the request is a password: startup_pass, the error recovery that comes
      back to it, and wire_flush. */
  function PasswordCall(e: Engine, st: Flags, canary: nat, s: seq<byte>, shared: bool): CallEnd
    requires s != []
    decreases |s|
  {
    match PassOnce(e, st, canary, s, shared)
    case Stop(h) => h
    case More(out, st', rest) => Before(out, PasswordCall(e, st', canary + 1, rest, shared))
  }

  /** The jump at the end of a turn, with what was sent, the flags and the bytes left. */
  predicate JumpsAs(turn: PasswordTurn, e: Engine, canary: nat, jump: Jump, out: seq<Msg>, st: Flags, canary': nat,
                    rest: seq<byte>, torn: bool) {
    match jump
    case FallThrough => turn == More(out, st, rest) && canary' == canary + 1
    case ToFlush => turn == Stop(Answered(e, st, out, rest, torn))
    case Abort => turn.Stop? && turn.h.r == Aborted
    case Trap => turn.Stop? && turn.h.r == Trapped
    case _ => turn.Stop? && turn.h.r == Fatal
  }

  /** In the middle of a call: what was sent so far, and from where the rest follows. */
  predicate Midway(h: CallEnd, e: Engine, out: seq<Msg>, st: Flags, canary: nat, rest: seq<byte>, shared: bool) {
    rest != [] && h == Before(out, PasswordCall(e, st, canary, rest, shared))
  }

  /** How a call h of the password code that sends out goes on after a jump. */
  predicate LeadsTo(h: CallEnd, e: Engine, jump: Jump, out: seq<Msg>, st: Flags, canary: nat, rest: seq<byte>,
                  torn: bool, shared: bool) {
    match jump
    case FallThrough => Midway(h, e, out, st, canary, rest, shared)
    case ToFlush => h == Answered(e, st, out, rest, torn)
    case Abort => h.r == Aborted
    case Trap => h.r == Trapped
    case _ => h.r == Fatal
  }

  lemma MidwayByTurn(h: CallEnd, e: Engine, sent: seq<Msg>, st: Flags, canary: nat, s: seq<byte>,
      shared: bool, jump: Jump, out: seq<Msg>, st': Flags, canary': nat, rest: seq<byte>, torn: bool)
    requires Midway(h, e, sent, st, canary, s, shared)
    requires JumpsAs(PassOnce(e, st, canary, s, shared), e, canary, jump, out, st', canary', rest, torn)
    ensures LeadsTo(h, e, jump, sent + out, st', canary', rest, torn, shared)
  {
    match jump
    case FallThrough => BeforeBefore(sent, out, PasswordCall(e, st', canary', rest, shared));
    case ToFlush => AnsweredBehind(e, st', sent, out, rest, torn);
    case _ =>
  }

  lemma AnsweredBehind(e: Engine, st: Flags, a: seq<Msg>, b: seq<Msg>, rest: seq<byte>, torn: bool)
    ensures Before(a, Answered(e, st, b, rest, torn)) == Answered(e, st, a + b, rest, torn)
  {
    PrependPrepend(a, b, [], [], Finish(e, st));
  }

  predicate IsHandshake(packet: seq<byte>) {
    packet != [] && packet[0] in {0, PASSWORD}
  }

  // ---------- Passwords ----------

  predicate Passwords(ms: seq<Msg>) {
    forall m :: m in ms ==> m.kind == PASSWORD && 4 + |m.body| <= PG_MAX_AUTH_TOKEN_LENGTH
  }

  predicate AllBad(ms: seq<Msg>) {
    forall m :: m in ms ==> !PasswordOk(m.body)
  }

  /** What the errors of bad password messages do to the flags, and what they send: one
      ErrorResponse each. */
  function Rejections(e: Engine, st: Flags, bad: seq<Msg>): (Flags, seq<Msg>)
    decreases |bad|
  {
    if bad == [] then (st, [])
    else
      var o := Rejected(e, st.db, bad[0]);
      var (st', out) := Rejections(e, ClearError(st, o.db), bad[1..]);
      (st', o.out + out)
  }

  /** Every bad password is reported by one ErrorResponse. */
  lemma {:induction false} EachIsReported(e: Engine, st: Flags, bad: seq<Msg>)
    ensures var out := Rejections(e, st, bad).1;
            |out| == |bad| && forall m :: m in out ==> m.kind == ERROR_RESPONSE
    decreases |bad|
  {
    if bad != [] {
      EachIsReported(e, ClearError(st, Rejected(e, st.db, bad[0]).db), bad[1..]);
    }
  }

  lemma PasswordStep(e: Engine, st: Flags, canary: nat, m: Msg, behind: seq<byte>)
    requires Passwords([m])
    ensures var o := Rejected(e, st.db, m);
            var st' := ClearError(st, o.db);
            PasswordCall(e, st, canary, Encode(m) + behind, true) ==
            if PasswordOk(m.body) then Answered(e, Welcomed(st), Welcome(e, st.db), behind, false)
            else if behind == [] then Answered(e, st', o.out, [], false)
            else if canary >= MAX_RECOVERIES then Gone(Aborted, st')
            else Before(o.out, PasswordCall(e, st', canary + 1, behind, true))
  {
    assert m in [m];
    NextInputOfEncode(m, behind);
  }

  lemma BeforeBefore(a: seq<Msg>, b: seq<Msg>, h: CallEnd)
    ensures Before(a, Before(b, h)) == Before(a + b, h)
    ensures Before([], h) == h
  {
    PrependPrepend(a, b, [], [], h.r);
    PrependNothing(h.r);
  }

  /** The result h of errors that send out, count up to end and are followed by last: the
      tenth one with data behind it aborts. */
  predicate Reported(end: nat, out: seq<Msg>, h: CallEnd, last: CallEnd) {
    if end > MAX_RECOVERIES then h.r == Aborted else h == Before(out, last)
  }

  /** A packet of bad passwords with other bytes behind it, from a given turn on. */
  function Front(e: Engine, st: Flags, canary: nat, bad: seq<Msg>, behind: seq<byte>): CallEnd
    requires behind != []
  {
    PasswordCall(e, st, canary, EncodeAll(bad) + behind, true)
  }

  lemma FrontStep(e: Engine, st: Flags, canary: nat, end: nat, bad: seq<Msg>, behind: seq<byte>, out: seq<Msg>,
                  last: CallEnd)
    requires bad != [] && Passwords([bad[0]]) && !PasswordOk(bad[0].body) && behind != []
    requires canary < end && canary <= MAX_RECOVERIES
    requires var next := ClearError(st, Rejected(e, st.db, bad[0]).db);
             canary < MAX_RECOVERIES ==> Reported(end, out, Front(e, next, canary + 1, bad[1..], behind), last)
    ensures Reported(end, Rejected(e, st.db, bad[0]).out + out, Front(e, st, canary, bad, behind), last)
  {
    var more := EncodeAll(bad[1..]) + behind;
    assert EncodeAll(bad) + behind == Encode(bad[0]) + more && more != [];
    PasswordStep(e, st, canary, bad[0], more);
    BeforeBefore(Rejected(e, st.db, bad[0]).out, out, last);
  }

  /** Bad passwords in front of a packet, whatever follows them. */
  lemma {:induction false} BadPasswordsInFront(e: Engine, st: Flags, canary: nat, end: nat, bad: seq<Msg>,
                                               behind: seq<byte>)
    requires Passwords(bad) && AllBad(bad) && behind != [] && canary <= MAX_RECOVERIES && end == canary + |bad|
    ensures var r := Rejections(e, st, bad);
            Reported(end, r.1, Front(e, st, canary, bad, behind), Front(e, r.0, end, [], behind))
    decreases |bad|
  {
    if bad == [] {
      BeforeBefore([], [], Front(e, st, canary, bad, behind));
    } else {
      var o := Rejected(e, st.db, bad[0]);
      var next, rest := ClearError(st, o.db), bad[1..];
      assert bad[0] in bad && Passwords(rest) && AllBad(rest);
      var r := Rejections(e, next, rest);
      var last := Front(e, r.0, end, [], behind);
      if canary < MAX_RECOVERIES {
        BadPasswordsInFront(e, next, canary + 1, end, rest, behind);
      }
      FrontStep(e, st, canary, end, bad, behind, r.1, last);
      assert Rejections(e, st, bad) == (r.0, o.out + r.1);
    }
  }

  /** Password packets sent one per call. */
  function PasswordCalls(e: Engine, st: Flags, ms: seq<Msg>): CallEnd
    requires Passwords(ms) && ms != []
    decreases |ms|
  {
    assert ms[0] in ms;
    var h := PasswordCall(e, st.(ready := false), 0, Encode(ms[0]), true);
    if |ms| == 1 || !h.r.Returned? then h else Before(h.r.out, PasswordCalls(e, h.st, ms[1..]))
  }

  lemma {:induction false} RetryCalls(e: Engine, st: Flags, bad: seq<Msg>, good: Msg)
    requires Passwords(bad) && AllBad(bad) && Passwords([good]) && PasswordOk(good.body) && st.auth
    requires Passwords(bad + [good])
    ensures var (st', out) := Rejections(e, st, bad);
            PasswordCalls(e, st, bad + [good]) == Before(out, Answered(e, Welcomed(st'), Welcome(e, st'.db), [], false))
    decreases |bad|
  {
    var ms := bad + [good];
    var m := ms[0];
    assert m in ms && Encode(m) + [] == Encode(m);
    PasswordStep(e, st.(ready := false), 0, m, []);
    if bad == [] {
      BeforeBefore([], [], Answered(e, Welcomed(st), Welcome(e, st.db), [], false));
    } else {
      var o := Rejected(e, st.db, m);
      var st' := ClearError(st.(ready := false), o.db);
      assert ms[1..] == bad[1..] + [good];
      assert m in bad && Passwords(bad[1..]) && AllBad(bad[1..]);
      RetryCalls(e, st', bad[1..], good);
      ReadyIsNoMatter(e, ClearError(st, o.db), st'.ready, bad[1..]);
      assert o.out + [] == o.out;
      var (st'', out) := Rejections(e, st', bad[1..]);
      BeforeBefore(o.out, out, Answered(e, Welcomed(st''), Welcome(e, st''.db), [], false));
    }
  }

  lemma {:induction false} ReadyIsNoMatter(e: Engine, st: Flags, ready: bool, bad: seq<Msg>)
    ensures var (st', out) := Rejections(e, st, bad);
            var (st'', out') := Rejections(e, st.(ready := ready), bad);
            Welcomed(st') == Welcomed(st'') && out == out'
    decreases |bad|
  {
    if bad != [] {
      var o := Rejected(e, st.db, bad[0]);
      ReadyIsNoMatter(e, ClearError(st, o.db), ClearError(st.(ready := ready), o.db).ready, bad[1..]);
    }
  }

  lemma RetriesAtOnce(e: Engine, st: Flags, bad: seq<Msg>, good: Msg)
    requires Passwords(bad) && AllBad(bad) && Passwords([good]) && PasswordOk(good.body)
    ensures var (st', out) := Rejections(e, st, bad);
            Reported(|bad|, out, PasswordCall(e, st, 0, EncodeAll(bad + [good]), true),
                     Answered(e, Welcomed(st'), Welcome(e, st'.db), [], false))
  {
    var (st', out) := Rejections(e, st, bad);
    EncodeAllAppend(bad, [good]);
    assert EncodeAll([good]) == Encode(good);
    BadPasswordsInFront(e, st, 0, |bad|, bad, Encode(good));
    assert EncodeAll([]) + Encode(good) == Encode(good) + [];
    PasswordStep(e, st', |bad|, good, []);
    assert Front(e, st', |bad|, [], Encode(good)) == Answered(e, Welcomed(st'), Welcome(e, st'.db), [], false);
  }

  lemma FirstPassword(bad: seq<Msg>, good: Msg)
    requires Passwords(bad + [good])
    ensures Passwords(bad) && Passwords([good])
    ensures |EncodeAll(bad + [good])| >= 5 && EncodeAll(bad + [good])[0] == PASSWORD
  {
    var ms := bad + [good];
    assert forall m :: m in bad ==> m in ms;
    assert good in ms && ms[0] in ms;
  }

  /** A client that retries its password may send the retries in one packet or one by one:
      the same replies, flags and database, if and only if the abort bound allows it. */
  lemma RetriesInOnePacketIff(e: Engine, st: Flags, bad: seq<Msg>, good: Msg)
    requires Passwords(bad + [good]) && AllBad(bad) && PasswordOk(good.body) && st.auth
    ensures EncodeAll(bad + [good]) != []
    ensures PasswordCall(e, st.(ready := false), 0, EncodeAll(bad + [good]), true) == PasswordCalls(e, st, bad + [good])
       <==> |bad| <= MAX_RECOVERIES
  {
    FirstPassword(bad, good);
    RetriesAtOnce(e, st.(ready := false), bad, good);
    RetryCalls(e, st, bad, good);
    ReadyIsNoMatter(e, st, false, bad);
  }

  // ---------- The loop while a client authenticates ----------

  /** a is r, but for a last ReadyForQuery it may withhold. */
  predicate Withholds(e: Engine, r: CallResult, a: CallResult) {
    if r.Returned? then
      a.Returned? && a.s == r.s && a.ran == r.ran
      && (r.out == a.out || r.out == a.out + [ReadyForQuery(e, r.s.db)])
    else a == r
  }

  lemma WithholdsBehind(e: Engine, out: seq<Msg>, ran: seq<Msg>, r: CallResult, a: CallResult)
    requires Withholds(e, r, a)
    ensures Withholds(e, Prepend(out, ran, r), Prepend(out, ran, a))
  {
    if r.Returned? {
      AppendAssoc(out, a.out, [ReadyForQuery(e, r.s.db)]);
    }
  }

  /** A call during authentication is the call outside it, but for the ReadyForQuery that
      wire_flush would still send. */
  lemma {:induction false} AuthWithholdsOne(e: Engine, st: Flags, canary: nat, inputs: seq<Input>)
    requires !st.auth
    ensures Withholds(e, Drive(e, st, canary, inputs), Drive(e, st.(auth := true), canary, inputs))
    decreases |inputs|
  {
    if inputs != [] {
      var more := |inputs| > 1;
      var rest := inputs[1..];
      match Step(e, st, inputs[0], more)
      case Skipped(st') =>
        AuthWithholdsOne(e, st', canary, rest);
      case Closed(_) =>
      case Broken =>
      case Handled(st', out) =>
        if more {
          var next := st'.(ready := false);
          AuthWithholdsOne(e, next, canary, rest);
          WithholdsBehind(e, out + PendingReady(e, st'), [inputs[0].m],
                          Drive(e, next, canary, rest), Drive(e, next.(auth := true), canary, rest));
        } else {
          WithholdsBehind(e, out, [inputs[0].m], Finish(e, st'), Finish(e, st'.(auth := true)));
        }
      case Raised(st', out) =>
        if !more {
          WithholdsBehind(e, out, [inputs[0].m], Finish(e, st'), Finish(e, st'.(auth := true)));
        } else if canary < MAX_RECOVERIES {
          AuthWithholdsOne(e, st', canary + 1, rest);
          WithholdsBehind(e, out, [inputs[0].m],
                          Drive(e, st', canary + 1, rest), Drive(e, st'.(auth := true), canary + 1, rest));
        }
    }
  }

  lemma OneMessageInAuth(e: Engine, s: Session, m: Msg)
    requires RegularKind(m.kind)
    ensures var o := Handle(e, s.db, m);
            Call(e, s, true, Inputs([m])) ==
            if IgnoredTillSync(s, m) then Returned(s, [], []) else Returned(Next(o, m), o.out, [m])
  {
    MessagesTail([m]);
    var st := Start(s, true);
    var h := Step(e, st, Message(m), false);
    var none: seq<Msg> := [];
    if h.Handled? {
      DriveHandled(e, st, 0, [m]);
      assert Drive(e, h.st.(ready := false), 0, Inputs([m][1..])) == Returned(Next(Handle(e, s.db, m), m), [], []);
      assert h.out + none + none == h.out && [m] + none == [m];
    } else if h.Raised? {
      DriveRaised(e, st, 0, [m]);
      assert Drive(e, h.st, 1, Inputs([m][1..])) == Returned(Next(Handle(e, s.db, m), m), [], []);
      assert h.out + none == h.out && [m] + none == [m];
    }
  }

  /** One message per call, no ReadyForQuery is sent before the client is authenticated,
      though the messages are dispatched as ever. */
  lemma {:induction false} SilentWhileAuthenticating(e: Engine, s: Session, ms: seq<Msg>)
    requires Conforms(e) && Regular(ms)
    ensures var r := Calls(e, s, true, Packets(OneByOne(ms)));
            var p := Protocol(e, s, ms);
            r.Returned? && r.s == p.s && r.ran == p.ran && CountReady(r.out) == 0
    decreases |ms|
  {
    if ms != [] {
      var m := ms[0];
      assert m in ms;
      assert Packets(OneByOne(ms))[1..] == Packets(OneByOne(ms[1..]));
      assert Packets(OneByOne(ms))[0] == Inputs([m]);
      OneMessageInAuth(e, s, m);
      var r := Call(e, s, true, Inputs([m]));
      assert ConformingOutcome(m, Handle(e, s.db, m));
      SilentWhileAuthenticating(e, r.s, ms[1..]);
      SilentHasNoReady(r.out);
      CountReadyAppend(r.out, Calls(e, r.s, true, Packets(OneByOne(ms[1..]))).out);
    }
  }

  /** No ReadyForQuery leaves the packet in its middle: no successful Query, FunctionCall or
      Sync has a message behind it, and neither has a Flush or late COPY message that
      succeeds over an owed one. */
  predicate QuietInside(e: Engine, s: Session, owed: bool, ms: seq<Msg>)
    decreases |ms|
  {
    if ms == [] then true
    else if IgnoredTillSync(s, ms[0]) then QuietInside(e, s, owed, ms[1..])
    else
      var o := Handle(e, s.db, ms[0]);
      && !(|ms| > 1 && o.Done? && (CycleKind(ms[0].kind) || (owed && Transparent(ms[0]))))
      && QuietInside(e, Next(o, ms[0]), o.Failed? && (owed || CycleKind(ms[0].kind)), ms[1..])
  }

  predicate SilentExactly(e: Engine, st: Flags, canary: nat, ms: seq<Msg>) {
    var r := Drive(e, st, canary, Inputs(ms));
    r.Returned? && (CountReady(r.out) == 0 <==> QuietInside(e, Session(st.db, st.ignore), st.ready, ms))
  }

  lemma SilentFirst(e: Engine, st: Flags, canary: nat, ms: seq<Msg>)
    requires Conforms(e) && Regular(ms) && ms != [] && st.auth
    requires match Step(e, st, Message(ms[0]), |ms| > 1)
             case Handled(st', _) => SilentExactly(e, st'.(ready := false), canary, ms[1..])
             case Raised(st', _) => (|ms| > 1 ==> canary < MAX_RECOVERIES) && SilentExactly(e, st', canary + 1, ms[1..])
             case _ => false
    ensures SilentExactly(e, st, canary, ms)
  {
    assert ms[0] in ms;
    var h := Step(e, st, Message(ms[0]), |ms| > 1);
    var s := Session(st.db, st.ignore);
    if h.Handled? {
      var ready := if |ms| > 1 then PendingReady(e, h.st) else FinalReady(e, h.st);
      DriveHandled(e, st, canary, ms);
      AppendedReadyCount(e, s, ms[0], h.out, ready, Drive(e, h.st.(ready := false), canary, Inputs(ms[1..])));
    } else {
      DriveRaised(e, st, canary, ms);
      assert h.out + [] == h.out;
      AppendedReadyCount(e, s, ms[0], h.out, [], Drive(e, h.st, canary + 1, Inputs(ms[1..])));
    }
  }

  /** While the client authenticates, a packet sends no ReadyForQuery exactly when it is
      quiet inside. */
  lemma {:induction false} SilentFrom(e: Engine, st: Flags, canary: nat, ms: seq<Msg>)
    requires Conforms(e) && Regular(ms) && st.auth
    requires |ms| > 0 ==> canary + Recoveries(e, Session(st.db, st.ignore), ms) <= MAX_RECOVERIES
    ensures SilentExactly(e, st, canary, ms)
    decreases |ms|
  {
    if ms != [] {
      MessagesTail(ms);
      assert ms[0] in ms && Regular(ms[1..]);
      match Step(e, st, Message(ms[0]), |ms| > 1)
      case Skipped(st') =>
        SilentFrom(e, st', canary, ms[1..]);
      case Handled(st', _) =>
        SilentFrom(e, st'.(ready := false), canary, ms[1..]);
        SilentFirst(e, st, canary, ms);
      case Raised(st', _) =>
        SilentFrom(e, st', canary + 1, ms[1..]);
        SilentFirst(e, st, canary, ms);
    }
  }

  /** Every packet of a run is quiet inside, in the session it arrives in. */
  predicate EachPacketQuiet(e: Engine, s: Session, ps: seq<seq<Msg>>)
    decreases |ps|
  {
    ps == [] || (QuietInside(e, s, false, ps[0]) && EachPacketQuiet(e, Protocol(e, s, ps[0]).s, ps[1..]))
  }

  /** No packet of a run aborts. */
  predicate EachPacketReturns(e: Engine, s: Session, ps: seq<seq<Msg>>)
    decreases |ps|
  {
    ps == [] || (
      && Regular(ps[0]) && Recoveries(e, s, ps[0]) <= MAX_RECOVERIES
      && EachPacketReturns(e, Protocol(e, s, ps[0]).s, ps[1..]))
  }

  /** No ReadyForQuery goes out before the client is authenticated, over a whole run of
      packets, if and only if each of them is quiet inside. */
  lemma {:induction false} SilentWhileAuthenticatingIff(e: Engine, s: Session, ps: seq<seq<Msg>>)
    requires Conforms(e) && EachPacketReturns(e, s, ps)
    ensures var r := Calls(e, s, true, Packets(ps));
            r.Returned? && (CountReady(r.out) == 0 <==> EachPacketQuiet(e, s, ps))
    decreases |ps|
  {
    if ps != [] {
      var r := Call(e, s, true, Inputs(ps[0]));
      AbortIff(e, Start(s, true), 0, ps[0]);
      SilentFrom(e, Start(s, true), 0, ps[0]);
      SilentWhileAuthenticatingIff(e, r.s, ps[1..]);
      assert Packets(ps)[1..] == Packets(ps[1..]);
      CountReadyAppend(r.out, Calls(e, r.s, true, Packets(ps[1..])).out);
    }
  }

  /** An engine that answers nothing. */
  function QuietEngine(): Engine {
    Engine((db, m) => Done(db, []), db => 73, db => db, (db, m) => [], db => [], 0, 0)
  }

  /** In a packet of two Syncs the first ReadyForQuery does go out before the client is
      authenticated: only wire_flush looks at ClientAuthInProgress. */
  lemma ReadyBeforeAuthentication()
    ensures var r := Call(QuietEngine(), Session([], false), true, Inputs([Msg(SYNC, []), Msg(SYNC, [])]));
            r.Returned? && CountReady(r.out) == 1
  {
    var e := QuietEngine();
    var ms := [Msg(SYNC, []), Msg(SYNC, [])];
    var st := Start(Session([], false), true);
    DriveHandled(e, st, 0, ms);
    assert ms[1..] == [Msg(SYNC, [])];
    DriveHandled(e, st, 0, ms[1..]);
    assert ms[1..][1..] == [];
    var z := [ReadyForQuery(e, [])];
    assert Drive(e, st, 0, Inputs(ms)).out == z;
    assert CountReady(z) == 1;
  }
}
