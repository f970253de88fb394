/** Laws of whole runs of the wire loop, against the message flow of the protocol written
    down on its own: no ready flag, no pipelining test, no packets. */
module ProtocolLaws {
  import opened Messages
  import opened SqlEngine
  import opened WireLoop

  // ---------- The protocol, message by message ----------

  predicate IgnoredTillSync(s: Session, m: Msg) {
    s.ignore && m.kind != SYNC
  }

  function EndOfCycle(e: Engine, db: Db, kind: byte): seq<Msg> {
    if CycleKind(kind) then [ReadyForQuery(e, db)] else []
  }

  /** The session after a message that is not skipped. */
  function Next(o: Outcome, m: Msg): Session {
    Session(o.db, o.Failed? && ExtendedKind(m.kind))
  }

  /** Message Flow: each Query, FunctionCall and Sync is answered and followed by one
      ReadyForQuery; an error in an extended-query message skips up to the next Sync. */
  function Protocol(e: Engine, s: Session, ms: seq<Msg>): (r: CallResult)
    ensures r.Returned?
    decreases |ms|
  {
    if ms == [] then Returned(s, [], [])
    else if IgnoredTillSync(s, ms[0]) then Protocol(e, s, ms[1..])
    else
      var o := Handle(e, s.db, ms[0]);
      Prepend(o.out + EndOfCycle(e, o.db, ms[0].kind), [ms[0]], Protocol(e, Next(o, ms[0]), ms[1..]))
  }

  /** Failing messages that still have a message behind them. */
  function Recoveries(e: Engine, s: Session, ms: seq<Msg>): nat
    decreases |ms|
  {
    if |ms| <= 1 then 0
    else if IgnoredTillSync(s, ms[0]) then Recoveries(e, s, ms[1..])
    else
      var o := Handle(e, s.db, ms[0]);
      (if o.Failed? then 1 else 0) + Recoveries(e, Next(o, ms[0]), ms[1..])
  }

  /** Flush and late COPY messages touch neither the database nor the reply. */
  predicate Transparent(m: Msg) {
    CopyKind(m.kind) || (m.kind == FLUSH && m.body == [])
  }

  /** Every failing Query, FunctionCall or Sync is the last of its packet or has a
      transparent message right behind it. owed says such a failure came just before. */
  predicate NoReadyOverrun(e: Engine, s: Session, owed: bool, ms: seq<Msg>)
    decreases |ms|
  {
    if ms == [] then true
    else if owed && !Transparent(ms[0]) then false
    else if IgnoredTillSync(s, ms[0]) then NoReadyOverrun(e, s, false, ms[1..])
    else
      var o := Handle(e, s.db, ms[0]);
      NoReadyOverrun(e, Next(o, ms[0]), o.Failed? && CycleKind(ms[0].kind), ms[1..])
  }

  // ---------- Termination and the abort bound ----------

  lemma MessagesTail(ms: seq<Msg>)
    requires ms != []
    ensures Inputs(ms)[0] == Message(ms[0]) && Inputs(ms)[1..] == Inputs(ms[1..])
  {
  }

  lemma DriveHandled(e: Engine, st: Flags, canary: nat, ms: seq<Msg>)
    requires ms != [] && Step(e, st, Message(ms[0]), |ms| > 1).Handled?
    ensures var h := Step(e, st, Message(ms[0]), |ms| > 1);
            var ready := if |ms| > 1 then PendingReady(e, h.st) else FinalReady(e, h.st);
            Drive(e, st, canary, Inputs(ms)) ==
            Prepend(h.out + ready, [ms[0]], Drive(e, h.st.(ready := false), canary, Inputs(ms[1..])))
  {
    MessagesTail(ms);
    var h := Step(e, st, Message(ms[0]), |ms| > 1);
    var ready := FinalReady(e, h.st);
    assert h.out + ready + [] == h.out + ready;
  }

  lemma DriveRaised(e: Engine, st: Flags, canary: nat, ms: seq<Msg>)
    requires ms != [] && Step(e, st, Message(ms[0]), |ms| > 1).Raised?
    requires |ms| > 1 ==> canary < MAX_RECOVERIES
    ensures var h := Step(e, st, Message(ms[0]), |ms| > 1);
            Drive(e, st, canary, Inputs(ms)) == Prepend(h.out, [ms[0]], Drive(e, h.st, canary + 1, Inputs(ms[1..])))
  {
    MessagesTail(ms);
  }

  /** From these flags on, abort() is reached exactly when more than MAX_RECOVERIES failing
      messages still have data behind them; otherwise the loop returns with the protocol's
      database, skip state and dispatches. */
  predicate AbortsExactly(e: Engine, st: Flags, canary: nat, ms: seq<Msg>) {
    var s := Session(st.db, st.ignore);
    var r := Drive(e, st, canary, Inputs(ms));
    var p := Protocol(e, s, ms);
    if canary + Recoveries(e, s, ms) > MAX_RECOVERIES then r == Aborted
    else r.Returned? && r.s == p.s && r.ran == p.ran
  }

  lemma AbortHandled(e: Engine, st: Flags, canary: nat, ms: seq<Msg>)
    requires Regular(ms) && ms != [] && canary <= MAX_RECOVERIES
    requires var h := Step(e, st, Message(ms[0]), |ms| > 1);
             h.Handled? && AbortsExactly(e, h.st.(ready := false), canary, ms[1..])
    ensures AbortsExactly(e, st, canary, ms)
  {
    assert ms[0] in ms;
    DriveHandled(e, st, canary, ms);
  }

  lemma AbortRaised(e: Engine, st: Flags, canary: nat, ms: seq<Msg>)
    requires Regular(ms) && ms != [] && canary <= MAX_RECOVERIES
    requires var h := Step(e, st, Message(ms[0]), |ms| > 1);
             h.Raised? && (|ms| > 1 && canary < MAX_RECOVERIES ==> AbortsExactly(e, h.st, canary + 1, ms[1..]))
    ensures AbortsExactly(e, st, canary, ms)
  {
    assert ms[0] in ms;
    if |ms| == 1 || canary < MAX_RECOVERIES {
      DriveRaised(e, st, canary, ms);
    } else {
      MessagesTail(ms);
    }
  }

  /** The abort bound of canary_ex. The loop itself terminates because every turn consumes
      a message. */
  lemma {:induction false} AbortIff(e: Engine, st: Flags, canary: nat, ms: seq<Msg>)
    requires Regular(ms) && canary <= MAX_RECOVERIES
    ensures AbortsExactly(e, st, canary, ms)
    decreases |ms|
  {
    if ms != [] {
      MessagesTail(ms);
      assert ms[0] in ms && Regular(ms[1..]);
      match Step(e, st, Message(ms[0]), |ms| > 1)
      case Skipped(st') =>
        AbortIff(e, st', canary, ms[1..]);
      case Handled(st', _) =>
        AbortIff(e, st'.(ready := false), canary, ms[1..]);
        AbortHandled(e, st, canary, ms);
      case Raised(st', _) =>
        if canary < MAX_RECOVERIES {
          AbortIff(e, st', canary + 1, ms[1..]);
        }
        AbortRaised(e, st, canary, ms);
    }
  }

  // ---------- ReadyForQuery counts ----------

  function CountReady(out: seq<Msg>): nat {
    if out == [] then 0 else (if out[0].kind == READY_FOR_QUERY then 1 else 0) + CountReady(out[1..])
  }

  function CountCycles(ran: seq<Msg>): nat {
    if ran == [] then 0 else (if CycleKind(ran[0].kind) then 1 else 0) + CountCycles(ran[1..])
  }

  lemma {:induction false} CountReadyAppend(a: seq<Msg>, b: seq<Msg>)
    ensures CountReady(a + b) == CountReady(a) + CountReady(b)
  {
    if a == [] {
      assert a + b == b;
    } else {
      assert (a + b)[1..] == a[1..] + b;
      CountReadyAppend(a[1..], b);
    }
  }

  lemma {:induction false} SilentHasNoReady(out: seq<Msg>)
    requires Silent(out)
    ensures CountReady(out) == 0
  {
    if out != [] {
      assert out[0] in out;
      SilentHasNoReady(out[1..]);
    }
  }

  /** In the protocol, every Query, FunctionCall and Sync that is not skipped is answered
      by exactly one ReadyForQuery. */
  lemma {:induction false} ProtocolReadyCount(e: Engine, s: Session, ms: seq<Msg>)
    requires Conforms(e)
    ensures CountReady(Protocol(e, s, ms).out) == CountCycles(Protocol(e, s, ms).ran)
    decreases |ms|
  {
    if ms != [] {
      if IgnoredTillSync(s, ms[0]) {
        ProtocolReadyCount(e, s, ms[1..]);
      } else {
        var o := Handle(e, s.db, ms[0]);
        assert ConformingOutcome(ms[0], o);
        var p := Protocol(e, Next(o, ms[0]), ms[1..]);
        ProtocolReadyCount(e, Next(o, ms[0]), ms[1..]);
        SilentHasNoReady(o.out);
        var end := EndOfCycle(e, o.db, ms[0].kind);
        CountReadyAppend(o.out + end, p.out);
        CountReadyAppend(o.out, end);
        assert ([ms[0]] + p.ran)[1..] == p.ran;
      }
    }
  }

  /** A dispatched message that destroys or doubles a ReadyForQuery that is still owed:
      another Query, FunctionCall or Sync; a Parse; or a Bind, Execute, Close or Describe
      that is not the last of its packet. */
  predicate Overruns(o: Outcome, m: Msg, last: bool) {
    || CycleKind(m.kind)
    || (o.Done? && (m.kind == PARSE || (m.kind in {BIND, EXECUTE, CLOSE, DESCRIBE} && !last)))
  }

  /** No message is dispatched over a ReadyForQuery that is owed. */
  predicate NoReadyLost(e: Engine, s: Session, owed: bool, ms: seq<Msg>)
    decreases |ms|
  {
    if ms == [] then true
    else if IgnoredTillSync(s, ms[0]) then NoReadyLost(e, s, owed, ms[1..])
    else
      var o := Handle(e, s.db, ms[0]);
      && !(owed && Overruns(o, ms[0], |ms| == 1))
      && NoReadyLost(e, Next(o, ms[0]), o.Failed? && (owed || CycleKind(ms[0].kind)), ms[1..])
  }

  function Owed(ready: bool): nat {
    if ready then 1 else 0
  }

  /** Replies of a dispatched message put in front of what the rest of the loop does. */
  lemma AppendedReadyCount(e: Engine, s: Session, m: Msg, out: seq<Msg>, pending: seq<Msg>, r: CallResult)
    requires Conforms(e) && Handle(e, s.db, m).out == out && r.Returned?
    ensures CountReady(Prepend(out + pending, [m], r).out) == CountReady(pending) + CountReady(r.out)
    ensures CountCycles(Prepend(out + pending, [m], r).ran) == (if CycleKind(m.kind) then 1 else 0) + CountCycles(r.ran)
  {
    assert ConformingOutcome(m, Handle(e, s.db, m));
    SilentHasNoReady(out);
    CountReadyAppend(out, pending);
    CountReadyAppend(out + pending, r.out);
    assert ([m] + r.ran)[1..] == r.ran;
  }

  /** From these flags on, the loop never sends a ReadyForQuery too many, and sends all of
      them exactly when none is overrun. */
  predicate ReadyCounts(e: Engine, st: Flags, canary: nat, ms: seq<Msg>) {
    var r := Drive(e, st, canary, Inputs(ms));
    && r.Returned?
    && CountReady(r.out) <= Owed(st.ready) + CountCycles(r.ran)
    && (CountReady(r.out) == Owed(st.ready) + CountCycles(r.ran) <==>
        NoReadyLost(e, Session(st.db, st.ignore), st.ready, ms))
  }

  lemma ReadyCountHandled(e: Engine, st: Flags, canary: nat, ms: seq<Msg>)
    requires !st.auth
    requires Conforms(e) && ms != []
    requires var h := Step(e, st, Message(ms[0]), |ms| > 1);
             h.Handled? && ReadyCounts(e, h.st.(ready := false), canary, ms[1..])
    ensures ReadyCounts(e, st, canary, ms)
  {
    var h := Step(e, st, Message(ms[0]), |ms| > 1);
    var tail := Drive(e, h.st.(ready := false), canary, Inputs(ms[1..]));
    DriveHandled(e, st, canary, ms);
    AppendedReadyCount(e, Session(st.db, st.ignore), ms[0], h.out, PendingReady(e, h.st), tail);
  }

  lemma ReadyCountRaised(e: Engine, st: Flags, canary: nat, ms: seq<Msg>)
    requires !st.auth
    requires Conforms(e) && ms != [] && (|ms| > 1 ==> canary < MAX_RECOVERIES)
    requires var h := Step(e, st, Message(ms[0]), |ms| > 1);
             h.Raised? && ReadyCounts(e, h.st, canary + 1, ms[1..])
    ensures ReadyCounts(e, st, canary, ms)
  {
    var h := Step(e, st, Message(ms[0]), |ms| > 1);
    DriveRaised(e, st, canary, ms);
    assert h.out + [] == h.out;
    AppendedReadyCount(e, Session(st.db, st.ignore), ms[0], h.out, [], Drive(e, h.st, canary + 1, Inputs(ms[1..])));
  }

  lemma {:induction false} ReadyCountFrom(e: Engine, st: Flags, canary: nat, ms: seq<Msg>)
    requires !st.auth
    requires Conforms(e) && Regular(ms)
    requires |ms| > 0 ==> canary + Recoveries(e, Session(st.db, st.ignore), ms) <= MAX_RECOVERIES
    ensures ReadyCounts(e, st, canary, ms)
    decreases |ms|
  {
    if ms != [] {
      MessagesTail(ms);
      assert ms[0] in ms && Regular(ms[1..]);
      match Step(e, st, Message(ms[0]), |ms| > 1)
      case Skipped(st') =>
        ReadyCountFrom(e, st', canary, ms[1..]);
      case Handled(st', _) =>
        ReadyCountFrom(e, st'.(ready := false), canary, ms[1..]);
        ReadyCountHandled(e, st, canary, ms);
      case Raised(st', _) =>
        ReadyCountFrom(e, st', canary + 1, ms[1..]);
        ReadyCountRaised(e, st, canary, ms);
    }
  }

  /** The count over a whole call: one ReadyForQuery for every dispatched Query,
      FunctionCall and Sync, if and only if none of them is overrun. */
  lemma ReadyForQueryCount(e: Engine, s: Session, ms: seq<Msg>)
    requires Conforms(e) && Regular(ms) && Recoveries(e, s, ms) <= MAX_RECOVERIES
    ensures var r := Call(e, s, false, Inputs(ms));
            r.Returned? && CountReady(r.out) <= CountCycles(r.ran)
            && (CountReady(r.out) == CountCycles(r.ran) <==> NoReadyLost(e, s, false, ms))
  {
    ReadyCountFrom(e, Start(s, false), 0, ms);
  }

  // ---------- Batching ----------

  lemma AppendCancels<T>(a: seq<T>, b: seq<T>, c: seq<T>)
    ensures a + b == a + c <==> b == c
  {
    assert (a + b)[|a|..] == b && (a + c)[|a|..] == c;
  }

  /** A message that is not transparent, dispatched while a ReadyForQuery is owed, shows:
      its own reply comes first, or one ReadyForQuery is missing at the end. */
  lemma OverrunShows(e: Engine, st: Flags, canary: nat, ms: seq<Msg>)
    requires !st.auth
    requires Conforms(e) && Regular(ms) && ms != [] && st.ready && !st.ignore
    requires canary + Recoveries(e, Session(st.db, st.ignore), ms) <= MAX_RECOVERIES
    requires !Transparent(ms[0])
    ensures Drive(e, st, canary, Inputs(ms)).Returned?
    ensures Drive(e, st, canary, Inputs(ms)).out
         != [ReadyForQuery(e, st.db)] + Protocol(e, Session(st.db, st.ignore), ms).out
  {
    var s := Session(st.db, st.ignore);
    var m := ms[0];
    var d := Drive(e, st, canary, Inputs(ms));
    var p := Protocol(e, s, ms);
    var z := [ReadyForQuery(e, st.db)];
    MessagesTail(ms);
    assert m in ms;
    AbortIff(e, st, canary, ms);
    assert ConformingOutcome(m, Handle(e, st.db, m));
    if CycleKind(m.kind) {
      ReadyCountFrom(e, st, canary, ms);
      ProtocolReadyCount(e, s, ms);
      CountReadyAppend(z, p.out);
      assert !NoReadyLost(e, s, true, ms);
    } else {
      var o := Handle(e, st.db, m);
      assert o.out != [] && o.out[0] in o.out;
      assert d.out[0] == o.out[0];
    }
  }

  /** From these flags on, the loop's replies are the protocol's, after the ReadyForQuery
      it still owes, exactly when no owed ReadyForQuery is overrun. */
  predicate Batches(e: Engine, st: Flags, canary: nat, ms: seq<Msg>) {
    var s := Session(st.db, st.ignore);
    var r := Drive(e, st, canary, Inputs(ms));
    && r.Returned?
    && (r.out == PendingReady(e, st) + Protocol(e, s, ms).out <==> NoReadyOverrun(e, s, st.ready, ms))
  }

  /** owed + (out + end + p) against out + pending + d, with what is owed sent first. */
  lemma RepliesLineUp(owed: seq<Msg>, out: seq<Msg>, end: seq<Msg>, pending: seq<Msg>, p: seq<Msg>, d: seq<Msg>)
    requires (out == [] && end == [] && pending == owed) || (owed == [] && pending == end)
    ensures out + pending + d == owed + (out + end + p) <==> d == p
  {
    assert owed + (out + end + p) == out + pending + p;
    AppendCancels(out + pending, d, p);
  }

  lemma ErrorsLineUp(out: seq<Msg>, end: seq<Msg>, p: seq<Msg>, d: seq<Msg>)
    ensures out + d == [] + (out + end + p) <==> d == end + p
  {
    assert [] + (out + end + p) == out + (end + p);
    AppendCancels(out, d, end + p);
  }

  lemma BatchHandled(e: Engine, st: Flags, canary: nat, ms: seq<Msg>)
    requires !st.auth
    requires Regular(ms) && ms != [] && !(st.ready && st.ignore) && (st.ready ==> Transparent(ms[0]))
    requires var h := Step(e, st, Message(ms[0]), |ms| > 1);
             h.Handled? && Batches(e, h.st.(ready := false), canary, ms[1..])
    ensures Batches(e, st, canary, ms)
  {
    assert ms[0] in ms;
    var h := Step(e, st, Message(ms[0]), |ms| > 1);
    var o := Handle(e, st.db, ms[0]);
    var owed := PendingReady(e, st);
    var pending := PendingReady(e, h.st);
    var d := Drive(e, h.st.(ready := false), canary, Inputs(ms[1..])).out;
    var p := Protocol(e, Next(o, ms[0]), ms[1..]).out;
    DriveHandled(e, st, canary, ms);
    RepliesLineUp(owed, h.out, EndOfCycle(e, o.db, ms[0].kind), pending, p, d);
    assert [] + p == p;
  }

  lemma BatchRaised(e: Engine, st: Flags, canary: nat, ms: seq<Msg>)
    requires !st.auth
    requires Regular(ms) && ms != [] && !st.ready && (|ms| > 1 ==> canary < MAX_RECOVERIES)
    requires var h := Step(e, st, Message(ms[0]), |ms| > 1);
             h.Raised? && Batches(e, h.st, canary + 1, ms[1..])
    ensures Batches(e, st, canary, ms)
  {
    assert ms[0] in ms;
    var h := Step(e, st, Message(ms[0]), |ms| > 1);
    var o := Handle(e, st.db, ms[0]);
    var pending := PendingReady(e, h.st);
    var d := Drive(e, h.st, canary + 1, Inputs(ms[1..])).out;
    var p := Protocol(e, Next(o, ms[0]), ms[1..]).out;
    DriveRaised(e, st, canary, ms);
    assert pending == EndOfCycle(e, o.db, ms[0].kind);
    ErrorsLineUp(h.out, pending, p, d);
  }

  lemma {:induction false} BatchFrom(e: Engine, st: Flags, canary: nat, ms: seq<Msg>)
    requires !st.auth
    requires Regular(ms) && !(st.ready && st.ignore)
    requires Conforms(e) || NoReadyOverrun(e, Session(st.db, st.ignore), st.ready, ms)
    requires |ms| > 0 ==> canary + Recoveries(e, Session(st.db, st.ignore), ms) <= MAX_RECOVERIES
    ensures Batches(e, st, canary, ms)
    decreases |ms|
  {
    if ms == [] {
      assert PendingReady(e, st) + [] == PendingReady(e, st);
    } else if st.ready && !Transparent(ms[0]) {
      OverrunShows(e, st, canary, ms);
    } else {
      MessagesTail(ms);
      assert ms[0] in ms && Regular(ms[1..]);
      match Step(e, st, Message(ms[0]), |ms| > 1)
      case Skipped(st') =>
        BatchFrom(e, st', canary, ms[1..]);
      case Handled(st', _) =>
        BatchFrom(e, st'.(ready := false), canary, ms[1..]);
        BatchHandled(e, st, canary, ms);
      case Raised(st', _) =>
        BatchFrom(e, st', canary + 1, ms[1..]);
        BatchRaised(e, st, canary, ms);
    }
  }

  /** Batching: one packet gives exactly the protocol's database, skip state, dispatches
      and replies if and only if at most nine failing messages have data behind them and
      no ReadyForQuery owed after a failing Query, FunctionCall or Sync is overrun. */
  lemma BatchIsProtocolIff(e: Engine, s: Session, ms: seq<Msg>)
    requires Conforms(e) && Regular(ms)
    ensures Call(e, s, false, Inputs(ms)) == Protocol(e, s, ms)
       <==> Recoveries(e, s, ms) <= MAX_RECOVERIES && NoReadyOverrun(e, s, false, ms)
  {
    AbortIff(e, Start(s, false), 0, ms);
    if Recoveries(e, s, ms) <= MAX_RECOVERIES {
      BatchFrom(e, Start(s, false), 0, ms);
      assert [] + Protocol(e, s, ms).out == Protocol(e, s, ms).out;
    }
  }

  /** Under that condition nothing need be known of the engine's replies. */
  lemma BatchIsProtocol(e: Engine, s: Session, ms: seq<Msg>)
    requires Regular(ms) && Recoveries(e, s, ms) <= MAX_RECOVERIES && NoReadyOverrun(e, s, false, ms)
    ensures Call(e, s, false, Inputs(ms)) == Protocol(e, s, ms)
  {
    AbortIff(e, Start(s, false), 0, ms);
    BatchFrom(e, Start(s, false), 0, ms);
    assert [] + Protocol(e, s, ms).out == Protocol(e, s, ms).out;
  }

  /** The same on the wire: the reply bytes of a packet are those of the protocol under
      the same condition, because frames are uniquely decodable. */
  lemma BatchReplyBytesIff(e: Engine, s: Session, ms: seq<Msg>)
    requires Conforms(e) && Regular(ms) && Recoveries(e, s, ms) <= MAX_RECOVERIES
    ensures var r := Call(e, s, false, ParseAll(EncodeAll(ms)));
            r.Returned? && r.s == Protocol(e, s, ms).s
            && (EncodeAll(r.out) == EncodeAll(Protocol(e, s, ms).out) <==> NoReadyOverrun(e, s, false, ms))
  {
    ParseOfEncodeAll(ms);
    AbortIff(e, Start(s, false), 0, ms);
    EncodeAllInjective(Call(e, s, false, Inputs(ms)).out, Protocol(e, s, ms).out);
    BatchIsProtocolIff(e, s, ms);
  }

  // ---------- Whole runs of calls ----------

  function Packets(ps: seq<seq<Msg>>): (r: seq<seq<Input>>)
    ensures |r| == |ps|
  {
    seq(|ps|, i requires 0 <= i < |ps| => Inputs(ps[i]))
  }

  function Concat(ps: seq<seq<Msg>>): seq<Msg> {
    if ps == [] then [] else ps[0] + Concat(ps[1..])
  }

  /** The protocol takes a message stream in pieces. */
  lemma {:induction false} ProtocolAppend(e: Engine, s: Session, a: seq<Msg>, b: seq<Msg>)
    ensures var p := Protocol(e, s, a);
            Protocol(e, s, a + b) == Prepend(p.out, p.ran, Protocol(e, p.s, b))
    decreases |a|
  {
    if a == [] {
      assert a + b == b;
      var q := Protocol(e, s, b);
      assert [] + q.out == q.out && [] + q.ran == q.ran;
    } else {
      assert (a + b)[1..] == a[1..] + b;
      if IgnoredTillSync(s, a[0]) {
        ProtocolAppend(e, s, a[1..], b);
      } else {
        var o := Handle(e, s.db, a[0]);
        var p := Protocol(e, Next(o, a[0]), a[1..]);
        ProtocolAppend(e, Next(o, a[0]), a[1..], b);
        PrependPrepend(o.out + EndOfCycle(e, o.db, a[0].kind), p.out, [a[0]], p.ran, Protocol(e, p.s, b));
      }
    }
  }

  /** Every packet of a run meets the batching condition in the session it arrives in. */
  predicate EachPacketBatches(e: Engine, s: Session, ps: seq<seq<Msg>>)
    decreases |ps|
  {
    ps == [] || (
      && Regular(ps[0])
      && Recoveries(e, s, ps[0]) <= MAX_RECOVERIES
      && NoReadyOverrun(e, s, false, ps[0])
      && EachPacketBatches(e, Protocol(e, s, ps[0]).s, ps[1..]))
  }

  /** Any run of calls is the protocol run over the concatenated messages. */
  lemma {:induction false} RunIsProtocol(e: Engine, s: Session, ps: seq<seq<Msg>>)
    requires EachPacketBatches(e, s, ps)
    ensures Calls(e, s, false, Packets(ps)) == Protocol(e, s, Concat(ps))
    decreases |ps|
  {
    if ps != [] {
      BatchIsProtocol(e, s, ps[0]);
      RunIsProtocol(e, Protocol(e, s, ps[0]).s, ps[1..]);
      ProtocolAppend(e, s, ps[0], Concat(ps[1..]));
      assert Packets(ps)[1..] == Packets(ps[1..]);
    }
  }

  function OneByOne(ms: seq<Msg>): (ps: seq<seq<Msg>>)
    ensures |ps| == |ms|
  {
    seq(|ms|, i requires 0 <= i < |ms| => [ms[i]])
  }

  /** One call per message always is the protocol: no condition on failures. */
  lemma {:induction false} OneByOneIsProtocol(e: Engine, s: Session, ms: seq<Msg>)
    requires Regular(ms)
    ensures Concat(OneByOne(ms)) == ms
    ensures EachPacketBatches(e, s, OneByOne(ms))
    ensures Calls(e, s, false, Packets(OneByOne(ms))) == Protocol(e, s, ms)
    decreases |ms|
  {
    if ms != [] {
      assert ms[0] in ms;
      assert OneByOne(ms)[1..] == OneByOne(ms[1..]);
      OneByOneIsProtocol(e, Protocol(e, s, [ms[0]]).s, ms[1..]);
    }
    RunIsProtocol(e, s, OneByOne(ms));
  }

  /** Two ways to cut the same messages into packets are indistinguishable. */
  lemma RecuttingIsInvisible(e: Engine, s: Session, ps: seq<seq<Msg>>, qs: seq<seq<Msg>>)
    requires EachPacketBatches(e, s, ps) && EachPacketBatches(e, s, qs)
    requires Concat(ps) == Concat(qs)
    ensures Calls(e, s, false, Packets(ps)) == Calls(e, s, false, Packets(qs))
  {
    RunIsProtocol(e, s, ps);
    RunIsProtocol(e, s, qs);
  }

  // ---------- Where batching fails ----------

  /** An engine that answers every message with an ErrorResponse. */
  function RejectingEngine(): Engine {
    Engine((db, m) => Failed(db, [Msg(ERROR_RESPONSE, [])]), db => 73, db => db, (db, m) => [], db => [], 0, 0)
  }

  /** Two failing Queries and a Sync in one packet: the two ReadyForQuery owed for the
      Queries are both swallowed by the one of the Sync. */
  lemma BatchingCanLoseReady()
    ensures var e := RejectingEngine();
            var s := Session([], false);
            var ms := [Msg(QUERY, []), Msg(QUERY, []), Msg(SYNC, [])];
            Conforms(e) && Call(e, s, false, Inputs(ms)).Returned?
            && CountReady(Call(e, s, false, Inputs(ms)).out) < CountReady(Protocol(e, s, ms).out)
  {
    var e := RejectingEngine();
    var s := Session([], false);
    var ms := [Msg(QUERY, []), Msg(QUERY, []), Msg(SYNC, [])];
    forall db: Db, m: Msg ensures ConformingOutcome(m, Handle(e, db, m)) {
    }
    assert !NoReadyLost(e, s, false, ms) by {
      assert !NoReadyLost(e, s, true, ms[1..]);
    }
    assert Recoveries(e, s, ms) <= 2 by {
      assert Recoveries(e, s, ms[1..]) <= 1;
    }
    ReadyForQueryCount(e, s, ms);
    AbortIff(e, Start(s, false), 0, ms);
    ProtocolReadyCount(e, s, ms);
  }
}
