/** Skip until Sync: what reaches the engine and the client between an error in an
    extended-query message, wherever it stands in its packet, and the Sync that ends it. */
module SkipLaws {
  import opened Messages
  import opened SqlEngine
  import opened WireLoop
  import opened ProtocolLaws

  // ---------- In the middle of a packet ----------

  /** Where the loop stands: the flags, the recoveries so far, what was sent and dispatched. */
  datatype Spot = Spot(st: Flags, canary: nat, out: seq<Msg>, ran: seq<Msg>)

  function Further(out: seq<Msg>, ran: seq<Msg>, p: Spot): Spot {
    p.(out := out + p.out, ran := ran + p.ran)
  }

  /** Where the loop stands behind messages that all have data behind them. The recoveries
      are counted on past the limit. */
  function Through(e: Engine, st: Flags, canary: nat, ms: seq<Msg>): (p: Spot)
    ensures p.canary >= canary && p.st.auth == st.auth
    decreases |ms|
  {
    if ms == [] then Spot(st, canary, [], [])
    else
      match Step(e, st, Message(ms[0]), true)
      case Skipped(st') => Through(e, st', canary, ms[1..])
      case Handled(st', out) =>
        Further(out + PendingReady(e, st'), [ms[0]], Through(e, st'.(ready := false), canary, ms[1..]))
      case Raised(st', out) => Further(out, [ms[0]], Through(e, st', canary + 1, ms[1..]))
      case Closed(st') => Spot(st', canary, [], [])
      case Broken => Spot(st, canary, [], [])
  }

  predicate GoesThrough(e: Engine, st: Flags, canary: nat, ms: seq<Msg>, behind: seq<Input>) {
    var p := Through(e, st, canary, ms);
    var r := Drive(e, st, canary, Inputs(ms) + behind);
    if p.canary > MAX_RECOVERIES then r == Aborted
    else r == Prepend(p.out, p.ran, Drive(e, p.st, p.canary, behind))
  }

  lemma GoesThroughFirst(e: Engine, st: Flags, canary: nat, ms: seq<Msg>, behind: seq<Input>)
    requires Regular(ms) && ms != [] && behind != [] && canary <= MAX_RECOVERIES
    requires match Step(e, st, Message(ms[0]), true)
             case Skipped(st') => GoesThrough(e, st', canary, ms[1..], behind)
             case Handled(st', _) => GoesThrough(e, st'.(ready := false), canary, ms[1..], behind)
             case Raised(st', _) => canary < MAX_RECOVERIES ==> GoesThrough(e, st', canary + 1, ms[1..], behind)
             case _ => true
    ensures GoesThrough(e, st, canary, ms, behind)
  {
    assert ms[0] in ms;
    var inputs := Inputs(ms) + behind;
    MessagesTail(ms);
    assert inputs[0] == Message(ms[0]) && inputs[1..] == Inputs(ms[1..]) + behind;
    match Step(e, st, Message(ms[0]), true)
    case Skipped(_) =>
    case Handled(st', out) =>
      var p := Through(e, st'.(ready := false), canary, ms[1..]);
      PrependPrepend(out + PendingReady(e, st'), p.out, [ms[0]], p.ran, Drive(e, p.st, p.canary, behind));
    case Raised(st', out) =>
      var p := Through(e, st', canary + 1, ms[1..]);
      PrependPrepend(out, p.out, [ms[0]], p.ran, Drive(e, p.st, p.canary, behind));
  }

  /** The loop on a packet is the loop on what is behind its first messages, from there. */
  lemma {:induction false} DriveThrough(e: Engine, st: Flags, canary: nat, ms: seq<Msg>, behind: seq<Input>)
    requires Regular(ms) && behind != [] && canary <= MAX_RECOVERIES
    ensures GoesThrough(e, st, canary, ms, behind)
    decreases |ms|
  {
    if ms == [] {
      assert Inputs(ms) + behind == behind;
      PrependNothing(Drive(e, st, canary, behind));
    } else {
      assert Regular(ms[1..]);
      match Step(e, st, Message(ms[0]), true) {
        case Skipped(st') => DriveThrough(e, st', canary, ms[1..], behind);
        case Handled(st', _) => DriveThrough(e, st'.(ready := false), canary, ms[1..], behind);
        case Raised(st', _) =>
          if canary < MAX_RECOVERIES {
            DriveThrough(e, st', canary + 1, ms[1..], behind);
          }
        case _ =>
      }
      GoesThroughFirst(e, st, canary, ms, behind);
    }
  }

  /** The last message is dispatched and fails. */
  predicate FailsLast(e: Engine, s: Session, ms: seq<Msg>) {
    ms != [] &&
    var last := ms[|ms| - 1];
    var s' := Protocol(e, s, ms[..|ms| - 1]).s;
    !IgnoredTillSync(s', last) && Handle(e, s'.db, last).Failed?
  }

  lemma FailsLastBehind(e: Engine, s: Session, ms: seq<Msg>)
    requires |ms| > 1
    ensures var s' := if IgnoredTillSync(s, ms[0]) then s else Next(Handle(e, s.db, ms[0]), ms[0]);
            FailsLast(e, s, ms) <==> FailsLast(e, s', ms[1..])
  {
    assert ms[..|ms| - 1][1..] == ms[1..][..|ms| - 2];
  }

  /** Behind ms, the database and the skip state are the protocol's; outside the skip a
      ReadyForQuery is owed exactly when the message just before failed. */
  predicate OwesExactly(e: Engine, st: Flags, canary: nat, ms: seq<Msg>) {
    var p, s := Through(e, st, canary, ms), Session(st.db, st.ignore);
    && Session(p.st.db, p.st.ignore) == Protocol(e, s, ms).s && p.ran == Protocol(e, s, ms).ran
    && (!p.st.ignore ==> (p.st.ready <==> if ms == [] then st.ready else FailsLast(e, s, ms)))
  }

  lemma OwesFirst(e: Engine, st: Flags, canary: nat, ms: seq<Msg>)
    requires Regular(ms) && ms != []
    requires match Step(e, st, Message(ms[0]), true)
             case Skipped(st') => OwesExactly(e, st', canary, ms[1..])
             case Handled(st', _) => OwesExactly(e, st'.(ready := false), canary, ms[1..])
             case Raised(st', _) => OwesExactly(e, st', canary + 1, ms[1..])
             case _ => true
    ensures OwesExactly(e, st, canary, ms)
  {
    assert ms[0] in ms;
    if |ms| > 1 {
      FailsLastBehind(e, Session(st.db, st.ignore), ms);
    } else {
      assert ms[..0] == [];
    }
  }

  lemma {:induction false} OwedBehind(e: Engine, st: Flags, canary: nat, ms: seq<Msg>)
    requires Regular(ms)
    ensures OwesExactly(e, st, canary, ms)
    decreases |ms|
  {
    if ms != [] {
      assert Regular(ms[1..]);
      match Step(e, st, Message(ms[0]), true) {
        case Skipped(st') => OwedBehind(e, st', canary, ms[1..]);
        case Handled(st', _) => OwedBehind(e, st'.(ready := false), canary, ms[1..]);
        case Raised(st', _) => OwedBehind(e, st', canary + 1, ms[1..]);
        case _ =>
      }
      OwesFirst(e, st, canary, ms);
    }
  }

  // ---------- Skipping ----------

  /** A message that is skipped until Sync. */
  predicate Skippable(input: Input) {
    input.Message? && RegularKind(input.m.kind) && input.m.kind != SYNC
  }

  predicate AllSkippable(inputs: seq<Input>) {
    forall i :: i in inputs ==> Skippable(i)
  }

  /** Skippable messages in front of a packet vanish while skipping, whatever follows. */
  lemma {:induction false} SkipsInFront(e: Engine, st: Flags, canary: nat, skips: seq<Input>, rest: seq<Input>)
    requires st.ignore && AllSkippable(skips)
    ensures Drive(e, st, canary, skips + rest) == Drive(e, st, canary, rest)
    decreases |skips|
  {
    if skips == [] {
      assert skips + rest == rest;
    } else {
      assert skips[0] in skips;
      assert (skips + rest)[1..] == skips[1..] + rest;
      var st' := AfterSocketBackend(st, skips[0]);
      SkipsInFront(e, st', canary, skips[1..], rest);
      ExtendedFlagIsFresh(e, st, st'.extended, canary, rest);
    }
  }

  /** While skipping, calls made of skippable messages change nothing at all. */
  lemma {:induction false} SkippedCallsVanish(e: Engine, s: Session, auth: bool, skips: seq<seq<Input>>,
                                              rest: seq<seq<Input>>)
    requires s.ignore && forall p :: p in skips ==> AllSkippable(p)
    ensures Calls(e, s, auth, skips + rest) == Calls(e, s, auth, rest)
    decreases |skips|
  {
    if skips == [] {
      assert skips + rest == rest;
    } else {
      assert skips[0] in skips;
      assert (skips + rest)[1..] == skips[1..] + rest;
      assert skips[0] + [] == skips[0];
      SkipsInFront(e, Start(s, auth), 0, skips[0], []);
      SkippedCallsVanish(e, s, auth, skips[1..], rest);
      PrependNothing(Calls(e, s, auth, rest));
    }
  }

  // ---------- From the error to the Sync ----------

  /** m fails in an extended-query message that is not skipped. */
  predicate Fails(e: Engine, st: Flags, m: Msg) {
    !st.ignore && ExtendedKind(m.kind) && Handle(e, st.db, m).Failed?
  }

  /** The flags behind the error: a ReadyForQuery that was owed before still is. */
  function Skipping(st: Flags, o: Outcome): Flags {
    st.(db := o.db, ignore := true, extended := true)
  }

  /** The error, wherever it stands: it is reported, and what follows up to a Sync, or to
      the end of the packet, is neither dispatched nor answered. */
  lemma ErrorInPacket(e: Engine, st: Flags, canary: nat, m: Msg, skips: seq<Input>, rest: seq<Input>)
    requires Fails(e, st, m) && AllSkippable(skips) && (skips + rest != [] ==> canary < MAX_RECOVERIES)
    ensures var o := Handle(e, st.db, m);
            Drive(e, st, canary, [Message(m)] + (skips + rest))
            == Prepend(o.out, [m], Drive(e, Skipping(st, o), canary + 1, rest))
  {
    var o := Handle(e, st.db, m);
    var inputs := [Message(m)] + (skips + rest);
    assert inputs[1..] == skips + rest;
    SkipsInFront(e, Skipping(st, o), canary + 1, skips, rest);
  }

  /** The Sync that ends the skip. A successful one is answered by its own replies and one
      ReadyForQuery, whatever was owed before (behind a last one, only outside
      authentication); a failing one leaves one ReadyForQuery owed. */
  lemma SyncEndsSkip(e: Engine, st: Flags, canary: nat, sync: Msg, rest: seq<Input>)
    requires sync.kind == SYNC
    requires Handle(e, st.db, sync).Failed? && rest != [] ==> canary < MAX_RECOVERIES
    ensures var o := Handle(e, st.db, sync);
            var next := Flags(o.db, false, o.Failed?, false, st.auth);
            var ready := if o.Failed? || (rest == [] && st.auth) then [] else [ReadyForQuery(e, o.db)];
            Drive(e, st, canary, [Message(sync)] + rest)
            == Prepend(o.out + ready, [sync], Drive(e, next, if o.Failed? then canary + 1 else canary, rest))
  {
    var inputs := [Message(sync)] + rest;
    var o := Handle(e, st.db, sync);
    assert inputs[1..] == rest;
    if o.Done? && rest == [] {
      var ready := FinalReady(e, Flags(o.db, false, true, false, st.auth));
      assert o.out + ready + [] == o.out + ready;
    } else {
      assert o.out + [] == o.out;
    }
  }

  /** An error and the Sync in one packet, with messages before, between and behind: from
      the reply to the error the next byte is the reply to the Sync. */
  lemma SyncInSamePacket(e: Engine, st: Flags, canary: nat, before: seq<Msg>, m: Msg, skips: seq<Input>,
                         sync: Msg, rest: seq<Input>)
    requires Regular(before) && canary <= MAX_RECOVERIES && AllSkippable(skips) && sync.kind == SYNC
    requires var p := Through(e, st, canary, before); Fails(e, p.st, m) && p.canary < MAX_RECOVERIES
    requires var p := Through(e, st, canary, before);
             Handle(e, Handle(e, p.st.db, m).db, sync).Failed? && rest != [] ==> p.canary + 1 < MAX_RECOVERIES
    ensures var p := Through(e, st, canary, before);
            var o := Handle(e, p.st.db, m);
            var o' := Handle(e, o.db, sync);
            var next := Flags(o'.db, false, o'.Failed?, false, st.auth);
            var ready := if o'.Failed? || (rest == [] && st.auth) then [] else [ReadyForQuery(e, o'.db)];
            Drive(e, st, canary, Inputs(before) + ([Message(m)] + (skips + ([Message(sync)] + rest))))
            == Prepend(p.out + (o.out + (o'.out + ready)), p.ran + ([m] + [sync]),
                       Drive(e, next, if o'.Failed? then p.canary + 2 else p.canary + 1, rest))
  {
    var p := Through(e, st, canary, before);
    var o := Handle(e, p.st.db, m);
    var o' := Handle(e, o.db, sync);
    var next := Flags(o'.db, false, o'.Failed?, false, st.auth);
    var ready := if o'.Failed? || (rest == [] && st.auth) then [] else [ReadyForQuery(e, o'.db)];
    var last := Drive(e, next, if o'.Failed? then p.canary + 2 else p.canary + 1, rest);
    DriveThrough(e, st, canary, before, [Message(m)] + (skips + ([Message(sync)] + rest)));
    ErrorInPacket(e, p.st, p.canary, m, skips, [Message(sync)] + rest);
    SyncEndsSkip(e, Skipping(p.st, o), p.canary + 1, sync, rest);
    PrependPrepend(o.out, o'.out + ready, [m], [sync], last);
    PrependPrepend(p.out, o.out + (o'.out + ready), p.ran, [m] + [sync], last);
  }

  /** What wire_flush sends at the end of the packet of the error. */
  function Between(e: Engine, st: Flags, o: Outcome): seq<Msg> {
    if st.ready && !st.auth then [ReadyForQuery(e, o.db)] else []
  }

  /** An error with no Sync behind it in its packet. */
  lemma ErrorEndsPacket(e: Engine, s: Session, auth: bool, before: seq<Msg>, m: Msg, tail: seq<Input>)
    requires Regular(before) && AllSkippable(tail)
    requires var p := Through(e, Start(s, auth), 0, before);
             Fails(e, p.st, m) && p.canary <= MAX_RECOVERIES && (tail != [] ==> p.canary < MAX_RECOVERIES)
    ensures var p := Through(e, Start(s, auth), 0, before);
            var o := Handle(e, p.st.db, m);
            Call(e, s, auth, Inputs(before) + ([Message(m)] + tail))
            == Returned(Session(o.db, true), p.out + (o.out + Between(e, p.st, o)), p.ran + [m])
  {
    var p := Through(e, Start(s, auth), 0, before);
    var o := Handle(e, p.st.db, m);
    assert tail + [] == tail;
    DriveThrough(e, Start(s, auth), 0, before, [Message(m)] + tail);
    ErrorInPacket(e, p.st, p.canary, m, tail, []);
    assert p.ran + ([m] + []) == p.ran + [m];
  }

  /** Skip until Sync, over a run. The error may stand anywhere in its packet and the Sync
      anywhere in a later one, with anything behind it. Nothing is dispatched in between.
      Nothing is sent in between either, if and only if no ReadyForQuery is owed when the
      message fails: outside authentication, unless the message right in front of it in its
      packet failed, too. */
  lemma ErrorSkipsUntilSync(e: Engine, s: Session, auth: bool, before: seq<Msg>, m: Msg, tail: seq<Input>,
                            skips: seq<seq<Input>>, front: seq<Input>, sync: Msg, rest: seq<Input>,
                            later: seq<seq<Input>>)
    requires Regular(before) && AllSkippable(tail) && AllSkippable(front) && sync.kind == SYNC
    requires forall p :: p in skips ==> AllSkippable(p)
    requires var p := Through(e, Start(s, auth), 0, before);
             Fails(e, p.st, m) && p.canary <= MAX_RECOVERIES && (tail != [] ==> p.canary < MAX_RECOVERIES)
    ensures var p := Through(e, Start(s, auth), 0, before);
            var o := Handle(e, p.st.db, m);
            var between := Between(e, p.st, o);
            var last := front + ([Message(sync)] + rest);
            && Calls(e, s, auth, [Inputs(before) + ([Message(m)] + tail)] + (skips + ([last] + later)))
               == Prepend(p.out + (o.out + between), p.ran + [m],
                          Calls(e, Session(o.db, true), auth, [[Message(sync)] + rest] + later))
            && (between == [] <==> auth || !FailsLast(e, s, before))
  {
    var p := Through(e, Start(s, auth), 0, before);
    var o := Handle(e, p.st.db, m);
    var s1 := Session(o.db, true);
    var ends := [front + ([Message(sync)] + rest)] + later;
    var ends' := [[Message(sync)] + rest] + later;
    var all := [Inputs(before) + ([Message(m)] + tail)] + (skips + ends);
    assert all[1..] == skips + ends && ends[1..] == later && ends'[1..] == later;
    ErrorEndsPacket(e, s, auth, before, m, tail);
    SkippedCallsVanish(e, s1, auth, skips, ends);
    SkipsInFront(e, Start(s1, auth), 0, front, [Message(sync)] + rest);
    OwedBehind(e, Start(s, auth), 0, before);
  }

  // ---------- The end of a session ----------

  /** X and EOF, wherever they stand and whatever the loop skips or owes: the call ends with
      the replies to the messages in front, none behind them, not even a ReadyForQuery that
      is owed. What follows is not read, and the skip is over. */
  lemma EndsSession(e: Engine, s: Session, auth: bool, ms: seq<Msg>, end: Input, rest: seq<Input>)
    requires Regular(ms) && (end.Eof? || end.m.kind == 88)
    ensures var p, q := Through(e, Start(s, auth), 0, ms), Protocol(e, s, ms);
            && p.st.db == q.s.db && p.ran == q.ran
            && Call(e, s, auth, Inputs(ms) + ([end] + rest)) ==
               if p.canary > 9 then Aborted else Returned(Session(q.s.db, false), p.out, q.ran)
  {
    var st := Start(s, auth);
    var p := Through(e, st, 0, ms);
    DriveThrough(e, st, 0, ms, [end] + rest);
    OwedBehind(e, st, 0, ms);
    assert p.out + [] == p.out && p.ran + [] == p.ran;
  }

  /** The bytes such a call leaves unread are those behind the X or EOF. */
  lemma {:induction false} LeftAtTheEnd(ms: seq<Msg>, last: seq<byte>)
    requires Regular(ms)
    ensures SameEnd(EncodeAll(ms) + last, last)
  {
    if ms == [] {
      assert EncodeAll(ms) + last == last;
    } else {
      assert ms[0] in ms;
      AppendedFrames(ms, last);
      LeftBehindFrame(ms[0], EncodeAll(ms[1..]) + last);
      LeftAtTheEnd(ms[1..], last);
    }
  }

  lemma LeftBehindFrame(m: Msg, rest: seq<byte>)
    requires RegularKind(m.kind)
    ensures SameEnd(Encode(m) + rest, rest)
  {
    var packet := Encode(m) + rest;
    assert packet != [];
    NextInputOfEncode(m, rest);
  }

  /** The whole call on such a packet. */
  lemma EndsPacket(e: Engine, s: Session, auth: bool, ms: seq<Msg>, last: seq<byte>)
    requires Regular(ms) && last != [] && Closes(NextInput(last).0)
    ensures var p, q := Through(e, Start(s, auth), 0, ms), Protocol(e, s, ms);
            var packet := EncodeAll(ms) + last;
            && Call(e, s, auth, ParseAll(packet))
               == (if p.canary > 9 then Aborted else Returned(Session(q.s.db, false), p.out, q.ran))
            && Unread(packet) == NextInput(last).1 && EndsTorn(packet) == NextInput(last).0.Eof?
  {
    var inputs := ParseAll(last);
    ParseBehindFrames(ms, last);
    FirstInput(last);
    assert inputs == [inputs[0]] + inputs[1..];
    EndsSession(e, s, auth, ms, inputs[0], inputs[1..]);
    LeftAtTheEnd(ms, last);
    EndByInput(last, EncodeAll(ms) + last);
  }

  /** A failing Query and an X: the ReadyForQuery owed for the Query is never sent. */
  lemma OwedAtTheEnd(rest: seq<Input>)
    ensures Call(RejectingEngine(), Session([], false), false,
                 [Message(Msg(81, [])), Message(Msg(88, []))] + rest)
         == Returned(Session([], false), [Msg(69, [])], [Msg(81, [])])
  {
    var e, s, ms := RejectingEngine(), Session([], false), [Msg(81, [])];
    EndsSession(e, s, false, ms, Message(Msg(88, [])), rest);
    assert ms[1..] == [];
    assert [Msg(69, [])] + [] == [Msg(69, [])];
    assert Through(e, Start(s, false), 0, ms).out == [Msg(69, [])];
    assert [Message(Msg(81, [])), Message(Msg(88, []))] + rest == Inputs(ms) + ([Message(Msg(88, []))] + rest);
  }

  /** A failing Query, a failing Parse and an Execute in one packet: the ReadyForQuery owed
      for the Query goes out at the end of the packet, while the loop skips to the Sync. */
  lemma ReadyWhileSkipping()
    ensures var e := RejectingEngine();
            var r := Call(e, Session([], false), false, Inputs([Msg(QUERY, []), Msg(PARSE, []), Msg(EXECUTE, [])]));
            r.Returned? && r.s.ignore && |r.out| == 3 && r.out[2].kind == READY_FOR_QUERY
  {
    var e := RejectingEngine();
    var st := Start(Session([], false), false);
    var q, m, tail := [Msg(QUERY, [])], Msg(PARSE, []), [Message(Msg(EXECUTE, []))];
    assert q[1..] == [];
    assert Through(e, st, 0, q).st.ready && Through(e, st, 0, q).canary == 1;
    ErrorEndsPacket(e, Session([], false), false, q, m, tail);
    assert Inputs([Msg(QUERY, []), m, Msg(EXECUTE, [])]) == Inputs(q) + ([Message(m)] + tail);
  }
}
