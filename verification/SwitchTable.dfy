/** The turn of the loop for one message, by the bytes of its type: which messages are
    dispatched, which errors start the skip until Sync, and where a ReadyForQuery comes from. */
module SwitchTable {
  import opened Messages
  import opened SqlEngine
  import opened WireLoop
  import opened ProtocolLaws
  import opened SkipLaws

  /** How a message is answered: d, c and f by nothing; H and S by an error if their body is
      not empty, and then nothing reaches the engine but the abort; all others by the engine. */
  lemma AnswerByType(e: Engine, db: Db, m: Msg)
    ensures Handle(e, db, m) ==
      match m.kind as int
      case 100 => Done(db, [])
      case 99 => Done(db, [])
      case 102 => Done(db, [])
      case 72 => if m.body == [] then Done(db, []) else Failed(e.abort(db), [Msg(69, e.complaint(db, m))])
      case 83 => if m.body == [] then e.run(db, m) else Failed(e.abort(db), [Msg(69, e.complaint(db, m))])
      case _ => e.run(db, m)
  {
  }

  /** The last message of a packet, from any flags: Q, F and S send a ReadyForQuery, a P that
      succeeds withdraws one that is owed, and an error owes one unless it starts the skip. */
  lemma LastMessage(e: Engine, st: Flags, canary: nat, m: Msg)
    requires st.ignore ==> m.kind == 83
    ensures var o := Handle(e, st.db, m);
            var skips := o.Failed? && m.kind in {80, 66, 69, 67, 68, 72};
            var ready := m.kind in {81, 70, 83} || (st.ready && (o.Failed? || m.kind != 80));
            Drive(e, st, canary, [Message(m)]) ==
            if m.kind == 88 then Returned(Session(st.db, false), [], [])
            else if m.kind !in {81, 80, 66, 69, 70, 67, 68, 72, 83, 100, 99, 102} then Fatal
            else Returned(Session(o.db, skips),
                          o.out + if ready && !st.auth then [Msg(90, [e.status(o.db)])] else [], [m])
  {
    var o := Handle(e, st.db, m);
    assert [m] + [] == [m];
  }

  /** A message with others behind it: only Q, F and S, or a message that leaves an owed
      ReadyForQuery alone, send one here; the tenth error aborts. */
  lemma MessageInFront(e: Engine, st: Flags, canary: nat, m: Msg, behind: seq<Input>)
    requires (st.ignore ==> m.kind == 83) && behind != []
    ensures var o := Handle(e, st.db, m);
            var skips := m.kind in {80, 66, 69, 67, 68, 72};
            var ready := m.kind in {81, 70, 83} || (st.ready && m.kind in {72, 100, 99, 102});
            Drive(e, st, canary, [Message(m)] + behind) ==
            if m.kind == 88 then Returned(Session(st.db, false), [], [])
            else if m.kind !in {81, 80, 66, 69, 70, 67, 68, 72, 83, 100, 99, 102} then Fatal
            else if o.Done? then
              Prepend(o.out + if ready then [Msg(90, [e.status(o.db)])] else [], [m],
                      Drive(e, Flags(o.db, false, false, skips, st.auth), canary, behind))
            else if canary >= 9 then Aborted
            else
              var next := Flags(o.db, skips, st.ready || !skips, skips, st.auth);
              Prepend(o.out, [m], Drive(e, next, canary + 1, behind))
  {
    var inputs := [Message(m)] + behind;
    assert inputs[1..] == behind;
  }

  /** A call on one message outside the skip. It is FATAL exactly for an unknown type; an
      error starts the skip exactly in P, B, E, C, D and H; a ReadyForQuery follows, outside
      authentication, exactly behind Q, F and S, whether they fail or not. */
  lemma OneMessage(e: Engine, s: Session, auth: bool, m: Msg)
    requires !s.ignore
    ensures var r, o := Call(e, s, auth, [Message(m)]), Handle(e, s.db, m);
            && (r.Fatal? <==> m.kind !in {81, 80, 66, 69, 70, 67, 68, 72, 83, 88, 100, 99, 102})
            && (r.Returned? || r.Fatal?)
            && (r.Returned? && m.kind != 88 ==>
                  && r.s.db == o.db && r.ran == [m]
                  && (r.s.ignore <==> o.Failed? && m.kind in {80, 66, 69, 67, 68, 72})
                  && r.out == o.out + if m.kind in {81, 70, 83} && !auth then [Msg(90, [e.status(o.db)])] else [])
            && (m.kind in {88, 100, 99, 102} ==> r == Returned(s, [], if m.kind == 88 then [] else [m]))
  {
    LastMessage(e, Start(s, auth), 0, m);
  }

  /** The last message of any packet that comes to it outside the skip, or that is a Sync: it
      ends the call by its type alone and by whether the message right in front of it failed. */
  lemma LastOfPacket(e: Engine, s: Session, auth: bool, ms: seq<Msg>, m: Msg)
    requires Regular(ms) && (Protocol(e, s, ms).s.ignore ==> m.kind == 83)
    ensures var p, q := Through(e, Start(s, auth), 0, ms), Protocol(e, s, ms);
            var o := Handle(e, q.s.db, m);
            var owed := FailsLast(e, s, ms) && (o.Failed? || m.kind != 80);
            var skips := o.Failed? && m.kind in {80, 66, 69, 67, 68, 72};
            var z := if (m.kind in {81, 70, 83} || owed) && !auth then [Msg(90, [e.status(o.db)])] else [];
            Call(e, s, auth, Inputs(ms) + [Message(m)]) ==
            if p.canary > 9 then Aborted
            else if m.kind == 88 then Returned(Session(q.s.db, false), p.out, q.ran)
            else if m.kind !in {81, 80, 66, 69, 70, 67, 68, 72, 83, 100, 99, 102} then Fatal
            else Returned(Session(o.db, skips), p.out + (o.out + z), q.ran + [m])
  {
    var st := Start(s, auth);
    var p := Through(e, st, 0, ms);
    OwedBehind(e, st, 0, ms);
    DriveThrough(e, st, 0, ms, [Message(m)]);
    LastMessage(e, p.st, p.canary, m);
    assert p.out + [] == p.out && p.ran + [] == p.ran;
  }
}
