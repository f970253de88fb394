/** interactive_one() and what it calls, over the transport's buffers: the handshake, the
    loop, the message switch, the error recovery and the publication of the reply. */
module Backend {
  import opened Messages
  import opened Sequences
  import opened LinearMemory
  import opened SqlEngine
  import opened WireLoop
  import opened Transport
  import opened Handshake
  import opened CallModel

  /** Right behind a request of n bytes at address 1, to the end of the shared part. */
  function BehindRequest(cma: nat, n: nat): Place
    requires n + 2 <= cma
  {
    InMemory(n + 2, cma - n - 2, 0, n + 1)
  }

  /** A place with the bytes before it in the send buffer, cma_rsize, and the reply file as
      it was before the call. */
  datatype Destination = Destination(place: Place, front: seq<byte>, size: nat, before: seq<byte>)

  /** A packet and the way the host sends it. */
  datatype Parcel = Parcel(bytes: seq<byte>, shared: bool)

  function Contents(parcels: seq<Parcel>): (r: seq<seq<byte>>)
    ensures |r| == |parcels|
  {
    seq(|parcels|, i requires 0 <= i < |parcels| => parcels[i].bytes)
  }

  /** How a call ends: with a reply to find, or with the process gone. */
  datatype Exit = Replied | AbortCalled | FatalRaised | TrapRaised

  class Backend {
    const comm: PqComm
    const engine: Engine

    /** The database with ignore_till_sync, send_ready_for_query,
        doing_extended_query_message and ClientAuthInProgress. */
    var flags: Flags
    /** canary_ex: error recoveries of this call that still had data to read. */
    var canary: nat
    /** Where the host finds the reply: channel and cma_wsize, or the renamed file. */
    var channel: int
    var cmaWsize: nat
    var published: seq<byte>

    constructor (transport: PqComm, e: Engine, image: Db)
      requires transport.ReceiveValid() && transport.tail == [] && transport.recv.ptr == transport.recv.len
      requires transport.SendInRange() && transport.lead == 0 && !transport.reading
      requires transport.socket.data == 0 && transport.socket.out == transport.stream == []
      ensures comm == transport && engine == e && flags == Flags(image, false, true, false, false) && Idle()
    {
      comm, engine, flags := transport, e, Flags(image, false, true, false, false);
      canary, channel, cmaWsize, published := 0, 0, 0, [];
    }

    /** The reply is published: SOCKET_DATA is 0 and the reply file is closed or empty. */
    ghost predicate Flushed()
      reads comm, comm.mem
    {
      && comm.ReceiveValid() && comm.SendInRange() && comm.tail == []
      && comm.socket.data == 0 && comm.socket.out == comm.stream == [] && comm.lead == 0
    }

    /** The state between two calls; no call starts with the "flush after frame" path. Bytes
        may be left in the receive buffer. */
    ghost predicate Quiet()
      reads this, comm, comm.mem
    {
      Flushed() && canary == 0
    }

    /** Between two calls, with nothing left of the last request: the next call works. */
    ghost predicate Idle()
      reads this, comm, comm.mem
    {
      Quiet() && !comm.reading && comm.recv.ptr == comm.recv.len
    }

    /** What the next call on shared memory reads. Only a drained buffer is pointed at its
        own request. */
    ghost function Request(): seq<byte>
      requires comm.ReceiveValid() && comm.cmaRsize < comm.cma
      reads comm, comm.mem
    {
      if comm.recv.ptr == comm.recv.len then comm.image[1..1 + comm.cmaRsize] else comm.buffered
    }

    /** Where the next call on shared memory replies: behind its request, or where an earlier
        call left the send buffer. */
    ghost function SharedDestination(): Destination
      requires comm.Layout() && comm.SendInRange() && comm.cmaRsize + 2 <= comm.cma
      reads this, comm, comm.mem
    {
      if comm.recv.ptr == comm.recv.len then
        Destination(BehindRequest(comm.cma, comm.cmaRsize), [], comm.cmaRsize, published)
      else
        var send := comm.send;
        var front := comm.image[send.base..send.base + send.ptr];
        var place := InMemory(send.base, send.size, send.ptr, comm.recv.base + comm.recv.len);
        Destination(place, front, comm.cmaRsize, published)
    }

    /** Where the next call on a request file replies. */
    ghost function FileDestination(): Destination
      reads this, comm
    {
      Destination(InFile(comm.send.base, comm.send.size), [], 0, published)
    }

    /** The send buffer and the end of the request in memory are where the place says. */
    ghost predicate Stays(place: Place)
      reads comm
    {
      && comm.send.base == place.base && comm.send.size == place.size
      && (place.InMemory? && comm.buffered != [] ==> comm.recv.base + comm.recv.len == place.end)
    }

    /** Bytes left unread do not lie where the next reply is written. */
    ghost predicate Clear()
      reads comm
    {
      comm.recv.ptr < comm.recv.len ==>
        || comm.recv.base + comm.recv.len <= comm.send.base
        || comm.send.base + comm.send.size <= comm.recv.base + comm.recv.ptr
    }

    /** The transport can take reply bytes. */
    ghost predicate CanSend()
      reads this, comm, comm.mem
    {
      comm.ReceiveValid() && comm.SendValid() && comm.tail == []
    }

    /** Nothing was sent yet, and the first pq_startmsgread will point the buffers at a
        request in the shared part. */
    ghost predicate Fresh()
      reads this, comm, comm.mem
    {
      && comm.ReceiveValid() && comm.SendInRange() && comm.tail == [] && comm.recv.ptr == comm.recv.len
      && comm.socket == Socket(false, true, [], 0) && comm.stream == [] && comm.lead == 0
    }

    /** The reply of this call is built at its place; it is in the file as soon as it does
        not fit. */
    ghost predicate Placed(place: Place)
      reads comm
    {
      && Stays(place)
      && match place
         case InFile(_, _) => comm.socket.files && comm.lead == 0
         case InMemory(_, size, lead, _) =>
           comm.lead == lead && (comm.socket.files <==> |comm.stream| > lead && |comm.stream| > size)
    }

    /** Some of the request was read, or nothing is left of it. */
    ghost predicate Moved()
      reads comm
    {
      comm.buffered == [] || comm.recv.ptr > 0
    }

    /** The next pq_startmsgread exposes the bytes unread: they are buffered, or they are the
        shared request, which a drained buffer is rewound to. Nothing but the loop guard
        keeps a request that is read to its end from being exposed again. */
    ghost predicate Reading(place: Place, unread: seq<byte>)
      reads this, comm, comm.mem
    {
      Exposed(place, unread) && !comm.reading
    }

    ghost predicate Exposed(place: Place, unread: seq<byte>)
      reads this, comm, comm.mem
    {
      && comm.cmaRsize + 2 <= comm.cma && unread != []
      && (Amid(place, unread)
          || (place == BehindRequest(comm.cma, comm.cmaRsize) && Fresh() && comm.image[1..1 + comm.cmaRsize] == unread))
    }

    /** Some of the request is buffered and unread. */
    ghost predicate Amid(place: Place, unread: seq<byte>)
      reads this, comm, comm.mem
    {
      comm.recv.ptr < comm.recv.len && CanSend() && Placed(place) && comm.buffered == unread
    }

    /** pq_startmsgread outside a message. */
    method BeginRead(ghost unread: seq<byte>, ghost place: Place)
      requires Reading(place, unread)
      modifies comm`recv, comm`buffered, comm`send, comm`reading
      ensures CanSend() && Placed(place) && comm.buffered == unread && comm.reading
    {
      var lost := comm.StartMsgRead();
    }

    /** Reading goes on towards the same end, until it is reached. */
    twostate predicate KeepsEnd()
      reads comm
    {
      comm.buffered != [] ==> comm.recv.base + comm.recv.len == old(comm.recv.base + comm.recv.len)
    }

    /** The type byte of a message. */
    method TakeKind() returns (kind: byte)
      requires CanSend() && comm.buffered != []
      modifies comm`recv, comm`query, comm`buffered, comm`tail
      ensures CanSend() && comm.recv.ptr > 0 && old(comm.buffered) == [kind] + comm.buffered
      ensures KeepsEnd()
    {
      assert comm.buffered + comm.tail == comm.buffered;
      var c := comm.GetByte();
      assert comm.buffered + comm.tail == comm.buffered;
      kind := c as byte;
    }

    /** What follows it. */
    method TakeFrame() returns (frame: Frame)
      requires CanSend() && comm.reading && comm.recv.ptr > 0
      modifies comm`recv, comm`query, comm`buffered, comm`tail, comm`reading
      ensures CanSend() && Moved() && (frame, comm.buffered) == NextFrame(old(comm.buffered))
      ensures (comm.reading <==> frame.Torn?) && KeepsEnd()
    {
      assert comm.buffered + comm.tail == comm.buffered;
      frame := comm.GetMessage();
      assert comm.buffered + comm.tail == comm.buffered;
    }

    /** What SocketBackend does to the flags. */
    method NoteKind(kind: byte)
      modifies this`flags
      ensures flags == AfterSocketBackend(old(flags), Eof(kind))
    {
      flags := flags.(extended := ExtendedKind(kind));
      if kind in {SYNC, TERMINATE} {
        flags := flags.(ignore := false);
      }
    }

    /** The rest of SocketBackend: the type byte with the flags it sets, then the message. */
    method ReadMessage() returns (input: Input)
      requires CanSend() && comm.buffered != [] && comm.reading
      modifies this`flags, comm`recv, comm`query, comm`buffered, comm`tail, comm`reading
      ensures CanSend() && Moved() && (input, comm.buffered) == NextInput(old(comm.buffered))
      ensures (comm.reading <==> input.Eof?) && KeepsEnd()
      ensures flags == AfterSocketBackend(old(flags), input)
    {
      var kind := TakeKind();
      NextInputAfterKind(kind, comm.buffered);
      NoteKind(kind);
      var frame := TakeFrame();
      input := InputOf(kind, frame);
    }

    /** SocketBackend: one message off the bytes of the request. The first one of a shared
        request also points both buffers. */
    method SocketBackend(ghost unread: seq<byte>, ghost place: Place) returns (input: Input)
      requires Reading(place, unread)
      modifies this`flags, comm`recv, comm`query, comm`buffered, comm`tail, comm`send, comm`reading
      ensures CanSend() && Placed(place) && Moved() && (input, comm.buffered) == NextInput(unread)
      ensures flags == AfterSocketBackend(old(flags), input)
      ensures comm.reading <==> input.Eof?
    {
      BeginRead(unread, place);
      input := ReadMessage();
    }

    /** The reply grew by b, and the unread bytes are seen through it. */
    twostate predicate Sends(place: Place, b: seq<byte>)
      reads comm
    {
      && comm.stream == old(comm.stream) + b
      && comm.buffered == Seen(old(comm.buffered), place, |old(comm.stream)|, b)
    }

    /** Everything a handler or the loop sends. */
    method Reply(out: seq<Msg>, ghost place: Place)
      requires CanSend() && Placed(place)
      modifies comm`send, comm`socket, comm`stream, comm`image, comm`buffered, comm.mem
      ensures CanSend() && Placed(place)
      ensures Sends(place, EncodeAll(out))
    {
      ghost var m, files, n, s := comm.image, comm.socket.files, |comm.stream|, comm.buffered;
      ghost var lo, hi := comm.recv.base + comm.recv.ptr, comm.recv.base + comm.recv.len;
      assert s == m[lo..hi];
      comm.PutReply(out);
      assert comm.buffered == comm.image[lo..hi];
      WrittenIsSeen(s, place, files, m, n, EncodeAll(out), comm.image, lo, hi);
    }

    method SendReadyForQuery(ghost place: Place)
      requires CanSend() && Placed(place)
      modifies this`flags, comm`send, comm`socket, comm`stream, comm`image, comm`buffered, comm.mem
      ensures CanSend() && Placed(place) && flags == old(flags).(ready := false)
      ensures Sends(place, EncodeAll([ReadyForQuery(engine, flags.db)]))
    {
      Reply([ReadyForQuery(engine, flags.db)], place);
      comm.Flush();
      flags := flags.(ready := false);
    }

    /** clear_error: report, abort the transaction, and decide between skipping to the next
        Sync and owing a ReadyForQuery. Its FATAL for an error inside a message is not
        reached from here. */
    method ClearError(o: Outcome, ghost place: Place)
      requires CanSend() && Placed(place) && !comm.reading
      modifies this`flags, comm`send, comm`socket, comm`stream, comm`image, comm`buffered, comm.mem
      ensures CanSend() && Placed(place) && flags == WireLoop.ClearError(old(flags), o.db)
      ensures Sends(place, EncodeAll(o.out))
    {
      Reply(o.out, place);
      flags := flags.(db := o.db);
      if flags.extended {
        flags := flags.(ignore := true);
      }
      if !flags.ignore {
        flags := flags.(ready := true);
      }
    }

    /** The messages a step sent, and the jump and flags it ends with. */
    ghost function Sent(step: StepResult): seq<Msg> {
      if step.Handled? || step.Raised? then step.out else []
    }

    ghost predicate Agrees(jump: Jump, step: StepResult)
      reads this
    {
      match step
      case Handled(st, _) => jump == FallThrough && flags == st
      case Raised(st, _) => jump == LongJump && flags == st
      case Closed(st) => jump == ToFlush && flags == st
      case _ => jump == Dead
    }

    /** What the arms of the switch do after their work succeeded. */
    method ArmDone(kind: byte, pipelining: bool, ghost place: Place)
      requires CanSend() && Placed(place)
      modifies this`flags, comm`send
      ensures CanSend() && Placed(place)
      ensures flags == old(flags).(ready := ReadyAfter(kind, old(flags.ready), pipelining))
    {
      if kind == FLUSH {
        comm.Flush();
      } else if CycleKind(kind) {
        flags := flags.(ready := true);
      } else if kind == PARSE {
        flags := flags.(ready := false);
      } else if kind in {BIND, EXECUTE, CLOSE, DESCRIBE} {
        if flags.ready {
          flags := flags.(ready := !pipelining);
        }
      }
    }

    /** The switch of pg_proto.c. */
    method Dispatch(input: Input, pipelining: bool, ghost place: Place) returns (jump: Jump, ghost step: StepResult)
      requires CanSend() && Placed(place) && (comm.reading <==> input.Eof?)
      modifies this`flags, comm`send, comm`socket, comm`stream, comm`image, comm`buffered, comm.mem
      ensures CanSend() && Placed(place)
      ensures step == Switch(engine, old(flags), input, pipelining) && Agrees(jump, step)
      ensures Sends(place, EncodeAll(Sent(step)))
      ensures input.Eof? || input.m.kind == 88 ==>
        jump == ToFlush && flags == old(flags).(ignore := false, ready := false) && comm.stream == old(comm.stream)
      ensures jump == Dead <==>
        input.Message? && input.m.kind !in {81, 80, 66, 69, 70, 67, 68, 72, 83, 88, 100, 99, 102}
    {
      step := Switch(engine, flags, input, pipelining);
      SeenNothing(comm.buffered, place, |comm.stream|);
      if Closes(input) {
        flags := flags.(ignore := false, ready := false);
        return ToFlush, step;
      }
      var kind := input.m.kind;
      if !RegularKind(kind) {
        return Dead, step;
      }
      var o := Handle(engine, flags.db, input.m);
      if o.Failed? {
        ClearError(o, place);
        return LongJump, step;
      }
      Reply(o.out, place);
      flags := flags.(db := o.db);
      ArmDone(kind, pipelining, place);
      return FallThrough, step;
    }

    /** Where a long jump resumes: at incoming while data remains, nine times a call. */
    method Recover(pipelining: bool) returns (jump: Jump)
      modifies this`canary
      ensures pipelining ==> canary == old(canary) + 1
      ensures pipelining ==> jump == if old(canary) >= MAX_RECOVERIES then Abort else FallThrough
      ensures !pipelining ==> jump == ToFlush && canary == old(canary)
    {
      if pipelining {
        canary := canary + 1;
        if canary - 1 > 8 {
          return Abort;
        }
        return FallThrough;
      }
      return ToFlush;
    }

    /** The end of the loop body: an owed ReadyForQuery goes out if more data follows. */
    method EndOfTurn(pipelining: bool, ghost place: Place)
      requires CanSend() && Placed(place)
      modifies this`flags, comm`send, comm`socket, comm`stream, comm`image, comm`buffered, comm.mem
      ensures CanSend() && Placed(place)
      ensures flags == if pipelining then old(flags).(ready := false) else old(flags)
      ensures Sends(place, EncodeAll(if pipelining then PendingReady(engine, old(flags)) else []))
    {
      SeenNothing(comm.buffered, place, |comm.stream|);
      if pipelining && flags.ready {
        SendReadyForQuery(place);
      }
    }

    /** What a reply that began behind before, with unread bytes s, has come to. */
    ghost predicate Grown(place: Place, before: seq<byte>, s: seq<byte>, out: seq<Msg>)
      reads comm
    {
      && comm.stream == before + EncodeAll(out)
      && comm.buffered == Seen(s, place, |before|, EncodeAll(out))
    }

    lemma GrownTwice(place: Place, before: seq<byte>, s: seq<byte>, out: seq<Msg>, more: seq<Msg>)
      ensures before + EncodeAll(out) + EncodeAll(more) == before + EncodeAll(out + more)
      ensures Seen(Seen(s, place, |before|, EncodeAll(out)), place, |before + EncodeAll(out)|, EncodeAll(more))
           == Seen(s, place, |before|, EncodeAll(out + more))
    {
      EncodeAllAppend(out, more);
      AppendAssoc(before, EncodeAll(out), EncodeAll(more));
      SeenTwice(s, place, |before|, EncodeAll(out), EncodeAll(more));
    }

    /** What follows the switch: the recovery of a long jump, or the end of the loop body. */
    method AfterSwitch(jump: Jump, pipelining: bool, input: Input, ghost step: StepResult, ghost st: Flags,
                       ghost place: Place, ghost before: seq<byte>, ghost s: seq<byte>)
      returns (next: Jump, ghost more: seq<Msg>)
      requires CanSend() && Placed(place) && Agrees(jump, step) && !step.Skipped? && Grown(place, before, s, Sent(step))
      requires step.Handled? || step.Raised? ==> input.Message?
      modifies this`flags, this`canary, comm`send, comm`socket, comm`stream, comm`image, comm`buffered, comm.mem
      ensures CanSend() && Placed(place) && Grown(place, before, s, Sent(step) + more)
      ensures var t := TurnOf(engine, step, st, old(canary), input, pipelining);
              next == t.jump && Sent(step) + more == t.out && (next != Dead ==> flags == t.st && canary == t.canary)
    {
      next, more := jump, [];
      assert Sent(step) + [] == Sent(step);
      if jump == LongJump {
        next := Recover(pipelining);
      } else if jump == FallThrough {
        more := if pipelining then PendingReady(engine, flags) else [];
        GrownTwice(place, before, s, Sent(step), more);
        EndOfTurn(pipelining, place);
      }
    }

    /** The body of the loop after SocketBackend. st is what the flags were before it. */
    method Turn(input: Input, pipelining: bool, ghost st: Flags, ghost place: Place)
      returns (jump: Jump, ghost out: seq<Msg>, ghost ran: seq<Msg>)
      requires CanSend() && Placed(place) && (comm.reading <==> input.Eof?) && flags == AfterSocketBackend(st, input)
      modifies this`flags, this`canary, comm`send, comm`socket, comm`stream, comm`image, comm`buffered, comm.mem
      ensures CanSend() && Placed(place)
      ensures Sends(place, EncodeAll(out))
      ensures var t := WireLoop.Turn(engine, st, old(canary), input, pipelining);
              jump == t.jump && out == t.out && ran == t.ran && (jump != Dead ==> flags == t.st && canary == t.canary)
    {
      SeenNothing(comm.buffered, place, |comm.stream|);
      if flags.ignore && input.Message? && input.m.kind != SYNC {
        return FallThrough, [], [];
      }
      jump, out, ran := SwitchTurn(input, pipelining, st, place);
    }

    /** The rest of it for a message that is not skipped. */
    method SwitchTurn(input: Input, pipelining: bool, ghost st: Flags, ghost place: Place)
      returns (jump: Jump, ghost out: seq<Msg>, ghost ran: seq<Msg>)
      requires CanSend() && Placed(place) && (comm.reading <==> input.Eof?) && !SkippedTillSync(flags, input)
      modifies this`flags, this`canary, comm`send, comm`socket, comm`stream, comm`image, comm`buffered, comm.mem
      ensures CanSend() && Placed(place) && Sends(place, EncodeAll(out))
      ensures var step := Switch(engine, old(flags), input, pipelining);
              var t := TurnOf(engine, step, st, old(canary), input, pipelining);
              && jump == t.jump && out == t.out && (jump != Dead ==> flags == t.st && canary == t.canary)
              && ran == (if step.Handled? || step.Raised? then [input.m] else [])
    {
      ghost var step, more;
      jump, step := Dispatch(input, pipelining, place);
      jump, more := AfterSwitch(jump, pipelining, input, step, st, place, old(comm.stream), old(comm.buffered));
      out, ran := Sent(step) + more, if step.Handled? || step.Raised? then [input.m] else [];
    }

    /** What a turn finds. */
    ghost function Now(unread: seq<byte>): View
      reads this, comm
    {
      View(flags, canary, |comm.stream|, unread)
    }

    /** The state behind a turn, or behind the last one. */
    ghost predicate Reached(m: Move)
      reads this, comm
    {
      && (comm.reading <==> m.torn)
      && (m.jump !in {Dead, Trap} ==> m.next.st == flags && m.next.n == |comm.stream| && m.next.unread == comm.buffered)
      && (m.jump == FallThrough ==> m.next.canary == canary)
    }

    /** One turn of the while (pipelining) loop. */
    method LoopBody(ghost unread: seq<byte>, ghost place: Place) returns (jump: Jump, pipelining: bool, ghost m: Move)
      requires Reading(place, unread)
      modifies this`flags, this`canary
      modifies comm`recv, comm`query, comm`buffered, comm`tail, comm`reading
      modifies comm`send, comm`socket, comm`stream, comm`image, comm.mem
      ensures CanSend() && Placed(place) && Moved() && comm.stream == old(comm.stream) + EncodeAll(m.out)
      ensures LoopMove(engine, place, old(Now(unread)), m) && Reached(m) && jump == m.jump
      ensures (pipelining <==> comm.buffered != []) && |comm.buffered| < |unread|
      ensures jump == FallThrough ==> !comm.reading
    {
      ghost var v := Now(unread);
      var input := SocketBackend(unread, place);
      pipelining := comm.recv.ptr < comm.recv.len;
      jump, m := MakeMove(input, pipelining, v, place);
    }

    /** The turn v begins, from the message that was read on. */
    method MakeMove(input: Input, pipelining: bool, ghost v: View, ghost place: Place)
      returns (jump: Jump, ghost m: Move)
      requires CanSend() && Placed(place) && flags == AfterSocketBackend(v.st, input) && (comm.reading <==> input.Eof?)
      requires v.unread != [] && (input, comm.buffered) == NextInput(v.unread) && (pipelining <==> comm.buffered != [])
      requires v.canary == canary && v.n == |comm.stream|
      modifies this`flags, this`canary, comm`send, comm`socket, comm`stream, comm`image, comm`buffered, comm.mem
      ensures CanSend() && Placed(place) && comm.stream == old(comm.stream) + EncodeAll(m.out)
      ensures LoopMove(engine, place, v, m) && Reached(m) && jump == m.jump
      ensures (jump == FallThrough ==> !comm.reading) && |comm.buffered| == |old(comm.buffered)|
    {
      ghost var out, ran;
      jump, out, ran := Turn(input, pipelining, v.st, place);
      JumpOfTurn(engine, v.st, v.canary, input, pipelining);
      m := Move(jump, out, ran, [input], Now(comm.buffered), input.Eof?);
    }

    /** A turn behind those that led from v0 to here. */
    method NextTurn(ghost v0: View, ghost moves: seq<Move>, ghost unread: seq<byte>, ghost place: Place)
      returns (jump: Jump, pipelining: bool, ghost m: Move)
      requires Reading(place, unread) && Leads(engine, place, false, v0, moves) && Behind(v0, moves) == Now(unread)
      modifies this`flags, this`canary
      modifies comm`recv, comm`query, comm`buffered, comm`tail, comm`reading
      modifies comm`send, comm`socket, comm`stream, comm`image, comm.mem
      ensures CanSend() && Placed(place) && Moved() && comm.stream == old(comm.stream) + EncodeAll(m.out)
      ensures Reached(m) && jump == m.jump && OutOf(moves + [m]) == OutOf(moves) + m.out
      ensures (pipelining <==> comm.buffered != []) && |comm.buffered| < |unread|
      ensures if jump == FallThrough && pipelining then
                && !comm.reading
                && Leads(engine, place, false, v0, moves + [m]) && Behind(v0, moves + [m]) == Now(comm.buffered)
              else Path(engine, place, false, v0, moves + [m])
    {
      jump, pipelining, m := LoopBody(unread, place);
      LeadsOn(engine, place, false, v0, moves, m);
    }

    /** The while (pipelining) loop, with the long jump back to incoming, turn by turn. */
    method MessageLoop(ghost request: seq<byte>, ghost place: Place) returns (exit: Jump, ghost moves: seq<Move>)
      requires Reading(place, request)
      modifies this`flags, this`canary
      modifies comm`recv, comm`query, comm`buffered, comm`tail, comm`reading
      modifies comm`send, comm`socket, comm`stream, comm`image, comm.mem
      ensures CanSend() && Placed(place) && Moved() && comm.stream == old(comm.stream) + EncodeAll(OutOf(moves))
      ensures Path(engine, place, false, old(Now(request)), moves)
      ensures Reached(moves[|moves| - 1]) && exit == moves[|moves| - 1].jump
    {
      ghost var v0, unread := Now(request), request;
      moves := [];
      while true
        invariant Reading(place, unread) && comm.stream == old(comm.stream) + EncodeAll(OutOf(moves))
        invariant Leads(engine, place, false, v0, moves) && Behind(v0, moves) == Now(unread)
        decreases |unread|
      {
        var pipelining;
        ghost var m;
        exit, pipelining, m := NextTurn(v0, moves, unread, place);
        EncodeAllAppend(OutOf(moves), m.out);
        AppendAssoc(old(comm.stream), EncodeAll(OutOf(moves)), EncodeAll(m.out));
        moves := moves + [m];
        if exit != FallThrough || !pipelining {
          return;
        }
        unread := comm.buffered;
      }
    }

    /** Where a reply is found: nowhere if it is empty, in the published file behind what the
        send buffer held, or at its place in memory. The host looks behind the request. */
    ghost predicate Found(reply: seq<byte>, d: Destination)
      reads this, comm.mem
    {
      if reply == [] then cmaWsize == 0
      else if channel == -1 then cmaWsize == 0 && published == d.front + reply
      else
        && d.place.InMemory? && channel == d.size + 2 && cmaWsize == |reply|
        && var at := d.place.base + d.place.lead;
           at + |reply| <= comm.mem.Length && comm.mem[at..at + |reply|] == reply
    }

    /** The file takes over exactly when the place has no room for the whole reply. */
    predicate Spills(reply: seq<byte>, place: Place) {
      place.InFile? || place.lead + |reply| > place.size
    }

    /** The end of wire_flush: SOCKET_FILE is closed, and renamed if the reply is in it. */
    method Publish(ghost reply: seq<byte>, ghost d: Destination)
      requires CanSend() && Placed(d.place) && cmaWsize == 0 && published == d.before && comm.cmaRsize == d.size
      requires comm.stream == d.front + reply && |d.front| == comm.lead
      modifies this`channel, this`cmaWsize, this`published, comm`socket, comm`stream, comm`lead
      ensures Flushed() && Found(reply, d)
      ensures reply != [] ==> (channel == -1 <==> Spills(reply, d.place))
      ensures reply == [] ==> published == if d.place.InFile? then [] else d.before
    {
      if comm.socket.data > 0 {
        PublishReply(reply, d);
        comm.socket := comm.socket.(open := false, out := [], data := 0);
      } else {
        cmaWsize := 0;
        if comm.socket.files {
          published := comm.socket.out;
          comm.socket := comm.socket.(open := false, out := []);
        }
      }
      comm.stream, comm.lead := [], 0;
    }

    /** Where a reply that is not empty is announced. */
    method PublishReply(ghost reply: seq<byte>, ghost d: Destination)
      requires CanSend() && Placed(d.place) && cmaWsize == 0 && comm.cmaRsize == d.size
      requires comm.stream == d.front + reply && |d.front| == comm.lead && reply != []
      modifies this`channel, this`cmaWsize, this`published
      ensures Found(reply, d) && (channel == -1 <==> Spills(reply, d.place))
    {
      if comm.socket.files {
        channel := -1;
        published := comm.socket.out;
      } else {
        cmaWsize := comm.socket.data;
        channel := comm.cmaRsize + 2;
        Behindmost(comm.image, comm.send.base, d.front, reply);
        ghost var at := comm.send.base + comm.lead;
        assert comm.mem[at..at + |reply|] == comm.image[at..at + |reply|];
      }
    }

    /** wire_flush: the ReadyForQuery still owed, outside authentication, then publication. */
    method WireFlush(ghost sent: seq<byte>, ghost d: Destination) returns (ghost reply: seq<byte>)
      requires CanSend() && Placed(d.place) && cmaWsize == 0 && published == d.before && comm.cmaRsize == d.size
      requires comm.stream == d.front + sent && |d.front| == comm.lead
      modifies this`flags, this`channel, this`cmaWsize, this`published
      modifies comm`send, comm`socket, comm`stream, comm`lead, comm`image, comm`buffered, comm.mem
      ensures Flushed() && Stays(d.place) && flags == AfterFlush(old(flags))
      ensures (flags.auth ==> comm.send == old(comm.send))
      ensures reply == sent + EncodeAll(FinalReady(engine, old(flags))) && Found(reply, d)
      ensures reply != [] ==> (channel == -1 <==> Spills(reply, d.place))
      ensures reply == [] ==> published == if d.place.InFile? then [] else d.before
      ensures var ready := EncodeAll(FinalReady(engine, old(flags)));
              comm.buffered == Seen(old(comm.buffered), d.place, |old(comm.stream)|, ready)
    {
      reply := sent + EncodeAll(FinalReady(engine, flags));
      AppendAssoc(d.front, sent, EncodeAll(FinalReady(engine, flags)));
      if !flags.auth && flags.ready {
        SendReadyForQuery(d.place);
      } else {
        assert reply == sent;
        SeenNothing(comm.buffered, d.place, |comm.stream|);
      }
      Publish(reply, d);
    }

    method FlushReplies(ghost r: CallResult, ghost out: seq<Msg>, ghost ran: seq<Msg>, ghost d: Destination)
      requires CanSend() && Placed(d.place) && cmaWsize == 0 && published == d.before && comm.cmaRsize == d.size
      requires comm.stream == d.front + EncodeAll(out) && |d.front| == comm.lead
      requires r == Prepend(out, ran, Finish(engine, flags))
      modifies this`flags, this`channel, this`cmaWsize, this`published
      modifies comm`send, comm`socket, comm`stream, comm`lead, comm`image, comm`buffered, comm.mem
      ensures Flushed() && Stays(d.place) && Ends(Replied, r, d) && flags == AfterFlush(old(flags))
      ensures flags.auth ==> comm.send == old(comm.send)
      ensures var ready := EncodeAll(FinalReady(engine, old(flags)));
              comm.buffered == Seen(old(comm.buffered), d.place, |old(comm.stream)|, ready)
    {
      EncodeAllAppend(out, FinalReady(engine, flags));
      EncodeAllInjective(r.out, []);
      ghost var reply := WireFlush(EncodeAll(out), d);
    }

    /** This exit is the one the functional loop predicts, with its session and its reply,
        in the file exactly when its place has no room for all of it. */
    ghost predicate Ends(exit: Exit, r: CallResult, d: Destination)
      reads this, comm.mem
    {
      match r
      case Aborted => exit == AbortCalled
      case Fatal => exit == FatalRaised
      case Trapped => exit == TrapRaised
      case Returned(s, out, _) =>
        && exit == Replied && flags.db == s.db && flags.ignore == s.ignore
        && Found(EncodeAll(out), d)
        && (out != [] ==> (channel == -1 <==> Spills(EncodeAll(out), d.place)))
        && (out == [] ==> published == if d.place.InFile? then [] else d.before)
    }

    /** return_early: free the shared request and the exception counter. The reply and the
        bytes left unread stay where they are. */
    method Cleanup(ghost r: CallResult, ghost d: Destination)
      requires Flushed() && Ends(Replied, r, d) && (d.place.InMemory? ==> d.place.base >= 2)
      modifies this`canary, comm`cmaRsize, comm`image, comm`buffered, comm.mem
      ensures Freed() && Quiet() && Ends(Replied, r, d)
      ensures |comm.buffered| == |old(comm.buffered)|
      ensures old(Moved() || comm.buffered[0] == 0) ==> comm.buffered == old(comm.buffered)
    {
      comm.cmaRsize := 0;
      comm.mem[1] := 0;
      comm.image := comm.image[1 := 0];
      comm.buffered := comm.image[comm.recv.base + comm.recv.ptr..comm.recv.base + comm.recv.len];
      canary := 0;
      if r.out != [] && channel != -1 {
        ghost var at := d.place.base + d.place.lead;
        EncodeAllInjective(r.out, []);
        assert comm.mem[at..at + cmaWsize] == old(comm.mem[at..at + cmaWsize]);
      }
    }

    /** The call has freed the request with its first byte, the exception counter and the
        reply file. */
    ghost predicate Freed()
      reads this, comm
    {
      && comm.cmaRsize == 0 && canary == 0 && comm.socket.data == 0 && comm.socket.out == []
      && |comm.image| > 1 && comm.image[1] == 0
    }

    /** The start of every call: the reply file is open, nothing is owed. */
    method Prepare(file: bool)
      requires Quiet()
      modifies this`flags, comm`socket
      ensures Quiet() && comm.socket == Socket(file, true, [], 0) && flags == old(flags).(ready := false)
    {
      if !comm.socket.open {
        comm.socket := comm.socket.(open := true, out := []);
      }
      flags := flags.(ready := false);
      comm.socket := comm.socket.(files := file);
    }

    /** The call ends as h says: exit, session, reply and its place, the other flags, and the
        bytes left in the buffer. */
    ghost predicate EndsAs(exit: Exit, h: CallEnd, d: Destination)
      reads this, comm, comm.mem
    {
      && Ends(exit, h.r, d)
      && (exit == Replied ==>
            && Freed() && Quiet() && Stays(d.place)
            && flags == h.st && (comm.reading <==> h.torn) && comm.buffered == h.rest)
    }

    /** From wire_flush to the end of the call. */
    method FlushAndClean(ghost out: seq<Msg>, ghost ran: seq<Msg>, ghost d: Destination)
      requires CanSend() && Placed(d.place) && cmaWsize == 0 && published == d.before && comm.cmaRsize == d.size
      requires comm.stream == d.front + EncodeAll(out) && |d.front| == comm.lead
      requires Moved() || (d.place.InFile? && comm.buffered[0] == 0)
      modifies this, comm`send, comm`socket, comm`stream, comm`lead, comm`buffered, comm`image, comm`cmaRsize, comm.mem
      ensures EndsAs(Replied, old(ByFlush(engine, d.place, out, ran, Now(comm.buffered), comm.reading)), d)
      ensures flags.auth ==> comm.send == old(comm.send)
    {
      ghost var r := Prepend(out, ran, Finish(engine, flags));
      FlushReplies(r, out, ran, d);
      Cleanup(r, d);
    }

    /** What the last turn leads to. */
    method LeaveLoop(jump: Jump, ghost moves: seq<Move>, ghost d: Destination) returns (exit: Exit)
      requires CanSend() && Placed(d.place) && cmaWsize == 0 && published == d.before && comm.cmaRsize == d.size
      requires moves != [] && Reached(moves[|moves| - 1]) && jump == moves[|moves| - 1].jump && Moved()
      requires comm.stream == d.front + EncodeAll(OutOf(moves)) && |d.front| == comm.lead
      modifies this, comm`send, comm`socket, comm`stream, comm`lead, comm`buffered, comm`image, comm`cmaRsize, comm.mem
      ensures EndsAs(exit, EndOf(engine, d.place, moves), d)
    {
      if jump == FallThrough || jump == ToFlush {
        FlushAndClean(OutOf(moves), RanOf(moves), d);
        return Replied;
      }
      match jump
      case Abort => exit := AbortCalled;
      case Trap => exit := TrapRaised;
      case _ => exit := FatalRaised;
    }

    /** The state before the first message of a call is read. */
    ghost predicate Starting(request: seq<byte>, d: Destination)
      reads this, comm, comm.mem
    {
      && Exposed(d.place, request) && comm.stream == d.front && |d.front| == comm.lead == LeadOf(d.place)
      && canary == 0 && !flags.ready && cmaWsize == 0 && published == d.before && comm.cmaRsize == d.size
      && (d.place.InMemory? <==> d.size > 0)
    }

    /** The turns of a call from flags st, and its end. */
    ghost predicate EndsBy(exit: Exit, password: bool, st: Flags, request: seq<byte>, d: Destination, moves: seq<Move>)
      reads this, comm, comm.mem
    {
      && Path(engine, d.place, password, View(st, 0, LeadOf(d.place), request), moves)
      && EndsAs(exit, EndOf(engine, d.place, moves), d)
    }

    /** The rest of a call, from its first message on. */
    method ServeAndClean(ghost request: seq<byte>, ghost d: Destination) returns (exit: Exit, ghost moves: seq<Move>)
      requires Starting(request, d) && !comm.reading
      modifies this, comm, comm.mem
      ensures EndsBy(exit, false, old(flags), request, d, moves)
    {
      var jump;
      jump, moves := MessageLoop(request, d.place);
      exit := LeaveLoop(jump, moves, d);
    }

    // ---------- The handshake ----------

    /** discard_input: nothing in file mode, otherwise as many bytes as the request has. They
        drain a buffer that is pointed at the request; of an older one they may leave some. */
    method DiscardInput(ghost request: seq<byte>, ghost place: Place)
      requires Exposed(place, request) && (place.InMemory? <==> comm.cmaRsize > 0)
      requires (place.InMemory? ==> !comm.reading)
      modifies comm`recv, comm`query, comm`buffered, comm`tail, comm`send, comm`reading
      ensures CanSend() && Placed(place) && comm.reading == old(comm.reading)
      ensures comm.buffered == if place.InMemory? then Discarded(request, comm.cmaRsize) else request
      ensures if place.InMemory? then Moved() else comm.recv == old(comm.recv)
    {
      if comm.cmaRsize == 0 {
        return;
      }
      BeginRead(request, place);
      var i := 0;
      while i < comm.cmaRsize
        invariant CanSend() && i <= comm.cmaRsize && comm.buffered == Discarded(request, i)
        invariant (i > 0 ==> Moved()) && Placed(place)
        modifies comm`recv, comm`query, comm`buffered, comm`tail
      {
        DiscardByte();
        i := i + 1;
      }
      comm.EndMsgRead();
    }

    method DiscardByte()
      requires CanSend()
      modifies comm`recv, comm`query, comm`buffered, comm`tail
      ensures CanSend() && Moved() && comm.buffered == Discarded(old(comm.buffered), 1)
      ensures KeepsEnd()
    {
      assert comm.buffered + comm.tail == comm.buffered;
      var c := comm.GetByte();
      assert comm.buffered + comm.tail == comm.buffered;
    }

    /** startup_auth. ProcessStartupPacket is a stub: every packet is accepted unread. */
    method StartupAuth(ghost request: seq<byte>, ghost d: Destination)
      requires Starting(request, d) && (d.place.InMemory? ==> !comm.reading)
      modifies this`flags, comm`recv, comm`query, comm`buffered, comm`tail, comm`reading
      modifies comm`send, comm`socket, comm`stream, comm`image, comm.mem
      ensures CanSend() && Placed(d.place) && comm.reading == old(comm.reading) && flags == old(flags).(auth := true)
      ensures comm.stream == d.front + EncodeAll([PasswordRequest()])
      ensures var rest := if d.place.InMemory? then Discarded(request, comm.cmaRsize) else request;
              comm.buffered == Seen(rest, d.place, LeadOf(d.place), EncodeAll([PasswordRequest()]))
      ensures if d.place.InMemory? then Moved() else comm.recv == old(comm.recv) && comm.send.ptr == 0
    {
      flags := flags.(ready := false);
      DiscardInput(request, d.place);
      flags := flags.(auth := true);
      AskForPassword(d.place);
    }

    method AskForPassword(ghost place: Place)
      requires CanSend() && Placed(place)
      modifies comm`send, comm`socket, comm`stream, comm`image, comm`buffered, comm.mem
      ensures CanSend() && Placed(place) && Sends(place, EncodeAll([PasswordRequest()]))
      ensures place.InFile? ==> comm.send.ptr == 0
    {
      Reply([PasswordRequest()], place);
      comm.Flush();
    }

    method ReadPassword() returns (got: Received)
      requires CanSend() && comm.buffered != [] && comm.reading
      modifies comm`recv, comm`query, comm`buffered, comm`tail, comm`reading
      ensures CanSend() && Moved() && (got, comm.buffered) == ReceivePassword(old(comm.buffered))
      ensures KeepsEnd()
      ensures got.Good? || got.Bad? ==> !comm.reading
    {
      var kind := TakeKind();
      if kind != PASSWORD {
        return Foreign;
      }
      NextInputAfterKind(PASSWORD, comm.buffered);
      var frame := TakeFrame();
      match frame
      case Torn => return Null;
      case Whole(body) =>
        if 4 + |body| > PG_MAX_AUTH_TOKEN_LENGTH {
          return Null;
        }
        return if PasswordOk(body) then Good else Bad(Msg(PASSWORD, body));
    }

    /** recv_password_packet */
    method RecvPasswordPacket(ghost unread: seq<byte>, ghost place: Place) returns (got: Received)
      requires Reading(place, unread)
      modifies comm`recv, comm`query, comm`buffered, comm`tail, comm`send, comm`reading
      ensures CanSend() && Placed(place) && Moved() && (got, comm.buffered) == ReceivePassword(unread)
      ensures got.Good? || got.Bad? ==> !comm.reading
    {
      BeginRead(unread, place);
      got := ReadPassword();
    }

    /** startup_pass after the password was received. */
    method Welcoming(ghost place: Place) returns (ghost out: seq<Msg>)
      requires CanSend() && Placed(place)
      modifies this`flags, comm`send, comm`socket, comm`stream, comm`image, comm`buffered, comm.mem
      ensures CanSend() && Placed(place) && flags == Welcomed(old(flags))
      ensures out == Welcome(engine, flags.db) && Sends(place, EncodeAll(out))
    {
      flags := flags.(auth := false);
      Reply(Welcome(engine, flags.db), place);
      flags := flags.(ready := true, ignore := false);
      out := Welcome(engine, flags.db);
    }

    /** The error of a bad password message and the recovery from it. */
    method RejectPassword(m: Msg, ghost place: Place) returns (jump: Jump, ghost out: seq<Msg>)
      requires CanSend() && Placed(place) && !comm.reading
      modifies this`flags, this`canary, comm`send, comm`socket, comm`stream, comm`image, comm`buffered, comm.mem
      ensures CanSend() && Placed(place) && Sends(place, EncodeAll(out))
      ensures var o := Rejected(engine, old(flags.db), m);
              flags == WireLoop.ClearError(old(flags), o.db) && out == o.out
      ensures if old(comm.buffered) == [] then jump == ToFlush
              else if old(canary) >= MAX_RECOVERIES then jump == Abort
              else jump == FallThrough && canary == old(canary) + 1
    {
      var o := Rejected(engine, flags.db, m);
      ClearError(o, place);
      assert comm.buffered == [] <==> old(comm.buffered) == [];
      jump := Recover(comm.recv.ptr < comm.recv.len);
      out := o.out;
    }

    /** startup_pass for one message, with the recovery from its errors. */
    method StartupPass(ghost unread: seq<byte>, ghost place: Place) returns (jump: Jump, ghost m: Move)
      requires Reading(place, unread) && (place.InMemory? <==> comm.cmaRsize > 0)
      modifies this`flags, this`canary, comm`recv, comm`query, comm`buffered, comm`tail, comm`reading
      modifies comm`send, comm`socket, comm`stream, comm`image, comm.mem
      ensures CanSend() && Placed(place) && Moved() && comm.stream == old(comm.stream) + EncodeAll(m.out)
      ensures PasswordMove(engine, place, old(Now(unread)), m) && Reached(m) && jump == m.jump
      ensures jump == FallThrough ==> !comm.reading && comm.buffered != [] && |comm.buffered| < |unread|
    {
      var got := RecvPasswordPacket(unread, place);
      ghost var out := [];
      assert comm.stream + EncodeAll([]) == comm.stream;
      match got {
        case Foreign => jump := Dead;
        case Null => jump := Trap;
        case Good =>
          out := Welcoming(place);
          jump := ToFlush;
        case Bad(msg) =>
          if comm.cmaRsize == 0 {
            jump := Trap;
          } else {
            jump, out := RejectPassword(msg, place);
          }
      }
      m := Move(jump, out, [], [], Now(comm.buffered), comm.reading);
    }

    /** The loop where the request is a password: startup_pass, and again after its errors. */
    method PasswordLoop(ghost request: seq<byte>, ghost place: Place) returns (exit: Jump, ghost moves: seq<Move>)
      requires Reading(place, request) && (place.InMemory? <==> comm.cmaRsize > 0)
      modifies this`flags, this`canary, comm`recv, comm`query, comm`buffered, comm`tail, comm`reading
      modifies comm`send, comm`socket, comm`stream, comm`image, comm.mem
      ensures CanSend() && Placed(place) && Moved() && comm.stream == old(comm.stream) + EncodeAll(OutOf(moves))
      ensures Path(engine, place, true, old(Now(request)), moves)
      ensures Reached(moves[|moves| - 1]) && exit == moves[|moves| - 1].jump
    {
      ghost var v0, unread := Now(request), request;
      moves := [];
      while true
        invariant Reading(place, unread) && comm.stream == old(comm.stream) + EncodeAll(OutOf(moves))
        invariant Leads(engine, place, true, v0, moves) && Behind(v0, moves) == Now(unread)
        decreases |unread|
      {
        ghost var m;
        exit, m := StartupPass(unread, place);
        LeadsOn(engine, place, true, v0, moves, m);
        EncodeAllAppend(OutOf(moves), m.out);
        AppendAssoc(old(comm.stream), EncodeAll(OutOf(moves)), EncodeAll(m.out));
        moves := moves + [m];
        if exit != FallThrough {
          return;
        }
        unread := comm.buffered;
      }
    }

    /** A call whose packet starts with 0. */
    method Greet(ghost request: seq<byte>, ghost d: Destination) returns (exit: Exit)
      requires Starting(request, d) && if d.place.InFile? then request[0] == 0 else !comm.reading
      modifies this, comm, comm.mem
      ensures exit == Replied
      ensures d.place.InFile? ==> comm.recv == old(comm.recv) && comm.send.ptr == 0
      ensures var rest := if d.place.InMemory? then Discarded(request, d.size) else request;
              EndsAs(exit, StartupEnd(engine, old(flags), d.place, rest, old(comm.reading)), d)
    {
      StartupAuth(request, d);
      FlushAndClean([PasswordRequest()], [], d);
      exit := Replied;
    }

    /** A call whose packet starts with a password message. */
    method CheckIn(ghost request: seq<byte>, ghost d: Destination) returns (exit: Exit, ghost moves: seq<Move>)
      requires Starting(request, d) && !comm.reading
      modifies this, comm, comm.mem
      ensures EndsBy(exit, true, old(flags), request, d, moves)
    {
      var jump;
      jump, moves := PasswordLoop(request, d.place);
      exit := LeaveLoop(jump, moves, d);
    }

    // ---------- A whole call ----------

    /** The send buffer as an earlier call left it becomes the place of this reply. */
    ghost method PickUp()
      requires Quiet() && comm.recv.ptr < comm.recv.len && comm.socket.open && !comm.socket.files
      modifies comm`stream, comm`lead
      ensures CanSend()
      ensures Placed(InMemory(comm.send.base, comm.send.size, comm.send.ptr, comm.recv.base + comm.recv.len))
      ensures comm.stream == comm.image[comm.send.base..comm.send.base + comm.send.ptr] && comm.lead == comm.send.ptr
    {
      comm.stream, comm.lead := comm.image[comm.send.base..comm.send.base + comm.send.ptr], comm.send.ptr;
    }

    /** The start of a call on shared memory, whatever is left of the last request. */
    method PrepareShared()
      requires Quiet() && 0 < comm.cmaRsize && comm.cmaRsize + 2 <= comm.cma && cmaWsize == 0
      modifies this`flags, comm`socket, comm`stream, comm`lead
      ensures Starting(Request(), old(SharedDestination()))
      ensures Request() == old(Request()) && flags == old(flags).(ready := false)
    {
      ghost var d := SharedDestination();
      Prepare(false);
      if comm.recv.ptr < comm.recv.len {
        PickUp();
      }
    }

    /** How a call ends from flags st, by the first byte of its packet and by what it reads.
        After an unfinished message the first pq_startmsgread is FATAL; only a startup packet
        in a file does without. */
    ghost predicate Concluded(exit: Exit, st: Flags, torn: bool, first: byte, request: seq<byte>, d: Destination,
                              moves: seq<Move>)
      reads this, comm, comm.mem
    {
      if torn && (d.place.InMemory? || first != 0) then exit == FatalRaised
      else if first == 0 then
        var rest := if d.place.InMemory? then Discarded(request, d.size) else request;
        EndsAs(exit, StartupEnd(engine, st, d.place, rest, torn), d)
      else EndsBy(exit, first == PASSWORD, st.(ready := false), request, d, moves)
    }

    /** interactive_one() on a request of cma_rsize bytes in shared memory, after the
        interactive_write() that announced it, in any state an earlier call left: if bytes
        are left unread, the call reads these instead and replies where the send buffer was
        left, over the unread bytes if they lie there. */
    method InteractiveOne() returns (exit: Exit, ghost moves: seq<Move>)
      requires Quiet() && 0 < comm.cmaRsize && comm.cmaRsize + 2 <= comm.cma && cmaWsize == 0
      modifies this, comm, comm.mem
      ensures var request, d := old(Request()), old(SharedDestination());
              if d.size < 2 then
                && Ends(exit, Returned(old(Session(flags.db, flags.ignore)), [], []), d) && Freed() && Quiet()
                && comm.reading == old(comm.reading) && flags == old(flags).(ready := false)
              else Concluded(exit, old(flags), old(comm.reading), old(comm.image[1]), request, d, moves)
    {
      ghost var request, d := Request(), SharedDestination();
      var peek := comm.mem[1];
      moves := [];
      if comm.cmaRsize < 2 {
        Prepare(false);
        Cleanup(Returned(Session(flags.db, flags.ignore), [], []), d);
        return Replied, moves;
      }
      PrepareShared();
      if comm.reading {
        exit := FatalRaised;
      } else if peek == 0 {
        exit := Greet(request, d);
      } else if peek == PASSWORD {
        exit, moves := CheckIn(request, d);
      } else {
        exit, moves := ServeAndClean(request, d);
      }
    }

    /** interactive_one() on a request file that fits the receive buffer. The file replaces
        whatever was left there; a startup packet stays there unread. */
    method InteractiveOneFile(file: seq<byte>) returns (exit: Exit, ghost moves: seq<Move>)
      requires Quiet() && comm.cmaRsize == 0 && 0 < |file| <= comm.recvSize && cmaWsize == 0
      modifies this, comm, comm.mem
      ensures Concluded(exit, old(flags), old(comm.reading), file[0], file, old(FileDestination()), moves)
      ensures exit == Replied && file[0] == 0 ==>
        comm.recv == Receive(old(comm.recv.base), 0, |file|) && comm.send.ptr == 0
    {
      ghost var d := FileDestination();
      Prepare(true);
      var peek := file[0];
      comm.RecvBufFill(file);
      moves := [];
      if peek == 0 {
        exit := Greet(file, d);
      } else if comm.reading {
        exit := FatalRaised;
      } else if peek == PASSWORD {
        exit, moves := CheckIn(file, d);
      } else {
        exit, moves := ServeAndClean(file, d);
      }
    }

    // ---------- Calls whose replies land aside ----------

    /** How such a call answers a request of the loop. */
    ghost predicate Serves(exit: Exit, st: Flags, request: seq<byte>, d: Destination, moves: seq<Move>)
      reads this, comm, comm.mem
    {
      var r := Call(engine, Session(st.db, st.ignore), st.auth, ParseAll(request));
      && Ends(exit, r, d)
      && (exit == Replied ==>
            && Quiet() && Session(flags.db, flags.ignore) == r.s && flags.auth == st.auth && (flags.ready ==> st.auth)
            && (comm.reading <==> EndsTorn(request)) && comm.buffered == Unread(request)
            && TakenOf(moves) == UpToClose(ParseAll(request)))
    }

    /** What a call finds where no reply lands on what it still reads. */
    lemma ClearIsAside()
      requires Quiet() && comm.cmaRsize + 2 <= comm.cma && Clear()
      ensures Aside(SharedDestination().place, |Request()|)
    {
    }

    /** It ends as the functional call says. */
    lemma ServedClear(exit: Exit, st: Flags, request: seq<byte>, d: Destination, moves: seq<Move>)
      requires EndsBy(exit, false, st.(ready := false), request, d, moves) && Aside(d.place, |request|)
      ensures Serves(exit, st, request, d, moves)
      ensures EndOf(engine, d.place, moves).r == Call(engine, Session(st.db, st.ignore), st.auth, ParseAll(request))
    {
      LoopAside(engine, d.place, View(st.(ready := false), 0, LeadOf(d.place), request), moves);
      ExtendedFlagIsFresh(engine, st.(ready := false), false, 0, ParseAll(request));
    }

    /** Such a call on a password ends as the functional password call says. */
    lemma CheckedInClear(exit: Exit, st: Flags, request: seq<byte>, d: Destination, moves: seq<Move>)
      requires EndsBy(exit, true, st.(ready := false), request, d, moves) && Aside(d.place, |request|) && request != []
      ensures var c := PasswordCall(engine, st.(ready := false), 0, request, d.place.InMemory?);
              EndsAs(exit, c, d) && EndOf(engine, d.place, moves).r == c.r
    {
      PasswordAside(engine, d.place, View(st.(ready := false), 0, LeadOf(d.place), request), moves);
    }

    /** A call that reads its own packet: nothing is left of it, and the next call works,
        exactly when it is whole messages with nothing behind an X. */
    lemma IdleIff(exit: Exit, st: Flags, packet: seq<byte>, d: Destination, moves: seq<Move>)
      requires Serves(exit, st, packet, d, moves) && exit == Replied
      ensures Idle() <==> WellFramed(packet)
    {
    }

    // ---------- The host's side of a call ----------

    /** What a call reads once the host has written packet: its own file, or in shared memory
        what is left of an older request, as far as the packet does not overwrite that. */
    ghost function Pending(packet: seq<byte>, shared: bool): seq<byte>
      reads comm
    {
      if !shared || comm.recv.ptr == comm.recv.len then packet
      else Overlaid(comm.buffered, comm.recv.base + comm.recv.ptr, 1, packet)
    }

    /** The host puts packet at address 1, after it removed the last reply file, and announces
        it with interactive_write(). */
    method Put(packet: seq<byte>)
      requires Quiet() && packet != [] && |packet| + 2 <= comm.cma
      modifies this`published, this`cmaWsize, comm`cmaRsize, comm`buffered, comm`image, comm.mem
      ensures comm.ReceiveValid() && comm.cmaRsize == |packet| && cmaWsize == 0 && published == []
      ensures comm.image[1..1 + |packet|] == packet
      ensures comm.buffered == Overlaid(old(comm.buffered), comm.recv.base + comm.recv.ptr, 1, packet)
    {
      published := [];
      comm.cmaRsize, cmaWsize := |packet|, 0;
      comm.CopyOver(1, packet);
    }

    /** It, and what the next call makes of it. */
    method Announce(packet: seq<byte>)
      requires Quiet() && packet != [] && |packet| + 2 <= comm.cma
      modifies this`published, this`cmaWsize, comm`cmaRsize, comm`buffered, comm`image, comm.mem
      ensures Quiet() && comm.cmaRsize == |packet| && cmaWsize == 0 && published == []
      ensures Request() == old(Pending(packet, true)) && comm.image[1] == packet[0]
    {
      ghost var pending := Pending(packet, true);
      Put(packet);
      RequestIs(packet, pending);
    }

    lemma RequestIs(packet: seq<byte>, pending: seq<byte>)
      requires comm.ReceiveValid() && packet != [] && comm.cmaRsize == |packet| && |packet| + 2 <= comm.cma
      requires comm.image[1..1 + |packet|] == packet
      requires pending == if comm.recv.ptr == comm.recv.len then packet else comm.buffered
      ensures Request() == pending && comm.image[1] == packet[0]
    {
      assert comm.image[1..1 + |packet|][0] == packet[0];
    }

    function ReplyOf(r: CallResult): seq<byte> {
      if r.Returned? then EncodeAll(r.out) else []
    }

    /** The reply goes where the host looks for it. */
    predicate Own(d: Destination) {
      d.front == [] && (d.place.InMemory? ==> d.place.base + d.place.lead == d.size + 2)
    }

    /** What interactive_read() and get_channel() lead the host to. */
    lemma Fetched(r: CallResult, d: Destination)
      requires comm.Layout() && Ends(Replied, r, d) && d.before == [] && d.place.size <= comm.cma
      requires d.size + 2 <= comm.cma
      ensures cmaWsize > 0 ==> 0 <= channel && channel + cmaWsize <= comm.mem.Length
      ensures Own(d) ==> ReplyOf(r) == if cmaWsize > 0 then comm.mem[channel..channel + cmaWsize] else published
    {
      EncodeAllInjective(r.out, []);
    }

    /** The result of a call that is not FATAL from the start. */
    function ResultOf(st: Flags, first: byte, d: Destination, moves: seq<Move>): CallResult
      requires first != 0 ==> moves != []
    {
      if first == 0 then StartupEnd(engine, st, d.place, [], false).r else EndOf(engine, d.place, moves).r
    }

    lemma ConcludedEnds(exit: Exit, st: Flags, torn: bool, first: byte, request: seq<byte>, d: Destination,
                        moves: seq<Move>)
      requires Concluded(exit, st, torn, first, request, d, moves) && exit == Replied
      ensures (first != 0 ==> moves != []) && Ends(Replied, ResultOf(st, first, d, moves), d) && Quiet()
      ensures Stays(d.place)
    {
    }

    /** The host reads back what the call says it sent. */
    ghost predicate ReadsBack(exit: Exit, reply: seq<byte>, st: Flags, first: byte, d: Destination, moves: seq<Move>) {
      exit == Replied ==> (first != 0 ==> moves != []) && (Own(d) ==> reply == ReplyOf(ResultOf(st, first, d, moves)))
    }

    /** The call on a request that was put into shared memory, and what the host reads back. */
    method AnswerShared() returns (exit: Exit, reply: seq<byte>, ghost moves: seq<Move>)
      requires Quiet() && 2 <= comm.cmaRsize && comm.cmaRsize + 2 <= comm.cma && cmaWsize == 0 && published == []
      modifies this, comm, comm.mem
      ensures var d := old(SharedDestination());
              && Concluded(exit, old(flags), old(comm.reading), old(comm.image[1]), old(Request()), d, moves)
              && ReadsBack(exit, reply, old(flags), old(comm.image[1]), d, moves)
    {
      ghost var request, d, first := Request(), SharedDestination(), comm.image[1];
      exit, moves := InteractiveOne();
      reply := [];
      if exit == Replied {
        ConcludedEnds(exit, old(flags), old(comm.reading), first, request, d, moves);
        Fetched(ResultOf(old(flags), first, d, moves), d);
        reply := if cmaWsize > 0 then comm.mem[channel..channel + cmaWsize] else published;
      }
    }

    /** One packet over shared memory. */
    method ExchangeShared(packet: seq<byte>)
      returns (exit: Exit, reply: seq<byte>, ghost d: Destination, ghost moves: seq<Move>)
      requires Quiet() && 2 <= |packet| && |packet| + 2 <= comm.cma
      modifies this, comm, comm.mem
      ensures Concluded(exit, old(flags), old(comm.reading), packet[0], old(Pending(packet, true)), d, moves)
      ensures ReadsBack(exit, reply, old(flags), packet[0], d, moves)
      ensures d.size == |packet| && d.place == old(SharedPlace(|packet|)) && |d.front| == LeadOf(d.place)
    {
      Announce(packet);
      PlaceOfDestination();
      d := SharedDestination();
      exit, reply, moves := AnswerShared();
    }

    lemma PlaceOfDestination()
      requires Quiet() && comm.cmaRsize + 2 <= comm.cma
      ensures var d := SharedDestination();
              d.size == comm.cmaRsize && d.place == SharedPlace(comm.cmaRsize) && |d.front| == LeadOf(d.place)
    {
    }

    /** Where a call on n bytes of shared memory replies. */
    ghost function SharedPlace(n: nat): Place
      requires n + 2 <= comm.cma
      reads comm
    {
      if comm.recv.ptr == comm.recv.len then BehindRequest(comm.cma, n)
      else InMemory(comm.send.base, comm.send.size, comm.send.ptr, comm.recv.base + comm.recv.len)
    }

    /** One packet as a request file, read back from the reply file. */
    method ExchangeFile(packet: seq<byte>)
      returns (exit: Exit, reply: seq<byte>, ghost d: Destination, ghost moves: seq<Move>)
      requires Quiet() && 0 < |packet| <= comm.recvSize
      modifies this, comm, comm.mem
      ensures Concluded(exit, old(flags), old(comm.reading), packet[0], packet, d, moves)
      ensures ReadsBack(exit, reply, old(flags), packet[0], d, moves)
      ensures d == Destination(InFile(old(comm.send.base), old(comm.send.size)), [], 0, [])
      ensures exit == Replied && packet[0] == 0 ==>
        comm.recv == Receive(old(comm.recv.base), 0, |packet|) && comm.send.ptr == 0
    {
      published := [];
      comm.cmaRsize, cmaWsize := 0, 0;
      d := FileDestination();
      exit, moves := InteractiveOneFile(packet);
      reply := [];
      if exit == Replied {
        ConcludedEnds(exit, old(flags), old(comm.reading), packet[0], packet, d, moves);
        Fetched(ResultOf(old(flags), packet[0], d, moves), d);
        reply := if cmaWsize > 0 then comm.mem[channel..channel + cmaWsize] else published;
      }
    }

    /** The packet fits the shared part with room for the reply's address, or the receive
        buffer. */
    predicate FitsItsWay(p: Parcel) {
      if p.shared then 2 <= |p.bytes| && |p.bytes| + 2 <= comm.cma else 0 < |p.bytes| <= comm.recvSize
    }

    /** What the host does for one packet. */
    method Exchange(p: Parcel) returns (exit: Exit, reply: seq<byte>, ghost d: Destination, ghost moves: seq<Move>)
      requires Quiet() && FitsItsWay(p)
      modifies this, comm, comm.mem
      ensures Concluded(exit, old(flags), old(comm.reading), p.bytes[0], old(Pending(p.bytes, p.shared)), d, moves)
      ensures ReadsBack(exit, reply, old(flags), p.bytes[0], d, moves)
      ensures d.size == (if p.shared then |p.bytes| else 0) && |d.front| == LeadOf(d.place)
      ensures d.place ==
              if p.shared then old(SharedPlace(|p.bytes|)) else InFile(old(comm.send.base), old(comm.send.size))
      ensures exit == Replied && !p.shared && p.bytes[0] == 0 ==>
        comm.recv == Receive(old(comm.recv.base), 0, |p.bytes|) && comm.send.ptr == 0
    {
      if p.shared {
        exit, reply, d, moves := ExchangeShared(p.bytes);
      } else {
        exit, reply, d, moves := ExchangeFile(p.bytes);
      }
    }

    /** A packet the host may send in a run: it fits, is no handshake and is read to its end. */
    predicate Sendable(p: Parcel) {
      FitsItsWay(p) && !IsHandshake(p.bytes) && WellFramed(p.bytes)
    }

    /** The call ended as r says, and the host read back the replies of r. */
    predicate Answers(exit: Exit, reply: seq<byte>, r: CallResult) {
      match r
      case Aborted => exit == AbortCalled
      case Fatal => exit == FatalRaised
      case Trapped => exit == TrapRaised
      case Returned(_, out, _) => exit == Replied && reply == EncodeAll(out)
    }

    /** A call on its own packet from flags st: what it answers, and the state it leaves. */
    ghost predicate Served(exit: Exit, reply: seq<byte>, st: Flags, packet: seq<byte>)
      reads this, comm, comm.mem
    {
      var r := Call(engine, Session(st.db, st.ignore), st.auth, ParseAll(packet));
      && Answers(exit, reply, r)
      && (exit == Replied ==>
            && r.Returned? && Session(flags.db, flags.ignore) == r.s && flags.auth == st.auth && Quiet()
            && comm.buffered == Unread(packet) && (comm.reading <==> EndsTorn(packet)))
    }

    lemma OwnAnswer(exit: Exit, reply: seq<byte>, st: Flags, packet: seq<byte>, d: Destination, moves: seq<Move>)
      requires packet != [] && !IsHandshake(packet) && Aside(d.place, |packet|) && Own(d)
      requires Concluded(exit, st, false, packet[0], packet, d, moves)
      requires ReadsBack(exit, reply, st, packet[0], d, moves)
      ensures Served(exit, reply, st, packet)
    {
      ServedClear(exit, st, packet, d, moves);
    }

    /** A call that starts idle on any packet that is no handshake. */
    method ExchangeOwn(p: Parcel) returns (exit: Exit, reply: seq<byte>)
      requires Idle() && FitsItsWay(p) && !IsHandshake(p.bytes)
      modifies this, comm, comm.mem
      ensures Served(exit, reply, old(flags), p.bytes)
    {
      ghost var d, moves;
      exit, reply, d, moves := Exchange(p);
      OwnAnswer(exit, reply, old(flags), p.bytes, d, moves);
    }

    /** A call that starts idle on a packet of passwords ends as the password code says. */
    method ExchangePassword(p: Parcel) returns (exit: Exit, reply: seq<byte>)
      requires Idle() && FitsItsWay(p) && p.bytes[0] == PASSWORD
      modifies this, comm, comm.mem
      ensures var h := PasswordCall(engine, old(flags).(ready := false), 0, p.bytes, p.shared);
              && Answers(exit, reply, h.r)
              && (exit == Replied ==>
                    Quiet() && flags == h.st && comm.buffered == h.rest && (comm.reading <==> h.torn))
    {
      ghost var d, moves;
      exit, reply, d, moves := Exchange(p);
      CheckedInClear(exit, old(flags), p.bytes, d, moves);
    }

    /** On whole messages it ends idle, or not at all. */
    method ExchangeIdle(p: Parcel) returns (exit: Exit, reply: seq<byte>)
      requires Idle() && Sendable(p)
      modifies this, comm, comm.mem
      ensures var r := Call(engine, old(Session(flags.db, flags.ignore)), old(flags.auth), ParseAll(p.bytes));
              Answers(exit, reply, r)
              && (exit == Replied ==> Session(flags.db, flags.ignore) == r.s && flags.auth == old(flags.auth) && Idle())
    {
      exit, reply := ExchangeOwn(p);
    }

    /** A whole run of calls, one packet each, over either way. */
    method Run(parcels: seq<Parcel>) returns (exit: Exit, replies: seq<byte>)
      requires Idle() && forall p :: p in parcels ==> Sendable(p)
      modifies this, comm, comm.mem
      ensures var packets := ParsedPackets(Contents(parcels));
              var r := Calls(engine, old(Session(flags.db, flags.ignore)), old(flags.auth), packets);
              Answers(exit, replies, r)
              && (exit == Replied ==> Session(flags.db, flags.ignore) == r.s && flags.auth == old(flags.auth) && Idle())
      decreases |parcels|
    {
      exit, replies := Replied, [];
      if parcels != [] {
        ghost var auth := flags.auth;
        ghost var packets := Contents(parcels);
        ghost var r := Call(engine, Session(flags.db, flags.ignore), auth, ParseAll(packets[0]));
        assert parcels[0] in parcels && packets[1..] == Contents(parcels[1..]);
        assert ParsedPackets(packets)[1..] == ParsedPackets(packets[1..]);
        exit, replies := ExchangeIdle(parcels[0]);
        if exit == Replied {
          ghost var rest := Calls(engine, r.s, auth, ParsedPackets(packets[1..]));
          var more;
          exit, more := Run(parcels[1..]);
          if rest.Returned? {
            EncodeAllAppend(r.out, rest.out);
          }
          replies := replies + more;
        }
      }
    }
  }
}
