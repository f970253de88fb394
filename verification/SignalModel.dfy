/** The signal-mask emulation as a function of values, and its laws over whole runs. */
module SignalModel {

  /** What signal() can have installed; Error is SIG_ERR, which it only returns. */
  datatype Handler = Default | Ignored | App(id: nat) | BlockedHandler | Error

  /** A handler run, with the mask and the handler table at that moment. */
  datatype Delivery = Delivery(sig: nat, handler: Handler, blocked: set<nat>, installed: seq<Handler>)

  /** blocked_set, the raised marks of pending_array, old_handlers, the C library's table,
      and what was delivered so far. NSIG is the length of the tables. */
  datatype Signals = Signals(
    blocked: set<nat>, pending: set<nat>, saved: seq<Handler>, installed: seq<Handler>, log: seq<Delivery>)

  datatype Operation = Block | Unblock | SetMask | Unknown

  predicate Sized(s: Signals, nsig: nat) {
    |s.saved| == |s.installed| == nsig
  }

  function Below(t: set<nat>, n: nat): set<nat> {
    set i | i in t && i < n
  }

  /** new_blocked_set */
  function NewMask(op: Operation, blocked: set<nat>, m: set<nat>): set<nat> {
    match op
    case Block => blocked + m
    case Unblock => blocked - m
    case SetMask => m
    case Unknown => blocked
  }

  /** Every signal of toBlock gets the blocking handler, unless signal() refuses it. */
  function AfterBlock(s: Signals, toBlock: set<nat>, refused: set<nat>): (r: Signals)
    requires |s.saved| == |s.installed|
    ensures Sized(r, |s.saved|)
  {
    var n := |s.saved|;
    s.(blocked := s.blocked + Below(toBlock - refused, n),
       pending := s.pending - Below(toBlock, n),
       saved := seq(n, i requires 0 <= i < n =>
         if i !in toBlock then s.saved[i] else if i in refused then Error else s.installed[i]),
       installed := seq(n, i requires 0 <= i < n =>
         if i in toBlock && i !in refused then BlockedHandler else s.installed[i]))
  }

  /** Every signal of toUnblock gets its handler back and loses its pending mark. */
  function AfterUnblock(s: Signals, toUnblock: set<nat>): (r: Signals)
    requires |s.saved| == |s.installed|
    ensures Sized(r, |s.saved|)
  {
    var n := |s.saved|;
    s.(blocked := s.blocked - Below(toUnblock, n),
       pending := s.pending - Below(toUnblock, n),
       installed := seq(n, i requires 0 <= i < n => if i in toUnblock then s.saved[i] else s.installed[i]))
  }

  /** A signal reaches the process; blocked_handler only marks it. */
  function Deliver(s: Signals, sig: nat): (r: Signals)
    requires |s.saved| == |s.installed| && sig < |s.saved|
    ensures Sized(r, |s.saved|)
  {
    if s.installed[sig] == BlockedHandler then s.(pending := s.pending + {sig})
    else s.(log := s.log + [Delivery(sig, s.installed[sig], s.blocked, s.installed)])
  }

  /** raise() for every received signal from i on. */
  function RaiseFrom(s: Signals, received: set<nat>, i: nat): (r: Signals)
    requires |s.saved| == |s.installed| && i <= |s.saved|
    ensures Sized(r, |s.saved|)
    decreases |s.saved| - i
  {
    if i == |s.saved| then s
    else RaiseFrom(if i in received then Deliver(s, i) else s, received, i + 1)
  }

  function ToBlock(s: Signals, op: Operation, m: set<nat>): set<nat> {
    NewMask(op, s.blocked, m) - s.blocked
  }

  function ToUnblock(s: Signals, op: Operation, m: set<nat>): set<nat> {
    s.blocked - NewMask(op, s.blocked, m)
  }

  /** sigprocmask with a set and a known operation, when it does not abort. */
  function SigProcMask(s: Signals, op: Operation, m: set<nat>, refused: set<nat>): (r: Signals)
    requires |s.saved| == |s.installed|
    ensures Sized(r, |s.saved|)
  {
    var toUnblock := ToUnblock(s, op, m);
    var s1 := AfterBlock(s, ToBlock(s, op, m), refused);
    RaiseFrom(AfterUnblock(s1, toUnblock), s1.pending * Below(toUnblock, |s.saved|), 0)
  }

  /** A signal whose unblocking finds a handler other than blocked_handler installed, or
      cannot install the saved one: sigprocmask calls abort(). */
  predicate Tampered(s: Signals, sig: nat, refused: set<nat>)
    requires |s.saved| == |s.installed| && sig < |s.saved|
  {
    sig in refused || s.saved[sig] == Error || s.installed[sig] != BlockedHandler
  }

  /** The two loops of sigprocmask, signal by signal from i on. */
  function BlockFrom(s: Signals, t: set<nat>, i: nat, refused: set<nat>): (r: Signals)
    requires |s.saved| == |s.installed| && i <= |s.saved|
    ensures Sized(r, |s.saved|)
    decreases |s.saved| - i
  {
    if i == |s.saved| then s
    else BlockFrom(if i in t then AfterBlock(s, {i}, refused) else s, t, i + 1, refused)
  }

  datatype Unblocked = AbortCalled | Unblocked(s: Signals, received: set<nat>)

  function UnblockFrom(s: Signals, t: set<nat>, i: nat, refused: set<nat>, received: set<nat>): (r: Unblocked)
    requires |s.saved| == |s.installed| && i <= |s.saved|
    ensures r.Unblocked? ==> Sized(r.s, |s.saved|)
    decreases |s.saved| - i
  {
    if i == |s.saved| then Unblocked(s, received)
    else if i !in t then UnblockFrom(s, t, i + 1, refused, received)
    else if Tampered(s, i, refused) then AbortCalled
    else UnblockFrom(AfterUnblock(s, {i}), t, i + 1, refused, if i in s.pending then received + {i} else received)
  }

  function NotBelow(t: set<nat>, i: nat): set<nat> {
    set k | k in t && k >= i
  }

  /** The loops end at the closed forms. */
  lemma {:induction false} BlockLoop(s: Signals, t: set<nat>, i: nat, refused: set<nat>)
    requires |s.saved| == |s.installed| && i <= |s.saved|
    ensures BlockFrom(s, t, i, refused) == AfterBlock(s, NotBelow(t, i), refused)
    decreases |s.saved| - i
  {
    if i == |s.saved| {
      assert AfterBlock(s, NotBelow(t, i), refused) == s;
    } else {
      var next := if i in t then AfterBlock(s, {i}, refused) else s;
      BlockLoop(next, t, i + 1, refused);
      assert AfterBlock(next, NotBelow(t, i + 1), refused) == AfterBlock(s, NotBelow(t, i), refused);
    }
  }

  lemma {:induction false} UnblockLoop(s: Signals, t: set<nat>, i: nat, refused: set<nat>, received: set<nat>)
    requires |s.saved| == |s.installed| && i <= |s.saved|
    ensures var r := UnblockFrom(s, t, i, refused, received);
            && (r.AbortCalled? <==> exists k :: i <= k < |s.saved| && k in t && Tampered(s, k, refused))
            && (r.Unblocked? ==> r == Unblocked(AfterUnblock(s, NotBelow(t, i)),
                                                received + s.pending * Below(NotBelow(t, i), |s.saved|)))
    decreases |s.saved| - i
  {
    if i == |s.saved| {
      assert AfterUnblock(s, NotBelow(t, i)) == s;
    } else if i !in t {
      assert NotBelow(t, i) == NotBelow(t, i + 1);
      UnblockLoop(s, t, i + 1, refused, received);
    } else if !Tampered(s, i, refused) {
      var next := AfterUnblock(s, {i});
      UnblockLoop(next, t, i + 1, refused, if i in s.pending then received + {i} else received);
      assert AfterUnblock(next, NotBelow(t, i + 1)) == AfterUnblock(s, NotBelow(t, i));
      forall k | i < k < |s.saved| ensures Tampered(next, k, refused) == Tampered(s, k, refused) {
      }
    }
  }

  lemma BlockIsClosedForm(s: Signals, t: set<nat>, refused: set<nat>)
    requires |s.saved| == |s.installed|
    ensures BlockFrom(s, t, 0, refused) == AfterBlock(s, t, refused)
  {
    BlockLoop(s, t, 0, refused);
    assert NotBelow(t, 0) == t;
  }

  /** abort() is called exactly when a signal to unblock was tampered with. */
  lemma UnblockIsClosedForm(s: Signals, t: set<nat>, refused: set<nat>)
    requires |s.saved| == |s.installed|
    ensures var r := UnblockFrom(s, t, 0, refused, {});
            && (r.AbortCalled? <==> exists k :: 0 <= k < |s.saved| && k in t && Tampered(s, k, refused))
            && (r.Unblocked? ==> r == Unblocked(AfterUnblock(s, t), s.pending * Below(t, |s.saved|)))
  {
    UnblockLoop(s, t, 0, refused, {});
    assert NotBelow(t, 0) == t;
  }

  // ---------- The invariant of every run ----------

  /** A signal is in blocked_set exactly when the installed handler is blocked_handler, and
      old_handlers then holds a handler of the application. */
  ghost predicate Inv(s: Signals, refused: set<nat>) {
    && |s.saved| == |s.installed|
    && (forall i :: i in s.blocked ==> i < |s.saved| && i !in refused)
    && (forall i :: 0 <= i < |s.saved| ==> (i in s.blocked <==> s.installed[i] == BlockedHandler))
    && (forall i :: 0 <= i < |s.saved| && i in s.blocked ==> s.saved[i] != BlockedHandler && s.saved[i] != Error)
    && (forall i :: 0 <= i < |s.saved| ==> s.installed[i] != Error)
  }

  /** The handler the application means for each signal, blocked or not. */
  function Meaning(s: Signals): (r: seq<Handler>)
    requires |s.saved| == |s.installed|
    ensures |r| == |s.saved|
  {
    seq(|s.saved|, i requires 0 <= i < |s.saved| => if i in s.blocked then s.saved[i] else s.installed[i])
  }

  function CountOf(log: seq<Delivery>, sig: nat): nat {
    if log == [] then 0 else (if log[0].sig == sig then 1 else 0) + CountOf(log[1..], sig)
  }

  lemma {:induction false} CountAppend(a: seq<Delivery>, b: seq<Delivery>, sig: nat)
    ensures CountOf(a + b, sig) == CountOf(a, sig) + CountOf(b, sig)
  {
    if a == [] {
      assert a + b == b;
    } else {
      assert (a + b)[1..] == a[1..] + b;
      CountAppend(a[1..], b, sig);
    }
  }

  /** The deliveries of one unblocking call: for each received signal one run of its
      handler, with every mask and every handler already as the call leaves them. */
  lemma {:induction false} Raises(s: Signals, received: set<nat>, i: nat, sig: nat)
    requires |s.saved| == |s.installed| && i <= |s.saved|
    requires forall k :: 0 <= k < |s.saved| && k in received ==> s.installed[k] != BlockedHandler
    ensures var r := RaiseFrom(s, received, i);
            && r == s.(log := r.log) && s.log <= r.log
            && CountOf(r.log, sig) == CountOf(s.log, sig) + (if i <= sig < |s.saved| && sig in received then 1 else 0)
            && forall d :: d in r.log[|s.log|..] ==>
                 d.sig < |s.saved| && d.sig in received
                 && d == Delivery(d.sig, s.installed[d.sig], s.blocked, s.installed)
    decreases |s.saved| - i
  {
    if i < |s.saved| {
      var next := if i in received then Deliver(s, i) else s;
      Raises(next, received, i + 1, sig);
      if i in received {
        CountAppend(s.log, [Delivery(i, s.installed[i], s.blocked, s.installed)], sig);
        var r := RaiseFrom(s, received, i);
        assert r.log[|s.log|..] == [r.log[|s.log|]] + r.log[|next.log|..];
      }
    }
  }

  /** The raise() loop goes upwards: a handler of a lower signal runs first. */
  lemma {:induction false} RaisesUpwards(s: Signals, received: set<nat>, i: nat)
    requires |s.saved| == |s.installed| && i <= |s.saved|
    ensures var r := RaiseFrom(s, received, i);
            && s.log <= r.log && (forall k :: |s.log| <= k < |r.log| ==> i <= r.log[k].sig)
            && forall j, k :: |s.log| <= j < k < |r.log| ==> r.log[j].sig < r.log[k].sig
    decreases |s.saved| - i
  {
    if i < |s.saved| {
      RaisesUpwards(if i in received then Deliver(s, i) else s, received, i + 1);
    }
  }

  // ---------- One call ----------

  lemma AfterBlockInv(s: Signals, toBlock: set<nat>, refused: set<nat>)
    requires Inv(s, refused) && toBlock !! s.blocked
    ensures Inv(AfterBlock(s, toBlock, refused), refused)
    ensures Meaning(AfterBlock(s, toBlock, refused)) == Meaning(s)
  {
  }

  lemma AfterUnblockInv(s: Signals, toUnblock: set<nat>, refused: set<nat>)
    requires Inv(s, refused) && toUnblock <= s.blocked
    ensures Inv(AfterUnblock(s, toUnblock), refused)
    ensures Meaning(AfterUnblock(s, toUnblock)) == Meaning(s)
  {
  }

  /** The handlers that one call runs, if it unblocks several signals that had arrived, run
      in the order of the signals, in any state. */
  lemma LowerSignalsFirst(s: Signals, op: Operation, m: set<nat>, refused: set<nat>)
    requires |s.saved| == |s.installed|
    ensures var r := SigProcMask(s, op, m, refused);
            s.log <= r.log && forall i, j :: |s.log| <= i < j < |r.log| ==> r.log[i].sig < r.log[j].sig
  {
    var toUnblock := ToUnblock(s, op, m);
    var s1 := AfterBlock(s, ToBlock(s, op, m), refused);
    RaisesUpwards(AfterUnblock(s1, toUnblock), s1.pending * Below(toUnblock, |s.saved|), 0);
  }

  lemma MaskOfCall(s: Signals, op: Operation, m: set<nat>, refused: set<nat>)
    requires Inv(s, refused)
    ensures var left := AfterUnblock(AfterBlock(s, ToBlock(s, op, m), refused), ToUnblock(s, op, m)).blocked;
            && (op == Block ==> left == s.blocked + ((set i | i in m && i < |s.saved|) - refused))
            && (op == Unblock ==> left == s.blocked - m)
            && (op == SetMask ==> left == (set i | i in m && i < |s.saved|) - refused)
            && (op == Unknown ==> left == s.blocked)
  {
  }

  /** Every mark and every saved handler behind one call: a signal it was asked to block, or
      that it unblocks, loses its mark; the first kind has its handler saved, or SIG_ERR. */
  lemma TablesOfCall(s: Signals, op: Operation, m: set<nat>, refused: set<nat>, sig: nat)
    requires Inv(s, refused) && sig < |s.saved|
    ensures var r := SigProcMask(s, op, m, refused);
            var asked := op in {Block, SetMask} && sig in m && sig !in s.blocked;
            var freed := sig in s.blocked && ((op == Unblock && sig in m) || (op == SetMask && sig !in m));
            && (sig in r.pending <==> sig in s.pending && !asked && !freed)
            && r.saved[sig] == (if !asked then s.saved[sig] else if sig in refused then Error else s.installed[sig])
            && r.installed[sig] == (if freed then s.saved[sig] else if asked && sig !in refused then BlockedHandler
                                    else s.installed[sig])
  {
    var toUnblock := ToUnblock(s, op, m);
    var s1 := AfterBlock(s, ToBlock(s, op, m), refused);
    AfterBlockInv(s, ToBlock(s, op, m), refused);
    AfterUnblockInv(s1, toUnblock, refused);
    Raises(AfterUnblock(s1, toUnblock), s1.pending * Below(toUnblock, |s.saved|), 0, sig);
  }

  /** What one call does from a state the invariant allows: the set-theoretic mask, without
      the signals above NSIG and those whose signal() failed; the same meaning for every
      signal; and one run of its handler for each signal that it unblocks and that had
      arrived, after all masks and handlers are in place. */
  lemma OneCall(s: Signals, op: Operation, m: set<nat>, refused: set<nat>, sig: nat)
    requires Inv(s, refused)
    ensures var r := SigProcMask(s, op, m, refused);
            && Inv(r, refused) && |r.saved| == |s.saved|
            && (op == Block ==> r.blocked == s.blocked + ((set i | i in m && i < |s.saved|) - refused))
            && (op == Unblock ==> r.blocked == s.blocked - m)
            && (op == SetMask ==> r.blocked == (set i | i in m && i < |s.saved|) - refused)
            && (op == Unknown ==> r.blocked == s.blocked)
            && Meaning(r) == Meaning(s)
            && (sig in s.blocked && sig in r.blocked ==> (sig in r.pending <==> sig in s.pending))
            && (sig !in s.blocked && sig in r.blocked ==> sig !in r.pending)
            && s.log <= r.log
            && CountOf(r.log, sig) == CountOf(s.log, sig) +
                 (if sig in s.blocked && sig !in r.blocked && sig in s.pending then 1 else 0)
            && forall d :: d in r.log[|s.log|..] ==>
                 d.sig in s.blocked && d.sig !in r.blocked && d.sig in s.pending
                 && d == Delivery(d.sig, Meaning(s)[d.sig], r.blocked, r.installed)
  {
    var toBlock, toUnblock := ToBlock(s, op, m), ToUnblock(s, op, m);
    var s1 := AfterBlock(s, toBlock, refused);
    var s2 := AfterUnblock(s1, toUnblock);
    var received := s1.pending * Below(toUnblock, |s.saved|);
    AfterBlockInv(s, toBlock, refused);
    AfterUnblockInv(s1, toUnblock, refused);
    Raises(s2, received, 0, sig);
    MaskOfCall(s, op, m, refused);
    assert received == s.pending * toUnblock;
    var r := RaiseFrom(s2, received, 0);
    forall d | d in r.log[|s.log|..]
      ensures d == Delivery(d.sig, Meaning(s)[d.sig], r.blocked, r.installed)
    {
      assert Meaning(s2)[d.sig] == s2.installed[d.sig];
    }
  }

  /** From a state the invariant allows, sigprocmask never calls abort(). */
  lemma NothingTampered(s: Signals, op: Operation, m: set<nat>, refused: set<nat>, sig: nat)
    requires Inv(s, refused) && sig in ToUnblock(s, op, m)
    ensures sig < |s.saved| && !Tampered(s, sig, refused)
  {
  }

  // ---------- Whole runs ----------

  datatype Op = Mask(op: Operation, m: set<nat>) | Arrive(sig: nat) | Install(sig: nat, h: Handler)

  /** The application installs handlers of its own, and only for signals that are not
      blocked; signals that arrive exist. */
  predicate Allowed(s: Signals, op: Op) {
    match op
    case Mask(_, _) => true
    case Arrive(sig) => sig < |s.saved|
    case Install(sig, h) => sig < |s.saved| && sig !in s.blocked && h != BlockedHandler && h != Error
  }

  function Apply(s: Signals, op: Op, refused: set<nat>): (r: Signals)
    requires |s.saved| == |s.installed| && Allowed(s, op)
    ensures Sized(r, |s.saved|)
  {
    match op
    case Mask(op, m) => SigProcMask(s, op, m, refused)
    case Arrive(sig) => Deliver(s, sig)
    case Install(sig, h) => if sig in refused then s else s.(installed := s.installed[sig := h])
  }

  predicate RunAllowed(s: Signals, ops: seq<Op>, refused: set<nat>)
    requires |s.saved| == |s.installed|
    decreases |ops|
  {
    ops == [] || (Allowed(s, ops[0]) && RunAllowed(Apply(s, ops[0], refused), ops[1..], refused))
  }

  function Run(s: Signals, ops: seq<Op>, refused: set<nat>): (r: Signals)
    requires |s.saved| == |s.installed| && RunAllowed(s, ops, refused)
    ensures Sized(r, |s.saved|)
    decreases |ops|
  {
    if ops == [] then s else Run(Apply(s, ops[0], refused), ops[1..], refused)
  }

  lemma ApplyKeepsInv(s: Signals, op: Op, refused: set<nat>)
    requires Inv(s, refused) && Allowed(s, op)
    ensures Inv(Apply(s, op, refused), refused)
    ensures !op.Install? ==> Meaning(Apply(s, op, refused)) == Meaning(s)
  {
    if op.Mask? {
      OneCall(s, op.op, op.m, refused, 0);
    } else {
      assert op.Arrive? ==> Meaning(Apply(s, op, refused)) == Meaning(s);
    }
  }

  /** The invariant holds in every state a run reaches; sigprocmask never reaches its
      abort(), and without new handlers no signal changes its meaning. */
  lemma {:induction false} RunKeepsInv(s: Signals, ops: seq<Op>, refused: set<nat>)
    requires Inv(s, refused) && RunAllowed(s, ops, refused)
    ensures Inv(Run(s, ops, refused), refused)
    ensures (forall op :: op in ops ==> !op.Install?) ==> Meaning(Run(s, ops, refused)) == Meaning(s)
    decreases |ops|
  {
    if ops != [] {
      assert ops[0] in ops;
      ApplyKeepsInv(s, ops[0], refused);
      RunKeepsInv(Apply(s, ops[0], refused), ops[1..], refused);
    }
  }

  /** The mask and the meanings determine the installed table. */
  lemma SameTable(s: Signals, t: Signals, refused: set<nat>)
    requires Inv(s, refused) && Inv(t, refused) && |s.saved| == |t.saved|
    requires s.blocked == t.blocked && Meaning(s) == Meaning(t)
    ensures s.installed == t.installed
  {
    forall i | 0 <= i < |s.saved| ensures s.installed[i] == t.installed[i] {
      assert Meaning(s)[i] == Meaning(t)[i];
    }
  }

  /** Round trip: block some signals and keep the old mask, let anything happen that is
      allowed, restore the old mask. The mask is back as it was, and so is the whole handler
      table unless the application installed handlers; both before any received signal is
      raised, as every delivery of the restoring call sees them. */
  lemma SaveAndRestore(s: Signals, m: set<nat>, ops: seq<Op>, refused: set<nat>)
    requires Inv(s, refused) && RunAllowed(SigProcMask(s, Block, m, refused), ops, refused)
    ensures var before := Run(SigProcMask(s, Block, m, refused), ops, refused);
            var after := SigProcMask(before, SetMask, s.blocked, refused);
            && Inv(after, refused) && after.blocked == s.blocked
            && ((forall op :: op in ops ==> !op.Install?) ==> after.installed == s.installed)
            && before.log <= after.log
            && forall d :: d in after.log[|before.log|..] ==> d.blocked == s.blocked && d.installed == after.installed
  {
    var inside := SigProcMask(s, Block, m, refused);
    OneCall(s, Block, m, refused, 0);
    RunKeepsInv(inside, ops, refused);
    var before := Run(inside, ops, refused);
    OneCall(before, SetMask, s.blocked, refused, 0);
    var after := SigProcMask(before, SetMask, s.blocked, refused);
    assert Below(s.blocked, |s.saved|) - refused == s.blocked;
    if forall op :: op in ops ==> !op.Install? {
      SameTable(s, after, refused);
    }
  }

  /** sig stays blocked in every state of the run. */
  predicate StaysBlocked(s: Signals, ops: seq<Op>, refused: set<nat>, sig: nat)
    requires |s.saved| == |s.installed| && RunAllowed(s, ops, refused)
    decreases |ops|
  {
    sig in s.blocked && (ops == [] || StaysBlocked(Apply(s, ops[0], refused), ops[1..], refused, sig))
  }

  /** While sig is blocked, arrivals only leave a mark. */
  lemma {:induction false} BlockedArrivals(s: Signals, ops: seq<Op>, refused: set<nat>, sig: nat)
    requires Inv(s, refused) && RunAllowed(s, ops, refused) && StaysBlocked(s, ops, refused, sig)
    ensures var r := Run(s, ops, refused);
            && sig in r.blocked && CountOf(r.log, sig) == CountOf(s.log, sig)
            && (sig in r.pending <==> sig in s.pending || Arrive(sig) in ops)
    decreases |ops|
  {
    if ops != [] {
      var op, next := ops[0], Apply(s, ops[0], refused);
      ApplyKeepsInv(s, op, refused);
      if op.Mask? {
        OneCall(s, op.op, op.m, refused, sig);
      } else if op.Arrive? && s.installed[op.sig] != BlockedHandler {
        CountAppend(s.log, [Delivery(op.sig, s.installed[op.sig], s.blocked, s.installed)], sig);
      }
      BlockedArrivals(next, ops[1..], refused, sig);
      assert ops == [op] + ops[1..];
    }
  }

  /** Conservation: block sig, let it arrive any number of times while it stays blocked,
      unblock it. Its handler runs exactly once if it arrived at all and never otherwise,
      not before the unblocking call, and no mark of an earlier blocking is delivered. */
  lemma Conservation(s: Signals, first: Op, ops: seq<Op>, last: Op, refused: set<nat>, sig: nat)
    requires Inv(s, refused) && first.Mask? && last.Mask? && sig !in s.blocked
    requires var s0 := Apply(s, first, refused);
             && RunAllowed(s0, ops, refused) && StaysBlocked(s0, ops, refused, sig)
             && sig !in Apply(Run(s0, ops, refused), last, refused).blocked
    ensures var s0 := Apply(s, first, refused);
            var s1 := Run(s0, ops, refused);
            && CountOf(s1.log, sig) == CountOf(s.log, sig)
            && CountOf(Apply(s1, last, refused).log, sig) == CountOf(s.log, sig) + (if Arrive(sig) in ops then 1 else 0)
  {
    var s0 := Apply(s, first, refused);
    OneCall(s, first.op, first.m, refused, sig);
    BlockedArrivals(s0, ops, refused, sig);
    RunKeepsInv(s0, ops, refused);
    OneCall(Run(s0, ops, refused), last.op, last.m, refused, sig);
  }
}
