/** The signal-mask emulation of the WASI port, over its byte mask and its arrays. */
module SignalPort {
  import opened SignalSets
  import opened SignalModel

  datatype MaskArgument = Null | Some(m: Mask)

  class SignalPort {
    /** NSIG, no larger than the width of sigset_t, and the signals signal() refuses. */
    const nsig: nat
    ghost const refused: set<nat>
    const refuses: seq<bool>

    var blockedSet: Mask
    const pendingArray: array<bool>
    const oldHandlers: array<Handler>
    /** The handler table behind signal(). */
    const dispositions: array<Handler>

    /** The abstract state, with every handler run so far. */
    ghost var view: Signals

    ghost predicate Valid()
      reads this, pendingArray, oldHandlers, dispositions
    {
      && 1 <= nsig <= 8 && |refuses| == nsig
      && oldHandlers != dispositions
      && pendingArray.Length == oldHandlers.Length == dispositions.Length == nsig
      && (forall i :: 0 <= i < nsig ==> (i in refused <==> refuses[i]))
      && Sized(view, nsig) && (forall i :: 0 <= i < nsig ==> view.installed[i] != Error)
      && Members(blockedSet) == view.blocked
      && (forall i :: i in view.pending ==> i < nsig)
      && (forall i :: 0 <= i < nsig ==> (i in view.pending <==> pendingArray[i]))
      && (forall i :: 0 <= i < nsig ==> view.saved[i] == oldHandlers[i])
      && (forall i :: 0 <= i < nsig ==> view.installed[i] == dispositions[i])
    }

    /** A fresh process: nothing blocked or pending, every signal at its default. */
    constructor (refuses: seq<bool>)
      requires 1 <= |refuses| <= 8
      ensures Valid() && Inv(view, refused) && view.blocked == {} && view.log == []
      ensures fresh(pendingArray) && fresh(oldHandlers) && fresh(dispositions)
    {
      nsig, this.refuses := |refuses|, refuses;
      refused := set i: nat | i < |refuses| && refuses[i];
      blockedSet := SigEmptySet();
      pendingArray := new bool[|refuses|](_ => false);
      oldHandlers := new Handler[|refuses|](_ => Default);
      dispositions := new Handler[|refuses|](_ => Default);
      var defaults := seq(|refuses|, _ => Default);
      view := Signals({}, {}, defaults, defaults, []);
    }

    /** signal(): the previous handler, or Error without any effect. */
    method Signal(sig: nat, h: Handler) returns (previous: Handler)
      requires Valid() && sig < nsig
      modifies this`view, dispositions
      ensures Valid()
      ensures previous == if sig in refused || h == Error then Error else old(view.installed[sig])
      ensures view == if previous == Error then old(view) else old(view).(installed := old(view.installed)[sig := h])
    {
      if refuses[sig] || h == Error {
        return Error;
      }
      previous := dispositions[sig];
      dispositions[sig] := h;
      view := view.(installed := view.installed[sig := h]);
    }

    /** blocked_handler: reinstall, then mark the signal if it is one. */
    method RunBlockedHandler(sig: nat)
      requires Valid() && sig < nsig && view.installed[sig] == BlockedHandler
      modifies this`view, dispositions, pendingArray
      ensures Valid() && view == old(view).(pending := old(view.pending) + {sig})
    {
      var _ := Signal(sig, BlockedHandler);
      assert view.installed == old(view.installed);
      SetPending(sig, true);
    }

    /** raise(), or the arrival of a signal: the installed handler runs. */
    method Raise(sig: nat)
      requires Valid() && sig < nsig
      modifies this`view, dispositions, pendingArray
      ensures Valid() && view == Deliver(old(view), sig)
    {
      if dispositions[sig] == BlockedHandler {
        RunBlockedHandler(sig);
      } else {
        view := Deliver(view, sig);
      }
    }

    /** The body of the blocking loop for one signal. */
    method BlockSignal(sig: nat)
      requires Valid() && sig < nsig
      modifies this`view, this`blockedSet, pendingArray, oldHandlers, dispositions
      ensures Valid() && view == AfterBlock(old(view), {sig}, refused)
    {
      SetPending(sig, false);
      var previous := Signal(sig, BlockedHandler);
      oldHandlers[sig] := previous;
      view := view.(saved := view.saved[sig := previous]);
      if previous != Error {
        AddBlocked(sig);
      }
      assert view == AfterBlock(old(view), {sig}, refused);
    }

    method AddBlocked(sig: nat)
      requires Valid() && sig < nsig
      modifies this`view, this`blockedSet
      ensures Valid() && view == old(view).(blocked := old(view.blocked) + {sig})
    {
      MembersOr(blockedSet, Bit(sig));
      MembersBit(sig);
      blockedSet := blockedSet | Bit(sig);
      view := view.(blocked := view.blocked + {sig});
    }

    method SetPending(sig: nat, mark: bool)
      requires Valid() && sig < nsig
      modifies this`view, pendingArray
      ensures Valid()
      ensures view == old(view).(pending := if mark then old(view.pending) + {sig} else old(view.pending) - {sig})
    {
      pendingArray[sig] := mark;
      view := view.(pending := if mark then view.pending + {sig} else view.pending - {sig});
    }

    /** The body of the unblocking loop for one signal; aborted is its abort(). */
    method UnblockSignal(sig: nat) returns (aborted: bool, received: bool)
      requires Valid() && sig < nsig
      modifies this`view, this`blockedSet, pendingArray, dispositions
      ensures Valid()
      ensures aborted <==> Tampered(old(view), sig, refused)
      ensures !aborted ==> view == AfterUnblock(old(view), {sig}) && (received <==> sig in old(view).pending)
    {
      var previous := Signal(sig, oldHandlers[sig]);
      if previous != BlockedHandler {
        return true, false;
      }
      received := pendingArray[sig];
      MembersAndNot(blockedSet, Bit(sig));
      MembersBit(sig);
      blockedSet := blockedSet & !Bit(sig);
      view := view.(blocked := view.blocked - {sig});
      SetPending(sig, false);
      aborted := false;
    }

    /** sigprocmask(): rc is -1 for an unknown operation, oldSet the mask on entry. It aborts
        if a signal to unblock cannot get its handler back or does not have blocked_handler. */
    method SigProcMask(operation: Operation, argument: MaskArgument)
      returns (rc: int, oldSet: Mask, aborted: bool)
      requires Valid()
      modifies this`view, this`blockedSet, pendingArray, oldHandlers, dispositions
      ensures Members(oldSet) == old(view.blocked)
      ensures argument.Null? || operation == Unknown ==>
        view == old(view) && !aborted && rc == (if argument.Some? then -1 else 0)
      ensures argument.Some? && operation != Unknown ==>
        && rc == 0
        && (aborted <==> exists sig :: 0 <= sig < nsig && sig in ToUnblock(old(view), operation, Members(argument.m))
                                       && (sig in refused || old(view).saved[sig] == Error
                                           || old(view).installed[sig] != BlockedHandler))
        && (!aborted ==> Valid() && view == SignalModel.SigProcMask(old(view), operation, Members(argument.m), refused))
      ensures !aborted ==>
        forall i, j :: old(|view.log|) <= i < j < |view.log| ==> view.log[i].sig < view.log[j].sig
    {
      rc, oldSet, aborted := 0, blockedSet, false;
      if argument.Some? {
        var known, toBlock, toUnblock := Split(operation, argument.m);
        if !known {
          return -1, oldSet, false;
        }
        LowerSignalsFirst(view, operation, Members(argument.m), refused);
        BlockIsClosedForm(view, Members(toBlock), refused);
        BlockAll(toBlock);
        UnblockIsClosedForm(view, Members(toUnblock), refused);
        aborted := UnblockAll(toUnblock);
      }
    }

    /** new_blocked_set and the two differences it makes. */
    method Split(operation: Operation, m: Mask) returns (known: bool, toBlock: Mask, toUnblock: Mask)
      requires Valid()
      ensures known <==> operation != Unknown
      ensures known ==> Members(toBlock) == ToBlock(view, operation, Members(m))
      ensures known ==> Members(toUnblock) == ToUnblock(view, operation, Members(m))
    {
      var newBlockedSet := blockedSet;
      match operation {
        case Block =>
          MembersOr(blockedSet, m);
          newBlockedSet := blockedSet | m;
        case SetMask =>
          newBlockedSet := m;
        case Unblock =>
          MembersAndNot(blockedSet, m);
          newBlockedSet := blockedSet & !m;
        case Unknown =>
          return false, 0, 0;
      }
      toBlock, toUnblock := Without(newBlockedSet, blockedSet), Without(blockedSet, newBlockedSet);
      known := true;
    }

    /** The test of both loops. */
    method TestBit(m: Mask, sig: nat) returns (b: bool)
      requires sig < 8
      ensures b <==> sig in Members(m)
    {
      b := (m >> sig) & 1 == 1;
    }

    /** The loop over to_block. */
    method BlockAll(toBlock: Mask)
      requires Valid()
      modifies this`view, this`blockedSet, pendingArray, oldHandlers, dispositions
      ensures Valid() && view == BlockFrom(old(view), Members(toBlock), 0, refused)
    {
      var sig := 0;
      while sig < nsig
        invariant 0 <= sig <= nsig && Valid()
        invariant BlockFrom(view, Members(toBlock), sig, refused) == BlockFrom(old(view), Members(toBlock), 0, refused)
      {
        var member := TestBit(toBlock, sig);
        if member {
          BlockSignal(sig);
        }
        sig := sig + 1;
      }
    }

    /** The body of that loop, with its else branch. */
    method UnblockIfMember(toUnblock: Mask, sig: nat) returns (aborted: bool, received: bool)
      requires Valid() && sig < nsig
      modifies this`view, this`blockedSet, pendingArray, dispositions
      ensures Valid() && (aborted <==> sig in Members(toUnblock) && Tampered(old(view), sig, refused))
      ensures !aborted ==>
        && view == (if sig in Members(toUnblock) then AfterUnblock(old(view), {sig}) else old(view))
        && (received <==> sig in Members(toUnblock) && sig in old(view).pending)
    {
      var member := TestBit(toUnblock, sig);
      if member {
        aborted, received := UnblockSignal(sig);
      } else {
        aborted, received := false, false;
      }
    }

    /** The loop over to_unblock, which fills received. */
    method UnblockEach(toUnblock: Mask, received: array<bool>) returns (aborted: bool, ghost marks: set<nat>)
      requires Valid() && received.Length == nsig && received != pendingArray
      modifies this`view, this`blockedSet, pendingArray, dispositions, received
      ensures UnblockFrom(old(view), Members(toUnblock), 0, refused, {}) ==
              if aborted then AbortCalled else Unblocked(view, marks)
      ensures !aborted ==> Valid() && forall i :: 0 <= i < nsig ==> (received[i] <==> i in marks)
    {
      var sig := 0;
      aborted, marks := false, {};
      ghost var t := Members(toUnblock);
      while sig < nsig
        invariant 0 <= sig <= nsig && Valid() && !aborted
        invariant UnblockFrom(view, t, sig, refused, marks) == UnblockFrom(old(view), t, 0, refused, {})
        invariant forall i :: i in marks ==> i < sig
        invariant forall i :: 0 <= i < sig ==> (received[i] <==> i in marks)
      {
        var pending;
        aborted, pending := UnblockIfMember(toUnblock, sig);
        if aborted {
          return;
        }
        received[sig] := pending;
        marks := if pending then marks + {sig} else marks;
        sig := sig + 1;
      }
    }

    /** The unblocking half: the loop over to_unblock and the raise() loop behind it. */
    method UnblockAll(toUnblock: Mask) returns (aborted: bool)
      requires Valid()
      modifies this`view, this`blockedSet, pendingArray, dispositions
      ensures match UnblockFrom(old(view), Members(toUnblock), 0, refused, {})
              case AbortCalled => aborted
              case Unblocked(s, marks) => !aborted && Valid() && view == RaiseFrom(s, marks, 0)
    {
      var received := new bool[nsig](_ => false);
      ghost var marks;
      aborted, marks := UnblockEach(toUnblock, received);
      if !aborted {
        RaiseAll(received, marks);
      }
    }

    /** raise() for every received signal, in order. */
    method RaiseAll(received: array<bool>, ghost marked: set<nat>)
      requires Valid() && received.Length == nsig && received != pendingArray
      requires forall i :: 0 <= i < nsig ==> (received[i] <==> i in marked)
      modifies this`view, pendingArray, dispositions
      ensures Valid() && view == RaiseFrom(old(view), marked, 0)
    {
      var sig := 0;
      while sig < nsig
        invariant 0 <= sig <= nsig && Valid()
        invariant RaiseFrom(view, marked, sig) == RaiseFrom(old(view), marked, 0)
      {
        if received[sig] {
          Raise(sig);
        }
        sig := sig + 1;
      }
    }
  }
}
