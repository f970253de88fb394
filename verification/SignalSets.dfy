/** sigset_t as the WASI port declares it, an unsigned char with one bit per signal, and
    the set it stands for. */
module SignalSets {
  type Mask = bv8

  /** The width of sigset_t. */
  const WIDTH: nat := 8

  predicate Has(m: Mask, sig: nat)
    requires sig < 8
  {
    (m >> sig) & 1 == 1
  }

  function Bit(sig: nat): Mask
    requires sig < 8
  {
    1 << sig
  }

  /** The signals of a mask. */
  ghost function Members(m: Mask): set<nat> {
    set i: nat | i < 8 && Has(m, i)
  }

  lemma HasOr(a: Mask, b: Mask, i: nat)
    requires i < 8
    ensures Has(a | b, i) <==> Has(a, i) || Has(b, i)
  {
    if i == 0 {} else if i == 1 {} else if i == 2 {} else if i == 3 {}
    else if i == 4 {} else if i == 5 {} else if i == 6 {} else {}
  }

  lemma HasAnd(a: Mask, b: Mask, i: nat)
    requires i < 8
    ensures Has(a & b, i) <==> Has(a, i) && Has(b, i)
  {
    if i == 0 {} else if i == 1 {} else if i == 2 {} else if i == 3 {}
    else if i == 4 {} else if i == 5 {} else if i == 6 {} else {}
  }

  lemma HasNot(a: Mask, i: nat)
    requires i < 8
    ensures Has(!a, i) <==> !Has(a, i)
  {
    if i == 0 {} else if i == 1 {} else if i == 2 {} else if i == 3 {}
    else if i == 4 {} else if i == 5 {} else if i == 6 {} else {}
  }

  lemma HasBit(i: nat, j: nat)
    requires i < 8 && j < 8
    ensures Has(Bit(j), i) <==> i == j
  {
    if i == 0 {} else if i == 1 {} else if i == 2 {} else if i == 3 {}
    else if i == 4 {} else if i == 5 {} else if i == 6 {} else {}
  }

  lemma MembersOr(a: Mask, b: Mask)
    ensures Members(a | b) == Members(a) + Members(b)
  {
    forall i: nat | i < 8 ensures i in Members(a | b) <==> i in Members(a) + Members(b) {
      HasOr(a, b, i);
    }
  }

  lemma MembersAndNot(a: Mask, b: Mask)
    ensures Members(a & !b) == Members(a) - Members(b)
  {
    forall i: nat | i < 8 ensures i in Members(a & !b) <==> i in Members(a) - Members(b) {
      HasAnd(a, !b, i);
      HasNot(b, i);
    }
  }

  function Without(a: Mask, b: Mask): (m: Mask)
    ensures Members(m) == Members(a) - Members(b)
  {
    MembersAndNot(a, b);
    a & !b
  }

  lemma MembersBit(sig: nat)
    requires sig < 8
    ensures Members(Bit(sig)) == {sig}
  {
    forall i: nat | i < 8 ensures i in Members(Bit(sig)) <==> i == sig {
      HasBit(i, sig);
    }
  }

  /** Two masks with the same signals are the same byte. */
  lemma MembersInjective(a: Mask, b: Mask)
    requires Members(a) == Members(b)
    ensures a == b
  {
    forall i: nat | i < 8 ensures Has(a, i) <==> Has(b, i) {
      assert i in Members(a) <==> i in Members(b);
    }
    SameBits(a, b);
  }

  lemma SameBits(a: Mask, b: Mask)
    requires forall i: nat :: i < 8 ==> (Has(a, i) <==> Has(b, i))
    ensures a == b
  {
    assert Has(a, 0) <==> Has(b, 0);
    assert Has(a, 1) <==> Has(b, 1);
    assert Has(a, 2) <==> Has(b, 2);
    assert Has(a, 3) <==> Has(b, 3);
    assert Has(a, 4) <==> Has(b, 4);
    assert Has(a, 5) <==> Has(b, 5);
    assert Has(a, 6) <==> Has(b, 6);
    assert Has(a, 7) <==> Has(b, 7);
  }

  // ---------- The POSIX set functions ----------

  function SigEmptySet(): (m: Mask)
    ensures Members(m) == {}
  {
    0
  }

  /** (2U << (NSIG - 1)) - 1, cut down to a byte. */
  function SigFillSet(nsig: nat): (m: Mask)
    requires 1 <= nsig <= 8
    ensures forall i: nat :: i in Members(m) <==> i < nsig
  {
    var m := (((2 as bv16) << (nsig - 1)) - 1) as bv8;
    FillMembers(nsig, m);
    m
  }

  lemma FillMembers(nsig: nat, m: Mask)
    requires 1 <= nsig <= 8 && m as bv16 == ((2 as bv16) << (nsig - 1)) - 1
    ensures forall i: nat :: i in Members(m) <==> i < nsig
  {
    if nsig == 1 {} else if nsig == 2 {} else if nsig == 3 {} else if nsig == 4 {}
    else if nsig == 5 {} else if nsig == 6 {} else if nsig == 7 {} else {}
  }

  datatype SetResult = Set(m: Mask) | Invalid

  /** Out of range is EINVAL; otherwise exactly sig is added. */
  function SigAddSet(m: Mask, sig: int, nsig: nat): (r: SetResult)
    requires 1 <= nsig <= 8
    ensures r.Set? <==> 0 <= sig < nsig
    ensures r.Set? ==> Members(r.m) == Members(m) + {sig}
  {
    if 0 <= sig < nsig then
      MembersOr(m, Bit(sig)); MembersBit(sig);
      Set(m | Bit(sig))
    else Invalid
  }

  /** Out of range is EINVAL; otherwise exactly sig is removed. */
  function SigDelSet(m: Mask, sig: int, nsig: nat): (r: SetResult)
    requires 1 <= nsig <= 8
    ensures r.Set? <==> 0 <= sig < nsig
    ensures r.Set? ==> Members(r.m) == Members(m) - {sig}
  {
    if 0 <= sig < nsig then
      MembersAndNot(m, Bit(sig)); MembersBit(sig);
      Set(m & !Bit(sig))
    else Invalid
  }

  /** Adding a signal that was not there and deleting it gives the byte back. */
  lemma AddThenDelete(m: Mask, sig: nat, nsig: nat)
    requires 1 <= nsig <= 8 && sig < nsig && sig !in Members(m)
    ensures SigDelSet(SigAddSet(m, sig, nsig).m, sig, nsig) == Set(m)
  {
    var back := SigDelSet(SigAddSet(m, sig, nsig).m, sig, nsig);
    assert Members(back.m) == Members(m);
    MembersInjective(back.m, m);
  }
}
