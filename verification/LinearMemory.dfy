/** Copies into linear memory, and what they do to bytes that lie in their way. */
module LinearMemory {
  import opened Messages

  /** m' is the memory image m after a copy of s to address at. */
  ghost predicate Copied(m: seq<byte>, at: nat, s: seq<byte>, m': seq<byte>) {
    && |m'| == |m|
    && forall i :: 0 <= i < |m| ==> m'[i] == if at <= i < at + |s| then s[i - at] else m[i]
  }

  lemma CopiedIsThere(m: seq<byte>, at: nat, s: seq<byte>, m': seq<byte>)
    requires at + |s| <= |m| && Copied(m, at, s, m')
    ensures m'[at..at + |s|] == s
  {
  }

  lemma CopiedAppends(m: seq<byte>, base: nat, len: nat, s: seq<byte>, m': seq<byte>)
    requires base + len + |s| <= |m| && Copied(m, base + len, s, m')
    ensures m'[base..base + (len + |s|)] == m[base..base + len] + s
  {
  }

  /** The bytes s at address at, after a copy of b to address w. */
  function Overlaid(s: seq<byte>, at: nat, w: nat, b: seq<byte>): (r: seq<byte>)
    ensures |r| == |s|
  {
    if s == [] then []
    else [if w <= at < w + |b| then b[at - w] else s[0]] + Overlaid(s[1..], at + 1, w, b)
  }

  lemma {:induction false} OverlaidAt(s: seq<byte>, at: nat, w: nat, b: seq<byte>, i: nat)
    requires i < |s|
    ensures Overlaid(s, at, w, b)[i] == if w <= at + i < w + |b| then b[at + i - w] else s[i]
  {
    if i > 0 {
      OverlaidAt(s[1..], at + 1, w, b, i - 1);
    }
  }

  lemma CopiedOverlays(m: seq<byte>, w: nat, b: seq<byte>, m': seq<byte>, lo: nat, hi: nat)
    requires lo <= hi <= |m| && Copied(m, w, b, m')
    ensures m'[lo..hi] == Overlaid(m[lo..hi], lo, w, b)
  {
    forall i | 0 <= i < hi - lo ensures m'[lo..hi][i] == Overlaid(m[lo..hi], lo, w, b)[i] {
      OverlaidAt(m[lo..hi], lo, w, b, i);
    }
  }

  /** A copy elsewhere changes nothing. */
  lemma {:induction false} OverlaidElsewhere(s: seq<byte>, at: nat, w: nat, b: seq<byte>)
    requires at + |s| <= w || w + |b| <= at || b == []
    ensures Overlaid(s, at, w, b) == s
  {
    if s != [] {
      OverlaidElsewhere(s[1..], at + 1, w, b);
    }
  }

  /** A copy to where the bytes begin replaces as many of them as it has. */
  lemma OverlaidFront(s: seq<byte>, at: nat, b: seq<byte>)
    ensures Overlaid(s, at, at, b) == if |b| <= |s| then b + s[|b|..] else b[..|s|]
  {
    forall i | 0 <= i < |s| ensures Overlaid(s, at, at, b)[i] == if i < |b| then b[i] else s[i] {
      OverlaidAt(s, at, at, b, i);
    }
  }

  /** How many of m bytes a send buffer of size bytes takes if it holds n already. */
  function Fit(n: nat, m: nat, size: nat): (r: nat)
    ensures r <= m
  {
    if n + m <= size then m else if n >= size then 0 else size - n
  }

  /** m' is m after b was appended to the n bytes of the send buffer at base, unless the reply
      went to a file already. */
  ghost predicate Written(files: bool, m: seq<byte>, base: nat, size: nat, n: nat, b: seq<byte>, m': seq<byte>) {
    if files then m' == m else Copied(m, base + n, b[..Fit(n, |b|, size)], m')
  }

  lemma NothingWritten(files: bool, m: seq<byte>, base: nat, size: nat, n: nat)
    ensures Written(files, m, base, size, n, [], m)
  {
  }

  /** A reply that grows by a and then by b, and may go to the file in between. */
  lemma WrittenTwice(before: bool, after: bool, base: nat, size: nat, n: nat, a: seq<byte>, b: seq<byte>,
                     m: seq<byte>, m': seq<byte>, m'': seq<byte>)
    requires Written(before, m, base, size, n, a, m') && Written(after, m', base, size, n + |a|, b, m'')
    requires if before then after else after ==> n + |a| >= size
    ensures Written(before, m, base, size, n, a + b, m'')
  {
  }

  /** The bytes s at address at, after b was appended to the n bytes of the buffer at base. */
  function Landed(s: seq<byte>, at: nat, base: nat, size: nat, n: nat, b: seq<byte>): (r: seq<byte>)
    ensures |r| == |s|
  {
    Overlaid(s, at, base + n, b[..Fit(n, |b|, size)])
  }

  lemma LandedNowhere(s: seq<byte>, at: nat, base: nat, size: nat, n: nat, b: seq<byte>)
    requires b == [] || n >= size || at + |s| <= base || base + size <= at
    ensures Landed(s, at, base, size, n, b) == s
  {
    OverlaidElsewhere(s, at, base + n, b[..Fit(n, |b|, size)]);
  }

  lemma LandedAt(s: seq<byte>, at: nat, base: nat, size: nat, n: nat, b: seq<byte>, i: nat)
    requires i < |s|
    ensures Landed(s, at, base, size, n, b)[i] ==
      if base + n <= at + i < base + n + Fit(n, |b|, size) then b[at + i - base - n] else s[i]
  {
    OverlaidAt(s, at, base + n, b[..Fit(n, |b|, size)], i);
  }

  lemma LandedTwice(s: seq<byte>, at: nat, base: nat, size: nat, n: nat, a: seq<byte>, b: seq<byte>)
    ensures Landed(Landed(s, at, base, size, n, a), at, base, size, n + |a|, b) == Landed(s, at, base, size, n, a + b)
  {
    var once := Landed(s, at, base, size, n, a);
    var twice := Landed(once, at, base, size, n + |a|, b);
    var whole := Landed(s, at, base, size, n, a + b);
    forall i | 0 <= i < |s| ensures twice[i] == whole[i] {
      LandedAt(s, at, base, size, n, a, i);
      LandedAt(once, at, base, size, n + |a|, b, i);
      LandedAt(s, at, base, size, n, a + b, i);
    }
  }

  lemma WrittenLands(m: seq<byte>, base: nat, size: nat, n: nat, b: seq<byte>, m': seq<byte>, lo: nat, hi: nat)
    requires Written(false, m, base, size, n, b, m') && lo <= hi <= |m|
    ensures |m'| == |m| && m'[lo..hi] == Landed(m[lo..hi], lo, base, size, n, b)
  {
    CopiedOverlays(m, base + n, b[..Fit(n, |b|, size)], m', lo, hi);
  }
}
