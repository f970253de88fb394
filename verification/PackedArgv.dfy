/** copy_argv: an argument vector packed into one block, pointer table first. */
module PackedArgv {

  /** One byte of the block: never written, the first or a later byte of a pointer, a
      character, or the NUL behind a string. Target 0 of the block is the table itself, so
      a pointer into the block is never NULL. */
  datatype Cell = Raw | Pointer(target: nat) | NullPointer | PointerRest | Char(c: char) | Nul

  /** strlen + 1 of the first i arguments together. */
  function TextBefore(argv: seq<string>, i: nat): nat
    requires i <= |argv|
  {
    if i == 0 then 0 else TextBefore(argv, i - 1) + |argv[i - 1]| + 1
  }

  function TableSize(argc: nat, pointerSize: nat): nat {
    (argc + 1) * pointerSize
  }

  /** Where argument i lies, as a byte offset into the block. */
  function Offset(argv: seq<string>, pointerSize: nat, i: nat): nat
    requires i <= |argv|
  {
    TableSize(|argv|, pointerSize) + TextBefore(argv, i)
  }

  predicate PointerAt(block: seq<Cell>, at: nat, pointerSize: nat, first: Cell) {
    && at + pointerSize <= |block| && pointerSize > 0
    && block[at] == first && forall k :: at < k < at + pointerSize ==> block[k] == PointerRest
  }

  predicate StringAt(block: seq<Cell>, at: nat, s: string) {
    && at + |s| < |block| && block[at + |s|] == Nul
    && forall k :: 0 <= k < |s| ==> block[at + k] == Char(s[k])
  }

  /** new_argv[i] points at a copy of argv[i]. */
  predicate Packed(block: seq<Cell>, argv: seq<string>, pointerSize: nat, i: nat)
    requires i < |argv|
  {
    && PointerAt(block, i * pointerSize, pointerSize, Pointer(Offset(argv, pointerSize, i)))
    && StringAt(block, Offset(argv, pointerSize, i), argv[i])
  }

  /** Reading a C string out of the block. */
  function ReadString(block: seq<Cell>, at: nat): string
    decreases |block| - at
  {
    if at < |block| && block[at].Char? then [block[at].c] + ReadString(block, at + 1) else []
  }

  lemma {:induction false} StringReadsBack(block: seq<Cell>, at: nat, s: string)
    requires StringAt(block, at, s)
    ensures ReadString(block, at) == s
    decreases |s|
  {
    if s != [] {
      assert block[at + 0] == Char(s[0]);
      forall k | 0 <= k < |s[1..]| ensures block[at + 1 + k] == Char(s[1..][k]) {
        assert block[at + (k + 1)] == Char(s[k + 1]);
      }
      StringReadsBack(block, at + 1, s[1..]);
    }
  }

  lemma TableSlots(argc: nat, pointerSize: nat, i: nat, j: nat)
    requires i < j <= argc
    ensures i * pointerSize + pointerSize <= j * pointerSize
    ensures j * pointerSize + pointerSize <= TableSize(argc, pointerSize)
  {
    assert j * pointerSize - i * pointerSize == (j - i) * pointerSize;
    assert TableSize(argc, pointerSize) - j * pointerSize == (argc + 1 - j) * pointerSize;
    MulAtLeast(j - i, pointerSize);
    MulAtLeast(argc + 1 - j, pointerSize);
  }

  lemma MulAtLeast(n: nat, p: nat)
    requires n >= 1
    ensures n * p >= p
  {
  }

  lemma {:induction false} TextGrows(argv: seq<string>, i: nat, j: nat)
    requires i < j <= |argv|
    ensures TextBefore(argv, i) + |argv[i]| + 1 <= TextBefore(argv, j)
    decreases j
  {
    if i + 1 < j {
      TextGrows(argv, i, j - 1);
    }
  }

  /** The regions of the block: table slots and strings are pairwise disjoint, each string
      ends where the next begins, and the last ends with the block. */
  lemma RegionsAreDisjoint(argv: seq<string>, pointerSize: nat, i: nat, j: nat)
    requires i < j < |argv|
    ensures i * pointerSize + pointerSize <= j * pointerSize
    ensures j * pointerSize + pointerSize <= |argv| * pointerSize < TableSize(|argv|, pointerSize) || pointerSize == 0
    ensures Offset(argv, pointerSize, 0) == TableSize(|argv|, pointerSize)
    ensures Offset(argv, pointerSize, i) + |argv[i]| + 1 <= Offset(argv, pointerSize, j)
    ensures Offset(argv, pointerSize, i) + |argv[i]| + 1 == Offset(argv, pointerSize, i + 1)
    ensures Offset(argv, pointerSize, j) + |argv[j]| + 1 <= Offset(argv, pointerSize, |argv|)
  {
    TableSlots(|argv|, pointerSize, i, j);
    TableSlots(|argv|, pointerSize, j, |argv|);
    TextGrows(argv, i, j);
    TextGrows(argv, j, |argv|);
  }

  /** One pointer of the table. */
  method StorePointer(block: array<Cell>, at: nat, pointerSize: nat, first: Cell)
    requires pointerSize > 0 && at + pointerSize <= block.Length
    modifies block
    ensures PointerAt(block[..], at, pointerSize, first)
    ensures forall k :: 0 <= k < block.Length && (k < at || k >= at + pointerSize) ==> block[k] == old(block[k])
  {
    forall k | at <= k < at + pointerSize {
      block[k] := if k == at then first else PointerRest;
    }
  }

  /** strcpy */
  method StoreString(block: array<Cell>, at: nat, s: string)
    requires at + |s| < block.Length
    modifies block
    ensures StringAt(block[..], at, s)
    ensures forall k :: 0 <= k < block.Length && (k < at || k > at + |s|) ==> block[k] == old(block[k])
  {
    forall k | 0 <= k <= |s| {
      block[at + k] := if k < |s| then Char(s[k]) else Nul;
    }
  }

  /** Cell k belongs to slot i of the table or to string i. */
  predicate Within(argv: seq<string>, pointerSize: nat, i: nat, k: int)
    requires i < |argv|
  {
    || i * pointerSize <= k < i * pointerSize + pointerSize
    || Offset(argv, pointerSize, i) <= k <= Offset(argv, pointerSize, i) + |argv[i]|
  }

  lemma OthersStayPacked(before: seq<Cell>, after: seq<Cell>, argv: seq<string>, pointerSize: nat, i: nat, j: nat)
    requires j < i < |argv| && |before| == |after| && Packed(before, argv, pointerSize, j)
    requires forall k :: 0 <= k < |before| && !Within(argv, pointerSize, i, k) ==> after[k] == before[k]
    ensures Packed(after, argv, pointerSize, j)
  {
    RegionsAreDisjoint(argv, pointerSize, j, i);
    forall k | Within(argv, pointerSize, j, k) ensures !Within(argv, pointerSize, i, k) {
      TableSlots(|argv|, pointerSize, j, |argv|);
    }
    var at, off := j * pointerSize, Offset(argv, pointerSize, j);
    forall k | at <= k < at + pointerSize ensures after[k] == before[k] {
      assert Within(argv, pointerSize, j, k);
    }
    forall k | off <= k <= off + |argv[j]| ensures after[k] == before[k] {
      assert Within(argv, pointerSize, j, k);
    }
  }

  /** One turn of the copying loop. */
  method PackOne(block: array<Cell>, argv: seq<string>, pointerSize: nat, i: nat, length: nat)
    requires pointerSize > 0 && i < |argv| && length == TextBefore(argv, i)
    requires block.Length == Offset(argv, pointerSize, |argv|)
    modifies block
    ensures Packed(block[..], argv, pointerSize, i)
    ensures forall k :: 0 <= k < block.Length && !Within(argv, pointerSize, i, k) ==> block[k] == old(block[k])
    ensures forall k :: 0 <= k < block.Length && Within(argv, pointerSize, i, k) ==> block[k] != Raw
  {
    TableSlots(|argv|, pointerSize, i, |argv|);
    TextGrows(argv, i, |argv|);
    var at, off := i * pointerSize, (|argv| + 1) * pointerSize + length;
    StorePointer(block, at, pointerSize, Pointer(off));
    ghost var middle := block[..];
    StoreString(block, off, argv[i]);
    forall k | at <= k < at + pointerSize ensures block[k] == middle[k] {
    }
    forall k | off <= k <= off + |argv[i]| ensures block[k] != Raw {
      var m := k - off;
      assert block[..][off + m] == if m < |argv[i]| then Char(argv[i][m]) else Nul;
    }
  }

  /** The state before turn i of the copying loop. */
  ghost predicate PackedUpTo(block: seq<Cell>, argv: seq<string>, pointerSize: nat, i: nat)
    requires i <= |argv|
  {
    && |block| == Offset(argv, pointerSize, |argv|)
    && (forall j :: 0 <= j < i ==> Packed(block, argv, pointerSize, j))
    && (forall k :: 0 <= k < i * pointerSize && k < |block| ==> block[k] != Raw)
    && (forall k :: Offset(argv, pointerSize, 0) <= k < Offset(argv, pointerSize, i) && k < |block| ==> block[k] != Raw)
  }

  method PackStep(block: array<Cell>, argv: seq<string>, pointerSize: nat, i: nat, length: nat)
    requires pointerSize > 0 && i < |argv| && length == TextBefore(argv, i)
    requires PackedUpTo(block[..], argv, pointerSize, i)
    modifies block
    ensures PackedUpTo(block[..], argv, pointerSize, i + 1)
  {
    ghost var before := block[..];
    PackOne(block, argv, pointerSize, i, length);
    ghost var after := block[..];
    forall j | 0 <= j < i ensures Packed(after, argv, pointerSize, j) {
      OthersStayPacked(before, after, argv, pointerSize, i, j);
    }
    assert (i + 1) * pointerSize == i * pointerSize + pointerSize;
    forall k | 0 <= k < |after| && (k < (i + 1) * pointerSize
                                    || Offset(argv, pointerSize, 0) <= k < Offset(argv, pointerSize, i + 1))
      ensures after[k] != Raw
    {
      if !Within(argv, pointerSize, i, k) {
        assert after[k] == before[k];
      }
    }
  }

  method PackNull(block: array<Cell>, argv: seq<string>, pointerSize: nat)
    requires pointerSize > 0 && PackedUpTo(block[..], argv, pointerSize, |argv|)
    modifies block
    ensures forall i :: 0 <= i < |argv| ==> Packed(block[..], argv, pointerSize, i)
    ensures PointerAt(block[..], |argv| * pointerSize, pointerSize, NullPointer)
    ensures Raw !in block[..]
  {
    ghost var before := block[..];
    var at := |argv| * pointerSize;
    assert at + pointerSize == TableSize(|argv|, pointerSize) == Offset(argv, pointerSize, 0);
    StorePointer(block, at, pointerSize, NullPointer);
    ghost var after := block[..];
    forall i | 0 <= i < |argv| ensures Packed(after, argv, pointerSize, i) {
      TableSlots(|argv|, pointerSize, i, |argv|);
      assert Packed(before, argv, pointerSize, i);
    }
    forall k | 0 <= k < |after| ensures after[k] != Raw {
      if k < at || k >= at + pointerSize {
        assert after[k] == before[k];
      } else {
        assert after[k] == NullPointer || after[k] == PointerRest;
      }
    }
  }

  /** copy_argv: the space the first loop counts is filled exactly by the second. */
  method CopyArgv(argv: seq<string>, pointerSize: nat) returns (block: array<Cell>)
    requires pointerSize > 0
    ensures block.Length == TableSize(|argv|, pointerSize) + TextBefore(argv, |argv|)
    ensures forall i :: 0 <= i < |argv| ==> Packed(block[..], argv, pointerSize, i)
    ensures PointerAt(block[..], |argv| * pointerSize, pointerSize, NullPointer)
    ensures Raw !in block[..]
  {
    var length := 0;
    for i := 0 to |argv|
      invariant length == TextBefore(argv, i)
    {
      length := length + (|argv[i]| + 1);
    }
    block := new Cell[TableSize(|argv|, pointerSize) + length](_ => Raw);
    length := 0;
    for i := 0 to |argv|
      invariant length == TextBefore(argv, i)
      invariant fresh(block) && PackedUpTo(block[..], argv, pointerSize, i)
    {
      PackStep(block, argv, pointerSize, i, length);
      length := length + (|argv[i]| + 1);
    }
    PackNull(block, argv, pointerSize);
  }
}
