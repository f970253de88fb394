/** The growable dictionary of the dlfcn tables. */
module Dictionary {

  datatype Entry = Entry(key: string, value: int)

  function Pow2(n: nat): (p: nat)
    ensures p >= 1
  {
    if n == 0 then 1 else 2 * Pow2(n - 1)
  }

  /** The first entry with this key, or -1. */
  predicate IsIndexOf(es: seq<Entry>, key: string, idx: int) {
    if idx == -1 then forall i :: 0 <= i < |es| ==> es[i].key != key
    else 0 <= idx < |es| && es[idx].key == key && forall i :: 0 <= i < idx ==> es[i].key != key
  }

  ghost predicate DistinctKeys(es: seq<Entry>) {
    forall i, j :: 0 <= i < j < |es| ==> es[i].key != es[j].key
  }

  /** The map a sequence of entries denotes, added in order. */
  function MapOf(adds: seq<Entry>): map<string, int> {
    if adds == [] then map[] else MapOf(adds[..|adds| - 1])[adds[|adds| - 1].key := adds[|adds| - 1].value]
  }

  /** In that map the last entry of a key wins. */
  lemma {:induction false} LastAdditionWins(adds: seq<Entry>, key: string)
    ensures key in MapOf(adds) <==> exists i :: 0 <= i < |adds| && adds[i].key == key
    ensures forall i :: 0 <= i < |adds| && adds[i].key == key && (forall j :: i < j < |adds| ==> adds[j].key != key) ==>
      key in MapOf(adds) && MapOf(adds)[key] == adds[i].value
    decreases |adds|
  {
    if adds != [] {
      var n := |adds| - 1;
      var init := adds[..n];
      LastAdditionWins(init, key);
      if key in MapOf(adds) {
        if adds[n].key != key {
          var i :| 0 <= i < |init| && init[i].key == key;
          assert adds[i].key == key;
        }
      }
      forall i | 0 <= i < |adds| && adds[i].key == key
        ensures key in MapOf(adds)
      {
        if i < n {
          assert init[i].key == key;
        }
      }
      forall i | 0 <= i < |adds| && adds[i].key == key && (forall j :: i < j < |adds| ==> adds[j].key != key)
        ensures key in MapOf(adds) && MapOf(adds)[key] == adds[i].value
      {
        if i < n {
          assert init[i].key == key && forall j :: i < j < |init| ==> init[j] == adds[j];
        }
      }
    }
  }

  /** Overwriting the value of an entry is adding its key again. */
  lemma {:induction false} OverwriteIsAdd(es: seq<Entry>, idx: nat, value: int)
    requires DistinctKeys(es) && idx < |es|
    ensures MapOf(es[idx := Entry(es[idx].key, value)]) == MapOf(es)[es[idx].key := value]
    decreases |es|
  {
    var n := |es| - 1;
    var es' := es[idx := Entry(es[idx].key, value)];
    if idx == n {
      assert es'[..n] == es[..n];
    } else {
      OverwriteIsAdd(es[..n], idx, value);
      assert es'[..n] == es[..n][idx := Entry(es[idx].key, value)];
      assert es[n].key != es[idx].key;
    }
  }

  lemma {:induction false} SizeOfMap(es: seq<Entry>)
    requires DistinctKeys(es)
    ensures |MapOf(es)| == |es|
    decreases |es|
  {
    if es != [] {
      var n := |es| - 1;
      SizeOfMap(es[..n]);
      LastAdditionWins(es[..n], es[n].key);
      assert MapOf(es).Keys == MapOf(es[..n]).Keys + {es[n].key};
    }
  }

  lemma Appended(es: seq<Entry>, e: Entry)
    requires DistinctKeys(es) && IsIndexOf(es, e.key, -1)
    ensures DistinctKeys(es + [e]) && MapOf(es + [e]) == MapOf(es)[e.key := e.value]
  {
    assert (es + [e])[..|es|] == es;
  }

  class Dict {
    var len: nat
    var cap: nat
    var entry: array<Entry>

    /** The dictionary as a map, how often it grew, and the entries realloc copied so far. */
    ghost var contents: map<string, int>
    ghost var growths: nat
    ghost var copied: nat

    ghost predicate Valid()
      reads this, entry
    {
      && len <= cap == entry.Length == 10 * Pow2(growths)
      && DistinctKeys(entry[..len]) && contents == MapOf(entry[..len])
      && copied + 10 == cap && (growths > 0 ==> cap < 2 * len)
    }

    /** dict_new */
    constructor ()
      ensures Valid() && fresh(entry) && contents == map[] && len == 0
    {
      len, cap, entry := 0, 10, new Entry[10](_ => Entry("", 0));
      contents, growths, copied := map[], 0, 0;
    }

    /** dict_find_index */
    method FindIndex(key: string) returns (idx: int)
      requires Valid()
      ensures IsIndexOf(entry[..len], key, idx)
    {
      var i := 0;
      while i < len
        invariant 0 <= i <= len
        invariant forall j :: 0 <= j < i ==> entry[j].key != key
      {
        if entry[i].key == key {
          return i;
        }
        i := i + 1;
      }
      return -1;
    }

    /** dict_find */
    method Find(key: string, def: int) returns (value: int)
      requires Valid()
      ensures value == if key in contents then contents[key] else def
    {
      var idx := FindIndex(key);
      LastAdditionWins(entry[..len], key);
      value := if idx == -1 then def else entry[idx].value;
    }

    /** realloc to twice the capacity: the only place where entries are copied. */
    method Grow()
      requires Valid() && len == cap
      modifies this
      ensures fresh(entry) && cap == 2 * old(cap) && len == old(len) && contents == old(contents)
      ensures entry.Length == cap == 10 * Pow2(growths) && entry[..len] == old(entry[..len])
      ensures growths == old(growths) + 1 && copied == old(copied) + len
    {
      cap := cap * 2;
      var larger := new Entry[cap](_ => Entry("", 0));
      forall i | 0 <= i < len {
        larger[i] := entry[i];
      }
      entry := larger;
      growths, copied := growths + 1, copied + len;
    }

    /** dict_add of a key that is there: its value is replaced in place. */
    method Overwrite(idx: nat, value: int)
      requires Valid() && idx < len
      modifies this`contents, entry
      ensures Valid() && contents == old(contents)[old(entry[idx].key) := value]
    {
      ghost var es := entry[..len];
      OverwriteIsAdd(es, idx, value);
      entry[idx] := Entry(entry[idx].key, value);
      contents := contents[es[idx].key := value];
      assert entry[..len] == es[idx := Entry(es[idx].key, value)];
    }

    /** dict_add of a new key, behind the others. */
    method Append(key: string, value: int)
      requires Valid() && IsIndexOf(entry[..len], key, -1)
      modifies this, entry
      ensures Valid() && (entry == old(entry) || fresh(entry))
      ensures contents == old(contents)[key := value] && len == old(len) + 1
    {
      ghost var es := entry[..len];
      Appended(es, Entry(key, value));
      if len == cap {
        Grow();
      }
      entry[len] := Entry(key, value);
      len := len + 1;
      contents := contents[key := value];
      assert entry[..len] == es + [Entry(key, value)];
    }

    /** dict_add */
    method Add(key: string, value: int)
      requires Valid()
      modifies this, entry
      ensures Valid() && (entry == old(entry) || fresh(entry))
      ensures contents == old(contents)[key := value]
      ensures len == old(len) + (if key in old(contents) then 0 else 1)
    {
      var idx := FindIndex(key);
      LastAdditionWins(entry[..len], key);
      if idx != -1 {
        Overwrite(idx, value);
      } else {
        Append(key, value);
      }
    }
  }

  // ---------- Whole runs ----------

  /** Any run of dict_add from dict_new: lookups agree with the map, the capacity is ten
      times a power of two, and growth copied fewer entries than twice the final length. */
  method Build(adds: seq<Entry>) returns (d: Dict)
    ensures d.Valid() && d.contents == MapOf(adds)
    ensures d.cap == 10 * Pow2(d.growths) && d.len <= d.cap && d.len == |MapOf(adds)|
    ensures d.copied == 0 || d.copied < 2 * d.len
  {
    d := new Dict();
    var i := 0;
    while i < |adds|
      invariant 0 <= i <= |adds|
      invariant d.Valid() && fresh(d) && fresh(d.entry) && d.contents == MapOf(adds[..i])
    {
      d.Add(adds[i].key, adds[i].value);
      assert adds[..i + 1][..i] == adds[..i];
      i := i + 1;
    }
    assert adds[..i] == adds;
    SizeOfMap(d.entry[..d.len]);
  }
}
