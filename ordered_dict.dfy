/** Python dictionaries with string keys, which remember insertion order. */
module Ordered {
  /** The names at indices i and j of s differ. */
  ghost predicate Differ(s: seq<string>, i: int, j: int)
    requires 0 <= i < |s| && 0 <= j < |s|
  {
    s[i] != s[j]
  }

  /** No name occurs twice in s. */
  ghost predicate Distinct(s: seq<string>)
  {
    forall i, j :: 0 <= i < j < |s| ==> Differ(s, i, j)
  }

  /** Distinct lists hold different names at different indices. */
  lemma DistinctIndices(s: seq<string>)
    requires Distinct(s)
    ensures forall i, j :: 0 <= i < j < |s| ==> s[i] != s[j]
  {
    forall i, j | 0 <= i < j < |s|
      ensures s[i] != s[j]
    {
      assert Differ(s, i, j);
    }
  }

  /** Appending a name the list lacks keeps it distinct. */
  lemma DistinctAppend(s: seq<string>, k: string)
    requires Distinct(s) && k !in s
    ensures Distinct(s + [k])
  {
    var t := s + [k];
    forall i, j | 0 <= i < j < |t|
      ensures Differ(t, i, j)
    {
      if j < |s| {
        assert Differ(s, i, j);
      }
    }
  }

  /** Dropping the last name of a distinct list leaves a distinct list without it. */
  lemma DistinctInit(s: seq<string>, k: string)
    requires Distinct(s + [k])
    ensures Distinct(s) && k !in s
  {
    var t := s + [k];
    forall i, j | 0 <= i < j < |s|
      ensures Differ(s, i, j)
    {
      assert Differ(t, i, j);
    }
    forall i | 0 <= i < |s|
      ensures s[i] != k
    {
      assert Differ(t, i, |s|);
    }
  }

  /** `keys` lists the keys in insertion order; `vals` holds the contents. */
  datatype Dict<V> = Dict(keys: seq<string>, vals: map<string, V>) {
    /** Every key listed once, and the listed keys are exactly the stored ones. */
    ghost predicate Valid() {
      Distinct(keys) && (forall k :: k in vals <==> k in keys)
    }

    /** `d[k] = v`: an existing key keeps its place, a new key goes last. */
    function Set(k: string, v: V): (d: Dict<V>)
      requires Valid()
      ensures d.Valid()
      ensures d.vals == vals[k := v]
      ensures k in vals ==> d.keys == keys
      ensures k !in vals ==> d.keys == keys + [k]
    {
      if k in vals then Dict(keys, vals[k := v])
      else
        DistinctAppend(keys, k);
        Dict(keys + [k], vals[k := v])
    }
  }

  /** `{}` */
  function Empty<V>(): (d: Dict<V>)
    ensures d.Valid() && d.keys == [] && d.vals == map[]
  {
    Dict([], map[])
  }
}
