/** A Python dict as the list of its entries in insertion order:
    assigning to a present key replaces its value where it stands,
    assigning to a new key appends it. */
module Dicts {
  import opened Wrappers

  predicate DistinctKeys<K(==), V>(d: seq<(K, V)>) {
    forall i, j :: 0 <= i < j < |d| ==> d[i].0 != d[j].0
  }

  function Lookup<K(==), V>(d: seq<(K, V)>, k: K): Option<V> {
    if |d| == 0 then None else if d[0].0 == k then Some(d[0].1) else Lookup(d[1..], k)
  }

  function Put<K(==), V>(d: seq<(K, V)>, k: K, v: V): (r: seq<(K, V)>)
    ensures |r| == |d| || |r| == |d| + 1
  {
    if |d| == 0 then [(k, v)]
    else if d[0].0 == k then [(k, v)] + d[1..]
    else [d[0]] + Put(d[1..], k, v)
  }

  /** `d[k] = v` for each entry in turn. */
  function PutAll<K(==), V>(d: seq<(K, V)>, entries: seq<(K, V)>): seq<(K, V)>
    decreases |entries|
  {
    if |entries| == 0 then d
    else var last := entries[|entries| - 1]; Put(PutAll(d, entries[..|entries| - 1]), last.0, last.1)
  }

  /** After `d[k] = v`, reading k gives v and every other key reads as before. */
  lemma {:induction false} PutLookup<K, V>(d: seq<(K, V)>, k: K, v: V, k': K)
    ensures Lookup(Put(d, k, v), k') == if k' == k then Some(v) else Lookup(d, k')
  {
    if d != [] && d[0].0 != k {
      PutLookup(d[1..], k, v, k');
      assert Put(d, k, v)[1..] == Put(d[1..], k, v);
    }
  }

  /** Where the entry goes: in place of the entry with that key, or at the end. */
  lemma {:induction false} PutPlace<K, V>(d: seq<(K, V)>, k: K, v: V)
    requires DistinctKeys(d)
    ensures forall i :: 0 <= i < |d| && d[i].0 == k ==> Put(d, k, v) == d[i := (k, v)]
    ensures (forall i :: 0 <= i < |d| ==> d[i].0 != k) ==> Put(d, k, v) == d + [(k, v)]
    ensures DistinctKeys(Put(d, k, v))
  {
    if d != [] {
      PutPlace(d[1..], k, v);
      if d[0].0 == k {
        assert forall i :: 0 < i < |d| ==> d[i].0 != k;
      } else {
        forall i | 0 <= i < |d| && d[i].0 == k
          ensures Put(d, k, v) == d[i := (k, v)]
        {
          assert d[1..][i - 1] == d[i];
          assert d[i := (k, v)] == [d[0]] + d[1..][i - 1 := (k, v)];
        }
        if forall i :: 0 <= i < |d| ==> d[i].0 != k {
          assert forall i :: 0 <= i < |d[1..]| ==> d[1..][i].0 != k;
          assert d + [(k, v)] == [d[0]] + (d[1..] + [(k, v)]);
        }
        var r := Put(d, k, v);
        assert r == [d[0]] + Put(d[1..], k, v);
        forall i, j | 0 <= i < j < |r|
          ensures r[i].0 != r[j].0
        {
          if i == 0 {
            PutLookup(d[1..], k, v, d[0].0);
            LookupSome(Put(d[1..], k, v), j - 1);
            LookupNone(d[1..], d[0].0);
          }
        }
      }
    }
  }

  /** In a dict with all keys distinct the entry at i is found by its key. */
  lemma {:induction false} LookupAt<K, V>(d: seq<(K, V)>, i: int)
    requires DistinctKeys(d) && 0 <= i < |d|
    ensures Lookup(d, d[i].0) == Some(d[i].1)
  {
    if i > 0 {
      LookupAt(d[1..], i - 1);
    }
  }

  /** A key present somewhere is found. */
  lemma {:induction false} LookupSome<K, V>(d: seq<(K, V)>, i: int)
    requires 0 <= i < |d|
    ensures Lookup(d, d[i].0).Some?
  {
    if i > 0 && d[0].0 != d[i].0 {
      LookupSome(d[1..], i - 1);
    }
  }

  /** A key absent from every entry is not found. */
  lemma {:induction false} LookupNone<K, V>(d: seq<(K, V)>, k: K)
    ensures Lookup(d, k).None? <==> forall i :: 0 <= i < |d| ==> d[i].0 != k
  {
    if d != [] {
      LookupNone(d[1..], k);
      assert forall i :: 0 < i < |d| ==> d[i] == d[1..][i - 1];
    }
  }

  /** Searching a dict with one more entry at the end. */
  lemma {:induction false} LookupSnoc<K, V>(d: seq<(K, V)>, e: (K, V), k: K)
    ensures Lookup(d + [e], k) == if Lookup(d, k).Some? then Lookup(d, k) else if e.0 == k then Some(e.1) else None
  {
    if d != [] {
      assert (d + [e])[1..] == d[1..] + [e];
      LookupSnoc(d[1..], e, k);
    }
  }
}
