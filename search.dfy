/** The source search: the sources whose name starts with the query,
    upper-cased, most used first, at most five. The table is a sequence in
    its stored order. The query promises no order among sources of equal
    usage; the model's sort puts them in reverse stored order. */
module Search {
  import opened Text

  datatype SourceRow = SourceRow(name: string, usageCount: int)

  const Limit: nat := 5

  /** `Source.objects.filter(name__startswith=query)`. */
  function Matching(sources: seq<SourceRow>, prefix: string): (r: seq<SourceRow>)
    ensures forall i :: 0 <= i < |r| ==> StartsWith(r[i].name, prefix)
    ensures multiset(r) <= multiset(sources)
    ensures forall i :: 0 <= i < |sources| && StartsWith(sources[i].name, prefix) ==> sources[i] in r
    decreases |sources|
  {
    if |sources| == 0 then []
    else
      var rest := Matching(sources[1..], prefix);
      assert sources == [sources[0]] + sources[1..];
      if StartsWith(sources[0].name, prefix) then [sources[0]] + rest else rest
  }

  /** Most used first. */
  predicate ByUsage(s: seq<SourceRow>) {
    forall i, j :: 0 <= i < j < |s| ==> s[i].usageCount >= s[j].usageCount
  }

  /** Place x after every row used at least as often. */
  function Insert(x: SourceRow, s: seq<SourceRow>): (r: seq<SourceRow>)
    requires ByUsage(s)
    ensures ByUsage(r)
    ensures multiset(r) == multiset(s) + multiset{x}
    ensures |r| == |s| + 1 && (r[0] == x || (|s| > 0 && r[0] == s[0]))
    decreases |s|
  {
    if |s| == 0 then [x]
    else if s[0].usageCount < x.usageCount then [x] + s
    else
      var rest := Insert(x, s[1..]);
      assert s == [s[0]] + s[1..];
      assert s[0].usageCount >= rest[0].usageCount;
      [s[0]] + rest
  }

  /** `order_by('-usage_count')`: most used first. Each row is inserted
      after the equally used rows that follow it, so rows of equal usage come
      out in reverse order; the query itself leaves their order open. */
  function SortByUsage(s: seq<SourceRow>): (r: seq<SourceRow>)
    ensures ByUsage(r)
    ensures multiset(r) == multiset(s)
    decreases |s|
  {
    if |s| == 0 then []
    else
      assert s == [s[0]] + s[1..];
      Insert(s[0], SortByUsage(s[1..]))
  }

  /** `SourceViewSet.search` with query `q`. */
  function Find(sources: seq<SourceRow>, q: string): seq<SourceRow> {
    var sorted := SortByUsage(Matching(sources, Upper(q)));
    if |sorted| <= Limit then sorted else sorted[..Limit]
  }

  /** The answer: at most five sources from the table, each starting with
      the upper-cased query, most used first; five of them unless fewer
      match; and no matching source left out is used more than any
      source returned. */
  lemma FindTop(sources: seq<SourceRow>, q: string)
    ensures var r := Find(sources, q); var m := Matching(sources, Upper(q));
      && |r| == (if |m| <= Limit then |m| else Limit)
      && (forall i :: 0 <= i < |r| ==> StartsWith(r[i].name, Upper(q)))
      && ByUsage(r)
      && multiset(r) <= multiset(m) && multiset(m) <= multiset(sources)
      && forall x: SourceRow, y: SourceRow :: x in multiset(m) - multiset(r) && y in r ==> x.usageCount <= y.usageCount
  {
    var m := Matching(sources, Upper(q));
    var s := SortByUsage(m);
    var n := if |s| <= Limit then |s| else Limit;
    assert s[..n] == Find(sources, q);
    PrefixTop(s, n);
    AllStart(m, s[..n], Upper(q));
  }

  /** Rows drawn from rows that all start with a prefix start with it too. */
  lemma AllStart(m: seq<SourceRow>, r: seq<SourceRow>, prefix: string)
    requires forall i :: 0 <= i < |m| ==> StartsWith(m[i].name, prefix)
    requires multiset(r) <= multiset(m)
    ensures forall i :: 0 <= i < |r| ==> StartsWith(r[i].name, prefix)
  {
    forall i | 0 <= i < |r|
      ensures StartsWith(r[i].name, prefix)
    {
      assert r[i] in multiset(m);
    }
  }

  /** A prefix of a most-used-first list holds its most used rows. */
  lemma PrefixTop(s: seq<SourceRow>, n: int)
    requires ByUsage(s) && 0 <= n <= |s|
    ensures ByUsage(s[..n]) && multiset(s[..n]) <= multiset(s)
    ensures forall x: SourceRow, y: SourceRow :: x in multiset(s) - multiset(s[..n]) && y in s[..n] ==> x.usageCount <= y.usageCount
  {
    PrefixRest(s, n);
    PrefixAbove(s, n);
    forall x: SourceRow | x in multiset(s) - multiset(s[..n])
      ensures x in s[n..]
    {
      assert x in multiset(s[n..]);
    }
  }

  lemma PrefixRest(s: seq<SourceRow>, n: int)
    requires 0 <= n <= |s|
    ensures multiset(s[..n]) <= multiset(s)
    ensures multiset(s) - multiset(s[..n]) == multiset(s[n..])
  {
    assert s == s[..n] + s[n..];
  }

  lemma PrefixAbove(s: seq<SourceRow>, n: int)
    requires ByUsage(s) && 0 <= n <= |s|
    ensures forall x: SourceRow, y: SourceRow :: x in s[n..] && y in s[..n] ==> x.usageCount <= y.usageCount
  {
    forall x: SourceRow, y: SourceRow | x in s[n..] && y in s[..n]
      ensures x.usageCount <= y.usageCount
    {
      var a :| 0 <= a < |s| - n && s[n..][a] == x;
      var b :| 0 <= b < n && s[..n][b] == y;
      assert s[n + a] == x && s[b] == y;
    }
  }

  /** Upper-casing the query makes the search blind to its ASCII case:
      queries that differ only in the case of ASCII letters get the same
      answer. */
  lemma FindIgnoresCase(sources: seq<SourceRow>, q: string, q': string)
    requires |q| == |q'| && forall i :: 0 <= i < |q| ==> UpperChar(q[i]) == UpperChar(q'[i])
    ensures Find(sources, q) == Find(sources, q')
  {
    assert forall i :: 0 <= i < |q| ==> Upper(q)[i] == Upper(q')[i];
    assert Upper(q) == Upper(q');
  }
}
