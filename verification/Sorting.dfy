/** What the library sort of strings promises: an ascending rearrangement. */
module Sorting {
  import opened ByteStrings

  ghost predicate Ascending(s: seq<Bytes>) {
    forall i, j :: 0 <= i < j < |s| ==> LexLe(s[i], s[j])
  }

  function Insert(x: Bytes, s: seq<Bytes>): (r: seq<Bytes>)
    ensures multiset(r) == multiset(s) + multiset{x}
  {
    if s == [] || LexLe(x, s[0]) then
      assert multiset([x] + s) == multiset{x} + multiset(s);
      [x] + s
    else
      assert s == [s[0]] + s[1..];
      [s[0]] + Insert(x, s[1..])
  }

  /** sort.Strings. */
  function SortPaths(s: seq<Bytes>): (r: seq<Bytes>)
    ensures multiset(r) == multiset(s)
    ensures |r| == |s|
  {
    if s == [] then []
    else
      assert s == [s[0]] + s[1..];
      var r := Insert(s[0], SortPaths(s[1..]));
      assert |multiset(r)| == |multiset(s)|;
      r
  }

  lemma {:induction false} InsertAscending(x: Bytes, s: seq<Bytes>)
    requires Ascending(s)
    ensures Ascending(Insert(x, s))
  {
    if s == [] {
    } else if LexLe(x, s[0]) {
      forall j | 0 <= j < |s| ensures LexLe(x, s[j]) {
        if j > 0 { LexTrans(x, s[0], s[j]); }
      }
    } else {
      LexTotal(x, s[0]);
      var t := Insert(x, s[1..]);
      InsertAscending(x, s[1..]);
      forall j | 0 <= j < |t| ensures LexLe(s[0], t[j]) {
        assert t[j] in multiset(t);
        if t[j] != x { assert t[j] in s[1..]; }
      }
    }
  }

  lemma {:induction false} SortAscending(s: seq<Bytes>)
    ensures Ascending(SortPaths(s))
  {
    if s != [] {
      SortAscending(s[1..]);
      InsertAscending(s[0], SortPaths(s[1..]));
    }
  }

  lemma SortMembers(s: seq<Bytes>)
    ensures forall p :: p in SortPaths(s) <==> p in s
  {
    forall p ensures p in SortPaths(s) <==> p in s {
      assert p in SortPaths(s) <==> p in multiset(SortPaths(s));
      assert p in s <==> p in multiset(s);
    }
  }

  lemma HeadLeast(a: seq<Bytes>, b: seq<Bytes>)
    requires Ascending(b) && multiset(a) == multiset(b) && a != [] && b != []
    ensures LexLe(b[0], a[0])
  {
    assert a[0] in multiset(b);
    var i :| 0 <= i < |b| && b[i] == a[0];
    if i == 0 { LexRefl(a[0]); }
  }

  lemma AscendingHead(a: seq<Bytes>, b: seq<Bytes>)
    requires Ascending(a) && Ascending(b) && multiset(a) == multiset(b) && a != [] && b != []
    ensures a[0] == b[0]
  {
    HeadLeast(a, b);
    HeadLeast(b, a);
    LexTotal(a[0], b[0]);
  }

  /** An ascending list is determined by its elements, so the specification
      above leaves a sort no freedom. */
  lemma {:induction false} AscendingUnique(a: seq<Bytes>, b: seq<Bytes>)
    requires Ascending(a) && Ascending(b) && multiset(a) == multiset(b)
    ensures a == b
  {
    assert |multiset(a)| == |multiset(b)|;
    if a != [] {
      AscendingHead(a, b);
      assert a == [a[0]] + a[1..] && b == [b[0]] + b[1..];
      assert multiset(a[1..]) == multiset(a) - multiset{a[0]};
      assert multiset(b[1..]) == multiset(b) - multiset{b[0]};
      AscendingUnique(a[1..], b[1..]);
    }
  }

  // ---------- Sums over the elements ----------

  function SumOver(size: Bytes -> nat, s: seq<Bytes>): nat {
    if s == [] then 0 else size(s[0]) + SumOver(size, s[1..])
  }

  lemma {:induction false} SumInsert(size: Bytes -> nat, x: Bytes, s: seq<Bytes>)
    ensures SumOver(size, Insert(x, s)) == size(x) + SumOver(size, s)
  {
    hide LexLe;
    if s != [] && !LexLe(x, s[0]) {
      SumInsert(size, x, s[1..]);
      assert Insert(x, s)[1..] == Insert(x, s[1..]);
    } else {
      assert Insert(x, s)[1..] == s;
    }
  }

  /** Sorting changes no sum. */
  lemma {:induction false} SumSorted(size: Bytes -> nat, s: seq<Bytes>)
    ensures SumOver(size, SortPaths(s)) == SumOver(size, s)
  {
    hide Insert;
    if s != [] {
      SumSorted(size, s[1..]);
      SumInsert(size, s[0], SortPaths(s[1..]));
    }
  }
}
