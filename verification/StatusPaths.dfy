/** statusPaths: the paths named by `git status --porcelain=v1 -z`, read from its
    NUL-separated output. */
module StatusPaths {
  import opened ByteStrings
  import opened Sorting

  const SPACE: Byte := 32
  const LETTER_C: Byte := 67
  const LETTER_R: Byte := 82

  datatype Fault = BadStatus | BadRename
  datatype Outcome<+T> = Parsed(value: T) | Failed(fault: Fault)

  // ---------- Splitting on NUL ----------

  /** bytes.Split at every NUL. */
  function Split(raw: Bytes): (parts: seq<Bytes>)
    ensures |parts| >= 1
    ensures forall i :: 0 <= i < |parts| ==> NulFree(parts[i])
  {
    if raw == [] then [[]]
    else
      var rest := Split(raw[1..]);
      if raw[0] == 0 then [[]] + rest else [[raw[0]] + rest[0]] + rest[1..]
  }

  /** Every part followed by a NUL. */
  function Terminated(parts: seq<Bytes>): Bytes {
    if parts == [] then [] else parts[0] + [0] + Terminated(parts[1..])
  }

  lemma {:induction false} SplitAfter(part: Bytes, rest: Bytes)
    requires NulFree(part)
    ensures Split(part + [0] + rest) == [part] + Split(rest)
  {
    var raw := part + [0] + rest;
    if part == [] {
      assert raw[1..] == rest;
    } else {
      assert raw[1..] == part[1..] + [0] + rest;
      SplitAfter(part[1..], rest);
      assert part == [part[0]] + part[1..];
    }
  }

  lemma {:induction false} SplitTerminated(parts: seq<Bytes>)
    requires forall i :: 0 <= i < |parts| ==> NulFree(parts[i])
    ensures Split(Terminated(parts)) == parts + [[]]
  {
    if parts != [] {
      SplitAfter(parts[0], Terminated(parts[1..]));
      SplitTerminated(parts[1..]);
      assert parts == [parts[0]] + parts[1..];
    }
  }

  // ---------- Entries ----------

  /** One status entry; origin is the second path of a rename or copy. */
  datatype Entry = Entry(xy: Bytes, path: Bytes, origin: Option<Bytes>)

  predicate TwoPaths(xy: Bytes) { LETTER_R in xy || LETTER_C in xy }

  predicate Path(p: Bytes) { p != [] && NulFree(p) }

  predicate Valid(e: Entry) {
    && |e.xy| == 2 && NulFree(e.xy) && Path(e.path)
    && (e.origin.Some? <==> TwoPaths(e.xy))
    && (e.origin.Some? ==> Path(e.origin.value))
  }

  predicate AllValid(es: seq<Entry>) {
    forall i :: 0 <= i < |es| ==> Valid(es[i])
  }

  function PartsOf(e: Entry): seq<Bytes> {
    [e.xy + [SPACE] + e.path] + (match e.origin case None => [] case Some(p) => [p])
  }

  function AllParts(es: seq<Entry>): seq<Bytes> {
    if es == [] then [] else PartsOf(es[0]) + AllParts(es[1..])
  }

  /** The status printer: every part followed by a NUL. */
  function Print(es: seq<Entry>): Bytes { Terminated(AllParts(es)) }

  function PathsOf(e: Entry): set<Bytes> {
    {e.path} + (match e.origin case None => {} case Some(p) => {p})
  }

  function AllPaths(es: seq<Entry>): set<Bytes> {
    if es == [] then {} else PathsOf(es[0]) + AllPaths(es[1..])
  }

  /** The parts are those of the entries, with empty parts only between entries. */
  ghost predicate Spells(parts: seq<Bytes>, es: seq<Entry>)
    decreases |parts|
  {
    if parts == [] then es == []
    else if parts[0] == [] then Spells(parts[1..], es)
    else es != [] && PartsOf(es[0]) <= parts && Spells(parts[|PartsOf(es[0])|..], es[1..])
  }

  // ---------- Reading ----------

  function Before(e: Entry, rest: Outcome<seq<Entry>>): Outcome<seq<Entry>> {
    match rest
    case Parsed(es) => Parsed([e] + es)
    case Failed(fault) => Failed(fault)
  }

  /** The entries read from the parts, or the first fault met. */
  function Read(parts: seq<Bytes>): Outcome<seq<Entry>>
    decreases |parts|
  {
    if parts == [] then Parsed([])
    else if parts[0] == [] then Read(parts[1..])
    else if |parts[0]| <= 3 || parts[0][2] != SPACE then Failed(BadStatus)
    else
      var xy, path := parts[0][..2], parts[0][3..];
      if !TwoPaths(xy) then Before(Entry(xy, path, None), Read(parts[1..]))
      else if |parts| == 1 || parts[1] == [] then Failed(BadRename)
      else Before(Entry(xy, path, Some(parts[1])), Read(parts[2..]))
  }

  /** Two paths follow exactly when either status letter is an R or a C. */
  lemma TwoPathsExact(x: Byte, y: Byte)
    ensures TwoPaths([x, y]) <==> x in {67, 82} || y in {67, 82}
  {
  }

  predicate AllNulFree(parts: seq<Bytes>) {
    forall i :: 0 <= i < |parts| ==> NulFree(parts[i])
  }

  /** The parts begin with what is wrong: a status part that is too short or has no
      blank after the two letters, or one that calls for a second path where none
      follows. */
  predicate FaultAt(parts: seq<Bytes>, fault: Fault) {
    && parts != [] && parts[0] != []
    && var sound := |parts[0]| > 3 && parts[0][2] == 32;
    match fault
    case BadStatus => !sound
    case BadRename => sound && TwoPaths(parts[0][..2]) && (|parts| == 1 || parts[1] == [])
  }

  /** Without a fault the parts begin with an entry, and reading goes on after it. */
  lemma EntryAhead(parts: seq<Bytes>) returns (e: Entry, m: nat)
    requires AllNulFree(parts) && parts != [] && parts[0] != []
    requires !FaultAt(parts, BadStatus) && !FaultAt(parts, BadRename)
    ensures Valid(e) && 1 <= m == |PartsOf(e)| <= |parts| && PartsOf(e) == parts[..m]
    ensures Read(parts) == Before(e, Read(parts[m..])) && AllNulFree(parts[m..])
  {
    var xy, path := parts[0][..2], parts[0][3..];
    e := Entry(xy, path, if TwoPaths(xy) then Some(parts[1]) else None);
    m := |PartsOf(e)|;
    assert parts[0] == xy + [SPACE] + path;
    assert NulFree(parts[0]);
    assert NulFree(xy) && NulFree(path);
    hide Read, TwoPaths, NulFree;
  }

  lemma ReadBlank(parts: seq<Bytes>)
    requires AllNulFree(parts) && parts != [] && parts[0] == []
    ensures Read(parts) == Read(parts[1..]) && AllNulFree(parts[1..])
  {
    hide NulFree;
  }

  lemma NoFault(parts: seq<Bytes>)
    requires AllNulFree(parts) && Read(parts).Failed?
    ensures parts != []
    ensures parts[0] == [] || FaultAt(parts, Read(parts).fault)
      || (!FaultAt(parts, BadStatus) && !FaultAt(parts, BadRename))
  {
    hide NulFree;
  }

  lemma SpellsBlank(parts: seq<Bytes>, n: nat, es: seq<Entry>)
    requires parts != [] && parts[0] == [] && n < |parts| && Spells(parts[1..][..n], es)
    ensures Spells(parts[..n + 1], es) && parts[n + 1..] == parts[1..][n..]
  {
    assert parts[..n + 1][1..] == parts[1..][..n];
    hide PartsOf;
  }

  lemma SpellsEntry(parts: seq<Bytes>, e: Entry, m: nat, n: nat, es: seq<Entry>)
    requires 1 <= m == |PartsOf(e)| <= |parts| && PartsOf(e) == parts[..m] && parts[0] != []
    requires n <= |parts| - m && Spells(parts[m..][..n], es)
    ensures Spells(parts[..m + n], [e] + es) && parts[m + n..] == parts[m..][n..]
  {
    hide PartsOf;
    var front := parts[..m + n];
    assert front[m..] == parts[m..][..n] && front[..m] == parts[..m];
    assert ([e] + es)[1..] == es;
  }

  /** A fault is named for the first thing wrong: what comes before it spells valid
      entries. */
  lemma {:induction false} FaultExact(parts: seq<Bytes>) returns (n: nat, es: seq<Entry>)
    requires AllNulFree(parts) && Read(parts).Failed?
    ensures n <= |parts| && AllValid(es) && Spells(parts[..n], es)
    ensures FaultAt(parts[n..], Read(parts).fault)
    decreases |parts|
  {
    NoFault(parts);
    n, es := 0, [];
    assert parts[..0] == [] && parts[0..] == parts;
    hide Read, FaultAt, PartsOf, Valid, NulFree, AllNulFree;
    if parts[0] == [] {
      ReadBlank(parts);
      var k;
      k, es := FaultExact(parts[1..]);
      n := k + 1;
      SpellsBlank(parts, k, es);
    } else if !FaultAt(parts, BadStatus) && !FaultAt(parts, BadRename) {
      var e, m := EntryAhead(parts);
      var k, rest := FaultExact(parts[m..]);
      n, es := m + k, [e] + rest;
      SpellsEntry(parts, e, m, k, rest);
    }
  }

  /** A part read as an entry's first part is exactly that part. */
  lemma FirstPart(part: Bytes, e: Entry)
    requires |e.xy| == 2 && part == e.xy + [SPACE] + e.path
    ensures |part| == 3 + |e.path| && part[2] == SPACE && part[..2] == e.xy && part[3..] == e.path
  {
  }

  /** Before one entry is read, its parts are there. */
  lemma HeadSpells(parts: seq<Bytes>, es: seq<Entry>)
    requires AllNulFree(parts) && parts != [] && parts[0] != [] && es != []
    requires Read(parts) == Parsed(es)
    ensures Valid(es[0]) && PartsOf(es[0]) <= parts && Read(parts[|PartsOf(es[0])|..]) == Parsed(es[1..])
  {
    var part := parts[0];
    assert part == part[..2] + [SPACE] + part[3..];
    assert ([es[0]] + es[1..])[0] == es[0];
    assert PartsOf(es[0]) == parts[..|PartsOf(es[0])|];
  }

  /** An entry whose parts are there is read. */
  lemma HeadReads(parts: seq<Bytes>, es: seq<Entry>)
    requires AllNulFree(parts) && es != [] && Valid(es[0]) && PartsOf(es[0]) <= parts
    requires Read(parts[|PartsOf(es[0])|..]) == Parsed(es[1..])
    ensures Read(parts) == Parsed(es)
  {
    var e := es[0];
    assert es == [e] + es[1..];
    FirstPart(parts[0], e);
    if e.origin.Some? { assert parts[1] == PartsOf(e)[1]; }
  }

  /** Parts are read as es exactly when they spell es, so a reading is never
      ambiguous and fails only when there is none. */
  lemma {:induction false} ReadExact(parts: seq<Bytes>, es: seq<Entry>)
    requires AllNulFree(parts)
    ensures Read(parts) == Parsed(es) <==> AllValid(es) && Spells(parts, es)
    decreases |parts|
  {
    if parts == [] {
    } else if parts[0] == [] {
      ReadExact(parts[1..], es);
    } else if es != [] {
      assert AllValid(es) <==> Valid(es[0]) && AllValid(es[1..]) by { assert es == [es[0]] + es[1..]; }
      var width := |PartsOf(es[0])|;
      if width <= |parts| { ReadExact(parts[width..], es[1..]); }
      if Read(parts) == Parsed(es) { HeadSpells(parts, es); }
      hide Valid, Read, AllValid;
      if Valid(es[0]) && PartsOf(es[0]) <= parts && Read(parts[width..]) == Parsed(es[1..]) { HeadReads(parts, es); }
    }
  }

  // ---------- The round trip ----------

  lemma {:induction false} PartsNulFree(es: seq<Entry>)
    requires AllValid(es)
    ensures AllNulFree(AllParts(es))
  {
    if es != [] {
      PartsNulFree(es[1..]);
      assert Valid(es[0]);
    }
  }

  lemma {:induction false} PrintedSpells(es: seq<Entry>)
    requires AllValid(es)
    ensures Spells(AllParts(es) + [[]], es)
  {
    if es != [] {
      assert Valid(es[0]);
      PrintedSpells(es[1..]);
      var parts := AllParts(es) + [[]];
      assert parts == PartsOf(es[0]) + (AllParts(es[1..]) + [[]]);
      assert parts[0] == PartsOf(es[0])[0];
    } else {
      assert Spells([[]][1..], es);
    }
  }

  function PathsFrom(parts: seq<Bytes>): Outcome<set<Bytes>> {
    match Read(parts)
    case Parsed(es) => Parsed(AllPaths(es))
    case Failed(fault) => Failed(fault)
  }

  function PathsIn(raw: Bytes): Outcome<set<Bytes>> { PathsFrom(Split(raw)) }

  /** Reading inverts printing: every list of entries is read back, and its paths are
      exactly the paths printed. */
  lemma ReadPrint(es: seq<Entry>)
    requires AllValid(es)
    ensures Read(Split(Print(es))) == Parsed(es)
    ensures PathsIn(Print(es)) == Parsed(AllPaths(es))
  {
    PartsNulFree(es);
    SplitTerminated(AllParts(es));
    PrintedSpells(es);
    ReadExact(AllParts(es) + [[]], es);
  }

  /** Different lists of entries print differently. */
  lemma PrintInjective(a: seq<Entry>, b: seq<Entry>)
    requires AllValid(a) && AllValid(b) && Print(a) == Print(b)
    ensures a == b
  {
    ReadPrint(a);
    ReadPrint(b);
  }

  /** The output is accepted exactly when it spells some list of entries. */
  lemma AcceptedIffSpelled(raw: Bytes)
    ensures PathsIn(raw).Parsed? <==> exists es :: AllValid(es) && Spells(Split(raw), es)
    ensures forall es :: AllValid(es) && Spells(Split(raw), es) ==> PathsIn(raw) == Parsed(AllPaths(es))
  {
    forall es ensures Read(Split(raw)) == Parsed(es) <==> AllValid(es) && Spells(Split(raw), es) {
      ReadExact(Split(raw), es);
    }
    if PathsIn(raw).Parsed? {
      var es := Read(Split(raw)).value;
      assert AllValid(es) && Spells(Split(raw), es);
    }
  }

  // ---------- The loop ----------

  ghost predicate Distinct(s: seq<Bytes>) {
    forall i, j :: 0 <= i < j < |s| ==> s[i] != s[j]
  }

  /** The sorted listing of a set, each member once. */
  ghost predicate Lists(out: seq<Bytes>, paths: set<Bytes>) {
    Ascending(out) && Distinct(out) && forall p :: p in out <==> p in paths
  }

  lemma {:induction false} DistinctOnce(s: seq<Bytes>)
    requires Distinct(s)
    ensures forall p :: multiset(s)[p] == if p in s then 1 else 0
  {
    if s != [] {
      DistinctOnce(s[1..]);
      assert s == [s[0]] + s[1..];
      forall p ensures multiset(s)[p] == if p in s then 1 else 0 {
        assert multiset(s) == multiset{s[0]} + multiset(s[1..]);
      }
    }
  }

  lemma {:induction false} OnceDistinct(s: seq<Bytes>)
    requires forall p :: multiset(s)[p] <= 1
    ensures Distinct(s)
  {
    forall i, j | 0 <= i < j < |s| ensures s[i] != s[j] {
      assert s == s[..j] + s[j..];
      assert multiset(s) == multiset(s[..j]) + multiset(s[j..]);
      assert s[..j][i] in s[..j] && s[j..][0] in s[j..];
      assert multiset(s[..j])[s[i]] >= 1 && multiset(s[j..])[s[j]] >= 1;
      assert s[i] == s[j] ==> multiset(s)[s[i]] >= 2;
    }
  }

  /** A set has one listing. */
  lemma ListingUnique(a: seq<Bytes>, b: seq<Bytes>, paths: set<Bytes>)
    requires Lists(a, paths) && Lists(b, paths)
    ensures a == b
  {
    DistinctOnce(a);
    DistinctOnce(b);
    assert multiset(a) == multiset(b);
    AscendingUnique(a, b);
  }

  lemma SortedLists(s: seq<Bytes>, paths: set<Bytes>)
    requires Distinct(s) && forall p :: p in s <==> p in paths
    ensures Lists(SortPaths(s), paths)
  {
    SortAscending(s);
    SortMembers(s);
    DistinctOnce(s);
    OnceDistinct(SortPaths(s));
  }

  function With(seen: set<Bytes>, rest: Outcome<set<Bytes>>): Outcome<set<Bytes>> {
    match rest
    case Parsed(paths) => Parsed(seen + paths)
    case Failed(fault) => Failed(fault)
  }

  lemma StepOver(e: Entry, rest: seq<Bytes>, seen: set<Bytes>)
    ensures match Before(e, Read(rest)) {
        case Parsed(es) => With(seen + PathsOf(e), PathsFrom(rest)) == Parsed(seen + AllPaths(es))
        case Failed(fault) => With(seen + PathsOf(e), PathsFrom(rest)) == Failed(fault)
      }
  {
    match Read(rest) {
      case Parsed(es) =>
        assert ([e] + es)[0] == e && ([e] + es)[1..] == es;
        assert seen + PathsOf(e) + AllPaths(es) == seen + (PathsOf(e) + AllPaths(es));
      case Failed(fault) =>
    }
  }

  lemma PathsStep(parts: seq<Bytes>, seen: set<Bytes>)
    requires parts != [] && parts[0] != [] && |parts[0]| > 3 && parts[0][2] == SPACE
    ensures var xy, path := parts[0][..2], parts[0][3..];
      && (!TwoPaths(xy) ==> With(seen, PathsFrom(parts)) == With(seen + {path}, PathsFrom(parts[1..])))
      && (TwoPaths(xy) && |parts| > 1 && parts[1] != [] ==>
        With(seen, PathsFrom(parts)) == With(seen + {path} + {parts[1]}, PathsFrom(parts[2..])))
  {
    var xy, path := parts[0][..2], parts[0][3..];
    if !TwoPaths(xy) {
      StepOver(Entry(xy, path, None), parts[1..], seen);
      assert PathsOf(Entry(xy, path, None)) == {path};
    } else if |parts| > 1 && parts[1] != [] {
      StepOver(Entry(xy, path, Some(parts[1])), parts[2..], seen);
      assert seen + PathsOf(Entry(xy, path, Some(parts[1]))) == seen + {path} + {parts[1]};
    }
  }

  /** The loop over the parts: an index that a rename or copy advances twice. */
  method CollectPaths(parts: seq<Bytes>) returns (r: Outcome<set<Bytes>>)
    ensures r == PathsFrom(parts)
  {
    var seen: set<Bytes> := {};
    var i := 0;
    assert parts[0..] == parts;
    assert PathsFrom(parts).Parsed? ==> {} + PathsFrom(parts).value == PathsFrom(parts).value;
    while i < |parts|
      invariant 0 <= i <= |parts|
      invariant With(seen, PathsFrom(parts[i..])) == PathsFrom(parts)
      decreases |parts| - i
    {
      ghost var left := parts[i..];
      assert left[0] == parts[i] && left[1..] == parts[i + 1..];
      var part := parts[i];
      if |part| != 0 {
        if |part| <= 3 || part[2] != SPACE {
          return Failed(BadStatus);
        }
        PathsStep(left, seen);
        seen := seen + {part[3..]};
        if LETTER_R in part[..2] || LETTER_C in part[..2] {
          i := i + 1;
          if i >= |parts| || |parts[i]| == 0 {
            assert i < |parts| ==> left[1] == parts[i];
            return Failed(BadRename);
          }
          assert left[1] == parts[i] && left[2..] == parts[i + 1..];
          seen := seen + {parts[i]};
        }
      }
      i := i + 1;
    }
    r := Parsed(seen);
  }

  /** statusPaths: on acceptance, the sorted and duplicate-free listing of the paths. */
  method StatusPaths(raw: Bytes) returns (r: Outcome<seq<Bytes>>)
    ensures match PathsIn(raw) {
        case Parsed(paths) => r.Parsed? && Lists(r.value, paths)
        case Failed(fault) => r == Failed(fault)
      }
  {
    var collected := CollectPaths(Split(raw));
    match collected {
      case Failed(fault) =>
        r := Failed(fault);
      case Parsed(seen) =>
        var out: seq<Bytes> := [];
        var rest := seen;
        while |rest| > 0
          invariant rest <= seen && Distinct(out)
          invariant forall p :: p in out <==> p in seen - rest
          decreases |rest|
        {
          ghost var some := Member(rest);
          var path :| path in rest;
          forall k | 0 <= k < |out| ensures out[k] != path { assert out[k] in out; }
          rest := rest - {path};
          out := out + [path];
        }
        SortedLists(out, seen);
        r := Parsed(SortPaths(out));
    }
  }
}
