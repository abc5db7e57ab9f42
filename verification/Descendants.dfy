/** One process-table snapshot: identities, the breadth-first search for
    descendants, and the survivors among owned identities. */
module Descendants {
  import opened ByteStrings

  /** processRow. A pid that is not in a snapshot reads as the zero row. */
  datatype Row = Row(parent: int, birth: string, state: string)

  type Rows = map<int, Row>

  /** Identities: a pid with the birth time it was seen with. */
  type Identities = map<int, string>

  function RowOf(rows: Rows, pid: int): Row {
    if pid in rows then rows[pid] else Row(0, "", "")
  }

  predicate Zombie(row: Row) {
    row.state != "" && row.state[0] == 'Z'
  }

  /** sameProcess: alive, and still the process that was born then. */
  predicate SameProcess(row: Row, birth: string) {
    row.birth != "" && row.birth == birth && !Zombie(row)
  }

  predicate Live(row: Row) { SameProcess(row, row.birth) }

  // ---------- Reachability by parent links ----------

  /** Following n parent links from pid through the snapshot leads to ancestor. */
  predicate Climbs(rows: Rows, pid: int, ancestor: int, n: nat)
    decreases n
  {
    if n == 0 then pid == ancestor else pid in rows && Climbs(rows, rows[pid].parent, ancestor, n - 1)
  }

  ghost predicate Reachable(rows: Rows, ancestor: int, pid: int) {
    exists n: nat :: Climbs(rows, pid, ancestor, n)
  }

  lemma ReachableStep(rows: Rows, ancestor: int, pid: int)
    requires pid in rows && Reachable(rows, ancestor, rows[pid].parent)
    ensures Reachable(rows, ancestor, pid)
  {
    var n: nat :| Climbs(rows, rows[pid].parent, ancestor, n);
    assert Climbs(rows, pid, ancestor, n + 1);
  }

  /** A set closed under children that holds the ancestor holds all it reaches. */
  lemma {:induction false} ClosedHoldsReachable(rows: Rows, ancestor: int, pid: int, n: nat, closed: set<int>)
    requires ancestor in closed && Climbs(rows, pid, ancestor, n)
    requires forall p <- rows :: rows[p].parent in closed ==> p in closed
    ensures pid in closed
    decreases n
  {
    if n > 0 { ClosedHoldsReachable(rows, ancestor, rows[pid].parent, n - 1, closed); }
  }

  /** What `descendants` must return: the live processes below the ancestor. */
  ghost function LiveBelow(rows: Rows, ancestor: int): Identities {
    map p | p in rows && p != ancestor && Reachable(rows, ancestor, p) && Live(rows[p]) :: rows[p].birth
  }

  // ---------- descendants ----------

  /** children lists exactly the pids of each parent, each once. */
  ghost predicate ChildIndex(rows: Rows, seen: set<int>, children: map<int, seq<int>>) {
    && (forall p <- children, i :: 0 <= i < |children[p]| ==>
          children[p][i] in seen && children[p][i] in rows && rows[children[p][i]].parent == p)
    && (forall c <- seen :: c in rows ==> rows[c].parent in children && c in children[rows[c].parent])
  }

  lemma Indexed(rows: Rows, seen: set<int>, before: map<int, seq<int>>, after: map<int, seq<int>>, parent: int,
          siblings: seq<int>, pid: int)
    requires ChildIndex(rows, seen, before) && pid in rows && parent == rows[pid].parent
    requires siblings == if parent in before then before[parent] else []
    requires after == before[parent := siblings + [pid]]
    ensures ChildIndex(rows, seen + {pid}, after)
  {
    forall c | c in seen + {pid} && c in rows ensures rows[c].parent in after && c in after[rows[c].parent] {
      if c == pid { assert (siblings + [pid])[|siblings|] == pid; }
    }
  }

  method IndexChildren(rows: Rows) returns (children: map<int, seq<int>>)
    ensures ChildIndex(rows, rows.Keys, children)
  {
    children := map[];
    var rest := rows.Keys;
    while |rest| > 0
      invariant rest <= rows.Keys
      invariant ChildIndex(rows, rows.Keys - rest, children)
      decreases |rest|
    {
      ghost var some := Member(rest);
      var pid :| pid in rest;
      var parent := rows[pid].parent;
      var siblings := if parent in children then children[parent] else [];
      ghost var before := children;
      children := children[parent := siblings + [pid]];
      rest := rest - {pid};
      Indexed(rows, rows.Keys - rest - {pid}, before, children, parent, siblings, pid);
      assert rows.Keys - rest == (rows.Keys - rest - {pid}) + {pid};
    }
    assert rows.Keys - {} == rows.Keys;
  }

  /** The part of the search already done: found pids are reachable, and every
      child of a found pid is found unless the pid still waits in the queue. */
  ghost predicate Searching(rows: Rows, ancestor: int, roots: set<int>, queue: seq<int>) {
    && ancestor in roots && roots <= rows.Keys + {ancestor}
    && (forall i :: 0 <= i < |queue| ==> queue[i] in roots)
    && (forall p <- roots :: Reachable(rows, ancestor, p))
    && (forall p <- rows :: rows[p].parent in roots && rows[p].parent !in queue ==> p in roots)
  }

  lemma SearchStep(rows: Rows, ancestor: int, children: map<int, seq<int>>, roots0: set<int>, queue0: seq<int>,
          roots: set<int>, queue: seq<int>, kids: seq<int>)
    requires ChildIndex(rows, rows.Keys, children) && |queue0| > 0 && Searching(rows, ancestor, roots0, queue0)
    requires kids == if queue0[0] in children then children[queue0[0]] else []
    requires roots0 <= roots <= rows.Keys + {ancestor}
    requires forall j :: 0 <= j < |kids| ==> kids[j] in roots
    requires forall p <- roots :: p in roots0 || p in kids
    requires |queue| >= |queue0| - 1 && queue[..|queue0| - 1] == queue0[1..]
    requires forall j :: 0 <= j < |queue| ==> queue[j] in roots
    requires forall p <- roots - roots0 :: p in queue
    ensures Searching(rows, ancestor, roots, queue)
  {
    var pid := queue0[0];
    forall p | p in roots ensures Reachable(rows, ancestor, p) {
      if p !in roots0 { ReachableStep(rows, ancestor, p); }
    }
    forall p | p in rows && rows[p].parent in roots && rows[p].parent !in queue ensures p in roots {
      var q := rows[p].parent;
      assert q in roots0;
      if q == pid {
        assert p in kids;
      } else {
        forall i | 0 <= i < |queue0| ensures queue0[i] != q {
          if i > 0 { assert queue[i - 1] == queue0[1..][i - 1] == queue0[i]; }
        }
      }
    }
  }

  lemma SearchDone(rows: Rows, ancestor: int, roots: set<int>)
    requires Searching(rows, ancestor, roots, [])
    ensures roots == (set p | p in rows && Reachable(rows, ancestor, p)) + {ancestor}
  {
    forall p | p in rows && Reachable(rows, ancestor, p) ensures p in roots {
      var n: nat :| Climbs(rows, p, ancestor, n);
      ClosedHoldsReachable(rows, ancestor, p, n, roots);
    }
  }

  /** The breadth-first search. It ends on any snapshot, parent cycles included,
      because a pid is queued only when first found. */
  method FindRoots(rows: Rows, ancestor: int) returns (roots: set<int>)
    ensures roots == (set p | p in rows && Reachable(rows, ancestor, p)) + {ancestor}
  {
    var children := IndexChildren(rows);
    roots := {ancestor};
    var queue := [ancestor];
    assert Climbs(rows, ancestor, ancestor, 0);
    while |queue| > 0
      invariant Searching(rows, ancestor, roots, queue)
      decreases rows.Keys + {ancestor} - roots, |queue|
    {
      ghost var roots0, queue0 := roots, queue;
      var pid := queue[0];
      queue := queue[1..];
      var kids := if pid in children then children[pid] else [];
      var i := 0;
      while i < |kids|
        invariant 0 <= i <= |kids|
        invariant roots0 <= roots <= rows.Keys + {ancestor}
        invariant forall j :: 0 <= j < i ==> kids[j] in roots
        invariant forall p <- roots :: p in roots0 || p in kids[..i]
        invariant |queue| >= |queue0| - 1 && queue[..|queue0| - 1] == queue0[1..]
        invariant forall j :: 0 <= j < |queue| ==> queue[j] in roots
        invariant forall p <- roots - roots0 :: p in queue
        invariant roots == roots0 ==> queue == queue0[1..]
      {
        if kids[i] !in roots {
          roots := roots + {kids[i]};
          queue := queue + [kids[i]];
          assert queue[|queue| - 1] == kids[i];
        }
        i := i + 1;
      }
      SearchStep(rows, ancestor, children, roots0, queue0, roots, queue, kids);
      hide Searching, ChildIndex;
    }
    SearchDone(rows, ancestor, roots);
  }

  /** descendants: exactly the live processes that reach the ancestor by parent
      links, whatever the snapshot, the ancestor itself left out. */
  method FindDescendants(rows: Rows, ancestor: int) returns (out: Identities)
    ensures out == LiveBelow(rows, ancestor)
  {
    var roots := FindRoots(rows, ancestor);
    out := map p | p in roots && p != ancestor && Live(RowOf(rows, p)) :: RowOf(rows, p).birth;
  }

  // ---------- survivors ----------

  ghost predicate Survives(rows: Rows, owned: Identities, pid: int) {
    pid in owned && SameProcess(RowOf(rows, pid), owned[pid])
  }

  ghost predicate Increasing(s: seq<int>) {
    forall i, j :: 0 <= i < j < |s| ==> s[i] < s[j]
  }

  lemma SplicedMembers(s: seq<int>, i: nat, pid: int)
    requires i <= |s|
    ensures forall x :: x in s[..i] + [pid] + s[i..] <==> x in s || x == pid
  {
    assert s == s[..i] + s[i..];
    assert forall x :: x in s <==> x in s[..i] || x in s[i..];
  }

  lemma SplicedOrder(s: seq<int>, i: nat, pid: int)
    requires i <= |s| && Increasing(s)
    requires forall j :: 0 <= j < i ==> s[j] < pid
    requires i < |s| ==> pid < s[i]
    ensures Increasing(s[..i] + [pid] + s[i..])
  {
    var r := s[..i] + [pid] + s[i..];
    forall a, b | 0 <= a < b < |r| ensures r[a] < r[b] {
      assert b < i ==> r[b] == s[b];
      assert b > i ==> r[b] == s[b - 1];
      assert a < i ==> r[a] == s[a];
      assert a > i ==> r[a] == s[a - 1];
    }
  }

  /** Puts a new pid in its place, as the final sort of the collected pids does. */
  method InsertPid(s: seq<int>, pid: int) returns (r: seq<int>)
    requires Increasing(s) && pid !in s
    ensures Increasing(r) && forall x :: x in r <==> x in s || x == pid
  {
    var i := 0;
    while i < |s| && s[i] < pid
      invariant 0 <= i <= |s| && forall j :: 0 <= j < i ==> s[j] < pid
    {
      i := i + 1;
    }
    r := s[..i] + [pid] + s[i..];
    if i < |s| { assert s[i] in s; }
    SplicedMembers(s, i, pid);
    SplicedOrder(s, i, pid);
  }

  method SortPids(pids: set<int>) returns (out: seq<int>)
    ensures Increasing(out) && forall x :: x in out <==> x in pids
  {
    out := [];
    var rest := pids;
    while |rest| > 0
      invariant rest <= pids && Increasing(out) && forall x :: x in out <==> x in pids && x !in rest
      decreases |rest|
    {
      ghost var some := Member(rest);
      var pid :| pid in rest;
      out := InsertPid(out, pid);
      rest := rest - {pid};
    }
  }

  /** survivors: the owned identities this snapshot still shows alive, sorted. */
  method FindSurvivors(rows: Rows, owned: Identities) returns (out: seq<int>)
    ensures Increasing(out)
    ensures forall p :: p in out <==> Survives(rows, owned, p)
    ensures out == [] <==> forall p <- owned :: !Survives(rows, owned, p)
  {
    out := SortPids(set p | p in owned && SameProcess(RowOf(rows, p), owned[p]));
    if out != [] { assert out[0] in out; }
  }
}
