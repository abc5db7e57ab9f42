/** What a bulk load leaves in the data file: a search tree of verified pages
    with every leaf at one depth, whose leaves in order are the path table. */
module PackV2Tree {
  import opened ByteStrings
  import opened PackTypes
  import opened PackV2Manifest
  import opened PackV2Writer

  /** A block or page of v2: placed, and within the write bound. */
  ghost predicate Holds(h: Hash, data: Bytes, loc: Locator, p: Bytes) {
    |p| <= MAX_BLOCK_BYTES && Placed(h, data, loc, p)
  }

  lemma HoldsLater(h: Hash, data: Bytes, more: Bytes, loc: Locator, p: Bytes)
    requires Holds(h, data, loc, p) && data <= more
    ensures Holds(h, more, loc, p)
  {
    PlacedLater(h, data, more, loc, p);
  }

  /** Writing only appends, and every locator handed out stays good. */
  lemma {:induction false} PutAllHolds(h: Hash, data: Bytes, ps: seq<Bytes>)
    requires PutAll(h, data, ps).Ok?
    ensures var (data', locs) := PutAll(h, data, ps).value;
      data <= data' && forall i :: 0 <= i < |ps| ==> Holds(h, data', locs[i], ps[i])
    decreases |ps|
  {
    if ps != [] {
      var (data1, loc) := Put(h, data, ps[0]).value;
      PutAllHolds(h, data1, ps[1..]);
      var (data', locs) := PutAll(h, data, ps).value;
      assert data1[|data|..] == ps[0];
      assert data <= data1;
      HoldsLater(h, data1, data', loc, ps[0]);
      forall i | 0 <= i < |ps| ensures Holds(h, data', locs[i], ps[i]) {
        if i > 0 { assert ps[i] == ps[1..][i - 1]; }
      }
    }
  }

  // ---------- Trees ----------

  datatype Tree =
    | Leaf(rows: seq<Bytes>)
    | Node(children: seq<Tree>, locs: seq<Locator>)

  ghost function Rows(t: Tree): seq<Bytes>
    decreases t, 1
  {
    match t
    case Leaf(rows) => rows
    case Node(children, _) => RowsOf(children)
  }

  ghost function RowsOf(ts: seq<Tree>): seq<Bytes>
    decreases ts, 0
  {
    if ts == [] then [] else Rows(ts[0]) + RowsOf(ts[1..])
  }

  ghost function FirstKey(t: Tree, keyWidth: nat): Bytes {
    if Rows(t) != [] && |Rows(t)[0]| >= keyWidth then Rows(t)[0][..keyWidth] else []
  }

  ghost function ParentRow(t: Tree, loc: Locator, keyWidth: nat): Bytes {
    FirstKey(t, keyWidth) + PutLocator(loc)
  }

  ghost function ParentRows(ts: seq<Tree>, locs: seq<Locator>, keyWidth: nat): (r: seq<Bytes>)
    requires |ts| == |locs|
    ensures |r| == |ts|
    ensures forall i :: 0 <= i < |ts| ==> r[i] == ParentRow(ts[i], locs[i], keyWidth)
  {
    seq(|ts|, i requires 0 <= i < |ts| => ParentRow(ts[i], locs[i], keyWidth))
  }

  /** The tree t is stored at loc, its leaves exactly `level` - 1 pages below. */
  ghost predicate Stored(h: Hash, data: Bytes, loc: Locator, t: Tree, level: nat, keyWidth: nat)
    decreases level
  {
    match t
    case Leaf(rows) =>
      && level == 1 && 1 <= |rows| <= LEAF_ROWS && AllWidth(rows, LeafWidth(keyWidth))
      && Holds(h, data, loc, Join(rows))
    case Node(children, locs) =>
      && level > 1 && 1 <= |children| <= FANOUT && |locs| == |children|
      && Holds(h, data, loc, Join(ParentRows(children, locs, keyWidth)))
      && forall i :: 0 <= i < |children| ==> Fits(locs[i]) && Stored(h, data, locs[i], children[i], level - 1, keyWidth)
  }

  lemma {:induction false} StoredLater(h: Hash, data: Bytes, more: Bytes, loc: Locator, t: Tree, level: nat,
          keyWidth: nat)
    requires Stored(h, data, loc, t, level, keyWidth) && data <= more
    ensures Stored(h, more, loc, t, level, keyWidth)
    decreases level
  {
    hide Holds, Join, ParentRows, AllWidth, Fits;
    match t
    case Leaf(rows) => HoldsLater(h, data, more, loc, Join(rows));
    case Node(children, locs) =>
      HoldsLater(h, data, more, loc, Join(ParentRows(children, locs, keyWidth)));
      forall i | 0 <= i < |children| ensures Stored(h, more, locs[i], children[i], level - 1, keyWidth) {
        StoredLater(h, data, more, locs[i], children[i], level - 1, keyWidth);
      }
  }

  lemma {:induction false} RowsOfWidth(ts: seq<Tree>, width: nat)
    requires forall i :: 0 <= i < |ts| ==> AllWidth(Rows(ts[i]), width) && Rows(ts[i]) != []
    ensures AllWidth(RowsOf(ts), width)
    ensures ts != [] ==> RowsOf(ts) != []
  {
    if ts != [] { RowsOfWidth(ts[1..], width); }
  }

  /** A stored tree has rows, all of the leaf width. */
  lemma {:induction false} StoredRows(h: Hash, data: Bytes, loc: Locator, t: Tree, level: nat, keyWidth: nat)
    requires Stored(h, data, loc, t, level, keyWidth)
    ensures Rows(t) != [] && AllWidth(Rows(t), LeafWidth(keyWidth))
    ensures |FirstKey(t, keyWidth)| == keyWidth
    decreases level
  {
    if t.Node? {
      forall i | 0 <= i < |t.children| ensures AllWidth(Rows(t.children[i]), LeafWidth(keyWidth))
        && Rows(t.children[i]) != []
      {
        StoredRows(h, data, t.locs[i], t.children[i], level - 1, keyWidth);
      }
      RowsOfWidth(t.children, LeafWidth(keyWidth));
    }
  }

  lemma {:induction false} RowsOfSplit(a: seq<Tree>, b: seq<Tree>)
    ensures RowsOf(a + b) == RowsOf(a) + RowsOf(b)
  {
    if a == [] {
      assert a + b == b;
    } else {
      assert (a + b)[0] == a[0] && (a + b)[1..] == a[1..] + b;
      RowsOfSplit(a[1..], b);
    }
  }

  // ---------- Which bytes the pages hold ----------

  /** Byte x lies in a page of t, stored at loc. */
  ghost predicate InTree(x: nat, loc: Locator, t: Tree)
    decreases t
  {
    || InRange(x, loc)
    || (t.Node? && |t.locs| == |t.children|
        && exists i :: 0 <= i < |t.children| && InTree(x, t.locs[i], t.children[i]))
  }

  ghost predicate InForest(x: nat, ts: seq<Tree>, locs: seq<Locator>)
    requires |ts| == |locs|
  {
    exists i :: 0 <= i < |ts| && InTree(x, locs[i], ts[i])
  }

  /** Every byte from lo up to hi lies in a page of these trees. */
  ghost predicate Covers(lo: nat, hi: nat, ts: seq<Tree>, locs: seq<Locator>) {
    |ts| == |locs| && forall x :: lo <= x < hi ==> InForest(x, ts, locs)
  }

  lemma PageHolds(x: nat, loc: Locator, t: Tree)
    requires InRange(x, loc)
    ensures InTree(x, loc, t)
  {
  }

  lemma {:induction false} PutAllCovers(h: Hash, data: Bytes, ps: seq<Bytes>, x: nat)
    requires PutAll(h, data, ps).Ok? && |data| <= x < |PutAll(h, data, ps).value.0|
    ensures InSome(x, PutAll(h, data, ps).value.1)
    decreases |ps|
  {
    var (data1, loc) := Put(h, data, ps[0]).value;
    var locs := PutAll(h, data, ps).value.1;
    if x < |data1| {
      assert InRange(x, locs[0]);
    } else {
      var rest := PutAll(h, data1, ps[1..]).value.1;
      PutAllCovers(h, data1, ps[1..], x);
      var i :| 0 <= i < |rest| && InRange(x, rest[i]);
      assert locs[i + 1] == rest[i];
    }
  }

  // ---------- One level of the bulk load ----------

  /** `row` is the parent row of t, stored at loc. */
  ghost predicate Entry(h: Hash, data: Bytes, row: Bytes, t: Tree, loc: Locator, level: nat, keyWidth: nat) {
    Fits(loc) && Stored(h, data, loc, t, level, keyWidth) && row == ParentRow(t, loc, keyWidth)
  }

  /** Row i is the parent row of tree i, stored at locs[i]. */
  ghost predicate Forest(h: Hash, data: Bytes, rows: seq<Bytes>, ts: seq<Tree>, locs: seq<Locator>, level: nat,
          keyWidth: nat)
    decreases |ts|
  {
    && |rows| == |ts| == |locs|
    && (ts != [] ==>
          && Entry(h, data, rows[0], ts[0], locs[0], level, keyWidth)
          && Forest(h, data, rows[1..], ts[1..], locs[1..], level, keyWidth))
  }

  lemma {:induction false} ForestAt(h: Hash, data: Bytes, rows: seq<Bytes>, ts: seq<Tree>, locs: seq<Locator>,
          level: nat, keyWidth: nat, i: nat)
    requires Forest(h, data, rows, ts, locs, level, keyWidth) && i < |ts|
    ensures Entry(h, data, rows[i], ts[i], locs[i], level, keyWidth)
    decreases i
  {
    if i > 0 { ForestAt(h, data, rows[1..], ts[1..], locs[1..], level, keyWidth, i - 1); }
  }

  lemma {:induction false} ForestOf(h: Hash, data: Bytes, rows: seq<Bytes>, ts: seq<Tree>, locs: seq<Locator>,
          level: nat, keyWidth: nat)
    requires |rows| == |ts| == |locs|
    requires forall i :: 0 <= i < |ts| ==> Entry(h, data, rows[i], ts[i], locs[i], level, keyWidth)
    ensures Forest(h, data, rows, ts, locs, level, keyWidth)
    decreases |ts|
  {
    if ts != [] { ForestOf(h, data, rows[1..], ts[1..], locs[1..], level, keyWidth); }
  }

  ghost function Leaves(groups: seq<seq<Bytes>>): (ts: seq<Tree>)
    ensures |ts| == |groups|
  {
    seq(|groups|, i requires 0 <= i < |groups| => Leaf(groups[i]))
  }

  lemma {:induction false} LeavesRows(rows: seq<Bytes>, n: nat)
    requires n > 0
    ensures RowsOf(Leaves(Chunks(rows, n))) == rows
    decreases |rows|
  {
    if rows != [] {
      var m := Min(n, |rows|);
      var ts := Leaves(Chunks(rows, n));
      assert ts[1..] == Leaves(Chunks(rows[m..], n));
      LeavesRows(rows[m..], n);
      assert rows == rows[..m] + rows[m..];
    }
  }

  lemma {:induction false} JoinEachAt(groups: seq<seq<Bytes>>, i: nat)
    requires i < |groups|
    ensures JoinEach(groups)[i] == Join(groups[i])
  {
    if i > 0 { JoinEachAt(groups[1..], i - 1); }
  }

  lemma {:induction false} ParentsAt(groups: seq<seq<Bytes>>, locs: seq<Locator>, keyWidth: nat, i: nat)
    requires |groups| == |locs| && KeyedGroups(groups, keyWidth) && i < |groups|
    ensures Parents(groups, locs, keyWidth)[i] == groups[i][0][..keyWidth] + PutLocator(locs[i])
  {
    if i > 0 { ParentsAt(groups[1..], locs[1..], keyWidth, i - 1); }
  }

  lemma {:induction false} ChunksParts(rows: seq<Bytes>, n: nat, width: nat, i: nat)
    requires n > 0 && AllWidth(rows, width) && i < |Chunks(rows, n)|
    ensures 1 <= |Chunks(rows, n)[i]| <= n
    ensures AllWidth(Chunks(rows, n)[i], width)
    decreases i
  {
    if i > 0 { ChunksParts(rows[Min(n, |rows|)..], n, width, i - 1); }
  }

  lemma LeafEntry(h: Hash, data: Bytes, rows: seq<Bytes>, locs: seq<Locator>, keyWidth: nat, i: nat)
    requires AllWidth(rows, LeafWidth(keyWidth))
    requires var groups := Chunks(rows, LEAF_ROWS);
      |locs| == |groups| && KeyedGroups(groups, keyWidth) && i < |groups|
        && Holds(h, data, locs[i], JoinEach(groups)[i])
    ensures var groups := Chunks(rows, LEAF_ROWS);
      Entry(h, data, Parents(groups, locs, keyWidth)[i], Leaf(groups[i]), locs[i], 1, keyWidth)
  {
    var groups := Chunks(rows, LEAF_ROWS);
    JoinEachAt(groups, i);
    ParentsAt(groups, locs, keyWidth, i);
    ChunksParts(rows, LEAF_ROWS, LeafWidth(keyWidth), i);
  }

  /** The leaf level. */
  lemma LeafLevel(h: Hash, data: Bytes, rows: seq<Bytes>, keyWidth: nat)
    requires AllWidth(rows, LeafWidth(keyWidth))
    requires WriteLevel(h, data, rows, LEAF_ROWS, keyWidth).Ok?
    ensures var (data', parents) := WriteLevel(h, data, rows, LEAF_ROWS, keyWidth).value;
      var groups := Chunks(rows, LEAF_ROWS);
      && data <= data'
      && Forest(h, data', parents, Leaves(groups), PutAll(h, data, JoinEach(groups)).value.1, 1, keyWidth)
  {
    var groups := Chunks(rows, LEAF_ROWS);
    ChunksKeyed(rows, LEAF_ROWS, keyWidth);
    PutAllHolds(h, data, JoinEach(groups));
    var (data', locs) := PutAll(h, data, JoinEach(groups)).value;
    forall i | 0 <= i < |groups|
      ensures Entry(h, data', Parents(groups, locs, keyWidth)[i], Leaf(groups[i]), locs[i], 1, keyWidth)
    {
      assert Holds(h, data', locs[i], JoinEach(groups)[i]);
      LeafEntry(h, data', rows, locs, keyWidth, i);
    }
    ForestOf(h, data', Parents(groups, locs, keyWidth), Leaves(groups), locs, 1, keyWidth);
  }

  lemma LeavesCover(h: Hash, data: Bytes, rows: seq<Bytes>, keyWidth: nat)
    requires KeyedRows(rows, keyWidth) && WriteLevel(h, data, rows, LEAF_ROWS, keyWidth).Ok?
    ensures var groups := Chunks(rows, LEAF_ROWS);
      Covers(|data|, |WriteLevel(h, data, rows, LEAF_ROWS, keyWidth).value.0|, Leaves(groups),
        PutAll(h, data, JoinEach(groups)).value.1)
  {
    hide PutAll, InRange, Chunks, JoinEach;
    var groups := Chunks(rows, LEAF_ROWS);
    var data', locs := PutAll(h, data, JoinEach(groups)).value.0, PutAll(h, data, JoinEach(groups)).value.1;
    forall x | |data| <= x < |data'| ensures InForest(x, Leaves(groups), locs) {
      PutAllCovers(h, data, JoinEach(groups), x);
      var i :| 0 <= i < |locs| && InRange(x, locs[i]);
      assert InTree(x, locs[i], Leaves(groups)[i]);
    }
  }

  /** Subtrees grouped under the pages of the next level. */
  ghost function Grouped(ts: seq<Tree>, locs: seq<Locator>, n: nat): (r: seq<Tree>)
    requires n > 0 && |ts| == |locs|
    ensures |r| == PageCount(|ts|, n)
    decreases |ts|
  {
    if ts == [] then []
    else
      var m := Min(n, |ts|);
      [Node(ts[..m], locs[..m])] + Grouped(ts[m..], locs[m..], n)
  }

  lemma {:induction false} GroupedRows(ts: seq<Tree>, locs: seq<Locator>, n: nat)
    requires n > 0 && |ts| == |locs|
    ensures RowsOf(Grouped(ts, locs, n)) == RowsOf(ts)
    decreases |ts|
  {
    if ts != [] {
      var m := Min(n, |ts|);
      GroupedRows(ts[m..], locs[m..], n);
      RowsOfSplit(ts[..m], ts[m..]);
      assert ts == ts[..m] + ts[m..];
    }
  }

  /** No subtree is lost in the grouping. */
  lemma {:induction false} GroupedHas(ts: seq<Tree>, locs: seq<Locator>, n: nat, i: nat) returns (g: nat, k: nat)
    requires n > 0 && |ts| == |locs| && i < |ts|
    ensures g < |Grouped(ts, locs, n)|
    ensures var node := Grouped(ts, locs, n)[g];
      && node.Node? && k < |node.children| == |node.locs|
      && node.children[k] == ts[i] && node.locs[k] == locs[i]
    decreases |ts|
  {
    var m := Min(n, |ts|);
    if i < m {
      g, k := 0, i;
    } else {
      g, k := GroupedHas(ts[m..], locs[m..], n, i - m);
      g := g + 1;
    }
  }

  lemma GroupedCover(x: nat, ts: seq<Tree>, locs: seq<Locator>, n: nat, plocs: seq<Locator>)
    requires n > 0 && |ts| == |locs| && |plocs| == |Grouped(ts, locs, n)| && InForest(x, ts, locs)
    ensures InForest(x, Grouped(ts, locs, n), plocs)
  {
    hide InRange, Grouped;
    var i :| 0 <= i < |ts| && InTree(x, locs[i], ts[i]);
    var g, k := GroupedHas(ts, locs, n, i);
    var node := Grouped(ts, locs, n)[g];
    assert InTree(x, node.locs[k], node.children[k]);
    assert InTree(x, plocs[g], node);
  }

  /** The pages of an interior level, and what they group, hold every byte from where
      the leaves began. */
  lemma InteriorCovers(h: Hash, data: Bytes, rows: seq<Bytes>, ts: seq<Tree>, locs: seq<Locator>, keyWidth: nat,
          lo: nat)
    requires |rows| == |ts| == |locs| && KeyedRows(rows, keyWidth) && WriteLevel(h, data, rows, FANOUT, keyWidth).Ok?
    requires Covers(lo, |data|, ts, locs)
    ensures Covers(lo, |WriteLevel(h, data, rows, FANOUT, keyWidth).value.0|, Grouped(ts, locs, FANOUT),
      PutAll(h, data, JoinEach(Chunks(rows, FANOUT))).value.1)
  {
    hide PutAll, InRange, InTree, Grouped, Chunks, JoinEach;
    var pages := JoinEach(Chunks(rows, FANOUT));
    var data', plocs := PutAll(h, data, pages).value.0, PutAll(h, data, pages).value.1;
    var nodes := Grouped(ts, locs, FANOUT);
    forall x | lo <= x < |data'| ensures InForest(x, nodes, plocs) {
      if x < |data| {
        GroupedCover(x, ts, locs, FANOUT, plocs);
      } else {
        PutAllCovers(h, data, pages, x);
        var i :| 0 <= i < |plocs| && InRange(x, plocs[i]);
        PageHolds(x, plocs[i], nodes[i]);
      }
    }
  }

  lemma {:induction false} ForestSplit(h: Hash, data: Bytes, rows: seq<Bytes>, ts: seq<Tree>, locs: seq<Locator>,
          level: nat, keyWidth: nat, m: nat)
    requires Forest(h, data, rows, ts, locs, level, keyWidth) && m <= |ts|
    ensures Forest(h, data, rows[..m], ts[..m], locs[..m], level, keyWidth)
    ensures Forest(h, data, rows[m..], ts[m..], locs[m..], level, keyWidth)
  {
    forall i | 0 <= i < |ts| ensures Entry(h, data, rows[i], ts[i], locs[i], level, keyWidth) {
      ForestAt(h, data, rows, ts, locs, level, keyWidth, i);
    }
    ForestOf(h, data, rows[..m], ts[..m], locs[..m], level, keyWidth);
    ForestOf(h, data, rows[m..], ts[m..], locs[m..], level, keyWidth);
  }

  /** Group i of the rows is the page of group i of the trees. */
  lemma {:induction false} GroupedAt(h: Hash, data: Bytes, rows: seq<Bytes>, ts: seq<Tree>, locs: seq<Locator>,
          level: nat, keyWidth: nat, i: nat)
    requires Forest(h, data, rows, ts, locs, level, keyWidth)
    requires i < |Chunks(rows, FANOUT)|
    ensures var node := Grouped(ts, locs, FANOUT)[i];
      && node.Node? && |node.children| == |node.locs|
      && 1 <= |node.children| <= FANOUT
      && Forest(h, data, Chunks(rows, FANOUT)[i], node.children, node.locs, level, keyWidth)
    decreases i
  {
    var m := Min(FANOUT, |rows|);
    ForestSplit(h, data, rows, ts, locs, level, keyWidth, m);
    if i > 0 { GroupedAt(h, data, rows[m..], ts[m..], locs[m..], level, keyWidth, i - 1); }
  }

  lemma ForestPage(h: Hash, data: Bytes, rows: seq<Bytes>, ts: seq<Tree>, locs: seq<Locator>, level: nat, keyWidth: nat)
    requires Forest(h, data, rows, ts, locs, level, keyWidth) && ts != []
    ensures rows == ParentRows(ts, locs, keyWidth)
    ensures |rows[0]| >= keyWidth && rows[0][..keyWidth] == FirstKey(Node(ts, locs), keyWidth)
  {
    forall i | 0 <= i < |ts| ensures rows[i] == ParentRow(ts[i], locs[i], keyWidth) {
      ForestAt(h, data, rows, ts, locs, level, keyWidth, i);
    }
    StoredRows(h, data, locs[0], ts[0], level, keyWidth);
    assert RowsOf(ts)[0] == Rows(ts[0])[0];
  }

  /** A page of parent rows, written, makes its group of trees one tree. */
  lemma NodeEntry(h: Hash, data: Bytes, data': Bytes, rows: seq<Bytes>, ts: seq<Tree>, locs: seq<Locator>, loc: Locator,
          level: nat, keyWidth: nat)
    requires level >= 1 && data <= data' && 1 <= |ts| <= FANOUT
    requires Forest(h, data, rows, ts, locs, level, keyWidth)
    requires Holds(h, data', loc, Join(rows))
    ensures |rows[0]| >= keyWidth
    ensures Entry(h, data', rows[0][..keyWidth] + PutLocator(loc), Node(ts, locs), loc, level + 1, keyWidth)
  {
    ForestPage(h, data, rows, ts, locs, level, keyWidth);
    forall j | 0 <= j < |ts| ensures Fits(locs[j]) && Stored(h, data', locs[j], ts[j], level, keyWidth) {
      ForestAt(h, data, rows, ts, locs, level, keyWidth, j);
      StoredLater(h, data, data', locs[j], ts[j], level, keyWidth);
    }
  }

  /** An interior level. */
  lemma InteriorLevel(h: Hash, data: Bytes, rows: seq<Bytes>, ts: seq<Tree>, locs: seq<Locator>, level: nat,
          keyWidth: nat)
    requires level >= 1 && Forest(h, data, rows, ts, locs, level, keyWidth)
    requires KeyedRows(rows, keyWidth)
    requires WriteLevel(h, data, rows, FANOUT, keyWidth).Ok?
    ensures var (data', parents) := WriteLevel(h, data, rows, FANOUT, keyWidth).value;
      && data <= data'
      && Forest(h, data', parents, Grouped(ts, locs, FANOUT), PutAll(h, data, JoinEach(Chunks(rows, FANOUT))).value.1,
        level + 1, keyWidth)
  {
    hide Stored, Entry, PutAll, Chunks, JoinEach, Join, Grouped, Parents, ParentRow, Holds;
    var groups := Chunks(rows, FANOUT);
    ChunksKeyed(rows, FANOUT, keyWidth);
    PutAllHolds(h, data, JoinEach(groups));
    var (data', plocs) := PutAll(h, data, JoinEach(groups)).value;
    var nodes := Grouped(ts, locs, FANOUT);
    var parents := Parents(groups, plocs, keyWidth);
    forall i | 0 <= i < |groups|
      ensures Entry(h, data', parents[i], nodes[i], plocs[i], level + 1, keyWidth)
    {
      GroupedAt(h, data, rows, ts, locs, level, keyWidth, i);
      JoinEachAt(groups, i);
      ParentsAt(groups, plocs, keyWidth, i);
      assert Holds(h, data', plocs[i], JoinEach(groups)[i]);
      NodeEntry(h, data, data', groups[i], nodes[i].children, nodes[i].locs, plocs[i], level, keyWidth);
    }
    ForestOf(h, data', parents, nodes, plocs, level + 1, keyWidth);
  }

  // ---------- The whole bulk load ----------

  lemma WriteTreeStep(h: Hash, data: Bytes, rows: seq<Bytes>, perPage: nat, keyWidth: nat, height: nat)
    requires perPage >= 2 && rows != [] && KeyedRows(rows, keyWidth)
    ensures var level := WriteLevel(h, data, rows, perPage, keyWidth);
      var whole := WriteTree(h, data, rows, perPage, keyWidth, height);
      if level.Err? then whole == Err(level.error)
      else
        var (data', parents) := level.value;
        && 1 <= |parents| <= |rows| && (|rows| > 1 ==> |parents| < |rows|)
        && (|parents| == 1 ==> whole == Ok((data', GetLocator(parents[0][keyWidth..]), height)))
        && (|parents| > 1 ==> whole == WriteTree(h, data', parents, FANOUT, keyWidth, height + 1))
  {
    FewerPages(|rows|, perPage);
  }

  /** A finished load: it appended to `data` and stored t, whose leaves are `rows`. */
  ghost predicate Loaded(h: Hash, data: Bytes, outcome: Result<(Bytes, Locator, nat)>, t: Tree, rows: seq<Bytes>,
          keyWidth: nat)
  {
    && outcome.Ok?
    && data <= outcome.value.0 && Fits(outcome.value.1)
    && Stored(h, outcome.value.0, outcome.value.1, t, outcome.value.2, keyWidth) && Rows(t) == rows
  }

  /** The pages of t hold every byte the load wrote after the first `lo`. */
  ghost predicate LoadCovers(lo: nat, outcome: Result<(Bytes, Locator, nat)>, t: Tree) {
    outcome.Ok? && forall x :: lo <= x < |outcome.value.0| ==> InTree(x, outcome.value.1, t)
  }

  lemma SingleCovers(lo: nat, hi: nat, ts: seq<Tree>, locs: seq<Locator>)
    requires Covers(lo, hi, ts, locs) && |ts| == 1
    ensures forall x :: lo <= x < hi ==> InTree(x, locs[0], ts[0])
  {
    hide InTree;
    forall x | lo <= x < hi ensures InTree(x, locs[0], ts[0]) { assert InForest(x, ts, locs); }
  }

  lemma SingleRoot(h: Hash, data: Bytes, parents: seq<Bytes>, ts: seq<Tree>, locs: seq<Locator>, level: nat,
          keyWidth: nat)
    requires Forest(h, data, parents, ts, locs, level, keyWidth) && |parents| == 1
    ensures |parents[0]| >= keyWidth + LOCATOR_WIDTH && GetLocator(parents[0][keyWidth..]) == locs[0]
    ensures Fits(locs[0]) && Stored(h, data, locs[0], ts[0], level, keyWidth)
    ensures RowsOf(ts) == Rows(ts[0])
  {
    StoredRows(h, data, locs[0], ts[0], level, keyWidth);
    assert parents[0][keyWidth..] == PutLocator(locs[0]);
    LocatorAlone(locs[0]);
    assert RowsOf(ts[1..]) == [];
  }

  lemma InteriorStep(h: Hash, data: Bytes, rows: seq<Bytes>, ts: seq<Tree>, locs: seq<Locator>, height: nat,
          keyWidth: nat, lo: nat)
    returns (data': Bytes, parents: seq<Bytes>, nodes: seq<Tree>, plocs: seq<Locator>)
    requires height >= 1 && rows != [] && KeyedRows(rows, keyWidth)
    requires Forest(h, data, rows, ts, locs, height, keyWidth) && Covers(lo, |data|, ts, locs)
    requires WriteTree(h, data, rows, FANOUT, keyWidth, height + 1).Ok?
    ensures data <= data' && Forest(h, data', parents, nodes, plocs, height + 1, keyWidth)
    ensures KeyedRows(parents, keyWidth) && RowsOf(nodes) == RowsOf(ts)
    ensures 1 <= |parents| <= |rows| && (|rows| > 1 ==> |parents| < |rows|)
    ensures Covers(lo, |data'|, nodes, plocs)
    ensures |parents| == 1 ==> nodes != []
    ensures |parents| == 1 ==>
      var outcome := WriteTree(h, data, rows, FANOUT, keyWidth, height + 1);
      Loaded(h, data, outcome, nodes[0], RowsOf(ts), keyWidth) && LoadCovers(lo, outcome, nodes[0])
    ensures |parents| > 1 ==>
      WriteTree(h, data, rows, FANOUT, keyWidth, height + 1)
        == WriteTree(h, data', parents, FANOUT, keyWidth, height + 2)
  {
    hide Stored, Entry, Chunks, Grouped, PutAll, JoinEach, Covers, InTree;
    WriteTreeStep(h, data, rows, FANOUT, keyWidth, height + 1);
    InteriorLevel(h, data, rows, ts, locs, height, keyWidth);
    InteriorCovers(h, data, rows, ts, locs, keyWidth, lo);
    GroupedRows(ts, locs, FANOUT);
    data', parents := WriteLevel(h, data, rows, FANOUT, keyWidth).value.0,
      WriteLevel(h, data, rows, FANOUT, keyWidth).value.1;
    nodes := Grouped(ts, locs, FANOUT);
    plocs := PutAll(h, data, JoinEach(Chunks(rows, FANOUT))).value.1;
    if |parents| == 1 {
      SingleRoot(h, data', parents, nodes, plocs, height + 1, keyWidth);
      SingleCovers(lo, |data'|, nodes, plocs);
    }
  }

  lemma LoadedFrom(h: Hash, data: Bytes, data1: Bytes, outcome: Result<(Bytes, Locator, nat)>, t: Tree,
          rows: seq<Bytes>, keyWidth: nat)
    requires data <= data1 && Loaded(h, data1, outcome, t, rows, keyWidth)
    ensures Loaded(h, data, outcome, t, rows, keyWidth)
  {
  }

  lemma {:induction false} UpperLevels(h: Hash, data: Bytes, rows: seq<Bytes>, ts: seq<Tree>, locs: seq<Locator>,
          height: nat, keyWidth: nat, lo: nat)
    returns (t: Tree)
    requires height >= 1 && |rows| > 1 && KeyedRows(rows, keyWidth)
    requires Forest(h, data, rows, ts, locs, height, keyWidth) && Covers(lo, |data|, ts, locs)
    requires WriteTree(h, data, rows, FANOUT, keyWidth, height + 1).Ok?
    ensures Loaded(h, data, WriteTree(h, data, rows, FANOUT, keyWidth, height + 1), t, RowsOf(ts), keyWidth)
    ensures LoadCovers(lo, WriteTree(h, data, rows, FANOUT, keyWidth, height + 1), t)
    decreases |rows|
  {
    hide Stored, Forest, KeyedRows, Covers, LoadCovers;
    var data1, parents, nodes, plocs := InteriorStep(h, data, rows, ts, locs, height, keyWidth, lo);
    if |parents| == 1 {
      t := nodes[0];
    } else {
      t := UpperLevels(h, data1, parents, nodes, plocs, height + 1, keyWidth, lo);
      LoadedFrom(h, data, data1, WriteTree(h, data1, parents, FANOUT, keyWidth, height + 2), t, RowsOf(ts), keyWidth);
    }
  }

  /** The bulk load stores a tree: the root locator and height it returns address
      pages with all leaves at one depth whose rows, in order, are exactly the
      rows it was given. Nothing but pages of the tree was written. */
  lemma BulkLoad(h: Hash, data: Bytes, rows: seq<Bytes>, keyWidth: nat)
    returns (t: Tree)
    requires rows != [] && AllWidth(rows, LeafWidth(keyWidth))
    requires WriteTree(h, data, rows, LEAF_ROWS, keyWidth, 1).Ok?
    ensures Loaded(h, data, WriteTree(h, data, rows, LEAF_ROWS, keyWidth, 1), t, rows, keyWidth)
    ensures LoadCovers(|data|, WriteTree(h, data, rows, LEAF_ROWS, keyWidth, 1), t)
  {
    hide Covers, InTree;
    WriteTreeStep(h, data, rows, LEAF_ROWS, keyWidth, 1);
    LeafLevel(h, data, rows, keyWidth);
    LeavesCover(h, data, rows, keyWidth);
    LeavesRows(rows, LEAF_ROWS);
    var groups := Chunks(rows, LEAF_ROWS);
    var (data1, parents) := WriteLevel(h, data, rows, LEAF_ROWS, keyWidth).value;
    var locs := PutAll(h, data, JoinEach(groups)).value.1;
    if |parents| == 1 {
      t := Leaves(groups)[0];
      SingleRoot(h, data1, parents, Leaves(groups), locs, 1, keyWidth);
      SingleCovers(|data|, |data1|, Leaves(groups), locs);
    } else {
      t := UpperLevels(h, data1, parents, Leaves(groups), locs, 1, keyWidth, |data|);
    }
  }
}
