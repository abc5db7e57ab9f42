/** Reads of a stored tree: the descent finds the floor, the walk yields the leaves. */
module PackV2Search {
  import opened ByteStrings
  import opened PackTypes
  import opened PackV2Manifest
  import opened PackV2Tree
  import opened PackV2Reader

  lemma HeldReads(h: Hash, data: Bytes, loc: Locator, p: Bytes, maxLen: nat)
    requires Holds(h, data, loc, p) && |p| <= maxLen
    ensures ReadVerified(h, data, loc, maxLen) == Ok(p)
  {
  }

  lemma MulStep(a: nat, b: nat, width: nat)
    requires a < b
    ensures a * width + width <= b * width
  {
    var rest := b - a - 1;
    assert b * width == (a + 1) * width + rest * width;
    assert (a + 1) * width == a * width + width;
    assert rest * width >= 0;
  }

  lemma DivExact(x: nat, n: nat, width: nat)
    requires width > 0 && x == n * width
    ensures x / width == n && x % width == 0
  {
    var q, r := x / width, x % width;
    assert x == q * width + r;
    if q < n { MulStep(q, n, width); }
    if n < q { MulStep(n, q, width); }
  }

  lemma PageSize(count: nat, rowWidth: nat, maxRows: nat)
    requires rowWidth > 0 && 1 <= count <= maxRows
    ensures 0 < count * rowWidth <= rowWidth * maxRows
  {
    if count < maxRows { MulStep(count, maxRows, rowWidth); }
    MulStep(0, count, rowWidth);
  }

  lemma PageReads(h: Hash, data: Bytes, loc: Locator, page: Bytes, count: nat, rowWidth: nat, maxRows: nat)
    requires rowWidth > 0 && 1 <= count <= maxRows && |page| == count * rowWidth
    requires Holds(h, data, loc, page)
    ensures ReadPage(h, data, loc, rowWidth, maxRows) == Ok(page)
    ensures RowCount(page, rowWidth) == count
  {
    PageSize(count, rowWidth, maxRows);
    HeldReads(h, data, loc, page, rowWidth * maxRows);
    DivExact(|page|, count, rowWidth);
    hide ReadVerified, Holds;
  }

  /** A page of whole rows reads back as those rows. */
  lemma PageOfRows(h: Hash, data: Bytes, loc: Locator, rows: seq<Bytes>, rowWidth: nat, maxRows: nat)
    requires rowWidth > 0 && 1 <= |rows| <= maxRows && AllWidth(rows, rowWidth)
    requires Holds(h, data, loc, Join(rows))
    ensures ReadPage(h, data, loc, rowWidth, maxRows) == Ok(Join(rows))
    ensures RowCount(Join(rows), rowWidth) == |rows|
    ensures forall i :: 0 <= i < |rows| ==> PageRow(Join(rows), rowWidth, i) == rows[i]
  {
    hide ReadPage, RowCount, Holds, Join;
    JoinLength(rows, rowWidth);
    PageReads(h, data, loc, Join(rows), |rows|, rowWidth, maxRows);
    forall i | 0 <= i < |rows| ensures PageRow(Join(rows), rowWidth, i) == rows[i] {
      JoinRowAt(rows, rowWidth, i);
    }
  }

  // ---------- The bisection ----------

  ghost predicate KeysAscend(rows: seq<Bytes>, keyWidth: nat) {
    && (forall i :: 0 <= i < |rows| ==> |rows[i]| >= keyWidth)
    && (forall i, j :: 0 <= i < j < |rows| ==> LexLe(rows[i][..keyWidth], rows[j][..keyWidth]))
  }

  lemma {:induction false} SearchFloor(page: Bytes, rowWidth: nat, rows: seq<Bytes>, key: Bytes, lo: nat, hi: nat)
    requires rowWidth > 0 && |key| <= rowWidth && lo <= hi <= RowCount(page, rowWidth) == |rows|
    requires forall i :: 0 <= i < |rows| ==> PageRow(page, rowWidth, i) == rows[i]
    requires AllWidth(rows, rowWidth) && KeysAscend(rows, |key|)
    requires forall i :: 0 <= i < lo ==> LexLe(rows[i][..|key|], key)
    requires forall i :: hi <= i < |rows| ==> !LexLe(rows[i][..|key|], key)
    ensures var n := Search(page, rowWidth, key, lo, hi);
      && (forall i :: 0 <= i < n ==> LexLe(rows[i][..|key|], key))
      && (forall i :: n <= i < |rows| ==> !LexLe(rows[i][..|key|], key))
    decreases hi - lo
  {
    hide PageRow, LexLe, RowCount;
    if lo < hi {
      var mid := (lo + hi) / 2;
      if LexLe(rows[mid][..|key|], key) {
        forall i | 0 <= i < mid ensures LexLe(rows[i][..|key|], key) {
          LexTrans(rows[i][..|key|], rows[mid][..|key|], key);
        }
        SearchFloor(page, rowWidth, rows, key, mid + 1, hi);
      } else {
        forall i | mid < i < |rows| ensures !LexLe(rows[i][..|key|], key) {
          if LexLe(rows[i][..|key|], key) { LexTrans(rows[mid][..|key|], rows[i][..|key|], key); }
        }
        SearchFloor(page, rowWidth, rows, key, lo, mid);
      }
    }
  }

  /** On ascending keys floorRow is the last row whose key is at most the target,
      or -1 when there is none. */
  lemma FloorRowIsLast(page: Bytes, rowWidth: nat, rows: seq<Bytes>, key: Bytes)
    requires rowWidth > 0 && |key| <= rowWidth && RowCount(page, rowWidth) == |rows|
    requires forall i :: 0 <= i < |rows| ==> PageRow(page, rowWidth, i) == rows[i]
    requires AllWidth(rows, rowWidth) && KeysAscend(rows, |key|)
    ensures var n := FloorRow(page, rowWidth, key);
      && -1 <= n < |rows|
      && (forall i :: 0 <= i <= n ==> LexLe(rows[i][..|key|], key))
      && (forall i :: n < i < |rows| ==> !LexLe(rows[i][..|key|], key))
  {
    SearchFloor(page, rowWidth, rows, key, 0, |rows|);
  }

  // ---------- Order across subtrees ----------

  lemma AscendParts(a: seq<Bytes>, b: seq<Bytes>, keyWidth: nat)
    requires KeysAscend(a + b, keyWidth)
    ensures KeysAscend(a, keyWidth) && KeysAscend(b, keyWidth)
    ensures forall i, j :: 0 <= i < |a| && 0 <= j < |b| ==> LexLe(a[i][..keyWidth], b[j][..keyWidth])
  {
    var s := a + b;
    forall i | 0 <= i < |a| ensures |a[i]| >= keyWidth { assert s[i] == a[i]; }
    forall i | 0 <= i < |b| ensures |b[i]| >= keyWidth { assert s[|a| + i] == b[i]; }
    forall i, j | 0 <= i < j < |a| ensures LexLe(a[i][..keyWidth], a[j][..keyWidth]) { assert s[i] == a[i]
      && s[j] == a[j]; }
    forall i, j | 0 <= i < j < |b| ensures LexLe(b[i][..keyWidth], b[j][..keyWidth]) { assert s[|a| + i] == b[i]
      && s[|a| + j] == b[j]; }
    forall i, j | 0 <= i < |a| && 0 <= j < |b|
      ensures LexLe(a[i][..keyWidth], b[j][..keyWidth]) { assert s[i] == a[i] && s[|a| + j] == b[j]; }
  }

  ghost predicate Planted(ts: seq<Tree>, keyWidth: nat) {
    forall i :: 0 <= i < |ts| ==> Rows(ts[i]) != [] && AllWidth(Rows(ts[i]), LeafWidth(keyWidth))
  }

  lemma StoredPlanted(h: Hash, data: Bytes, loc: Locator, t: Tree, level: nat, keyWidth: nat)
    requires Stored(h, data, loc, t, level, keyWidth) && t.Node?
    ensures Planted(t.children, keyWidth)
  {
    forall i | 0 <= i < |t.children| ensures Rows(t.children[i]) != []
      && AllWidth(Rows(t.children[i]), LeafWidth(keyWidth))
    {
      StoredRows(h, data, t.locs[i], t.children[i], level - 1, keyWidth);
    }
  }

  /** The leaves of one child are a run of the leaves of all. */
  lemma ChildRun(ts: seq<Tree>, i: nat)
    requires i < |ts|
    ensures RowsOf(ts) == RowsOf(ts[..i]) + Rows(ts[i]) + RowsOf(ts[i + 1..])
  {
    assert ts == ts[..i] + ts[i..];
    RowsOfSplit(ts[..i], ts[i..]);
    assert ts[i..][1..] == ts[i + 1..];
  }

  lemma ChildAscends(ts: seq<Tree>, keyWidth: nat, i: nat)
    requires i < |ts| && KeysAscend(RowsOf(ts), keyWidth)
    ensures KeysAscend(Rows(ts[i]), keyWidth)
  {
    ChildRun(ts, i);
    AscendParts(RowsOf(ts[..i]) + Rows(ts[i]), RowsOf(ts[i + 1..]), keyWidth);
    AscendParts(RowsOf(ts[..i]), Rows(ts[i]), keyWidth);
  }

  /** Leaves of an earlier child never follow leaves of a later one. */
  lemma ChildrenOrdered(ts: seq<Tree>, keyWidth: nat, i: nat, j: nat, a: nat, b: nat)
    requires i < j < |ts| && KeysAscend(RowsOf(ts), keyWidth)
    requires a < |Rows(ts[i])| && b < |Rows(ts[j])|
    ensures |Rows(ts[i])[a]| >= keyWidth && |Rows(ts[j])[b]| >= keyWidth
    ensures LexLe(Rows(ts[i])[a][..keyWidth], Rows(ts[j])[b][..keyWidth])
  {
    assert ts == ts[..j] + ts[j..];
    RowsOfSplit(ts[..j], ts[j..]);
    AscendParts(RowsOf(ts[..j]), RowsOf(ts[j..]), keyWidth);
    ChildRun(ts[..j], i);
    assert ts[..j][i] == ts[i];
    var at := |RowsOf(ts[..j][..i])| + a;
    assert RowsOf(ts[..j])[at] == Rows(ts[i])[a];
    assert RowsOf(ts[j..])[b] == Rows(ts[j])[b];
  }

  lemma ParentRowParts(t: Tree, loc: Locator, keyWidth: nat)
    requires Rows(t) != [] && AllWidth(Rows(t), LeafWidth(keyWidth))
    ensures var row := ParentRow(t, loc, keyWidth);
      && |row| == InteriorWidth(keyWidth)
      && row[..keyWidth] == Rows(t)[0][..keyWidth] && row[keyWidth..] == PutLocator(loc)
  {
    hide Rows, PutLocator;
  }

  lemma ParentKeysAscend(ts: seq<Tree>, locs: seq<Locator>, keyWidth: nat)
    requires |ts| == |locs| && Planted(ts, keyWidth) && KeysAscend(RowsOf(ts), keyWidth)
    ensures AllWidth(ParentRows(ts, locs, keyWidth), InteriorWidth(keyWidth))
    ensures KeysAscend(ParentRows(ts, locs, keyWidth), keyWidth)
    ensures forall i :: 0 <= i < |ts| ==> ParentRows(ts, locs, keyWidth)[i][..keyWidth] == Rows(ts[i])[0][..keyWidth]
    ensures forall i :: 0 <= i < |ts| ==> ParentRows(ts, locs, keyWidth)[i][keyWidth..] == PutLocator(locs[i])
  {
    var rows := ParentRows(ts, locs, keyWidth);
    forall i | 0 <= i < |ts|
      ensures |rows[i]| == InteriorWidth(keyWidth)
      ensures rows[i][..keyWidth] == Rows(ts[i])[0][..keyWidth] && rows[i][keyWidth..] == PutLocator(locs[i])
    {
      ParentRowParts(ts[i], locs[i], keyWidth);
    }
    hide Rows, RowsOf, ParentRows, ParentRow, PutLocator, LexLe;
    forall i, j | 0 <= i < j < |ts| ensures LexLe(rows[i][..keyWidth], rows[j][..keyWidth]) {
      ChildrenOrdered(ts, keyWidth, i, j, 0, 0);
    }
  }

  // ---------- The descent ----------

  ghost predicate HasKey(rows: seq<Bytes>, key: Bytes) {
    exists i :: 0 <= i < |rows| && |rows[i]| >= |key| && rows[i][..|key|] == key
  }

  /** What a descent may answer about `rows`: a row of the wanted key if there is
      one, and nothing otherwise. */
  ghost predicate Answers(rows: seq<Bytes>, key: Bytes, answer: Option<Bytes>) {
    match answer
    case None => !HasKey(rows, key)
    case Some(row) => row in rows && |row| >= |key| && row[..|key|] == key
  }

  lemma HasKeyPart(a: seq<Bytes>, b: seq<Bytes>, c: seq<Bytes>, key: Bytes)
    ensures HasKey(a + b + c, key) <==> HasKey(a, key) || HasKey(b, key) || HasKey(c, key)
  {
    var s := a + b + c;
    if HasKey(s, key) {
      var i :| 0 <= i < |s| && |s[i]| >= |key| && s[i][..|key|] == key;
      if i < |a| { assert a[i] == s[i]; }
      else if i < |a| + |b| { assert b[i - |a|] == s[i]; }
      else { assert c[i - |a| - |b|] == s[i]; }
    }
    if HasKey(a, key) {
      var i :| 0 <= i < |a| && |a[i]| >= |key| && a[i][..|key|] == key;
      assert s[i] == a[i];
    }
    if HasKey(b, key) {
      var i :| 0 <= i < |b| && |b[i]| >= |key| && b[i][..|key|] == key;
      assert s[|a| + i] == b[i];
    }
    if HasKey(c, key) {
      var i :| 0 <= i < |c| && |c[i]| >= |key| && c[i][..|key|] == key;
      assert s[|a| + |b| + i] == c[i];
    }
  }

  lemma {:induction false} ChildWithKey(ts: seq<Tree>, key: Bytes) returns (c: nat, a: nat)
    requires HasKey(RowsOf(ts), key)
    ensures c < |ts| && a < |Rows(ts[c])| && |Rows(ts[c])[a]| >= |key| && Rows(ts[c])[a][..|key|] == key
  {
    var i :| 0 <= i < |RowsOf(ts)| && |RowsOf(ts)[i]| >= |key| && RowsOf(ts)[i][..|key|] == key;
    if i < |Rows(ts[0])| {
      c, a := 0, i;
    } else {
      assert RowsOf(ts[1..])[i - |Rows(ts[0])|] == RowsOf(ts)[i];
      c, a := ChildWithKey(ts[1..], key);
      c := c + 1;
    }
  }

  lemma HasKeyAt(rows: seq<Bytes>, key: Bytes, i: nat)
    requires i < |rows| && |rows[i]| >= |key| && rows[i][..|key|] == key
    ensures HasKey(rows, key)
  {
  }

  /** The child the key is under begins at or before it. */
  lemma FirstAtMost(ts: seq<Tree>, key: Bytes, c: nat, a: nat)
    requires c < |ts| && KeysAscend(RowsOf(ts), |key|)
    requires a < |Rows(ts[c])| && |Rows(ts[c])[a]| >= |key| && Rows(ts[c])[a][..|key|] == key
    ensures |Rows(ts[c])[0]| >= |key| && LexLe(Rows(ts[c])[0][..|key|], key)
  {
    ChildAscends(ts, |key|, c);
    LexRefl(key);
    hide LexLe, Rows, RowsOf;
  }

  /** Child n is the last one that begins at or before the key, or -1. */
  ghost predicate IsFloor(ts: seq<Tree>, key: Bytes, n: int)
    requires Planted(ts, |key|)
  {
    && -1 <= n < |ts|
    && (forall i :: 0 <= i <= n ==> LexLe(Rows(ts[i])[0][..|key|], key))
    && (forall i :: n < i < |ts| ==> !LexLe(Rows(ts[i])[0][..|key|], key))
  }

  lemma NotAfter(ts: seq<Tree>, key: Bytes, n: int, c: nat)
    requires Planted(ts, |key|) && IsFloor(ts, key, n) && c < |ts| && LexLe(Rows(ts[c])[0][..|key|], key)
    ensures c <= n
  {
    hide LexLe, Rows;
  }

  lemma FloorBegins(ts: seq<Tree>, key: Bytes, n: nat)
    requires Planted(ts, |key|) && IsFloor(ts, key, n)
    ensures n < |ts| && Rows(ts[n]) != [] && |Rows(ts[n])[0]| >= |key| && LexLe(Rows(ts[n])[0][..|key|], key)
  {
    hide LexLe, Rows;
  }

  /** A later child that begins at or before the key begins with it. */
  lemma LaterBeginsWithKey(ts: seq<Tree>, key: Bytes, c: nat, a: nat, n: nat)
    requires c < n < |ts| && KeysAscend(RowsOf(ts), |key|)
    requires a < |Rows(ts[c])| && |Rows(ts[c])[a]| >= |key| && Rows(ts[c])[a][..|key|] == key
    requires Rows(ts[n]) != [] && |Rows(ts[n])[0]| >= |key| && LexLe(Rows(ts[n])[0][..|key|], key)
    ensures HasKey(Rows(ts[n]), key)
  {
    hide *;
    ChildrenOrdered(ts, |key|, c, n, a, 0);
    LexTotal(key, Rows(ts[n])[0][..|key|]);
    HasKeyAt(Rows(ts[n]), key, 0);
  }

  /** If the key is anywhere under these children it is under the floor child. */
  lemma FloorChildHasKey(ts: seq<Tree>, key: Bytes, n: int)
    requires Planted(ts, |key|) && KeysAscend(RowsOf(ts), |key|) && IsFloor(ts, key, n)
    requires HasKey(RowsOf(ts), key)
    ensures 0 <= n < |ts| && HasKey(Rows(ts[n]), key)
  {
    hide *;
    var c, a := ChildWithKey(ts, key);
    FirstAtMost(ts, key, c, a);
    NotAfter(ts, key, n, c);
    FloorBegins(ts, key, n);
    if c < n {
      LaterBeginsWithKey(ts, key, c, a, n);
    } else {
      HasKeyAt(Rows(ts[n]), key, a);
    }
  }

  lemma DescendLeaf(h: Hash, data: Bytes, keyWidth: nat, loc: Locator, key: Bytes, page: Bytes)
    requires |key| == keyWidth && ReadPage(h, data, loc, LeafWidth(keyWidth), LEAF_ROWS) == Ok(page)
    ensures var n := FloorRow(page, LeafWidth(keyWidth), key);
      Descend(h, data, keyWidth, loc, 1, key) == Ok(
        if n >= 0 && PageRow(page, LeafWidth(keyWidth), n)[..keyWidth] == key
        then Some(PageRow(page, LeafWidth(keyWidth), n)) else None)
  {
    hide ReadPage, PageRow, FloorRow, RowCount;
  }

  lemma KeyBeforeFloor(rows: seq<Bytes>, key: Bytes, n: int, i: nat)
    requires KeysAscend(rows, |key|) && -1 <= n && i < |rows| && rows[i][..|key|] == key
    requires forall j :: n < j < |rows| ==> !LexLe(rows[j][..|key|], key)
    ensures i <= n
  {
    LexRefl(key);
    hide LexLe;
  }

  lemma FloorHasKey(rows: seq<Bytes>, key: Bytes, n: nat, i: nat)
    requires KeysAscend(rows, |key|) && i <= n < |rows|
    requires rows[i][..|key|] == key && LexLe(rows[n][..|key|], key)
    ensures rows[n][..|key|] == key
  {
    hide LexLe;
    if i < n {
      assert LexLe(rows[i][..|key|], rows[n][..|key|]);
      LexTotal(key, rows[n][..|key|]);
    }
  }

  /** The floor row is the answer if it has the key, and otherwise no row has. */
  lemma FloorAnswers(rows: seq<Bytes>, key: Bytes, n: int)
    requires KeysAscend(rows, |key|) && -1 <= n < |rows|
    requires n >= 0 ==> LexLe(rows[n][..|key|], key)
    requires forall i :: n < i < |rows| ==> !LexLe(rows[i][..|key|], key)
    ensures Answers(rows, key, if n >= 0 && rows[n][..|key|] == key then Some(rows[n]) else None)
  {
    if HasKey(rows, key) {
      var i :| 0 <= i < |rows| && |rows[i]| >= |key| && rows[i][..|key|] == key;
      hide LexLe, KeysAscend;
      KeyBeforeFloor(rows, key, n, i);
      FloorHasKey(rows, key, n, i);
    }
    hide LexLe, KeysAscend;
  }

  lemma LeafAnswer(h: Hash, data: Bytes, keyWidth: nat, loc: Locator, rows: seq<Bytes>, key: Bytes)
    requires |key| == keyWidth && Stored(h, data, loc, Leaf(rows), 1, keyWidth) && KeysAscend(rows, keyWidth)
    ensures Descend(h, data, keyWidth, loc, 1, key).Ok?
      && Answers(rows, key, Descend(h, data, keyWidth, loc, 1, key).value)
  {
    hide Descend, ReadPage, PageRow, FloorRow, RowCount, Join, Holds, LexLe, HasKey, Answers, KeysAscend;
    PageOfRows(h, data, loc, rows, LeafWidth(keyWidth), LEAF_ROWS);
    FloorRowIsLast(Join(rows), LeafWidth(keyWidth), rows, key);
    DescendLeaf(h, data, keyWidth, loc, key, Join(rows));
    FloorAnswers(rows, key, FloorRow(Join(rows), LeafWidth(keyWidth), key));
  }

  lemma DescendInterior(h: Hash, data: Bytes, keyWidth: nat, loc: Locator, level: nat, key: Bytes, page: Bytes)
    requires level > 1 && |key| == keyWidth && ReadPage(h, data, loc, InteriorWidth(keyWidth), FANOUT) == Ok(page)
    ensures var n := FloorRow(page, InteriorWidth(keyWidth), key);
      Descend(h, data, keyWidth, loc, level, key) ==
        if n < 0 then Ok(None)
        else
          var child := GetLocator(PageRow(page, InteriorWidth(keyWidth), n)[keyWidth..]);
          Descend(h, data, keyWidth, child, level - 1, key)
  {
    hide ReadPage, PageRow, FloorRow, RowCount, GetLocator;
  }

  lemma ParentWidths(ts: seq<Tree>, locs: seq<Locator>, keyWidth: nat)
    requires |ts| == |locs| && Planted(ts, keyWidth)
    ensures AllWidth(ParentRows(ts, locs, keyWidth), InteriorWidth(keyWidth))
  {
    hide Rows, PutLocator;
  }

  lemma FloorMoved(ts: seq<Tree>, rows: seq<Bytes>, key: Bytes, n: int)
    requires |rows| == |ts| && Planted(ts, |key|) && -1 <= n < |ts|
    requires AllWidth(rows, InteriorWidth(|key|))
    requires forall i :: 0 <= i < |ts| ==> rows[i][..|key|] == Rows(ts[i])[0][..|key|]
    requires forall i :: 0 <= i <= n ==> LexLe(rows[i][..|key|], key)
    requires forall i :: n < i < |rows| ==> !LexLe(rows[i][..|key|], key)
    ensures IsFloor(ts, key, n)
  {
    hide LexLe, Rows;
    forall i | 0 <= i <= n ensures LexLe(Rows(ts[i])[0][..|key|], key) { assert LexLe(rows[i][..|key|], key); }
    forall i | n < i < |ts| ensures !LexLe(Rows(ts[i])[0][..|key|], key) { assert !LexLe(rows[i][..|key|], key); }
  }

  /** On the page of a node's parent rows, floorRow finds the floor child and its
      locator. */
  lemma FloorOfParents(ts: seq<Tree>, locs: seq<Locator>, page: Bytes, key: Bytes)
    requires |ts| == |locs| && Planted(ts, |key|) && KeysAscend(RowsOf(ts), |key|)
    requires RowCount(page, InteriorWidth(|key|)) == |ts|
    requires forall i :: 0 <= i < |ts| ==>
      PageRow(page, InteriorWidth(|key|), i) == ParentRows(ts, locs, |key|)[i]
    ensures var n := FloorRow(page, InteriorWidth(|key|), key);
      && IsFloor(ts, key, n) && -1 <= n < |ts|
      && (n >= 0 ==> PageRow(page, InteriorWidth(|key|), n)[|key|..] == PutLocator(locs[n]))
  {
    ParentKeysAscend(ts, locs, |key|);
    var rows, n := ParentRows(ts, locs, |key|), FloorRow(page, InteriorWidth(|key|), key);
    hide Rows, RowsOf, ParentRows, KeysAscend, LexLe, AllWidth, PageRow, RowCount, FloorRow, PutLocator, IsFloor;
    FloorRowIsLast(page, InteriorWidth(|key|), rows, key);
    FloorMoved(ts, rows, key, n);
  }

  lemma InteriorFloor(h: Hash, data: Bytes, keyWidth: nat, loc: Locator, t: Tree, level: nat, key: Bytes)
    returns (n: int)
    requires level > 1 && |key| == keyWidth && t.Node?
    requires Stored(h, data, loc, t, level, keyWidth) && KeysAscend(Rows(t), keyWidth)
    ensures Planted(t.children, keyWidth) && IsFloor(t.children, key, n) && -1 <= n < |t.children|
    ensures n < 0 ==> Descend(h, data, keyWidth, loc, level, key) == Ok(None)
    ensures n >= 0 ==>
      Descend(h, data, keyWidth, loc, level, key) == Descend(h, data, keyWidth, t.locs[n], level - 1, key)
  {
    var rows := ParentRows(t.children, t.locs, keyWidth);
    StoredPlanted(h, data, loc, t, level, keyWidth);
    ParentWidths(t.children, t.locs, keyWidth);
    PageOfRows(h, data, loc, rows, InteriorWidth(keyWidth), FANOUT);
    FloorOfParents(t.children, t.locs, Join(rows), key);
    DescendInterior(h, data, keyWidth, loc, level, key, Join(rows));
    n := FloorRow(Join(rows), InteriorWidth(keyWidth), key);
    if n >= 0 {
      assert Fits(t.locs[n]);
      hide *;
      LocatorAlone(t.locs[n]);
    }
  }

  /** A descent over a stored tree with ascending keys always reaches its answer,
      and never leaves the tree: below the root there is always a floor row. */
  lemma {:induction false} DescentAnswers(h: Hash, data: Bytes, keyWidth: nat, loc: Locator, t: Tree, level: nat,
          key: Bytes)
    requires level >= 1 && |key| == keyWidth
    requires Stored(h, data, loc, t, level, keyWidth) && KeysAscend(Rows(t), keyWidth)
    ensures Descend(h, data, keyWidth, loc, level, key).Ok?
    ensures Answers(Rows(t), key, Descend(h, data, keyWidth, loc, level, key).value)
    decreases level
  {
    match t
    case Leaf(rows) => LeafAnswer(h, data, keyWidth, loc, rows, key);
    case Node(children, locs) =>
      var n := InteriorFloor(h, data, keyWidth, loc, t, level, key);
      hide Descend, Holds, Join, ParentRows, LexLe, RowsOf, HasKey, IsFloor;
      if n >= 0 {
        ChildAscends(children, keyWidth, n);
        DescentAnswers(h, data, keyWidth, locs[n], children[n], level - 1, key);
        ChildRun(children, n);
        HasKeyPart(RowsOf(children[..n]), Rows(children[n]), RowsOf(children[n + 1..]), key);
      }
      if HasKey(RowsOf(children), key) { FloorChildHasKey(children, key, n); }
  }

  // ---------- The walk ----------

  /** A visitor folded over rows in order. */
  ghost function FoldRows<A>(keyWidth: nat, rows: seq<Bytes>, visit: Visit<A>, acc: A): Result<A>
    requires AllWidth(rows, LeafWidth(keyWidth))
  {
    if rows == [] then Ok(acc)
    else
      var acc' :- VisitRow(keyWidth, rows[0], visit, acc);
      FoldRows(keyWidth, rows[1..], visit, acc')
  }

  lemma FoldNone<A>(keyWidth: nat, visit: Visit<A>, acc: A)
    ensures FoldRows(keyWidth, [], visit, acc) == Ok(acc)
  {
  }

  lemma {:induction false} FoldSplit<A>(keyWidth: nat, a: seq<Bytes>, b: seq<Bytes>, visit: Visit<A>, acc: A)
    requires AllWidth(a, LeafWidth(keyWidth)) && AllWidth(b, LeafWidth(keyWidth))
    ensures FoldRows(keyWidth, a + b, visit, acc) ==
      match FoldRows(keyWidth, a, visit,
        acc) { case Err(e) => Err(e) case Ok(acc') => FoldRows(keyWidth, b, visit, acc') }
    decreases |a|
  {
    hide BlocksIn, TrimNul;
    if a == [] {
      assert a + b == b;
    } else {
      assert (a + b)[0] == a[0] && (a + b)[1..] == a[1..] + b;
      var step := VisitRow(keyWidth, a[0], visit, acc);
      if step.Ok? { FoldSplit(keyWidth, a[1..], b, visit, step.value); }
    }
  }

  lemma {:induction false} WalkLeafFolds<A>(keyWidth: nat, page: Bytes, rows: seq<Bytes>, i: nat, visit: Visit<A>,
          acc: A)
    requires RowCount(page, LeafWidth(keyWidth)) == |rows| && i <= |rows| && AllWidth(rows, LeafWidth(keyWidth))
    requires forall j :: 0 <= j < |rows| ==> PageRow(page, LeafWidth(keyWidth), j) == rows[j]
    ensures WalkLeaf(keyWidth, page, i, visit, acc) == FoldRows(keyWidth, rows[i..], visit, acc)
    decreases |rows| - i
  {
    hide BlocksIn, TrimNul, RowCount, PageRow;
    if i < |rows| {
      assert rows[i..][0] == rows[i] && rows[i..][1..] == rows[i + 1..];
      var step := VisitRow(keyWidth, rows[i], visit, acc);
      if step.Ok? { WalkLeafFolds(keyWidth, page, rows, i + 1, visit, step.value); }
    }
  }

  lemma WalkOneLeaf<A>(h: Hash, data: Bytes, keyWidth: nat, loc: Locator, page: Bytes, visit: Visit<A>, acc: A)
    requires ReadPage(h, data, loc, LeafWidth(keyWidth), LEAF_ROWS) == Ok(page)
    ensures Walk(h, data, keyWidth, loc, 1, visit, acc) == WalkLeaf(keyWidth, page, 0, visit, acc)
  {
    hide ReadPage, WalkLeaf, RowCount;
  }

  lemma WalkOneNode<A>(h: Hash, data: Bytes, keyWidth: nat, loc: Locator, level: nat, page: Bytes, visit: Visit<A>,
          acc: A)
    requires level > 1 && ReadPage(h, data, loc, InteriorWidth(keyWidth), FANOUT) == Ok(page)
    ensures Walk(h, data, keyWidth, loc, level, visit, acc)
      == WalkChildren(h, data, keyWidth, page, level - 1, 0, visit, acc)
  {
    hide ReadPage, WalkChildren, RowCount;
  }

  /** A page of parent rows leads back to the locators it was made of. */
  lemma ParentPage(h: Hash, data: Bytes, loc: Locator, ts: seq<Tree>, locs: seq<Locator>, keyWidth: nat)
    requires 1 <= |ts| <= FANOUT && |ts| == |locs| && Planted(ts, keyWidth)
    requires forall i :: 0 <= i < |locs| ==> Fits(locs[i])
    requires Holds(h, data, loc, Join(ParentRows(ts, locs, keyWidth)))
    ensures var page := Join(ParentRows(ts, locs, keyWidth));
      && ReadPage(h, data, loc, InteriorWidth(keyWidth), FANOUT) == Ok(page)
      && RowCount(page, InteriorWidth(keyWidth)) == |ts|
      && forall i :: 0 <= i < |ts| ==> GetLocator(PageRow(page, InteriorWidth(keyWidth), i)[keyWidth..]) == locs[i]
  {
    var rows := ParentRows(ts, locs, keyWidth);
    PageOfRows(h, data, loc, rows, InteriorWidth(keyWidth), FANOUT);
    forall i | 0 <= i < |ts| ensures GetLocator(rows[i][keyWidth..]) == locs[i] {
      assert rows[i][keyWidth..] == PutLocator(locs[i]);
      LocatorAlone(locs[i]);
    }
  }

  /** Walking a stored tree visits exactly its leaves, in order. */
  lemma {:induction false} WalkFolds<A>(h: Hash, data: Bytes, keyWidth: nat, loc: Locator, t: Tree, level: nat,
          visit: Visit<A>, acc: A)
    requires level >= 1 && Stored(h, data, loc, t, level, keyWidth)
    ensures AllWidth(Rows(t), LeafWidth(keyWidth))
    ensures Walk(h, data, keyWidth, loc, level, visit, acc) == FoldRows(keyWidth, Rows(t), visit, acc)
    decreases level, 0, 0
  {
    hide Walk, WalkLeaf, WalkChildren, FoldRows, ReadPage, RowCount, PageRow, Holds, Join, ParentRows, GetLocator,
      RowsOf;
    StoredRows(h, data, loc, t, level, keyWidth);
    match t
    case Leaf(rows) =>
      PageOfRows(h, data, loc, rows, LeafWidth(keyWidth), LEAF_ROWS);
      WalkOneLeaf(h, data, keyWidth, loc, Join(rows), visit, acc);
      WalkLeafFolds(keyWidth, Join(rows), rows, 0, visit, acc);
      assert rows[0..] == rows;
    case Node(children, locs) =>
      var page := Join(ParentRows(children, locs, keyWidth));
      StoredPlanted(h, data, loc, t, level, keyWidth);
      ParentPage(h, data, loc, children, locs, keyWidth);
      WalkOneNode(h, data, keyWidth, loc, level, page, visit, acc);
      ChildrenFold(h, data, keyWidth, page, children, locs, level - 1, 0, visit, acc);
      assert children[0..] == children;
  }

  lemma {:induction false} ChildrenFold<A>(h: Hash, data: Bytes, keyWidth: nat, page: Bytes, ts: seq<Tree>,
          locs: seq<Locator>, level: nat, i: nat, visit: Visit<A>, acc: A)
    requires level >= 1 && |locs| == |ts| && i <= |ts| && Planted(ts, keyWidth)
    requires forall j :: 0 <= j < |ts| ==> Stored(h, data, locs[j], ts[j], level, keyWidth)
    requires RowCount(page, InteriorWidth(keyWidth)) == |ts|
    requires forall j :: 0 <= j < |ts| ==> GetLocator(PageRow(page, InteriorWidth(keyWidth), j)[keyWidth..]) == locs[j]
    ensures AllWidth(RowsOf(ts[i..]), LeafWidth(keyWidth))
    ensures WalkChildren(h, data, keyWidth, page, level, i, visit, acc)
      == FoldRows(keyWidth, RowsOf(ts[i..]), visit, acc)
    decreases level, 1, |ts| - i
  {
    hide Stored, Walk, RowCount, PageRow, GetLocator, FoldRows, Rows, AllWidth;
    RowsOfWidth(ts[i..], LeafWidth(keyWidth));
    if i < |ts| {
      assert ts[i..][0] == ts[i] && ts[i..][1..] == ts[i + 1..];
      RowsOfWidth(ts[i + 1..], LeafWidth(keyWidth));
      WalkFolds(h, data, keyWidth, locs[i], ts[i], level, visit, acc);
      FoldSplit(keyWidth, Rows(ts[i]), RowsOf(ts[i + 1..]), visit, acc);
      var step := Walk(h, data, keyWidth, locs[i], level, visit, acc);
      if step.Ok? { ChildrenFold(h, data, keyWidth, page, ts, locs, level, i + 1, visit, step.value); }
    } else {
      FoldNone(keyWidth, visit, acc);
      assert ts[i..] == [];
    }
  }
}
