/** How tall the bulk-loaded tree gets, and that its pages stay within bounds. */
module PackV2Height {
  import opened ByteStrings
  import opened PackTypes
  import opened PackV2Manifest
  import opened PackV2Writer
  import opened PackV2Tree

  function Pow64(e: nat): (p: nat)
    ensures p >= 1
  {
    if e == 0 then 1 else 64 * Pow64(e - 1)
  }

  /** The most rows a tree of the given height can hold. */
  function Capacity(height: nat): nat
    requires height >= 1
  {
    LEAF_ROWS * Pow64(height - 1)
  }

  /** Levels a load takes from `count` rows at `perPage` to a page. */
  function Levels(count: nat, perPage: nat): (n: nat)
    requires count >= 1 && perPage >= 2
    ensures n >= 1
    decreases count
  {
    FewerPages(count, perPage);
    var pages := PageCount(count, perPage);
    if pages == 1 then 1 else 1 + Levels(pages, FANOUT)
  }

  lemma {:induction false} LoadHeight(h: Hash, data: Bytes, rows: seq<Bytes>, perPage: nat, keyWidth: nat, height: nat)
    requires perPage >= 2 && rows != [] && KeyedRows(rows, keyWidth)
    requires WriteTree(h, data, rows, perPage, keyWidth, height).Ok?
    ensures WriteTree(h, data, rows, perPage, keyWidth, height).value.2 + 1 == height + Levels(|rows|, perPage)
    decreases |rows|
  {
    hide WriteLevel;
    WriteTreeStep(h, data, rows, perPage, keyWidth, height);
    var (data', parents) := WriteLevel(h, data, rows, perPage, keyWidth).value;
    FewerPages(|rows|, perPage);
    if |parents| > 1 { LoadHeight(h, data', parents, FANOUT, keyWidth, height + 1); }
  }

  lemma {:induction false} PageCountBounds(count: nat, perPage: nat)
    requires count >= 1 && perPage >= 1
    ensures var pages := PageCount(count, perPage); pages >= 1 && (pages - 1) * perPage < count <= pages * perPage
    decreases count
  {
    if count > perPage {
      PageCountBounds(count - perPage, perPage);
      var rest := PageCount(count - perPage, perPage);
      assert (rest + 1) * perPage == rest * perPage + perPage;
      assert rest * perPage == (rest - 1) * perPage + perPage;
    }
  }

  lemma Scale(a: nat, b: nat, factor: nat)
    requires a <= b
    ensures a * factor <= b * factor
  {
  }

  lemma {:induction false} LevelsLeast(count: nat, perPage: nat)
    requires count >= 1 && perPage >= 2
    ensures var n := Levels(count, perPage);
      count <= Pow64(n - 1) * perPage && (n > 1 ==> count > Pow64(n - 2) * perPage)
    decreases count
  {
    var pages := PageCount(count, perPage);
    FewerPages(count, perPage);
    PageCountBounds(count, perPage);
    if pages > 1 {
      LevelsLeast(pages, FANOUT);
      var n := Levels(pages, FANOUT);
      assert Pow64(n) == 64 * Pow64(n - 1);
      Scale(pages, Pow64(n), perPage);
      if n > 1 { assert Pow64(n - 1) == 64 * Pow64(n - 2); }
      Scale(Pow64(n - 1), pages - 1, perPage);
    }
  }

  lemma {:induction false} CapacityGrows(a: nat, b: nat)
    requires 1 <= a <= b
    ensures Capacity(a) <= Capacity(b)
    decreases b
  {
    if a < b { CapacityGrows(a, b - 1); }
  }

  lemma LevelsFit(count: nat)
    requires count >= 1
    ensures var n := Levels(count, LEAF_ROWS); count <= Capacity(n) && (n > 1 ==> count > Capacity(n - 1))
  {
    LevelsLeast(count, LEAF_ROWS);
    hide Levels, Pow64;
  }

  /** The height writeTree returns is the least one whose capacity holds the rows. */
  lemma HeightIsLeast(h: Hash, data: Bytes, rows: seq<Bytes>, keyWidth: nat)
    requires rows != [] && KeyedRows(rows, keyWidth)
    requires WriteTree(h, data, rows, LEAF_ROWS, keyWidth, 1).Ok?
    ensures var height := WriteTree(h, data, rows, LEAF_ROWS, keyWidth, 1).value.2;
      && height >= 1 && |rows| <= Capacity(height)
      && forall other: nat :: 1 <= other && |rows| <= Capacity(other) ==> height <= other
  {
    hide WriteTree, Levels, KeyedRows, Capacity;
    LoadHeight(h, data, rows, LEAF_ROWS, keyWidth, 1);
    LevelsFit(|rows|);
    var height := Levels(|rows|, LEAF_ROWS);
    forall other: nat | 1 <= other && |rows| <= Capacity(other) ensures height <= other {
      if other < height { CapacityGrows(other, height - 1); }
    }
  }

  const MAX_PATHS := 0x8000_0000_0000   // 2 to the power 47

  lemma CapacityOfMaxHeight()
    ensures Capacity(MAX_HEIGHT) == MAX_PATHS
  {
    assert Pow64(2) == 64 * 64;
    assert Pow64(4) == 64 * 64 * Pow64(2);
    assert Pow64(6) == 64 * 64 * Pow64(4);
    assert Pow64(7) == 64 * Pow64(6);
  }

  /** The reader's height bound accepts a load exactly up to 2^47 rows. */
  lemma HeightBoundExact(h: Hash, data: Bytes, rows: seq<Bytes>, keyWidth: nat)
    requires rows != [] && KeyedRows(rows, keyWidth)
    requires WriteTree(h, data, rows, LEAF_ROWS, keyWidth, 1).Ok?
    ensures WriteTree(h, data, rows, LEAF_ROWS, keyWidth, 1).value.2 <= MAX_HEIGHT <==> |rows| <= MAX_PATHS
  {
    HeightIsLeast(h, data, rows, keyWidth);
    CapacityOfMaxHeight();
    var height := WriteTree(h, data, rows, LEAF_ROWS, keyWidth, 1).value.2;
    if height <= MAX_HEIGHT { CapacityGrows(height, MAX_HEIGHT); }
  }

  // ---------- Page sizes ----------

  ghost predicate Small(ps: seq<Bytes>) {
    forall i :: 0 <= i < |ps| ==> |ps[i]| <= MAX_BLOCK_BYTES
  }

  lemma PagesSmall(rows: seq<Bytes>, perPage: nat, width: nat)
    requires AllWidth(rows, width)
    requires (perPage == LEAF_ROWS && width <= LeafWidth(MAX_KEY_WIDTH))
      || (perPage == FANOUT && width <= InteriorWidth(MAX_KEY_WIDTH))
    ensures Small(JoinEach(Chunks(rows, perPage)))
  {
    var groups := Chunks(rows, perPage);
    forall i | 0 <= i < |groups| ensures |JoinEach(groups)[i]| <= MAX_BLOCK_BYTES {
      ChunksParts(rows, perPage, width, i);
      JoinEachAt(groups, i);
      JoinLength(groups[i], width);
      Scale(|groups[i]|, perPage, width);
    }
  }
}
