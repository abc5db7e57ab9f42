/** How many bytes a build writes, and that a write fails exactly for an oversized
    block or a file no offset could address. */
module PackV2Capacity {
  import opened ByteStrings
  import opened PackTypes
  import opened PackV2Manifest
  import opened PackV2Writer
  import opened PackV2Tree
  import opened PackV2Height

  /** The writes behind `r` went to a file of `size` bytes: they succeed exactly when
      every block is `small` and all `added` bytes fit below 2^63, and a failure
      names its cause. */
  ghost predicate Writes<T>(r: Result<(Bytes, T)>, size: nat, added: nat, small: bool) {
    && (r.Ok? <==> small && size + added < 0x8000_0000_0000_0000)
    && (r.Ok? ==> |r.value.0| == size + added)
    && (r.Err? ==> r.error in {Malformed, WriteFailed})
    && (r == Err(Malformed) ==> !small)
    && (r == Err(WriteFailed) ==> size + added >= 0x8000_0000_0000_0000)
  }

  lemma PutExact(h: Hash, data: Bytes, p: Bytes)
    ensures Writes(Put(h, data, p), |data|, |p|, |p| <= MAX_BLOCK_BYTES)
  {
  }

  function Total(ps: seq<Bytes>): nat {
    if ps == [] then 0 else |ps[0]| + Total(ps[1..])
  }

  lemma {:induction false} PutAllExact(h: Hash, data: Bytes, ps: seq<Bytes>)
    requires |data| < 0x8000_0000_0000_0000
    ensures Writes(PutAll(h, data, ps), |data|, Total(ps), Small(ps))
    decreases |ps|
  {
    if ps != [] {
      PutExact(h, data, ps[0]);
      assert Small(ps) <==> |ps[0]| <= MAX_BLOCK_BYTES && Small(ps[1..]) by {
        if |ps[0]| <= MAX_BLOCK_BYTES && Small(ps[1..]) {
          forall i | 0 <= i < |ps| ensures |ps[i]| <= MAX_BLOCK_BYTES {
            if i > 0 { assert ps[i] == ps[1..][i - 1]; }
          }
        }
      }
      hide Small, Put;
      var first := Put(h, data, ps[0]);
      if first.Ok? { PutAllExact(h, first.value.0, ps[1..]); }
    }
  }

  // ---------- The tree ----------

  lemma TotalJoined(group: seq<Bytes>, groups: seq<seq<Bytes>>)
    ensures Total(JoinEach([group] + groups)) == |Join(group)| + Total(JoinEach(groups))
  {
    assert ([group] + groups)[1..] == groups;
  }

  lemma Rest(part: nat, whole: nat, width: nat)
    requires part <= whole
    ensures part * width + (whole - part) * width == whole * width
  {
  }

  lemma TotalOfNone()
    ensures Total(JoinEach([])) == 0
  {
  }

  lemma {:induction false} PagesTotal(rows: seq<Bytes>, perPage: nat, width: nat)
    requires perPage > 0 && AllWidth(rows, width)
    ensures Total(JoinEach(Chunks(rows, perPage))) == |rows| * width
    decreases |rows|
  {
    hide Total, JoinEach, Join;
    if rows == [] {
      assert Chunks(rows, perPage) == [];
      TotalOfNone();
    } else {
      var m := Min(perPage, |rows|);
      JoinLength(rows[..m], width);
      PagesTotal(rows[m..], perPage, width);
      TotalJoined(rows[..m], Chunks(rows[m..], perPage));
      Rest(m, |rows|, width);
    }
  }

  lemma Quotient(a: nat, b: nat, q: nat)
    requires b > 0 && q * b <= a < q * b + b
    ensures a / b == q
  {
    var p := a / b;
    assert p * b <= a < p * b + b;
    if p < q { Scale(p + 1, q, b); }
    if q < p { Scale(q + 1, p, b); }
  }

  lemma PagesRoundedUp(count: nat, perPage: nat)
    requires count >= 1 && perPage >= 1
    ensures PageCount(count, perPage) == (count + perPage - 1) / perPage
  {
    PageCountBounds(count, perPage);
    var pages := PageCount(count, perPage);
    assert pages * perPage <= count + perPage - 1 < pages * perPage + perPage;
    Quotient(count + perPage - 1, perPage, pages);
  }

  /** Bytes of a tree over `count` rows of `width` bytes, `perPage` to a page: this
      level, and above it a level with one row of the interior width per page. */
  function TreeBytes(count: nat, perPage: nat, width: nat, keyWidth: nat): nat
    requires count >= 1 && perPage >= 2
    decreases count
  {
    var pages := (count + perPage - 1) / perPage;
    PagesRoundedUp(count, perPage);
    FewerPages(count, perPage);
    count * width + if pages == 1 then 0 else TreeBytes(pages, 64, keyWidth + 44, keyWidth)
  }

  lemma TreeBytesStep(count: nat, perPage: nat, width: nat, keyWidth: nat)
    requires count >= 1 && perPage >= 2
    ensures var pages := PageCount(count, perPage);
      && 1 <= pages <= count
      && TreeBytes(count, perPage, width, keyWidth)
         == count * width + if pages == 1 then 0 else TreeBytes(pages, FANOUT, InteriorWidth(keyWidth), keyWidth)
  {
    PagesRoundedUp(count, perPage);
    FewerPages(count, perPage);
  }

  /** One level: only the size of the file can stop it. */
  lemma LevelExact(h: Hash, data: Bytes, rows: seq<Bytes>, perPage: nat, width: nat, keyWidth: nat)
    requires |data| < 0x8000_0000_0000_0000
    requires keyWidth <= MAX_KEY_WIDTH && AllWidth(rows, width) && KeyedRows(rows, keyWidth)
    requires (perPage == LEAF_ROWS && width == LeafWidth(keyWidth))
      || (perPage == FANOUT && width == InteriorWidth(keyWidth))
    ensures Writes(WriteLevel(h, data, rows, perPage, keyWidth), |data|, |rows| * width, true)
  {
    PagesSmall(rows, perPage, width);
    PagesTotal(rows, perPage, width);
    PutAllExact(h, data, JoinEach(Chunks(rows, perPage)));
    hide Small, PutAll, Chunks, JoinEach, AllWidth;
  }

  /** A bulk load of rows with keys of at most 4096 bytes succeeds exactly when its
      pages fit the file: the 16 MiB block bound never stops it. */
  lemma {:induction false} LoadExact(h: Hash, data: Bytes, rows: seq<Bytes>, perPage: nat, width: nat, keyWidth: nat,
          height: nat)
    requires |data| < 0x8000_0000_0000_0000
    requires rows != [] && keyWidth <= MAX_KEY_WIDTH && AllWidth(rows, width) && KeyedRows(rows, keyWidth)
    requires (perPage == LEAF_ROWS && width == LeafWidth(keyWidth))
      || (perPage == FANOUT && width == InteriorWidth(keyWidth))
    ensures var r := WriteTree(h, data, rows, perPage, keyWidth, height);
      var size := |data| + TreeBytes(|rows|, perPage, width, keyWidth);
      if size < 0x8000_0000_0000_0000 then r.Ok? && |r.value.0| == size else r == Err(WriteFailed)
    decreases |rows|
  {
    LevelExact(h, data, rows, perPage, width, keyWidth);
    WriteTreeStep(h, data, rows, perPage, keyWidth, height);
    TreeBytesStep(|rows|, perPage, width, keyWidth);
    hide WriteTree, WriteLevel, TreeBytes, PageCount, AllWidth, KeyedRows, LeafWidth;
    var level := WriteLevel(h, data, rows, perPage, keyWidth);
    if level.Ok? && |level.value.1| > 1 {
      LoadExact(h, level.value.0, level.value.1, FANOUT, InteriorWidth(keyWidth), keyWidth, height + 1);
    }
  }
}
