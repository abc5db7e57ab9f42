/** BuildPackV2: block sections, then a bulk-loaded checksummed tree over the
    sorted path table, then the manifest. */
module PackV2Writer {
  import opened ByteStrings
  import opened Sorting
  import opened Gob
  import opened Corpora
  import opened PackTypes
  import opened PackV2Manifest

  // ---------- What the writer does, as functions ----------

  /** v2Writer.write on a file holding `data`. */
  function Put(h: Hash, data: Bytes, p: Bytes): Result<(Bytes, Locator)> {
    if |p| > MAX_BLOCK_BYTES then Err(Malformed)
    else if |data| + |p| >= MAX_FILE_BYTES then Err(WriteFailed)
    else Ok((data + p, Locator(|data|, |p|, h(p))))
  }

  function PutAll(h: Hash, data: Bytes, ps: seq<Bytes>): (r: Result<(Bytes, seq<Locator>)>)
    ensures r.Ok? ==> |r.value.1| == |ps|
    decreases |ps|
  {
    if ps == [] then Ok((data, []))
    else
      var (data1, loc) :- Put(h, data, ps[0]);
      var (data2, locs) :- PutAll(h, data1, ps[1..]);
      Ok((data2, [loc] + locs))
  }

  /** Pages needed for `count` rows. */
  function PageCount(count: nat, perPage: nat): nat
    requires perPage > 0
  {
    if count == 0 then 0 else 1 + PageCount(count - Min(perPage, count), perPage)
  }

  /** s cut into runs of n, the last one possibly shorter. */
  function Chunks<T>(s: seq<T>, n: nat): (r: seq<seq<T>>)
    requires n > 0
    ensures |r| == PageCount(|s|, n)
    decreases |s|
  {
    if s == [] then [] else [s[..Min(n, |s|)]] + Chunks(s[Min(n, |s|)..], n)
  }

  function JoinEach(groups: seq<seq<Bytes>>): (r: seq<Bytes>)
    ensures |r| == |groups|
  {
    if groups == [] then [] else [Join(groups[0])] + JoinEach(groups[1..])
  }

  ghost predicate KeyedRows(rows: seq<Bytes>, keyWidth: nat) {
    forall i :: 0 <= i < |rows| ==> |rows[i]| >= keyWidth
  }

  ghost predicate KeyedGroups(groups: seq<seq<Bytes>>, keyWidth: nat) {
    forall i :: 0 <= i < |groups| ==> |groups[i]| > 0 && |groups[i][0]| >= keyWidth
  }

  /** One parent row per page: the page's first key and its locator. */
  function Parents(groups: seq<seq<Bytes>>, locs: seq<Locator>, keyWidth: nat): (r: seq<Bytes>)
    requires |groups| == |locs|
    requires KeyedGroups(groups, keyWidth)
    ensures |r| == |groups|
    ensures AllWidth(r, InteriorWidth(keyWidth))
    decreases |groups|
  {
    if groups == [] then []
    else [groups[0][0][..keyWidth] + PutLocator(locs[0])] + Parents(groups[1..], locs[1..], keyWidth)
  }

  lemma {:induction false} ChunksKeyed(rows: seq<Bytes>, n: nat, keyWidth: nat)
    requires n > 0 && KeyedRows(rows, keyWidth)
    ensures KeyedGroups(Chunks(rows, n), keyWidth)
    decreases |rows|
  {
    if rows != [] { ChunksKeyed(rows[Min(n, |rows|)..], n, keyWidth); }
  }

  /** v2Writer.writeLevel. */
  function WriteLevel(h: Hash, data: Bytes, rows: seq<Bytes>, perPage: nat,
          keyWidth: nat): (r: Result<(Bytes, seq<Bytes>)>)
    requires perPage > 0 && KeyedRows(rows, keyWidth)
    ensures r.Ok? ==> |r.value.1| == PageCount(|rows|, perPage) && AllWidth(r.value.1, InteriorWidth(keyWidth))
  {
    var groups := Chunks(rows, perPage);
    ChunksKeyed(rows, perPage, keyWidth);
    var (data', locs) :- PutAll(h, data, JoinEach(groups));
    Ok((data', Parents(groups, locs, keyWidth)))
  }

  lemma {:induction false} FewerPages(count: nat, perPage: nat)
    requires perPage >= 2 && count > 0
    ensures 1 <= PageCount(count, perPage) <= count
    ensures count > 1 ==> PageCount(count, perPage) < count
    decreases count
  {
    if count > perPage { FewerPages(count - perPage, perPage); }
  }

  /** v2Writer.writeTree from the level that is `height` up, rows going
      `perPage` to a page. */
  function WriteTree(h: Hash, data: Bytes, rows: seq<Bytes>, perPage: nat, keyWidth: nat,
          height: nat): (r: Result<(Bytes, Locator, nat)>)
    requires perPage >= 2 && rows != [] && KeyedRows(rows, keyWidth)
    decreases |rows|
  {
    var (data', parents) :- WriteLevel(h, data, rows, perPage, keyWidth);
    FewerPages(|rows|, perPage);
    if |parents| == 1 then Ok((data', GetLocator(parents[0][keyWidth..]), height))
    else WriteTree(h, data', parents, FANOUT, keyWidth, height + 1)
  }

  function MaxLength(paths: seq<Bytes>): (w: nat)
    ensures forall p <- paths :: |p| <= w
    ensures w == 0 || exists p <- paths :: |p| == w
  {
    if paths == [] then 0
    else
      var w := MaxLength(paths[1..]);
      assert forall p <- paths :: p == paths[0] || p in paths[1..];
      if w > |paths[0]| then w else |paths[0]|
  }

  /** v2SortedKeys. */
  function SortedKeys(c: Corpus): Result<(seq<Bytes>, nat)> {
    if c.paths == [] then Err(Malformed)
    else
      var sorted := SortPaths(c.paths);
      var width := MaxLength(sorted);
      if width > MAX_KEY_WIDTH then Err(Malformed)
      else if exists p <- sorted :: !NulFree(p) then Err(Malformed)
      else Ok((sorted, width))
  }

  /** Everything section k's encoder writes: the descriptor, then one block per
      path. */
  function SectionPayloads(codec: Codec, c: Corpus, paths: seq<Bytes>, k: nat): (ps: seq<Bytes>)
    requires k < 4
    ensures |ps| == |paths| + 1
  {
    EncodeRun(Encoder(codec.layouts(KINDS[k]), false), [SectionValue(k, PRIMER)] + SectionValues(k, c, paths))
  }

  /** Sections k.. in order; the result lists each section's locators. */
  function WriteSections(h: Hash, codec: Codec, data: Bytes, c: Corpus, paths: seq<Bytes>,
          k: nat): (r: Result<(Bytes, seq<seq<Locator>>)>)
    requires k <= 4
    ensures r.Ok? ==> |r.value.1| == 4 - k && forall j :: 0 <= j < 4 - k ==> |r.value.1[j]| == |paths| + 1
    decreases 4 - k
  {
    if k == 4 then Ok((data, []))
    else
      var (data1, locs) :- PutAll(h, data, SectionPayloads(codec, c, paths, k));
      var (data2, rest) :- WriteSections(h, codec, data1, c, paths, k + 1);
      Ok((data2, [locs] + rest))
  }

  function LeafRow(path: Bytes, keyWidth: nat, locs: seq<Locator>): (r: Bytes)
    requires |path| <= keyWidth && |locs| == 4
    ensures |r| == LeafWidth(keyWidth)
  {
    Pad(path, keyWidth) + PutLocator(locs[0]) + PutLocator(locs[1]) + PutLocator(locs[2]) + PutLocator(locs[3])
  }

  ghost predicate Sections(sections: seq<seq<Locator>>, count: nat) {
    |sections| == 4 && forall k :: 0 <= k < 4 ==> |sections[k]| == count + 1
  }

  /** The four block locators of path i. */
  function BlocksOf(sections: seq<seq<Locator>>, count: nat, i: nat): (ls: seq<Locator>)
    requires Sections(sections, count) && i < count
    ensures |ls| == 4
  {
    [sections[0][1 + i], sections[1][1 + i], sections[2][1 + i], sections[3][1 + i]]
  }

  ghost predicate Within(paths: seq<Bytes>, keyWidth: nat) {
    forall i :: 0 <= i < |paths| ==> |paths[i]| <= keyWidth
  }

  /** The path table from row i on. */
  function LeafRows(paths: seq<Bytes>, keyWidth: nat, sections: seq<seq<Locator>>, i: nat): (rows: seq<Bytes>)
    requires Sections(sections, |paths|) && i <= |paths|
    requires Within(paths, keyWidth)
    ensures |rows| == |paths| - i
    ensures AllWidth(rows, LeafWidth(keyWidth))
    decreases |paths| - i
  {
    if i == |paths| then []
    else [LeafRow(paths[i], keyWidth, BlocksOf(sections, |paths|, i))] + LeafRows(paths, keyWidth, sections, i + 1)
  }

  lemma {:induction false} LeafRowsAt(paths: seq<Bytes>, keyWidth: nat, sections: seq<seq<Locator>>, i: nat, j: nat)
    requires Sections(sections, |paths|) && i + j < |paths|
    requires Within(paths, keyWidth)
    ensures LeafRows(paths, keyWidth, sections, i)[j]
      == LeafRow(paths[i + j], keyWidth, BlocksOf(sections, |paths|, i + j))
    decreases j
  {
    hide LeafRow, BlocksOf;
    if j > 0 { LeafRowsAt(paths, keyWidth, sections, i + 1, j - 1); }
  }

  /** BuildPackV2: the manifest and the data file it leaves behind, when the
      data file got the name `name`. */
  function Build(h: Hash, codec: Codec, name: Bytes, c: Corpus): (r: Result<(Manifest, Bytes)>)
    ensures r.Ok? ==> |r.value.0.descriptors| == SECTION_COUNT
  {
    var (paths, keyWidth) :- SortedKeys(c);
    var (data1, sections) :- WriteSections(h, codec, [], c, paths, 0);
    var (data2, vocabulary) :- Put(h, data1, EncodeAlone(codec, Texts(c.vocabulary)));
    var rows := LeafRows(paths, keyWidth, sections, 0);
    assert |paths| == |c.paths|;
    var (data3, root, height) :- WriteTree(h, data2, rows, LEAF_ROWS, keyWidth, 1);
    Ok((Manifest(name, keyWidth, height, root, vocabulary,
                 [sections[0][0], sections[1][0], sections[2][0], sections[3][0]]), data3))
  }
}
