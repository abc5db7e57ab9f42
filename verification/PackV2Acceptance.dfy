/** Which corpora BuildPackV2 builds, and how large the file gets, said of the
    corpus alone. */
module PackV2Acceptance {
  import opened ByteStrings
  import opened Sorting
  import opened Gob
  import opened Corpora
  import opened PackTypes
  import opened PackV2Manifest
  import opened PackV2Writer
  import opened PackV2Height
  import opened PackV2Capacity

  predicate KeyPath(p: Bytes) { |p| <= 4096 && NulFree(p) }

  ghost predicate KeyPaths(paths: seq<Bytes>) {
    forall p <- paths :: KeyPath(p)
  }

  /** The block section k would hold for a path. */
  function BlockOf(codec: Codec, c: Corpus, k: nat, p: Bytes): Bytes
    requires k < 4
  {
    ValueMessage(codec.layouts(KINDS[k]), SectionValue(k, RecordAt(c, p)))
  }

  /** Section k's type definitions and every block of it fit in 16 MiB. */
  ghost predicate SectionFits(codec: Codec, c: Corpus, k: nat)
    requires k < 4
  {
    && |EncodeAlone(codec, SectionValue(k, PRIMER))| <= 0x100_0000
    && forall p <- c.paths :: |BlockOf(codec, c, k, p)| <= 0x100_0000
  }

  ghost predicate Acceptable(codec: Codec, c: Corpus) {
    && c.paths != [] && KeyPaths(c.paths)
    && (forall k :: 0 <= k < 4 ==> SectionFits(codec, c, k))
    && |EncodeAlone(codec, Texts(c.vocabulary))| <= 0x100_0000
  }

  // ---------- Keys ----------

  lemma SortedKeysAccepts(c: Corpus)
    ensures SortedKeys(c).Ok? <==> c.paths != [] && KeyPaths(c.paths)
    ensures SortedKeys(c).Err? ==> SortedKeys(c).error == Malformed
  {
    SortMembers(c.paths);
    hide SortPaths;
    var sorted := SortPaths(c.paths);
    assert KeyPaths(c.paths) <==> forall p <- sorted :: KeyPath(p);
    if MaxLength(sorted) > MAX_KEY_WIDTH {
      var p :| p in sorted && |p| == MaxLength(sorted);
      assert !KeyPath(p);
    }
  }

  // ---------- Sections ----------

  /** What a section's encoder writes: its type definitions with the primer, then
      each path's own block. */
  lemma PayloadsAre(codec: Codec, c: Corpus, paths: seq<Bytes>, k: nat)
    requires k < 4
    ensures var ps := SectionPayloads(codec, c, paths, k);
      && ps[0] == EncodeAlone(codec, SectionValue(k, PRIMER))
      && forall i :: 0 <= i < |paths| ==> ps[1 + i] == BlockOf(codec, c, k, paths[i])
  {
    var layout, vs := codec.layouts(KINDS[k]), [SectionValue(k, PRIMER)] + SectionValues(k, c, paths);
    var ps := SectionPayloads(codec, c, paths, k);
    assert vs[1..] == SectionValues(k, c, paths);
    forall i | 0 <= i < |paths| ensures ps[1 + i] == BlockOf(codec, c, k, paths[i]) {
      SectionValuesAt(k, c, paths, i);
      EncodeRunSent(Encoder(layout, true), vs[1..], i);
    }
  }

  lemma SectionFitsSmall(codec: Codec, c: Corpus, k: nat)
    requires k < 4
    ensures SectionFits(codec, c, k) <==> Small(SectionPayloads(codec, c, SortPaths(c.paths), k))
  {
    var paths := SortPaths(c.paths);
    var ps := SectionPayloads(codec, c, paths, k);
    PayloadsAre(codec, c, paths, k);
    SortMembers(c.paths);
    hide SortPaths, SectionPayloads, EncodeAlone, BlockOf, SectionValue;
    if Small(ps) {
      forall p | p in c.paths ensures |BlockOf(codec, c, k, p)| <= MAX_BLOCK_BYTES {
        assert p in paths;
        var i :| 0 <= i < |paths| && paths[i] == p;
        assert |ps[1 + i]| <= MAX_BLOCK_BYTES;
      }
    }
    if SectionFits(codec, c, k) {
      forall i | 0 <= i < |ps| ensures |ps[i]| <= MAX_BLOCK_BYTES {
        if i > 0 { assert paths[i - 1] in c.paths && ps[1 + (i - 1)] == ps[i]; }
      }
    }
  }

  // ---------- Sizes, read off the corpus ----------

  /** Bytes of each path's block in section k. */
  function BlockSizes(codec: Codec, c: Corpus, k: nat): Bytes -> nat
    requires k < 4
  {
    p => |BlockOf(codec, c, k, p)|
  }

  /** Bytes of sections k..: type definitions and blocks. */
  function SectionBytes(codec: Codec, c: Corpus, k: nat): nat
    requires k <= 4
    decreases 4 - k
  {
    if k == 4 then 0
    else
      |EncodeAlone(codec, SectionValue(k, PRIMER))| + SumOver(BlockSizes(codec, c, k), c.paths)
      + SectionBytes(codec, c, k + 1)
  }

  lemma NoSections(codec: Codec, c: Corpus)
    ensures SectionBytes(codec, c, 4) == 0
  {
  }

  /** Bytes of the whole data file: the sections, the vocabulary, and a tree with 32
      rows to a leaf page, each a key of the longest path's width and four locators. */
  function FileBytes(codec: Codec, c: Corpus): nat
    requires c.paths != []
  {
    var keyWidth := MaxLength(c.paths);
    SectionBytes(codec, c, 0) + |EncodeAlone(codec, Texts(c.vocabulary))|
    + TreeBytes(|c.paths|, 32, keyWidth + 176, keyWidth)
  }

  lemma {:induction false} BlocksTotal(size: Bytes -> nat, paths: seq<Bytes>, ps: seq<Bytes>)
    requires |ps| == |paths| && forall i :: 0 <= i < |paths| ==> |ps[i]| == size(paths[i])
    ensures Total(ps) == SumOver(size, paths)
  {
    if paths != [] { BlocksTotal(size, paths[1..], ps[1..]); }
  }

  lemma SectionTotal(codec: Codec, c: Corpus, k: nat)
    requires k < 4
    ensures Total(SectionPayloads(codec, c, SortPaths(c.paths), k)) + SectionBytes(codec, c, k + 1)
         == SectionBytes(codec, c, k)
  {
    var paths := SortPaths(c.paths);
    PayloadsAre(codec, c, paths, k);
    SumSorted(BlockSizes(codec, c, k), c.paths);
    hide SortPaths, SectionPayloads, EncodeAlone, BlockOf, SectionValue, SumOver;
    var ps := SectionPayloads(codec, c, paths, k);
    BlocksTotal(BlockSizes(codec, c, k), paths, ps[1..]);
  }

  lemma KeyWidthSorted(paths: seq<Bytes>)
    ensures MaxLength(SortPaths(paths)) == MaxLength(paths)
  {
    SortMembers(paths);
    hide SortPaths, MaxLength;
    var sorted := SortPaths(paths);
    if MaxLength(sorted) > 0 {
      var p :| p in sorted && |p| == MaxLength(sorted);
      assert p in paths;
    }
    if MaxLength(paths) > 0 {
      var p :| p in paths && |p| == MaxLength(paths);
      assert p in sorted;
    }
  }

  // ---------- The whole build ----------

  ghost predicate SectionsFit(codec: Codec, c: Corpus, k: nat)
    requires k <= 4
  {
    forall j :: k <= j < 4 ==> SectionFits(codec, c, j)
  }

  lemma {:induction false} SectionsExact(h: Hash, codec: Codec, data: Bytes, c: Corpus, k: nat)
    requires k <= 4 && |data| < 0x8000_0000_0000_0000
    ensures Writes(WriteSections(h, codec, data, c, SortPaths(c.paths), k), |data|, SectionBytes(codec, c, k),
      SectionsFit(codec, c, k))
    decreases 4 - k
  {
    hide SectionPayloads, PutAll, SortPaths, SectionFits, Small, SectionBytes, Total;
    if k < 4 {
      var ps := SectionPayloads(codec, c, SortPaths(c.paths), k);
      SectionFitsSmall(codec, c, k);
      SectionTotal(codec, c, k);
      PutAllExact(h, data, ps);
      var written := PutAll(h, data, ps);
      if written.Ok? { SectionsExact(h, codec, written.value.0, c, k + 1); }
    } else {
      NoSections(codec, c);
    }
  }

  /** A build succeeds exactly when the corpus is acceptable and its data file stays
      below 2^63 bytes, which it then has exactly. An acceptable corpus is refused
      only for that size, and one that would fit only for what makes it
      unacceptable. */
  lemma BuildSucceedsExactly(h: Hash, codec: Codec, name: Bytes, c: Corpus)
    ensures var r := Build(h, codec, name, c);
      && (r.Ok? <==> Acceptable(codec, c) && FileBytes(codec, c) < 0x8000_0000_0000_0000)
      && (r.Ok? ==> |r.value.1| == FileBytes(codec, c))
      && (r.Err? && Acceptable(codec, c) ==> r.error == WriteFailed)
      && (r.Err? && c.paths != [] && FileBytes(codec, c) < 0x8000_0000_0000_0000 ==> r.error == Malformed)
  {
    hide WriteSections, SortPaths, LeafRows, WriteTree, EncodeAlone, KeyPaths, SectionFits, Put, SectionBytes,
      TreeBytes, MaxLength;
    SortedKeysAccepts(c);
    if SortedKeys(c).Ok? {
      var (paths, keyWidth) := SortedKeys(c).value;
      KeyWidthSorted(c.paths);
      SectionsExact(h, codec, [], c, 0);
      var sections := WriteSections(h, codec, [], c, paths, 0);
      if sections.Ok? {
        var block := EncodeAlone(codec, Texts(c.vocabulary));
        PutExact(h, sections.value.0, block);
        var vocabulary := Put(h, sections.value.0, block);
        if vocabulary.Ok? {
          var rows := LeafRows(paths, keyWidth, sections.value.1, 0);
          LoadExact(h, vocabulary.value.0, rows, LEAF_ROWS, LeafWidth(keyWidth), keyWidth, 1);
        }
      }
    }
  }
}
