/** Which corpora BuildPack builds: whatever one file can hold. */
module PackV1Capacity {
  import opened ByteStrings
  import opened Sorting
  import opened Gob
  import opened Corpora
  import opened PackTypes
  import opened PackV1

  /** Bytes of each path's block of kind k, which its own encoder writes. */
  function BlockSizes(codec: Codec, c: Corpus, k: nat): Bytes -> nat
    requires k < 4
  {
    p => |EncodeAlone(codec, SectionValue(k, RecordAt(c, p)))|
  }

  /** Bytes of the blocks of kinds k.. */
  function KindBytes(codec: Codec, c: Corpus, k: nat): nat
    requires k <= 4
    decreases 4 - k
  {
    if k == 4 then 0 else SumOver(BlockSizes(codec, c, k), c.paths) + KindBytes(codec, c, k + 1)
  }

  /** Bytes of the whole data file. */
  function FileBytes(codec: Codec, c: Corpus): nat {
    KindBytes(codec, c, 0) + |EncodeAlone(codec, Texts(c.vocabulary))|
  }

  /** The writes behind `r` succeed exactly when all `added` bytes fit below 2^63. */
  ghost predicate Writes<T>(r: Result<(Bytes, T)>, size: nat, added: nat) {
    if size + added < 0x8000_0000_0000_0000 then r.Ok? && |r.value.0| == size + added else r == Err(WriteFailed)
  }

  lemma PutExact(h: Hash, data: Bytes, p: Bytes)
    ensures Writes(Put(h, data, p), |data|, |p|)
  {
  }

  lemma {:induction false} KindExact(h: Hash, codec: Codec, c: Corpus, paths: seq<Bytes>, k: nat, i: nat, data: Bytes)
    requires k < 4 && i <= |paths| && |data| < 0x8000_0000_0000_0000
    ensures Writes(PutKind(h, codec, c, paths, k, i, data), |data|, SumOver(BlockSizes(codec, c, k), paths[i..]))
    decreases |paths| - i
  {
    hide EncodeAlone, SectionValue, RecordAt, Put;
    if i < |paths| {
      var p := EncodeAlone(codec, SectionValue(k, RecordAt(c, paths[i])));
      PutExact(h, data, p);
      assert paths[i..][0] == paths[i] && paths[i..][1..] == paths[i + 1..];
      var first := Put(h, data, p);
      if first.Ok? { KindExact(h, codec, c, paths, k, i + 1, first.value.0); }
    }
  }

  lemma {:induction false} KindsExact(h: Hash, codec: Codec, c: Corpus, k: nat, data: Bytes)
    requires k <= 4 && |data| < 0x8000_0000_0000_0000
    ensures Writes(PutKinds(h, codec, c, SortPaths(c.paths), k, data), |data|, KindBytes(codec, c, k))
    decreases 4 - k
  {
    hide SortPaths, PutKind, SumOver, BlockSizes;
    if k < 4 {
      var paths := SortPaths(c.paths);
      SumSorted(BlockSizes(codec, c, k), c.paths);
      KindExact(h, codec, c, paths, k, 0, data);
      assert paths[0..] == paths;
      var first := PutKind(h, codec, c, paths, k, 0, data);
      if first.Ok? { KindsExact(h, codec, c, k + 1, first.value.0); }
    }
  }

  /** A v1 build succeeds exactly when its data file stays below 2^63 bytes, which it
      then has exactly; otherwise a write fails. */
  lemma V1BuildSucceedsExactly(h: Hash, codec: Codec, name: Bytes, c: Corpus)
    ensures var r := Build(h, codec, name, c);
      if FileBytes(codec, c) < 0x8000_0000_0000_0000 then r.Ok? && |r.value.1| == FileBytes(codec, c)
      else r == Err(WriteFailed)
  {
    hide PutKinds, EncodeAlone, SortPaths, KindBytes, Put;
    KindsExact(h, codec, c, 0, []);
    var kinds := PutKinds(h, codec, c, SortPaths(c.paths), 0, []);
    if kinds.Ok? { PutExact(h, kinds.value.0, EncodeAlone(codec, Texts(c.vocabulary))); }
  }
}
