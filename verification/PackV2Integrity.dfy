/** Reading with a good manifest over arbitrary data-file bytes: nothing but the
    honest answer or an integrity error can come back. */
module PackV2Integrity {
  import opened ByteStrings
  import opened Gob
  import opened Corpora
  import opened PackTypes
  import opened PackV2Manifest
  import opened PackV2Reader

  lemma VerifiedFaithful(h: Hash, honest: Bytes, data: Bytes, loc: Locator, maxLen: nat)
    requires NoForgedRange(h, honest, data)
    requires ReadVerified(h, honest, loc, maxLen).Ok?
    ensures Faithful(ReadVerified(h, honest, loc, maxLen), ReadVerified(h, data, loc, maxLen), DamageOf(honest, data))
  {
    if honest <= data { RangeKept(honest, data, loc); }
  }

  lemma PageFaithful(h: Hash, honest: Bytes, data: Bytes, loc: Locator, rowWidth: nat, maxRows: nat)
    requires rowWidth > 0 && NoForgedRange(h, honest, data)
    requires ReadPage(h, honest, loc, rowWidth, maxRows).Ok?
    ensures Faithful(ReadPage(h, honest, loc, rowWidth, maxRows), ReadPage(h, data, loc, rowWidth, maxRows),
      DamageOf(honest, data))
  {
    VerifiedFaithful(h, honest, data, loc, rowWidth * maxRows);
  }

  /** Down the verified locators: whatever the data file holds, a descent that the
      honest file answers is answered the same or refused. */
  lemma {:induction false} DescendFaithful(h: Hash, honest: Bytes, data: Bytes, keyWidth: nat, loc: Locator, level: nat,
          key: Bytes)
    requires level >= 1 && |key| == keyWidth && NoForgedRange(h, honest, data)
    requires Descend(h, honest, keyWidth, loc, level, key).Ok?
    ensures Faithful(Descend(h, honest, keyWidth, loc, level, key), Descend(h, data, keyWidth, loc, level, key),
      DamageOf(honest, data))
    decreases level
  {
    if level > 1 {
      PageFaithful(h, honest, data, loc, InteriorWidth(keyWidth), FANOUT);
      hide ReadPage;
      var page := ReadPage(h, honest, loc, InteriorWidth(keyWidth), FANOUT).value;
      var i := FloorRow(page, InteriorWidth(keyWidth), key);
      if i >= 0 {
        DescendFaithful(h, honest, data, keyWidth, GetLocator(PageRow(page, InteriorWidth(keyWidth), i)[keyWidth..]),
          level - 1, key);
      }
    } else {
      PageFaithful(h, honest, data, loc, LeafWidth(keyWidth), LEAF_ROWS);
    }
  }

  /** The visitor of the honest reader and of the other one agree, or the other
      one refuses, wherever the honest one goes on. */
  ghost predicate VisitsAgree<A(!new)>(honest: Visit<A>, visit: Visit<A>, damage: Damage) {
    forall acc: A, path: Bytes, b: Blocks ::
      honest(acc, path, b).Ok? ==> Faithful(honest(acc, path, b), visit(acc, path, b), damage)
  }

  lemma {:induction false} LeafFaithful<A(!new)>(keyWidth: nat, page: Bytes, i: nat, v: Visit<A>, v': Visit<A>,
          damage: Damage, acc: A)
    requires VisitsAgree(v, v', damage) && i <= RowCount(page, LeafWidth(keyWidth))
    requires WalkLeaf(keyWidth, page, i, v, acc).Ok?
    ensures Faithful(WalkLeaf(keyWidth, page, i, v, acc), WalkLeaf(keyWidth, page, i, v', acc), damage)
    decreases RowCount(page, LeafWidth(keyWidth)) - i
  {
    hide RowCount, PageRow, BlocksIn, TrimNul;
    if i < RowCount(page, LeafWidth(keyWidth)) {
      var row := PageRow(page, LeafWidth(keyWidth), i);
      LeafFaithful(keyWidth, page, i + 1, v, v', damage, VisitRow(keyWidth, row, v, acc).value);
    }
  }

  lemma {:induction false} WalkFaithful<A(!new)>(h: Hash, honest: Bytes, data: Bytes, keyWidth: nat, loc: Locator,
          level: nat, v: Visit<A>, v': Visit<A>, acc: A)
    requires level >= 1 && NoForgedRange(h, honest, data) && VisitsAgree(v, v', DamageOf(honest, data))
    requires Walk(h, honest, keyWidth, loc, level, v, acc).Ok?
    ensures Faithful(Walk(h, honest, keyWidth, loc, level, v, acc), Walk(h, data, keyWidth, loc, level, v', acc),
      DamageOf(honest, data))
    decreases level, 0, 0
  {
    hide ReadPage, RowCount, NoForgedRange, VisitsAgree;
    if level == 1 {
      PageFaithful(h, honest, data, loc, LeafWidth(keyWidth), LEAF_ROWS);
      LeafFaithful(keyWidth, ReadPage(h, honest, loc, LeafWidth(keyWidth), LEAF_ROWS).value, 0, v, v',
        DamageOf(honest, data), acc);
    } else {
      PageFaithful(h, honest, data, loc, InteriorWidth(keyWidth), FANOUT);
      ChildrenFaithful(h, honest, data, keyWidth, ReadPage(h, honest, loc, InteriorWidth(keyWidth), FANOUT).value,
        level - 1, 0, v, v', acc);
    }
  }

  lemma {:induction false} ChildrenFaithful<A(!new)>(h: Hash, honest: Bytes, data: Bytes, keyWidth: nat, page: Bytes,
          level: nat, i: nat, v: Visit<A>, v': Visit<A>, acc: A)
    requires level >= 1 && i <= RowCount(page, InteriorWidth(keyWidth)) && NoForgedRange(h, honest, data)
      && VisitsAgree(v, v', DamageOf(honest, data))
    requires WalkChildren(h, honest, keyWidth, page, level, i, v, acc).Ok?
    ensures Faithful(WalkChildren(h, honest, keyWidth, page, level, i, v, acc),
      WalkChildren(h, data, keyWidth, page, level, i, v', acc), DamageOf(honest, data))
    decreases level, 1, RowCount(page, InteriorWidth(keyWidth)) - i
  {
    hide Walk, RowCount, PageRow, NoForgedRange, VisitsAgree;
    if i < RowCount(page, InteriorWidth(keyWidth)) {
      var loc := GetLocator(PageRow(page, InteriorWidth(keyWidth), i)[keyWidth..]);
      WalkFaithful(h, honest, data, keyWidth, loc, level, v, v', acc);
      ChildrenFaithful(h, honest, data, keyWidth, page, level, i + 1, v, v',
        Walk(h, honest, keyWidth, loc, level, v, acc).value);
    }
  }

  lemma {:induction false} DescriptorsFaithful(h: Hash, honest: Bytes, data: Bytes, locs: seq<Locator>)
    requires NoForgedRange(h, honest, data) && ReadDescriptors(h, honest, locs).Ok?
    ensures Faithful(ReadDescriptors(h, honest, locs), ReadDescriptors(h, data, locs), DamageOf(honest, data))
  {
    if locs != [] {
      VerifiedFaithful(h, honest, data, locs[0], MAX_BLOCK_BYTES);
      DescriptorsFaithful(h, honest, data, locs[1..]);
    }
  }

  lemma SectionFaithful(h: Hash, codec: Codec, r: Reader, data: Bytes, k: nat, loc: Locator)
    requires Opened(r) && k < SECTION_COUNT && NoForgedRange(h, r.data, data)
    requires ReadSection(h, codec, r, k, loc).Ok?
    ensures Faithful(ReadSection(h, codec, r, k, loc), ReadSection(h, codec, r.(data := data), k, loc),
      DamageOf(r.data, data))
  {
    VerifiedFaithful(h, r.data, data, loc, MAX_BLOCK_BYTES);
  }

  lemma RecordFaithful(h: Hash, codec: Codec, r: Reader, data: Bytes, path: Bytes, b: Blocks)
    requires Opened(r) && NoForgedRange(h, r.data, data)
    requires ReadRecord(h, codec, r, path, b).Ok?
    ensures Faithful(ReadRecord(h, codec, r, path, b), ReadRecord(h, codec, r.(data := data), path, b),
      DamageOf(r.data, data))
  {
    SectionFaithful(h, codec, r, data, 0, b.meta);
    SectionFaithful(h, codec, r, data, 1, b.symbols);
    SectionFaithful(h, codec, r, data, 2, b.imports);
    SectionFaithful(h, codec, r, data, 3, b.markers);
    hide ReadSection, NoForgedRange;
  }

  lemma WholeVisitsAgree(h: Hash, codec: Codec, r: Reader, data: Bytes)
    requires Opened(r) && NoForgedRange(h, r.data, data)
    ensures VisitsAgree(VisitWhole(h, codec, r), VisitWhole(h, codec, r.(data := data)), DamageOf(r.data, data))
  {
    forall acc: (map<Bytes, Record>, seq<Bytes>), path: Bytes, b: Blocks | VisitWhole(h, codec, r)(acc, path, b).Ok?
      ensures Faithful(VisitWhole(h, codec, r)(acc, path, b), VisitWhole(h, codec, r.(data := data))(acc, path, b),
        DamageOf(r.data, data))
    {
      RecordFaithful(h, codec, r, data, path, b);
    }
  }

  lemma ImportVisitsAgree(h: Hash, codec: Codec, r: Reader, data: Bytes)
    requires Opened(r) && NoForgedRange(h, r.data, data)
    ensures VisitsAgree(VisitImports(h, codec, r), VisitImports(h, codec, r.(data := data)), DamageOf(r.data, data))
  {
    forall acc: map<Bytes, seq<Bytes>>, path: Bytes, b: Blocks | VisitImports(h, codec, r)(acc, path, b).Ok?
      ensures Faithful(VisitImports(h, codec, r)(acc, path, b), VisitImports(h, codec, r.(data := data))(acc, path, b),
        DamageOf(r.data, data))
    {
      SectionFaithful(h, codec, r, data, 2, b.imports);
    }
  }

  // ---------- Whole operations, from a verified manifest on ----------

  function PathFrom(h: Hash, codec: Codec, m: Manifest, data: Bytes, target: Bytes): Result<Record>
    requires |m.descriptors| == SECTION_COUNT && m.height >= 1
  {
    var r :- OpenData(h, m, Some(data));
    ReadOnePath(h, codec, r, target)
  }

  function TableFrom(h: Hash, codec: Codec, m: Manifest, data: Bytes): Result<map<Bytes, seq<Bytes>>>
    requires |m.descriptors| == SECTION_COUNT && m.height >= 1
  {
    var r :- OpenData(h, m, Some(data));
    ReadOneTable(h, codec, r)
  }

  function WholeFrom(h: Hash, codec: Codec, m: Manifest, data: Bytes): Result<Corpus>
    requires |m.descriptors| == SECTION_COUNT && m.height >= 1
  {
    var r :- OpenData(h, m, Some(data));
    ReadWhole(h, codec, r)
  }

  lemma OpenFaithful(h: Hash, m: Manifest, honest: Bytes, data: Bytes)
    requires |m.descriptors| == SECTION_COUNT && m.height >= 1
    requires NoForgedRange(h, honest, data) && OpenData(h, m, Some(honest)).Ok?
    ensures var r := OpenData(h, m, Some(data));
      Faithful(Ok(OpenData(h, m, Some(honest)).value.(data := data)), r, DamageOf(honest, data))
  {
    DescriptorsFaithful(h, honest, data, m.descriptors);
  }

  lemma RecordNotMissing(h: Hash, codec: Codec, r: Reader, path: Bytes, b: Blocks)
    requires Opened(r)
    ensures ReadRecord(h, codec, r, path, b) != Err(PathNotFound)
  {
  }

  lemma {:induction false} DescendNotMissing(h: Hash, data: Bytes, keyWidth: nat, loc: Locator, level: nat, key: Bytes)
    requires level >= 1 && |key| == keyWidth
    ensures Descend(h, data, keyWidth, loc, level, key) != Err(PathNotFound)
    decreases level
  {
    if level > 1 {
      var page := ReadPage(h, data, loc, InteriorWidth(keyWidth), FANOUT);
      if page.Ok? {
        var i := FloorRow(page.value, InteriorWidth(keyWidth), key);
        if i >= 0 {
          DescendNotMissing(h, data, keyWidth, GetLocator(PageRow(page.value, InteriorWidth(keyWidth), i)[keyWidth..]),
            level - 1, key);
        }
      }
    }
  }

  lemma DescentSettled(h: Hash, codec: Codec, r: Reader, target: Bytes)
    requires Opened(r) && |target| <= r.manifest.keyWidth && NulFree(target)
    requires var p := ReadOnePath(h, codec, r, target); p.Ok? || p == Err(PathNotFound)
    ensures Descend(h, r.data, r.manifest.keyWidth, r.manifest.root, r.manifest.height,
      Pad(target, r.manifest.keyWidth)).Ok?
  {
    DescendNotMissing(h, r.data, r.manifest.keyWidth, r.manifest.root, r.manifest.height,
      Pad(target, r.manifest.keyWidth));
    hide Descend;
  }

  /** A one-path read over altered data: the honest record, the honest "not found",
      or an integrity error. */
  lemma PathIntegrity(h: Hash, codec: Codec, m: Manifest, honest: Bytes, data: Bytes, target: Bytes)
    requires |m.descriptors| == SECTION_COUNT && m.height >= 1 && NoForgedRange(h, honest, data)
    requires var r := PathFrom(h, codec, m, honest, target); r.Ok? || r == Err(PathNotFound)
    ensures Faithful(PathFrom(h, codec, m, honest, target), PathFrom(h, codec, m, data, target), DamageOf(honest, data))
  {
    OpenFaithful(h, m, honest, data);
    hide ReadDescriptors, NoForgedRange;
    var r := OpenData(h, m, Some(honest)).value;
    if |target| <= m.keyWidth && NulFree(target) {
      assert Descend(h, honest, m.keyWidth, m.root, m.height, Pad(target, m.keyWidth)).Ok? by {
        DescentSettled(h, codec, r, target);
      }
      DescendFaithful(h, honest, data, m.keyWidth, m.root, m.height, Pad(target, m.keyWidth));
    }
    hide Descend;
    var row := Lookup(h, honest, m, target);
    if row.Ok? && row.value.Some? {
      RecordNotMissing(h, codec, r, target, BlocksIn(row.value.value, m.keyWidth));
      if ReadRecord(h, codec, r, target, BlocksIn(row.value.value, m.keyWidth)).Ok? {
        RecordFaithful(h, codec, r, data, target, BlocksIn(row.value.value, m.keyWidth));
      }
    }
  }

  lemma TableIntegrity(h: Hash, codec: Codec, m: Manifest, honest: Bytes, data: Bytes)
    requires |m.descriptors| == SECTION_COUNT && m.height >= 1 && NoForgedRange(h, honest, data)
    requires TableFrom(h, codec, m, honest).Ok?
    ensures Faithful(TableFrom(h, codec, m, honest), TableFrom(h, codec, m, data), DamageOf(honest, data))
  {
    OpenFaithful(h, m, honest, data);
    hide ReadDescriptors, NoForgedRange;
    var r := OpenData(h, m, Some(honest)).value;
    ImportVisitsAgree(h, codec, r, data);
    WalkFaithful(h, honest, data, m.keyWidth, m.root, m.height, VisitImports(h, codec, r),
      VisitImports(h, codec, r.(data := data)), map[]);
    hide Walk, VisitImports;
  }

  lemma WholeIntegrity(h: Hash, codec: Codec, m: Manifest, honest: Bytes, data: Bytes)
    requires |m.descriptors| == SECTION_COUNT && m.height >= 1 && NoForgedRange(h, honest, data)
    requires WholeFrom(h, codec, m, honest).Ok?
    ensures Faithful(WholeFrom(h, codec, m, honest), WholeFrom(h, codec, m, data), DamageOf(honest, data))
  {
    OpenFaithful(h, m, honest, data);
    var r := OpenData(h, m, Some(honest)).value;
    VerifiedFaithful(h, honest, data, m.vocabulary, MAX_BLOCK_BYTES);
    hide ReadDescriptors, NoForgedRange;
    WholeVisitsAgree(h, codec, r, data);
    WalkFaithful(h, honest, data, m.keyWidth, m.root, m.height, VisitWhole(h, codec, r),
      VisitWhole(h, codec, r.(data := data)), (map[], []));
    hide Walk, VisitWhole;
  }
}
