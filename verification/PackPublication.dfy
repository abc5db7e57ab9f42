/** Both packs published by the protocol of Publication: whatever stops, and
    whenever it is opened, a reader serves one whole published corpus. */
module PackPublication {
  import opened ByteStrings
  import opened Gob
  import opened Corpora
  import opened PackTypes
  import opened PackV2Manifest
  import opened PackV2Writer
  import opened PackV2Height
  import opened PackV2Exact
  import opened PackV2Integrity
  import PackV2Acceptance
  import PackV2Reader
  import PackV1
  import PackV1Integrity
  import PackV1Capacity
  import opened Publication
  import opened PublicationProgress

  // ---------- Names ----------

  predicate Digits(d: Bytes) {
    0 < |d| <= 10 && forall i :: 0 <= i < |d| ==> 48 <= d[i] <= 57
  }

  /** os.CreateTemp(dir, "data-*.bin"): the star becomes a decimal number. */
  function TempName(d: Bytes): Bytes {
    [100, 97, 116, 97, 45] + d + [46, 98, 105, 110]
  }

  // "manifest.v2" and "manifest.gob"
  const MANIFEST_V2: Bytes := [109, 97, 110, 105, 102, 101, 115, 116, 46, 118, 50]
  const MANIFEST_V1: Bytes := [109, 97, 110, 105, 102, 101, 115, 116, 46, 103, 111, 98]
  const DOT_TMP: Bytes := [46, 116, 109, 112]

  lemma TempNameValid(d: Bytes)
    requires Digits(d)
    ensures ValidName(TempName(d))
    ensures TempName(d) !in {MANIFEST_V1, MANIFEST_V1 + DOT_TMP, MANIFEST_V2, MANIFEST_V2 + DOT_TMP}
  {
    var name := TempName(d);
    assert name[0] == 100 && (MANIFEST_V1 + DOT_TMP)[0] == 109 && (MANIFEST_V2 + DOT_TMP)[0] == 109;
    assert name[|name| - 1] == 110;
    forall i | 0 <= i < |name| ensures name[i] != SLASH { }
  }

  // ---------- Pack v2 ----------

  function FormatV2(h: Hash): Format {
    Format(MANIFEST_V2, MANIFEST_V2 + DOT_TMP,
           b => match PackV2Reader.OpenManifest(h, Some(b)) case Ok(m) => Some(m.dataFile) case Err(_) => None)
  }

  /** The snapshot BuildPackV2 makes of c in a data file of that name. */
  ghost predicate MadeV2(h: Hash, codec: Codec, c: Corpus, s: Snapshot) {
    && ValidName(s.name) && Build(h, codec, s.name, c).Ok?
    && var (m, data) := Build(h, codec, s.name, c).value;
       s.manifest == EncodeManifest(h, m) && s.data == data
  }

  lemma {:induction false} PutAllLength(h: Hash, data: Bytes, ps: seq<Bytes>)
    requires PutAll(h, data, ps).Ok? && |data| < MAX_FILE_BYTES
    requires forall i :: 0 <= i < |ps| ==> |ps[i]| > 0
    ensures |data| + |ps| <= |PutAll(h, data, ps).value.0| < MAX_FILE_BYTES
    decreases |ps|
  {
    if ps != [] { PutAllLength(h, Put(h, data, ps[0]).value.0, ps[1..]); }
  }

  lemma MessageNotEmpty(l: Layout, v: Value)
    ensures |ValueMessage(l, v)| > 0
  {
  }

  lemma {:induction false} PayloadsNotEmpty(e: Encoder, vs: seq<Value>, i: nat)
    requires i < |vs|
    ensures |EncodeRun(e, vs)[i]| > 0
    decreases i
  {
    hide DefMessages, ValueMessage;
    if i > 0 {
      hide Encode;
      PayloadsNotEmpty(Encode(e, vs[0]).1, vs[1..], i - 1);
    } else {
      assert |ValueMessage(e.layout, vs[0])| > 0 by { MessageNotEmpty(e.layout, vs[0]); }
    }
  }

  lemma FirstSectionLength(h: Hash, codec: Codec, c: Corpus, paths: seq<Bytes>)
    requires WriteSections(h, codec, [], c, paths, 0).Ok?
    ensures |paths| < MAX_FILE_BYTES
  {
    var ps := SectionPayloads(codec, c, paths, 0);
    forall i | 0 <= i < |ps| ensures |ps[i]| > 0 {
      PayloadsNotEmpty(Encoder(codec.layouts(KINDS[0]), false), [SectionValue(0, PRIMER)] + SectionValues(0, c, paths),
        i);
    }
    hide SectionPayloads;
    PutAllLength(h, [], ps);
  }

  lemma CapacityOfEleven()
    ensures Capacity(11) >= MAX_FILE_BYTES
  {
    CapacityOfMaxHeight();
    assert Pow64(8) == 64 * Pow64(7);
    assert Pow64(9) == 64 * Pow64(8);
    assert Pow64(10) == 64 * Pow64(9);
  }

  /** A file system that can hold the data file never sees a tree above 11 levels,
      so the 16-bit height field never wraps. */
  lemma HeightBounded(h: Hash, codec: Codec, name: Bytes, c: Corpus)
    requires Build(h, codec, name, c).Ok?
    ensures Build(h, codec, name, c).value.0.height <= 11 && Build(h, codec, name, c).value.0.keyWidth <= MAX_KEY_WIDTH
  {
    hide WriteSections, EncodeAlone, LeafRows, WriteTree, Put;
    var (paths, keyWidth) := SortedKeys(c).value;
    FirstSectionLength(h, codec, c, paths);
    var (data1, sections) := WriteSections(h, codec, [], c, paths, 0).value;
    var (data2, vocabulary) := Put(h, data1, EncodeAlone(codec, Texts(c.vocabulary))).value;
    HeightIsLeast(h, data2, LeafRows(paths, keyWidth, sections, 0), keyWidth);
    CapacityOfEleven();
  }

  lemma AcceptedIsEncoded(h: Hash, m: Manifest)
    requires |m.descriptors| == SECTION_COUNT && ValidName(m.dataFile) && m.keyWidth < 0x1_0000 && m.height < 0x1_0000
    requires Fits(m.root) && Fits(m.vocabulary) && forall k :: 0 <= k < SECTION_COUNT ==> Fits(m.descriptors[k])
    requires DecodeManifest(h, EncodeManifest(h, m)).Ok?
    ensures DecodeManifest(h, EncodeManifest(h, m)) == Ok(m)
  {
    var b := EncodeManifest(h, m);
    assert b[..MANIFEST_SIZE - 32] == Body(m);
    WideFieldsRoundTrip(m);
  }

  /** Whatever a reader accepts of a built manifest's bytes is that manifest. */
  lemma AcceptedIsBuilt(h: Hash, codec: Codec, c: Corpus, s: Snapshot)
    requires MadeV2(h, codec, c, s) && PackV2Reader.OpenManifest(h, Some(s.manifest)).Ok?
    ensures PackV2Reader.OpenManifest(h, Some(s.manifest)) == Ok(Build(h, codec, s.name, c).value.0)
    ensures Build(h, codec, s.name, c).value.0.dataFile == s.name
  {
    hide Build, EncodeManifest, DecodeManifest, ValidName, Fits;
    BuiltFits(h, codec, s.name, c);
    HeightBounded(h, codec, s.name, c);
    AcceptedIsEncoded(h, Build(h, codec, s.name, c).value.0);
  }

  /** Every completed v2 publication leads readers to its own data file. */
  lemma MadeV2SelfNaming(h: Hash, codec: Codec, c: Corpus, s: Snapshot)
    requires MadeV2(h, codec, c, s)
    ensures SelfNaming(FormatV2(h), s)
  {
    hide Build, EncodeManifest;
    if PackV2Reader.OpenManifest(h, Some(s.manifest)).Ok? { AcceptedIsBuilt(h, codec, c, s); }
  }

  /** Each read of these bytes under this manifest returns what a build of c stored. */
  ghost predicate Serves(h: Hash, codec: Codec, c: Corpus, m: Manifest, data: Bytes)
    requires |m.descriptors| == SECTION_COUNT && m.height >= 1
  {
    && WholeFrom(h, codec, m, data) == Ok(StoredCorpus(c))
    && TableFrom(h, codec, m, data) == Ok(StoredImports(c))
    && forall target :: PathFrom(h, codec, m, data, target) == LookedUp(c, target)
  }

  /** The bytes of a manifest and of a data file together serve the corpus c. */
  ghost predicate ServesV2(h: Hash, codec: Codec, c: Corpus, manifest: Bytes, data: Bytes) {
    && PackV2Reader.OpenManifest(h, Some(manifest)).Ok?
    && Serves(h, codec, c, PackV2Reader.OpenManifest(h, Some(manifest)).value, data)
  }

  lemma BuiltServes(h: Hash, codec: Codec, name: Bytes, c: Corpus)
    requires Lawful(codec) && Build(h, codec, name, c).Ok?
    ensures var (m, data) := Build(h, codec, name, c).value;
      m.height >= 1 && Serves(h, codec, c, m, data)
  {
    hide Lawful, Build, WholeFrom, TableFrom, PathFrom, StoredCorpus, StoredImports, StoredRecord;
    WholeExact(h, codec, name, c);
    OneTableExact(h, codec, name, c);
    var (m, data) := Build(h, codec, name, c).value;
    forall target
      ensures PathFrom(h, codec, m, data, target) == LookedUp(c, target)
    {
      OnePathExact(h, codec, name, c, target);
    }
  }

  lemma MadeV2Serves(h: Hash, codec: Codec, c: Corpus, s: Snapshot)
    requires Lawful(codec) && MadeV2(h, codec, c, s) && PackV2Reader.OpenManifest(h, Some(s.manifest)).Ok?
    ensures ServesV2(h, codec, c, s.manifest, s.data)
  {
    AcceptedIsBuilt(h, codec, c, s);
    BuiltServes(h, codec, s.name, c);
    hide PackV2Reader.OpenManifest, Build, EncodeManifest, Serves;
  }

  ghost predicate AllMadeV2(h: Hash, codec: Codec, events: seq<Event>) {
    forall j :: 0 <= j < |events| && events[j].OpenTmp? ==> exists c :: MadeV2(h, codec, c, events[j].snapshot)
  }

  ghost predicate SeesCorpusV2(h: Hash, codec: Codec, p: Published, r: ReaderState, data: Bytes)
    requires r.HasData?
  {
    && p.snapshot.manifest == r.manifest
    && exists c :: MadeV2(h, codec, c, p.snapshot) && ServesV2(h, codec, c, r.manifest, data)
  }

  /** Over every run of v2 publishes, stopped anywhere, interleaved with any
      readers: an open reader serves exactly the corpus of one completed
      publication, the one whose manifest it opened. */
  lemma V2ReadersServeOnePublication(h: Hash, codec: Codec, s: State, events: seq<Event>, r: nat)
    requires Lawful(codec) && Initial(FormatV2(h), s) && Legal(FormatV2(h), s, events) && AllMadeV2(h, codec, events)
    requires r in Run(FormatV2(h), s, events).readers && Run(FormatV2(h), s, events).readers[r].HasData?
    ensures var end := Run(FormatV2(h), s, events); var reader := end.readers[r];
      && reader.inode in end.fs.inodes
      && (exists i :: 0 <= i < |end.published| &&
            SeesCorpusV2(h, codec, end.published[i], reader, end.fs.inodes[reader.inode]))
  {
    var f := FormatV2(h);
    OpenReadersSeeOnePublication(f, s, events, r);
    AcceptedReaders(f, s, events, r);
    var end := Run(f, s, events);
    var reader := end.readers[r];
    var i :| 0 <= i < |end.published| && Sees(end.published[i].snapshot, reader, end.fs.inodes[reader.inode]);
    PublishedWereBuilt(f, s, events, i);
    hide Run, Legal, Initial, MadeV2, Lawful, ServesV2, PackV2Reader.OpenManifest;
    var j :| 0 <= j < |events| && Finishes(events[j], end.published[i].snapshot);
    var c :| MadeV2(h, codec, c, events[j].snapshot);
    MadeV2Serves(h, codec, c, end.published[i].snapshot);
  }

  /** Corpora whose v2 builds readers open. */
  ghost predicate Openable(c: Corpus) {
    |c.paths| <= 0x8000_0000_0000 && exists p :: p in c.paths && p != []
  }

  /** Where a built v2 manifest leads its readers. */
  lemma MadeV2Leads(h: Hash, codec: Codec, c: Corpus, s: Snapshot)
    requires MadeV2(h, codec, c, s)
    ensures FormatV2(h).dataFile(s.manifest) == if Openable(c) then Some(s.name) else None
  {
    OpensExactly(h, codec, s.name, c);
    BuiltFits(h, codec, s.name, c);
    hide Build, EncodeManifest, PackV2Reader.OpenManifest, Fits, ValidName;
    if PackV2Reader.OpenManifest(h, Some(s.manifest)).Ok? { AcceptedIsBuilt(h, codec, c, s); }
  }

  lemma Leads(h: Hash, s: Snapshot)
    requires FormatV2(h).dataFile(s.manifest).Some?
    ensures PackV2Reader.OpenManifest(h, Some(s.manifest)).Ok?
  {
  }

  /** Over every run of v2 publishes, the readers refused are those of a publication
      of more than 2^47 paths or of empty paths only. */
  lemma V2RefusedOnlyUnopenable(h: Hash, codec: Codec, s: State, events: seq<Event>, r: nat)
    requires Initial(FormatV2(h), s) && Legal(FormatV2(h), s, events) && AllMadeV2(h, codec, events)
    requires r in Run(FormatV2(h), s, events).readers && Run(FormatV2(h), s, events).readers[r].Refused?
    ensures var end := Run(FormatV2(h), s, events);
      exists i, c :: 0 <= i < |end.published| && MadeV2(h, codec, c, end.published[i].snapshot) && !Openable(c)
  {
    var f := FormatV2(h);
    OpenReadersSeeOnePublication(f, s, events, r);
    var end := Run(f, s, events);
    var i :| 0 <= i < |end.published| && Rejected(f, end.published[i]);
    PublishedWereBuilt(f, s, events, i);
    hide Run, Legal, MadeV2, Openable, PackV2Reader.OpenManifest;
    var j :| 0 <= j < |events| && Finishes(events[j], end.published[i].snapshot);
    var c :| MadeV2(h, codec, c, events[j].snapshot);
    MadeV2Leads(h, codec, c, end.published[i].snapshot);
  }

  /** A publish of a build that nobody interrupts leaves a new reader with the whole
      corpus, when its paths can be opened, and with a refusal otherwise. */
  lemma V2PublishThenRead(h: Hash, codec: Codec, c: Corpus, s: State, snapshot: Snapshot, inode: nat, tmpInode: nat,
          r: nat)
    requires Lawful(codec) && MadeV2(h, codec, c, snapshot)
    requires Inv(FormatV2(h), s) && CanPublish(FormatV2(h), s, snapshot.name, inode, tmpInode) && r !in s.readers
    ensures Delivers(FormatV2(h), s, snapshot, inode, tmpInode, r, Openable(c))
    ensures Openable(c) ==> ServesV2(h, codec, c, snapshot.manifest, snapshot.data)
  {
    MadeV2Leads(h, codec, c, snapshot);
    MadeV2SelfNaming(h, codec, c, snapshot);
    PublishThenOpen(FormatV2(h), s, snapshot, inode, tmpInode, r);
    hide Inv, CanPublish, MadeV2, Delivers, Openable, Lawful, ServesV2;
    if Openable(c) {
      Leads(h, snapshot);
      MadeV2Serves(h, codec, c, snapshot);
    }
  }

  /** From corpus to answers: an acceptable corpus whose data file stays below 2^63
      bytes is built, and its publication serves it or, when it has more than 2^47
      paths or only empty ones, is refused. */
  lemma V2FromCorpusToReader(h: Hash, codec: Codec, c: Corpus, name: Bytes, s: State, inode: nat, tmpInode: nat, r: nat)
    returns (snapshot: Snapshot)
    requires Lawful(codec) && ValidName(name)
    requires PackV2Acceptance.Acceptable(codec, c) && PackV2Acceptance.FileBytes(codec, c) < 0x8000_0000_0000_0000
    requires Inv(FormatV2(h), s) && CanPublish(FormatV2(h), s, name, inode, tmpInode) && r !in s.readers
    ensures snapshot.name == name && MadeV2(h, codec, c, snapshot)
    ensures Delivers(FormatV2(h), s, snapshot, inode, tmpInode, r, Openable(c))
    ensures Openable(c) ==> ServesV2(h, codec, c, snapshot.manifest, snapshot.data)
  {
    PackV2Acceptance.BuildSucceedsExactly(h, codec, name, c);
    hide Inv, CanPublish, Build, Openable, Delivers, Lawful, ServesV2, EncodeManifest, ValidName,
      PackV2Acceptance.FileBytes, PackV2Acceptance.Acceptable;
    var (m, data) := Build(h, codec, name, c).value;
    snapshot := Snapshot(name, EncodeManifest(h, m), data);
    V2PublishThenRead(h, codec, c, s, snapshot, inode, tmpInode, r);
  }

  // ---------- Pack v1 ----------

  /** The gob form of a v1 manifest, as far as it matters: it decodes to itself. */
  datatype ManifestCodec = ManifestCodec(encode: PackV1.Manifest -> Bytes, decode: Bytes -> Option<PackV1.Manifest>)

  ghost predicate LawfulManifests(mc: ManifestCodec) {
    forall m: PackV1.Manifest :: mc.decode(mc.encode(m)) == Some(m)
  }

  function FormatV1(mc: ManifestCodec): Format {
    Format(MANIFEST_V1, MANIFEST_V1 + DOT_TMP,
      b => match mc.decode(b) case Some(m) => Some(m.dataFile) case None => None)
  }

  ghost predicate MadeV1(h: Hash, codec: Codec, mc: ManifestCodec, c: Corpus, s: Snapshot) {
    && PackV1.Build(h, codec, s.name, c).Ok?
    && var (m, data) := PackV1.Build(h, codec, s.name, c).value;
       s.manifest == mc.encode(m) && s.data == data
  }

  ghost predicate ServesV1(h: Hash, codec: Codec, mc: ManifestCodec, c: Corpus, manifest: Bytes, data: Bytes) {
    && mc.decode(manifest).Some?
    && var m := mc.decode(manifest).value;
       && PackV1.Shaped(m)
       && PackV1.ReadWhole(h, codec, m, data) == Ok(StoredCorpus(c))
       && PackV1.ReadOneTable(h, codec, m, data) == Ok(StoredImports(c))
       && forall target :: PackV1.ReadOnePath(h, codec, m, data, target) == LookedUp(c, target)
  }

  lemma MadeV1Leads(h: Hash, codec: Codec, mc: ManifestCodec, c: Corpus, s: Snapshot)
    requires LawfulManifests(mc) && MadeV1(h, codec, mc, c, s)
    ensures FormatV1(mc).dataFile(s.manifest) == Some(s.name)
  {
    hide PackV1.PutKinds, PackV1.Put;
  }

  lemma MadeV1Serves(h: Hash, codec: Codec, mc: ManifestCodec, c: Corpus, s: Snapshot)
    requires Lawful(codec) && LawfulManifests(mc) && MadeV1(h, codec, mc, c, s)
    ensures SelfNaming(FormatV1(mc), s)
    ensures ServesV1(h, codec, mc, c, s.manifest, s.data)
  {
    var (m, data) := PackV1.Build(h, codec, s.name, c).value;
    assert m.dataFile == s.name && mc.decode(s.manifest) == Some(m);
    hide Lawful, LawfulManifests, PackV1.Build, PackV1.ReadWhole, PackV1.ReadOneTable, PackV1.ReadOnePath, StoredCorpus,
      StoredImports, StoredRecord;
    PackV1Integrity.V1ReadsExact(h, codec, s.name, c, []);
    forall target
      ensures PackV1.ReadOnePath(h, codec, m, data, target) == LookedUp(c, target)
    {
      PackV1Integrity.V1ReadsExact(h, codec, s.name, c, target);
    }
  }

  ghost predicate AllMadeV1(h: Hash, codec: Codec, mc: ManifestCodec, events: seq<Event>) {
    forall j :: 0 <= j < |events| && events[j].OpenTmp? ==> exists c :: MadeV1(h, codec, mc, c, events[j].snapshot)
  }

  ghost predicate SeesCorpusV1(h: Hash, codec: Codec, mc: ManifestCodec, p: Published, r: ReaderState, data: Bytes)
    requires r.HasData?
  {
    && p.snapshot.manifest == r.manifest
    && exists c :: MadeV1(h, codec, mc, c, p.snapshot) && ServesV1(h, codec, mc, c, r.manifest, data)
  }

  /** The same over every run of v1 publishes. */
  lemma V1ReadersServeOnePublication(h: Hash, codec: Codec, mc: ManifestCodec, s: State, events: seq<Event>, r: nat)
    requires Lawful(codec) && LawfulManifests(mc)
    requires Initial(FormatV1(mc), s) && Legal(FormatV1(mc), s, events) && AllMadeV1(h, codec, mc, events)
    requires r in Run(FormatV1(mc), s, events).readers && Run(FormatV1(mc), s, events).readers[r].HasData?
    ensures var end := Run(FormatV1(mc), s, events); var reader := end.readers[r];
      && reader.inode in end.fs.inodes
      && (exists i :: 0 <= i < |end.published| &&
            SeesCorpusV1(h, codec, mc, end.published[i], reader, end.fs.inodes[reader.inode]))
  {
    var f := FormatV1(mc);
    OpenReadersSeeOnePublication(f, s, events, r);
    var end := Run(f, s, events);
    var reader := end.readers[r];
    var i :| 0 <= i < |end.published| && Sees(end.published[i].snapshot, reader, end.fs.inodes[reader.inode]);
    PublishedWereBuilt(f, s, events, i);
    hide Run, Legal, Initial, MadeV1, Lawful, LawfulManifests;
    var j :| 0 <= j < |events| && Finishes(events[j], end.published[i].snapshot);
    var c :| MadeV1(h, codec, mc, c, events[j].snapshot);
    MadeV1Serves(h, codec, mc, c, end.published[i].snapshot);
  }

  /** Over every run of v1 publishes no reader is ever refused. */
  lemma V1NeverRefused(h: Hash, codec: Codec, mc: ManifestCodec, s: State, events: seq<Event>, r: nat)
    requires LawfulManifests(mc)
    requires Initial(FormatV1(mc), s) && Legal(FormatV1(mc), s, events) && AllMadeV1(h, codec, mc, events)
    requires r in Run(FormatV1(mc), s, events).readers
    ensures !Run(FormatV1(mc), s, events).readers[r].Refused?
  {
    var f := FormatV1(mc);
    var end := Run(f, s, events);
    forall i | 0 <= i < |end.published| ensures !Rejected(f, end.published[i]) {
      PublishedWereBuilt(f, s, events, i);
      hide Run, Legal, PackV1.Build;
      var j :| 0 <= j < |events| && Finishes(events[j], end.published[i].snapshot);
      var c :| MadeV1(h, codec, mc, c, events[j].snapshot);
      MadeV1Leads(h, codec, mc, c, end.published[i].snapshot);
    }
    OpenReadersSeeOnePublication(f, s, events, r);
    hide Run, Legal, Initial;
  }

  /** From corpus to answers in v1: whatever one file can hold is built, published
      and served. */
  lemma V1FromCorpusToReader(h: Hash, codec: Codec, mc: ManifestCodec, c: Corpus, name: Bytes, s: State, inode: nat,
          tmpInode: nat, r: nat) returns (snapshot: Snapshot)
    requires Lawful(codec) && LawfulManifests(mc)
    requires PackV1Capacity.FileBytes(codec, c) < 0x8000_0000_0000_0000
    requires Inv(FormatV1(mc), s) && CanPublish(FormatV1(mc), s, name, inode, tmpInode) && r !in s.readers
    ensures snapshot.name == name && MadeV1(h, codec, mc, c, snapshot)
    ensures Delivers(FormatV1(mc), s, snapshot, inode, tmpInode, r, true)
    ensures ServesV1(h, codec, mc, c, snapshot.manifest, snapshot.data)
  {
    PackV1Capacity.V1BuildSucceedsExactly(h, codec, name, c);
    hide Inv, CanPublish, Delivers, PackV1.Build, PackV1Capacity.FileBytes, Lawful, LawfulManifests, ServesV1;
    var (m, data) := PackV1.Build(h, codec, name, c).value;
    snapshot := Snapshot(name, mc.encode(m), data);
    MadeV1Leads(h, codec, mc, c, snapshot);
    MadeV1Serves(h, codec, mc, c, snapshot);
    PublishThenOpen(FormatV1(mc), s, snapshot, inode, tmpInode, r);
  }
}
