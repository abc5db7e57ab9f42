/** What a publisher and a reader get done: an unhindered publish completes, and a
    reader, hindered or not, ends with the publication it opened. */
module PublicationProgress {
  import opened ByteStrings
  import opened Publication

  lemma {:induction false} RunSplit(f: Format, s: State, a: seq<Event>, b: seq<Event>)
    requires Legal(f, s, a)
    ensures Legal(f, s, a + b) <==> Legal(f, Run(f, s, a), b)
    ensures Legal(f, s, a + b) ==> Run(f, s, a + b) == Run(f, Run(f, s, a), b)
    decreases |a|
  {
    hide Enabled, After;
    if a == [] {
      assert a + b == b;
    } else {
      assert (a + b)[0] == a[0] && (a + b)[1..] == a[1..] + b;
      RunSplit(f, After(f, s, a[0]), a[1..], b);
    }
  }

  lemma OneStep(f: Format, s: State, e: Event)
    ensures Legal(f, s, [e]) <==> Enabled(f, s, e)
    ensures Legal(f, s, [e]) ==> Run(f, s, [e]) == After(f, s, e)
  {
    assert [e][1..] == [];
    assert Enabled(f, s, e) ==> Legal(f, After(f, s, e), []);
  }

  // ---------- A reader's three steps ----------

  /** The manifest opened is the latest publication's. */
  lemma OpensLatest(f: Format, s: State, r: nat)
    requires Inv(f, s) && r !in s.readers
    ensures Enabled(f, s, OpenManifest(r))
    ensures var reader := After(f, s, OpenManifest(r)).readers[r];
      if s.published == [] then reader == NoSnapshot
      else reader == HasManifest(s.published[|s.published| - 1].manifestInode)
  {
  }

  /** The manifest read is the one opened, whatever was published since; it is
      refused exactly when it names no data file. */
  lemma ReadsOpened(f: Format, s: State, r: nat, i: nat)
    requires Inv(f, s) && r in s.readers && i < |s.published|
    requires s.readers[r] == HasManifest(s.published[i].manifestInode)
    ensures Enabled(f, s, ReadManifest(r))
    ensures var reader := After(f, s, ReadManifest(r)).readers[r]; var p := s.published[i].snapshot;
      if f.dataFile(p.manifest) == None then reader == Refused else reader == GotName(p.name, p.manifest)
  {
    assert Intact(f, s, s.published[i]);
  }

  /** The data file opened is the one that manifest was published with. */
  lemma OpensNamed(f: Format, s: State, r: nat, i: nat)
    requires Inv(f, s) && r in s.readers && i < |s.published|
    requires s.readers[r] == GotName(s.published[i].snapshot.name, s.published[i].snapshot.manifest)
    ensures Enabled(f, s, OpenData(r))
    ensures After(f, s, OpenData(r)).readers[r]
         == HasData(s.published[i].snapshot.name, s.published[i].snapshot.manifest, s.published[i].dataInode)
  {
    assert Intact(f, s, s.published[i]);
  }

  /** The reader an event belongs to. */
  function ReaderOf(e: Event): Option<nat> {
    match e
    case OpenManifest(r) => Some(r)
    case ReadManifest(r) => Some(r)
    case OpenData(r) => Some(r)
    case _ => None
  }

  lemma StepReads(f: Format, s: State, e: Event, r: nat)
    requires Enabled(f, s, e) && ReaderOf(e) == Some(r)
    ensures After(f, s, e).published == s.published && After(f, s, e).fs == s.fs && r in After(f, s, e).readers
  {
  }

  lemma PublishedBytes(f: Format, s: State, i: nat)
    requires Inv(f, s) && i < |s.published|
    ensures var p := s.published[i];
      && p.dataInode in s.fs.inodes && s.fs.inodes[p.dataInode] == p.snapshot.data
      && p.manifestInode in s.fs.inodes && s.fs.inodes[p.manifestInode] == p.snapshot.manifest
  {
    assert Intact(f, s, s.published[i]);
  }

  // ---------- A reader among other events ----------

  predicate Others(events: seq<Event>, r: nat) {
    forall i :: 0 <= i < |events| ==> ReaderOf(events[i]) != Some(r)
  }

  lemma {:induction false} OthersKeepReader(f: Format, s: State, events: seq<Event>, r: nat)
    requires Legal(f, s, events) && Others(events, r)
    ensures r in Run(f, s, events).readers <==> r in s.readers
    ensures r in s.readers ==> Run(f, s, events).readers[r] == s.readers[r]
    decreases |events|
  {
    if events != [] {
      assert ReaderOf(events[0]) != Some(r);
      OthersKeepReader(f, After(f, s, events[0]), events[1..], r);
    }
  }

  /** The state after the others' events and then e. */
  lemma OthersThen(f: Format, s: State, events: seq<Event>, r: nat, e: Event) returns (mid: State)
    requires Inv(f, s) && Legal(f, s, events) && Others(events, r)
    ensures mid == Run(f, s, events) && Inv(f, mid) && s.published <= mid.published
    ensures r in mid.readers <==> r in s.readers
    ensures r in s.readers ==> mid.readers[r] == s.readers[r]
    ensures Enabled(f, mid, e) ==>
      Legal(f, s, events + [e]) && Run(f, s, events + [e]) == After(f, mid, e) && Inv(f, After(f, mid, e))
  {
    hide Inv, Enabled, After;
    mid := Run(f, s, events);
    RunInv(f, s, events);
    OthersKeepReader(f, s, events, r);
    RunSplit(f, s, events, [e]);
    OneStep(f, mid, e);
    if Enabled(f, mid, e) { StepInv(f, mid, e); }
  }

  /** What a reader that opened the manifest of p ends as: refused when p's manifest
      names no data file, and otherwise holding p's data file. */
  predicate EndsWith(f: Format, p: Published, reader: ReaderState) {
    if f.dataFile(p.snapshot.manifest) == None then reader == Refused
    else reader == HasData(p.snapshot.name, p.snapshot.manifest, p.dataInode)
  }

  /** A reader opens the manifest of the latest publication. Whatever publishers and
      other readers do before it reads it, and before it opens the data file, each of
      its steps can be taken, and it ends with that same publication. */
  lemma ReaderGetsWhatItOpened(f: Format, s: State, r: nat, between: seq<Event>, between': seq<Event>)
    requires Inv(f, s) && r !in s.readers && s.published != []
    requires Others(between, r) && Legal(f, After(f, s, OpenManifest(r)), between)
    ensures var p := s.published[|s.published| - 1];
      var s1 := After(f, s, OpenManifest(r));
      && Legal(f, s1, between + [ReadManifest(r)])
      && var s2 := Run(f, s1, between + [ReadManifest(r)]);
      && r in s2.readers
      && (f.dataFile(p.snapshot.manifest) == None ==> s2.readers[r] == Refused)
      && (f.dataFile(p.snapshot.manifest) != None && Others(between', r) && Legal(f, s2, between') ==>
            && Legal(f, s2, between' + [OpenData(r)])
            && var end := Run(f, s2, between' + [OpenData(r)]);
            && r in end.readers && EndsWith(f, p, end.readers[r])
            && p.dataInode in end.fs.inodes && end.fs.inodes[p.dataInode] == p.snapshot.data)
  {
    var i := |s.published| - 1;
    var p := s.published[i];
    OpensLatest(f, s, r);
    StepInv(f, s, OpenManifest(r));
    var s1 := After(f, s, OpenManifest(r));
    assert s1.published == s.published && r in s1.readers;
    hide After, Inv, Enabled, Legal, Run, Others;
    var mid := OthersThen(f, s1, between, r, ReadManifest(r));
    assert mid.published[i] == p;
    ReadsOpened(f, mid, r, i);
    var s2 := After(f, mid, ReadManifest(r));
    StepReads(f, mid, ReadManifest(r), r);
    if f.dataFile(p.snapshot.manifest) != None && Others(between', r) && Legal(f, s2, between') {
      var mid' := OthersThen(f, s2, between', r, OpenData(r));
      assert mid'.published[i] == p;
      OpensNamed(f, mid', r, i);
      StepReads(f, mid', OpenData(r), r);
      PublishedBytes(f, mid', i);
    }
  }

  // ---------- A publisher's five steps ----------

  function Publish(snapshot: Snapshot, inode: nat, tmpInode: nat): seq<Event> {
    [CreateData(snapshot.name, inode), AppendData(snapshot.data), OpenTmp(snapshot, tmpInode),
     AppendTmp(snapshot.manifest), Rename]
  }

  /** A publisher can begin: nobody else is publishing, the names and inodes it
      creates are free, and a temporary manifest left behind is truncated. */
  ghost predicate CanPublish(f: Format, s: State, name: Bytes, inode: nat, tmpInode: nat) {
    && s.publisher == Idle && name !in s.fs.names && name != f.manifest && name != f.tmp
    && inode !in s.fs.inodes && tmpInode != inode
    && (if f.tmp in s.fs.names then tmpInode == s.fs.names[f.tmp] else tmpInode !in s.fs.inodes)
  }

  lemma Prepended(f: Format, s: State, e: Event, rest: seq<Event>)
    ensures Legal(f, s, [e] + rest) <==> Enabled(f, s, e) && Legal(f, After(f, s, e), rest)
    ensures Legal(f, s, [e] + rest) ==> Run(f, s, [e] + rest) == Run(f, After(f, s, e), rest)
  {
    assert ([e] + rest)[1..] == rest;
    hide Enabled, After;
  }

  lemma DataSteps(f: Format, s: State, name: Bytes, inode: nat, data: Bytes)
    requires Enabled(f, s, CreateData(name, inode))
    ensures var s1 := After(f, s, CreateData(name, inode));
      && Enabled(f, s1, AppendData(data))
      && After(f, s1, AppendData(data)) == s.(publisher := WritingData(name, inode),
        fs := FileSystem(s.fs.names[name := inode], s.fs.inodes[inode := data]))
  {
    assert [] + data == data;
    assert s.fs.inodes[inode := []][inode := data] == s.fs.inodes[inode := data];
  }

  lemma ManifestSteps(f: Format, s: State, snapshot: Snapshot, inode: nat, tmpInode: nat)
    requires s.publisher == WritingData(snapshot.name, inode) && Enabled(f, s, OpenTmp(snapshot, tmpInode))
    ensures var s1 := After(f, s, OpenTmp(snapshot, tmpInode));
      && Enabled(f, s1, AppendTmp(snapshot.manifest))
      && var s2 := After(f, s1, AppendTmp(snapshot.manifest));
      && Enabled(f, s2, Rename)
      && var s3 := After(f, s2, Rename);
      && s3.publisher == Idle && s3.readers == s.readers
      && s3.published == s.published + [Published(snapshot, tmpInode, inode)]
  {
    assert [] + snapshot.manifest == snapshot.manifest;
  }

  /** A publish nobody interrupts completes. */
  lemma PublishCompletes(f: Format, s: State, snapshot: Snapshot, inode: nat, tmpInode: nat)
    requires Inv(f, s) && CanPublish(f, s, snapshot.name, inode, tmpInode) && SelfNaming(f, snapshot)
    ensures var events := Publish(snapshot, inode, tmpInode);
      && Legal(f, s, events)
      && var end := Run(f, s, events);
      && end.publisher == Idle && end.readers == s.readers
      && end.published == s.published + [Published(snapshot, tmpInode, inode)]
  {
    var e0, e1, e2 := CreateData(snapshot.name, inode), AppendData(snapshot.data), OpenTmp(snapshot, tmpInode);
    var e3, e4 := AppendTmp(snapshot.manifest), Rename;
    DataSteps(f, s, snapshot.name, inode, snapshot.data);
    var s1 := After(f, s, e0);
    var s2 := After(f, s1, e1);
    assert Enabled(f, s2, e2);
    ManifestSteps(f, s2, snapshot, inode, tmpInode);
    hide Inv, Enabled, After, Legal, Run, SelfNaming;
    var s3 := After(f, s2, e2);
    var s4 := After(f, s3, e3);
    OneStep(f, s4, e4);
    Prepended(f, s3, e3, [e4]);
    Prepended(f, s2, e2, [e3, e4]);
    Prepended(f, s1, e1, [e2, e3, e4]);
    Prepended(f, s, e0, [e1, e2, e3, e4]);
    assert [e3] + [e4] == [e3, e4] && [e2] + [e3, e4] == [e2, e3, e4] && [e1] + [e2, e3, e4] == [e1, e2, e3, e4];
    assert Publish(snapshot, inode, tmpInode) == [e0] + [e1, e2, e3, e4];
  }

  /** What a new reader of this state goes through, nobody interfering: it opens and
      reads the manifest, and, when that names a data file, opens the data file. */
  function Opening(f: Format, manifest: Bytes, r: nat): seq<Event> {
    if f.dataFile(manifest) == None then [OpenManifest(r), ReadManifest(r)]
    else [OpenManifest(r), ReadManifest(r), OpenData(r)]
  }

  lemma OpeningEnds(f: Format, s: State, r: nat)
    requires Inv(f, s) && r !in s.readers && s.published != []
    ensures var p := s.published[|s.published| - 1]; var events := Opening(f, p.snapshot.manifest, r);
      && Legal(f, s, events)
      && var end := Run(f, s, events);
      && r in end.readers && EndsWith(f, p, end.readers[r])
      && p.dataInode in end.fs.inodes && end.fs.inodes[p.dataInode] == p.snapshot.data
  {
    hide Legal, Run, Inv, After, Enabled;
    var i := |s.published| - 1;
    OpensLatest(f, s, r);
    StepInv(f, s, OpenManifest(r));
    StepReads(f, s, OpenManifest(r), r);
    var s1 := After(f, s, OpenManifest(r));
    ReadsOpened(f, s1, r, i);
    StepInv(f, s1, ReadManifest(r));
    StepReads(f, s1, ReadManifest(r), r);
    var s2 := After(f, s1, ReadManifest(r));
    PublishedBytes(f, s, i);
    OneStep(f, s1, ReadManifest(r));
    Prepended(f, s, OpenManifest(r), [ReadManifest(r)]);
    assert [OpenManifest(r)] + [ReadManifest(r)] == [OpenManifest(r), ReadManifest(r)];
    if f.dataFile(s.published[i].snapshot.manifest) != None {
      OpensNamed(f, s2, r, i);
      StepReads(f, s2, OpenData(r), r);
      OneStep(f, s2, OpenData(r));
      Prepended(f, s1, ReadManifest(r), [OpenData(r)]);
      Prepended(f, s, OpenManifest(r), [ReadManifest(r), OpenData(r)]);
      assert [ReadManifest(r)] + [OpenData(r)] == [ReadManifest(r), OpenData(r)];
      assert [OpenManifest(r)] + [ReadManifest(r), OpenData(r)] == [OpenManifest(r), ReadManifest(r), OpenData(r)];
    }
  }

  /** This publish, interrupted by nobody, and then a new reader can all be run. The
      reader ends with the new data file, whole, if the manifest is `accepted`, and
      refused if it is not. */
  ghost predicate Delivers(f: Format, s: State, snapshot: Snapshot, inode: nat, tmpInode: nat, r: nat, accepted: bool) {
    var events := Publish(snapshot, inode, tmpInode) + Opening(f, snapshot.manifest, r);
    && Legal(f, s, events)
    && var end := Run(f, s, events);
    && r in end.readers
    && inode in end.fs.inodes && end.fs.inodes[inode] == snapshot.data
    && end.readers[r] == if accepted then HasData(snapshot.name, snapshot.manifest, inode) else Refused
  }

  lemma PublishThenOpen(f: Format, s: State, snapshot: Snapshot, inode: nat, tmpInode: nat, r: nat)
    requires Inv(f, s) && CanPublish(f, s, snapshot.name, inode, tmpInode) && SelfNaming(f, snapshot)
    requires r !in s.readers
    ensures Delivers(f, s, snapshot, inode, tmpInode, r, f.dataFile(snapshot.manifest).Some?)
  {
    hide Enabled, After, CanPublish, Publish, Opening, SelfNaming;
    PublishCompletes(f, s, snapshot, inode, tmpInode);
    RunInv(f, s, Publish(snapshot, inode, tmpInode));
    hide Inv;
    var mid := Run(f, s, Publish(snapshot, inode, tmpInode));
    OpeningEnds(f, mid, r);
    RunSplit(f, s, Publish(snapshot, inode, tmpInode), Opening(f, snapshot.manifest, r));
    hide Run, Legal;
  }
}
