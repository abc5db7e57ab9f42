/** Publishing a pack: a fresh data file, then a temporary manifest, then a
    rename. One publisher at a time, stopping anywhere, interleaved with any
    number of readers, over a file system that tells names from inodes. */
module Publication {
  import opened ByteStrings

  /** What differs between pack formats: the two manifest names, and what data
      file a reader finds named in a manifest's bytes (None: it refuses them). */
  datatype Format = Format(manifest: Bytes, tmp: Bytes, dataFile: Bytes -> Option<Bytes>)

  /** The outcome of one build. */
  datatype Snapshot = Snapshot(name: Bytes, manifest: Bytes, data: Bytes)

  /** Names lead to inodes, inodes to bytes. Removing or replacing a name leaves
      the inode, which open handles still reach. */
  datatype FileSystem = FileSystem(names: map<Bytes, nat>, inodes: map<nat, Bytes>)

  datatype Publisher =
    | Idle
    | WritingData(name: Bytes, inode: nat)
    | WritingManifest(snapshot: Snapshot, inode: nat, tmpInode: nat)

  datatype ReaderState =
    | HasManifest(inode: nat)                             // manifest opened, not yet read
    | GotName(name: Bytes, manifest: Bytes)               // manifest read and accepted
    | Refused                                             // manifest read and refused
    | NoSnapshot                                          // errNoSnapshot
    | OpenFailed                                          // the named data file is missing
    | HasData(name: Bytes, manifest: Bytes, inode: nat)   // data file opened

  /** A completed publication and the inodes behind it. */
  datatype Published = Published(snapshot: Snapshot, manifestInode: nat, dataInode: nat)

  datatype State = State(fs: FileSystem, publisher: Publisher, readers: map<nat, ReaderState>,
    published: seq<Published>)

  datatype Event =
    | CreateData(name: Bytes, inode: nat)   // os.CreateTemp: a name and inode not in use
    | AppendData(chunk: Bytes)              // any part of the data file reaches it
    | OpenTmp(snapshot: Snapshot, inode: nat)  // data complete: create or truncate the temporary manifest
    | AppendTmp(chunk: Bytes)
    | Rename                                // temporary manifest complete: replace the manifest
    | Stop                                  // the publisher fails or dies
    | OpenManifest(reader: nat)
    | ReadManifest(reader: nat)
    | OpenData(reader: nat)

  /** A snapshot whose manifest leads a reader to its own data file, or nowhere. */
  ghost predicate SelfNaming(f: Format, s: Snapshot) {
    f.dataFile(s.manifest) == None || f.dataFile(s.manifest) == Some(s.name)
  }

  ghost predicate Enabled(f: Format, s: State, e: Event) {
    match e
    case CreateData(name, inode) =>
      s.publisher.Idle? && name !in s.fs.names && name != f.manifest && name != f.tmp && inode !in s.fs.inodes
    case AppendData(_) => s.publisher.WritingData? && s.publisher.inode in s.fs.inodes
    case OpenTmp(snapshot, inode) =>
      && s.publisher.WritingData? && s.publisher.inode in s.fs.inodes
      && snapshot.name == s.publisher.name && snapshot.data == s.fs.inodes[s.publisher.inode]
      && SelfNaming(f, snapshot)
      && (if f.tmp in s.fs.names then inode == s.fs.names[f.tmp] else inode !in s.fs.inodes)
    case AppendTmp(_) => s.publisher.WritingManifest? && s.publisher.tmpInode in s.fs.inodes
    case Rename =>
      && s.publisher.WritingManifest? && s.publisher.tmpInode in s.fs.inodes
      && s.fs.inodes[s.publisher.tmpInode] == s.publisher.snapshot.manifest
    case Stop => true
    case OpenManifest(r) => r !in s.readers
    case ReadManifest(r) => r in s.readers && s.readers[r].HasManifest? && s.readers[r].inode in s.fs.inodes
    case OpenData(r) => r in s.readers && s.readers[r].GotName?
  }

  function After(f: Format, s: State, e: Event): State
    requires Enabled(f, s, e)
  {
    match e
    case CreateData(name, inode) =>
      s.(fs := FileSystem(s.fs.names[name := inode], s.fs.inodes[inode := []]), publisher := WritingData(name, inode))
    case AppendData(chunk) =>
      s.(fs := s.fs.(inodes := s.fs.inodes[s.publisher.inode := s.fs.inodes[s.publisher.inode] + chunk]))
    case OpenTmp(snapshot, inode) =>
      s.(fs := FileSystem(s.fs.names[f.tmp := inode], s.fs.inodes[inode := []]),
         publisher := WritingManifest(snapshot, s.publisher.inode, inode))
    case AppendTmp(chunk) =>
      s.(fs := s.fs.(inodes := s.fs.inodes[s.publisher.tmpInode := s.fs.inodes[s.publisher.tmpInode] + chunk]))
    case Rename =>
      s.(fs := s.fs.(names := (s.fs.names - {f.tmp})[f.manifest := s.publisher.tmpInode]),
         publisher := Idle,
         published := s.published + [Published(s.publisher.snapshot, s.publisher.tmpInode, s.publisher.inode)])
    case Stop => s.(publisher := Idle)
    case OpenManifest(r) =>
      s.(readers := s.readers[r := if f.manifest in s.fs.names then HasManifest(s.fs.names[f.manifest])
        else NoSnapshot])
    case ReadManifest(r) =>
      var bytes := s.fs.inodes[s.readers[r].inode];
      s.(readers := s.readers[r := match f.dataFile(bytes) { case None => Refused case Some(name) => GotName(name,
        bytes) }])
    case OpenData(r) =>
      var reader := s.readers[r];
      s.(readers := s.readers[r := if reader.name in s.fs.names
        then HasData(reader.name, reader.manifest, s.fs.names[reader.name]) else OpenFailed])
  }

  /** A directory in which nothing was published yet; unrelated files may exist. */
  ghost predicate Initial(f: Format, s: State) {
    && f.manifest != f.tmp && f.manifest !in s.fs.names && f.tmp !in s.fs.names
    && (forall n <- s.fs.names :: s.fs.names[n] in s.fs.inodes)
    && s.publisher == Idle && s.readers == map[] && s.published == []
  }

  ghost predicate Legal(f: Format, s: State, events: seq<Event>)
    decreases |events|
  {
    events == [] || (Enabled(f, s, events[0]) && Legal(f, After(f, s, events[0]), events[1..]))
  }

  ghost function Run(f: Format, s: State, events: seq<Event>): State
    requires Legal(f, s, events)
    decreases |events|
  {
    if events == [] then s else Run(f, After(f, s, events[0]), events[1..])
  }

  // ---------- The invariant ----------

  /** The inode the publisher, or a later one, may still write to or truncate. */
  ghost predicate Unsealed(f: Format, s: State, inode: nat) {
    || (f.tmp in s.fs.names && s.fs.names[f.tmp] == inode)
    || (s.publisher.WritingData? && s.publisher.inode == inode)
    || (s.publisher.WritingManifest? && s.publisher.tmpInode == inode)
  }

  /** A completed publication is intact, and nobody can write to it any more. */
  ghost predicate Intact(f: Format, s: State, p: Published) {
    && p.manifestInode in s.fs.inodes && s.fs.inodes[p.manifestInode] == p.snapshot.manifest
    && p.dataInode in s.fs.inodes && s.fs.inodes[p.dataInode] == p.snapshot.data
    && p.snapshot.name in s.fs.names && s.fs.names[p.snapshot.name] == p.dataInode
    && p.snapshot.name != f.tmp && p.snapshot.name != f.manifest
    && !Unsealed(f, s, p.manifestInode) && !Unsealed(f, s, p.dataInode)
    && SelfNaming(f, p.snapshot)
  }

  ghost predicate PublisherOk(f: Format, s: State) {
    match s.publisher
    case Idle => true
    case WritingData(name, inode) =>
      && inode in s.fs.inodes && name in s.fs.names && s.fs.names[name] == inode && name != f.tmp && name != f.manifest
      && !(f.tmp in s.fs.names && s.fs.names[f.tmp] == inode)
    case WritingManifest(snapshot, inode, tmpInode) =>
      && inode in s.fs.inodes && s.fs.inodes[inode] == snapshot.data
      && snapshot.name in s.fs.names && s.fs.names[snapshot.name] == inode && snapshot.name != f.tmp
        && snapshot.name != f.manifest
      && tmpInode in s.fs.inodes && tmpInode != inode && f.tmp in s.fs.names && s.fs.names[f.tmp] == tmpInode
      && SelfNaming(f, snapshot)
  }

  /** Readers refuse this publication's manifest. */
  predicate Rejected(f: Format, p: Published) { f.dataFile(p.snapshot.manifest) == None }

  /** A reader past the manifest is tied to the one publication it opened. */
  ghost predicate ReaderOk(f: Format, s: State, r: ReaderState) {
    match r
    case HasManifest(inode) => exists i :: 0 <= i < |s.published| && s.published[i].manifestInode == inode
    case GotName(name, bytes) => exists i ::
      0 <= i < |s.published| && s.published[i].snapshot.manifest == bytes && s.published[i].snapshot.name == name
    case HasData(name, bytes, inode) => exists i ::
      0 <= i < |s.published| && s.published[i].snapshot.manifest == bytes && s.published[i].snapshot.name == name
      && s.published[i].dataInode == inode
    case OpenFailed => false
    case NoSnapshot => true
    case Refused => exists i :: 0 <= i < |s.published| && Rejected(f, s.published[i])
  }

  ghost predicate Inv(f: Format, s: State) {
    && f.manifest != f.tmp
    && (forall n <- s.fs.names :: s.fs.names[n] in s.fs.inodes)
    && PublisherOk(f, s)
    && (forall i :: 0 <= i < |s.published| ==> Intact(f, s, s.published[i]))
    && (f.manifest in s.fs.names <==> s.published != [])
    && (s.published != [] ==> s.fs.names[f.manifest] == s.published[|s.published| - 1].manifestInode)
    && (forall r <- s.readers :: ReaderOk(f, s, s.readers[r]))
  }

  lemma InitialInv(f: Format, s: State)
    requires Initial(f, s)
    ensures Inv(f, s)
  {
  }

  /** Publications made before a step stay as they were. */
  lemma StepKeepsPublished(f: Format, s: State, e: Event)
    requires Inv(f, s) && Enabled(f, s, e)
    ensures s.published <= After(f, s, e).published
    ensures forall i :: 0 <= i < |s.published| ==> Intact(f, After(f, s, e), s.published[i])
  {
    forall i | 0 <= i < |s.published| ensures Intact(f, After(f, s, e), s.published[i]) {
      assert Intact(f, s, s.published[i]);
    }
  }

  lemma ReadersKept(f: Format, s: State, s': State, r: ReaderState)
    requires s.published <= s'.published && ReaderOk(f, s, r)
    ensures ReaderOk(f, s', r)
  {
    assert forall i :: 0 <= i < |s.published| ==> s'.published[i] == s.published[i];
    match r
    case HasManifest(inode) =>
      var i :| 0 <= i < |s.published| && s.published[i].manifestInode == inode;
      assert s'.published[i].manifestInode == inode;
    case GotName(name, bytes) =>
      var i :| 0 <= i < |s.published| && s.published[i].snapshot.manifest == bytes
        && s.published[i].snapshot.name == name;
      assert s'.published[i].snapshot.manifest == bytes;
    case HasData(name, bytes, inode) =>
      var i :| 0 <= i < |s.published| && s.published[i].snapshot.manifest == bytes
        && s.published[i].snapshot.name == name && s.published[i].dataInode == inode;
      assert s'.published[i].dataInode == inode;
    case Refused =>
      var i :| 0 <= i < |s.published| && Rejected(f, s.published[i]);
      assert Rejected(f, s'.published[i]);
    case OpenFailed =>
    case NoSnapshot =>
  }

  lemma OpenManifestOk(f: Format, s: State, r: nat)
    requires Inv(f, s) && Enabled(f, s, OpenManifest(r))
    ensures ReaderOk(f, s, After(f, s, OpenManifest(r)).readers[r])
  {
    if s.published != [] {
      var last := |s.published| - 1;
      assert s.published[last].manifestInode == s.fs.names[f.manifest];
    }
  }

  lemma ReadManifestOk(f: Format, s: State, r: nat)
    requires Inv(f, s) && Enabled(f, s, ReadManifest(r))
    ensures ReaderOk(f, s, After(f, s, ReadManifest(r)).readers[r])
  {
    assert ReaderOk(f, s, s.readers[r]);
    var inode := s.readers[r].inode;
    var i :| 0 <= i < |s.published| && s.published[i].manifestInode == inode;
    assert Intact(f, s, s.published[i]);
    assert s.fs.inodes[inode] == s.published[i].snapshot.manifest;
    if f.dataFile(s.fs.inodes[inode]) == None { assert Rejected(f, s.published[i]); }
  }

  lemma OpenDataOk(f: Format, s: State, r: nat)
    requires Inv(f, s) && Enabled(f, s, OpenData(r))
    ensures ReaderOk(f, s, After(f, s, OpenData(r)).readers[r])
  {
    assert ReaderOk(f, s, s.readers[r]);
    var name, bytes := s.readers[r].name, s.readers[r].manifest;
    var i :| 0 <= i < |s.published| && s.published[i].snapshot.manifest == bytes
      && s.published[i].snapshot.name == name;
    assert Intact(f, s, s.published[i]);
  }

  lemma StepReaders(f: Format, s: State, e: Event, r: nat)
    requires Inv(f, s) && Enabled(f, s, e) && r in After(f, s, e).readers
    ensures ReaderOk(f, After(f, s, e), After(f, s, e).readers[r])
  {
    var s' := After(f, s, e);
    StepKeepsPublished(f, s, e);
    assert ReaderOk(f, s, s'.readers[r]) by {
      if r in s.readers && s.readers[r] == s'.readers[r] {
      } else if e.OpenManifest? {
        OpenManifestOk(f, s, r);
      } else if e.ReadManifest? {
        ReadManifestOk(f, s, r);
      } else {
        OpenDataOk(f, s, r);
      }
    }
    ReadersKept(f, s, s', s'.readers[r]);
  }

  lemma StepPublished(f: Format, s: State, e: Event, i: nat)
    requires Inv(f, s) && Enabled(f, s, e) && i < |After(f, s, e).published|
    ensures Intact(f, After(f, s, e), After(f, s, e).published[i])
  {
    StepKeepsPublished(f, s, e);
    if i < |s.published| { assert Intact(f, After(f, s, e), s.published[i]); }
  }

  lemma StepPublisher(f: Format, s: State, e: Event)
    requires Inv(f, s) && Enabled(f, s, e)
    ensures PublisherOk(f, After(f, s, e))
    ensures forall n <- After(f, s, e).fs.names :: After(f, s, e).fs.names[n] in After(f, s, e).fs.inodes
  {
    hide ReaderOk, Intact;
  }

  lemma StepManifest(f: Format, s: State, e: Event)
    requires Inv(f, s) && Enabled(f, s, e)
    ensures var s' := After(f, s, e);
      && (f.manifest in s'.fs.names <==> s'.published != [])
      && (s'.published != [] ==> s'.fs.names[f.manifest] == s'.published[|s'.published| - 1].manifestInode)
  {
    hide ReaderOk, Intact;
  }

  lemma StepInv(f: Format, s: State, e: Event)
    requires Inv(f, s) && Enabled(f, s, e)
    ensures Inv(f, After(f, s, e))
  {
    var s' := After(f, s, e);
    StepPublisher(f, s, e);
    StepManifest(f, s, e);
    forall i | 0 <= i < |s'.published| ensures Intact(f, s', s'.published[i]) { StepPublished(f, s, e, i); }
    forall r | r in s'.readers ensures ReaderOk(f, s', s'.readers[r]) { StepReaders(f, s, e, r); }
    hide ReaderOk, Intact, After, Enabled, PublisherOk;
  }

  lemma {:induction false} RunInv(f: Format, s: State, events: seq<Event>)
    requires Inv(f, s) && Legal(f, s, events)
    ensures Inv(f, Run(f, s, events)) && s.published <= Run(f, s, events).published
    decreases |events|
  {
    hide Inv, Enabled, After;
    if events != [] {
      StepKeepsPublished(f, s, events[0]);
      StepInv(f, s, events[0]);
      RunInv(f, After(f, s, events[0]), events[1..]);
    }
  }

  // ---------- Claims over whole runs ----------

  /** An open reader whose handle shows `bytes` sees this snapshot, whole. */
  predicate Sees(s: Snapshot, r: ReaderState, bytes: Bytes)
    requires r.HasData?
  {
    s.manifest == r.manifest && s.name == r.name && s.data == bytes
  }

  /** In every reachable state, a reader that got through the open holds exactly
      the data file of one completed publication, namely the one whose manifest
      bytes it read. No reader that read a manifest ever fails to find its data, and
      one is refused only over a completed publication that names no data file. */
  lemma OpenReadersSeeOnePublication(f: Format, s: State, events: seq<Event>, r: nat)
    requires Initial(f, s) && Legal(f, s, events) && r in Run(f, s, events).readers
    ensures var end := Run(f, s, events);
      && !end.readers[r].OpenFailed?
      && (end.readers[r].Refused? ==> exists i :: 0 <= i < |end.published| && Rejected(f, end.published[i]))
      && (end.readers[r].HasData? ==>
            end.readers[r].inode in end.fs.inodes &&
            exists i :: 0 <= i < |end.published|
              && Sees(end.published[i].snapshot, end.readers[r], end.fs.inodes[end.readers[r].inode]))
  {
    InitialInv(f, s);
    RunInv(f, s, events);
    hide Run, Legal, Initial;
    var end := Run(f, s, events);
    assert ReaderOk(f, end, end.readers[r]);
    if end.readers[r].HasData? {
      var i :| 0 <= i < |end.published| && end.published[i].snapshot.manifest == end.readers[r].manifest
            && end.published[i].snapshot.name == end.readers[r].name
              && end.published[i].dataInode == end.readers[r].inode;
      assert Intact(f, end, end.published[i]);
    }
  }

  lemma HandleStep(f: Format, s: State, e: Event, r: nat)
    requires Enabled(f, s, e) && r in s.readers && s.readers[r].HasData?
    ensures r in After(f, s, e).readers && After(f, s, e).readers[r] == s.readers[r]
  {
  }

  lemma {:induction false} OpenHandleKept(f: Format, s: State, events: seq<Event>, r: nat)
    requires Inv(f, s) && Legal(f, s, events) && r in s.readers && s.readers[r].HasData?
    ensures var end := Run(f, s, events); r in end.readers && end.readers[r] == s.readers[r]
    decreases |events|
  {
    if events != [] {
      HandleStep(f, s, events[0], r);
      hide Inv, Enabled, After;
      StepInv(f, s, events[0]);
      OpenHandleKept(f, After(f, s, events[0]), events[1..], r);
    }
  }

  /** Once a reader is open, no later step of any publisher changes a byte it reads. */
  lemma LaterStepsKeepBytes(f: Format, s: State, before: seq<Event>, after: seq<Event>, r: nat)
    requires Initial(f, s) && Legal(f, s, before) && Legal(f, Run(f, s, before), after)
    requires r in Run(f, s, before).readers && Run(f, s, before).readers[r].HasData?
    ensures var mid := Run(f, s, before); var end := Run(f, mid, after); var inode := mid.readers[r].inode;
      && r in end.readers && end.readers[r] == mid.readers[r]
      && inode in mid.fs.inodes && inode in end.fs.inodes && end.fs.inodes[inode] == mid.fs.inodes[inode]
  {
    InitialInv(f, s);
    RunInv(f, s, before);
    var mid := Run(f, s, before);
    RunInv(f, mid, after);
    OpenHandleKept(f, mid, after, r);
    var end := Run(f, mid, after);
    hide Run, Legal, Initial;
    assert ReaderOk(f, mid, mid.readers[r]);
    var i :| 0 <= i < |mid.published| && mid.published[i].snapshot.manifest == mid.readers[r].manifest
          && mid.published[i].snapshot.name == mid.readers[r].name
            && mid.published[i].dataInode == mid.readers[r].inode;
    assert Intact(f, mid, mid.published[i]) && end.published[i] == mid.published[i];
    assert Intact(f, end, end.published[i]);
  }

  /** "No snapshot" is answered exactly while no rename has completed. */
  lemma NoSnapshotOnlyBeforeFirst(f: Format, s: State, events: seq<Event>, r: nat)
    requires Initial(f, s) && Legal(f, s, events) && r !in Run(f, s, events).readers
    ensures var end := Run(f, s, events);
      Enabled(f, end, OpenManifest(r)) && (After(f, end, OpenManifest(r)).readers[r] == NoSnapshot <==>
        end.published == [])
  {
    InitialInv(f, s);
    RunInv(f, s, events);
  }

  // ---------- Readers past the manifest accepted it ----------

  ghost predicate Accepted(f: Format, r: ReaderState) {
    && (r.GotName? ==> f.dataFile(r.manifest) == Some(r.name))
    && (r.HasData? ==> f.dataFile(r.manifest) == Some(r.name))
  }

  ghost predicate AllAccepted(f: Format, s: State) {
    forall r <- s.readers :: Accepted(f, s.readers[r])
  }

  lemma {:induction false} AcceptedKept(f: Format, s: State, events: seq<Event>)
    requires AllAccepted(f, s) && Legal(f, s, events)
    ensures AllAccepted(f, Run(f, s, events))
    decreases |events|
  {
    if events != [] {
      assert AllAccepted(f, After(f, s, events[0]));
      AcceptedKept(f, After(f, s, events[0]), events[1..]);
    }
  }

  lemma AcceptedReaders(f: Format, s: State, events: seq<Event>, r: nat)
    requires Initial(f, s) && Legal(f, s, events) && r in Run(f, s, events).readers
    ensures Accepted(f, Run(f, s, events).readers[r])
  {
    AcceptedKept(f, s, events);
  }

  // ---------- Which snapshots get published ----------

  lemma {:induction false} PublishedPrefix(f: Format, s: State, events: seq<Event>)
    requires Legal(f, s, events)
    ensures s.published <= Run(f, s, events).published
    decreases |events|
  {
    if events != [] { PublishedPrefix(f, After(f, s, events[0]), events[1..]); }
  }

  /** A publisher has finished building this snapshot's data. */
  predicate Finishes(e: Event, snapshot: Snapshot) { e.OpenTmp? && e.snapshot == snapshot }

  /** Every published snapshot is one some publisher finished building. */
  lemma {:induction false} PublishedWereBuilt(f: Format, s: State, events: seq<Event>, i: nat)
    requires Legal(f, s, events) && |s.published| <= i < |Run(f, s, events).published|
    ensures (s.publisher.WritingManifest? && Run(f, s, events).published[i].snapshot == s.publisher.snapshot)
         || exists j :: 0 <= j < |events| && Finishes(events[j], Run(f, s, events).published[i].snapshot)
    decreases |events|
  {
    if events != [] {
      var s1 := After(f, s, events[0]);
      if |s1.published| <= i {
        PublishedWereBuilt(f, s1, events[1..], i);
        if j :| 0 <= j < |events[1..]| && Finishes(events[1..][j], Run(f, s, events).published[i].snapshot) {
          assert events[j + 1] == events[1..][j];
        }
      } else {
        PublishedPrefix(f, s1, events[1..]);
      }
    }
  }
}
