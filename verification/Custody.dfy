/** Ownership of descendants over whole runs, with the monitor interleaved with the
    goroutine that starts, cancels, joins, probes and signals. */
module Custody {
  import opened ByteStrings
  import opened Descendants

  datatype Probe = Failed | Seen(rows: Rows)
  datatype Signal = Term | Kill

  /** What the operating system is asked for. */
  datatype Action = Probed(probe: Probe) | Signalled(pid: int, signal: Signal)

  // ---------- Ownership ----------

  /** The live identities a snapshot is searched from: the leader, and every owned
      process that is still itself. */
  function Roots(rows: Rows, leader: int, leaderBirth: string, owned: Identities): set<int> {
    (if SameProcess(RowOf(rows, leader), leaderBirth) then {leader} else {})
    + (set c | c in owned && SameProcess(RowOf(rows, c), owned[c]))
  }

  /** What the search from these roots finds. */
  ghost function Gained(rows: Rows, roots: set<int>): Identities {
    map c | c in rows && Live(rows[c]) && (exists a :: a in roots && a != c && Reachable(rows, a, c)) :: rows[c].birth
  }

  ghost function OwnedAfter(rows: Rows, leader: int, leaderBirth: string, owned: Identities): Identities {
    owned + Gained(rows, Roots(rows, leader, leaderBirth, owned))
  }

  /** In this table pid is a process born then, and no zombie. */
  predicate AliveAs(rows: Rows, pid: int, birth: string) {
    pid in rows && birth != "" && rows[pid].birth == birth && (rows[pid].state == "" || rows[pid].state[0] != 'Z')
  }

  /** Parent links lead from c to another process that is the leader, alive under
      its birth, or an owned one still alive under the birth it is owned by. */
  ghost predicate Connected(rows: Rows, leader: int, leaderBirth: string, owned: Identities, c: int) {
    exists a :: a != c && Reachable(rows, a, c)
      && ((a == leader && AliveAs(rows, a, leaderBirth)) || (a in owned && AliveAs(rows, a, owned[a])))
  }

  /** What remember owns, exactly: every live process of the table that is connected,
      under the birth the table shows, and otherwise what was owned before. */
  lemma OwnedExactly(rows: Rows, leader: int, leaderBirth: string, owned: Identities, c: int)
    ensures var after := OwnedAfter(rows, leader, leaderBirth, owned);
      if c in rows && AliveAs(rows, c, rows[c].birth) && Connected(rows, leader, leaderBirth, owned, c) then
        c in after && after[c] == rows[c].birth
      else (c in after <==> c in owned) && (c in owned ==> after[c] == owned[c])
  {
    hide Reachable;
    var roots := Roots(rows, leader, leaderBirth, owned);
    assert forall a :: a in roots <==>
      ((a == leader && AliveAs(rows, a, leaderBirth)) || (a in owned && AliveAs(rows, a, owned[a])));
    if Connected(rows, leader, leaderBirth, owned, c) {
      var a :| a != c && Reachable(rows, a, c)
        && ((a == leader && AliveAs(rows, a, leaderBirth)) || (a in owned && AliveAs(rows, a, owned[a])));
      assert a in roots;
    }
  }

  // ---------- The run ----------

  datatype Monitor = NotStarted | Running | Exited

  /** seen: the snapshots ownership was taken from, each with the leader's birth at
      that time. last: the latest snapshot of the stopping goroutine. targets: what
      its signalling pass still has to signal. */
  datatype State = State(
    owned: Identities,
    leaderBirth: string,
    monitor: Monitor,
    cancelled: bool,
    joined: bool,
    settled: bool,
    observationErr: bool,
    probeErr: bool,
    last: Option<Rows>,
    targets: set<int>,
    seen: seq<(Rows, string)>)

  datatype Event =
    | StartProbe(probe: Probe)              // start
    | MonitorProbe(probe: Probe)            // a monitor tick completes
    | MonitorDone                           // the monitor sees its cancellation
    | Cancel                                // stop, first half
    | Join                                  // stop has received monitorDone
    | SettleProbe(probe: Probe)             // stop's first snapshot
    | PollProbe(probe: Probe)               // a snapshot that only looks
    | TargetProbe(probe: Probe)             // a snapshot that decides whom to signal
    | Send(pid: int, signal: Signal)

  const INITIAL := State(map[], "", NotStarted, false, false, false, false, false, None, {}, [])

  /** remember in this state: own what the snapshot connects to a root. */
  ghost function Remembered(s: State, leader: int, rows: Rows, birth: string): State {
    s.(owned := OwnedAfter(rows, leader, birth, s.owned), leaderBirth := birth, seen := s.seen + [(rows, birth)])
  }

  /** survivors, as the set it lists. */
  ghost function Surviving(rows: Rows, owned: Identities): set<int> {
    set p | p in owned && Survives(rows, owned, p)
  }

  /** Only the order of things restrains an event. Send goes to whom the latest
      signalling pass listed, whatever became of them or of the state since. */
  ghost predicate Enabled(s: State, e: Event) {
    match e
    case StartProbe(_) => s.monitor == NotStarted && !s.cancelled && s.seen == []
    case MonitorProbe(_) => s.monitor == Running
    case MonitorDone => s.monitor == Running && s.cancelled
    case Cancel => !s.cancelled
    case Join => s.cancelled && s.monitor != Running && !s.joined
    case SettleProbe(_) => s.joined && !s.settled
    case PollProbe(_) => s.settled
    case TargetProbe(_) => s.settled
    case Send(pid, _) => pid in s.targets
  }

  ghost function After(s: State, leader: int, e: Event): State
    requires Enabled(s, e)
  {
    match e
    case StartProbe(Failed) => s.(observationErr := true)
    case StartProbe(Seen(rows)) => Remembered(s, leader, rows, RowOf(rows, leader).birth).(monitor := Running)
    case MonitorProbe(Failed) => s.(monitor := Exited, observationErr := s.observationErr || !s.cancelled)
    case MonitorProbe(Seen(rows)) => Remembered(s, leader, rows, s.leaderBirth)
    case MonitorDone => s.(monitor := Exited)
    case Cancel => s.(cancelled := true)
    case Join => s.(joined := true)
    case SettleProbe(Failed) => s.(probeErr := true, last := None)
    case SettleProbe(Seen(rows)) =>
      var birth := if s.leaderBirth == "" then RowOf(rows, leader).birth else s.leaderBirth;
      Remembered(s, leader, rows, birth).(settled := true, last := Some(rows))
    case PollProbe(Failed) => s.(probeErr := true, last := None, targets := {})
    case PollProbe(Seen(rows)) => s.(last := Some(rows), targets := {})
    case TargetProbe(Failed) => s.(probeErr := true, last := None, targets := {})
    case TargetProbe(Seen(rows)) => s.(last := Some(rows), targets := Surviving(rows, s.owned))
    case Send(pid, _) => s.(targets := s.targets - {pid})
  }

  ghost predicate Legal(s: State, leader: int, events: seq<Event>)
    decreases |events|
  {
    events == [] || (Enabled(s, events[0]) && Legal(After(s, leader, events[0]), leader, events[1..]))
  }

  ghost function Run(s: State, leader: int, events: seq<Event>): State
    requires Legal(s, leader, events)
    decreases |events|
  {
    if events == [] then s else Run(After(s, leader, events[0]), leader, events[1..])
  }

  lemma {:induction false} RunAppend(s: State, leader: int, events: seq<Event>, e: Event)
    requires Legal(s, leader, events) && Enabled(Run(s, leader, events), e)
    ensures Legal(s, leader, events + [e])
    ensures Run(s, leader, events + [e]) == After(Run(s, leader, events), leader, e)
    decreases |events|
  {
    hide Enabled, After;
    var more := events + [e];
    if events == [] {
      assert more[0] == e && more[1..] == [];
    } else {
      assert more[0] == events[0] && more[1..] == events[1..] + [e];
      RunAppend(After(s, leader, events[0]), leader, events[1..], e);
    }
  }

  // ---------- What the events say ----------

  /** The operating system's part of an event. */
  function ActionsOf(e: Event): seq<Action> {
    match e
    case StartProbe(p) => [Probed(p)]
    case MonitorProbe(p) => [Probed(p)]
    case SettleProbe(p) => [Probed(p)]
    case PollProbe(p) => [Probed(p)]
    case TargetProbe(p) => [Probed(p)]
    case Send(pid, signal) => [Signalled(pid, signal)]
    case MonitorDone => []
    case Cancel => []
    case Join => []
  }

  function Actions(events: seq<Event>): seq<Action> {
    if events == [] then [] else Actions(events[..|events| - 1]) + ActionsOf(events[|events| - 1])
  }

  lemma ActionsAppend(events: seq<Event>, e: Event)
    ensures Actions(events + [e]) == Actions(events) + ActionsOf(e)
  {
    assert (events + [e])[..|events|] == events;
  }

  /** The table an event's probe showed, if it is one that ownership is taken from. */
  function OwningTable(e: Event): seq<Rows> {
    match e
    case StartProbe(Seen(rows)) => [rows]
    case MonitorProbe(Seen(rows)) => [rows]
    case SettleProbe(Seen(rows)) => [rows]
    case _ => []
  }

  /** The tables ownership is taken from, in order. */
  function OwningTables(events: seq<Event>): seq<Rows> {
    if events == [] then [] else OwningTable(events[0]) + OwningTables(events[1..])
  }

  function Tables(seen: seq<(Rows, string)>): (r: seq<Rows>)
    ensures |r| == |seen| && forall k :: 0 <= k < |seen| ==> r[k] == seen[k].0
  {
    if seen == [] then [] else [seen[0].0] + Tables(seen[1..])
  }

  lemma TablesExtend(seen: seq<(Rows, string)>, more: (Rows, string))
    ensures Tables(seen + [more]) == Tables(seen) + [more.0]
  {
  }

  /** A step changes ownership only by a table it takes it from, and then logs it
      with the birth the leader is known by. */
  lemma StepSeen(s: State, leader: int, e: Event)
    requires Enabled(s, e)
    ensures var s' := After(s, leader, e);
      if OwningTable(e) == [] then s'.seen == s.seen && s'.owned == s.owned && s'.leaderBirth == s.leaderBirth
      else
        var rows := OwningTable(e)[0];
        && OwningTable(e) == [rows] && s'.seen == s.seen + [(rows, s'.leaderBirth)]
        && s'.owned == OwnedAfter(rows, leader, s'.leaderBirth, s.owned)
        && (s'.leaderBirth == s.leaderBirth
            || ((s.leaderBirth == "" || s.seen == []) && s'.leaderBirth == RowOf(rows, leader).birth))
  {
    hide OwnedAfter, Surviving;
  }

  lemma StepTables(s: State, leader: int, e: Event)
    requires Enabled(s, e)
    ensures Tables(After(s, leader, e).seen) == Tables(s.seen) + OwningTable(e)
  {
    StepSeen(s, leader, e);
    hide After, Enabled, OwningTable, Tables;
    if OwningTable(e) != [] { TablesExtend(s.seen, (OwningTable(e)[0], After(s, leader, e).leaderBirth)); }
  }

  /** The log of snapshots is exactly the tables the probes showed, in order. */
  lemma {:induction false} SeenIsProbed(s: State, leader: int, events: seq<Event>)
    requires Legal(s, leader, events)
    ensures Tables(Run(s, leader, events).seen) == Tables(s.seen) + OwningTables(events)
    decreases |events|
  {
    hide Enabled, After, Tables, OwningTable;
    if events != [] {
      StepTables(s, leader, events[0]);
      SeenIsProbed(After(s, leader, events[0]), leader, events[1..]);
    }
  }

  /** Each of those tables was the answer to a probe. */
  lemma {:induction false} TablesAreProbed(events: seq<Event>, k: nat)
    requires k < |OwningTables(events)|
    ensures exists i :: 0 <= i < |events| && OwningTable(events[i]) == [OwningTables(events)[k]]
  {
    var first := OwningTable(events[0]);
    if k < |first| {
      assert OwningTable(events[0]) == [OwningTables(events)[k]];
    } else {
      TablesAreProbed(events[1..], k - |first|);
      var i :| 0 <= i < |events[1..]| && OwningTable(events[1..][i]) == [OwningTables(events)[k]];
      assert events[i + 1] == events[1..][i];
    }
  }

  lemma {:induction false} OwningInActions(events: seq<Event>, i: nat, rows: Rows)
    requires i < |events| && OwningTable(events[i]) == [rows]
    ensures Probed(Seen(rows)) in Actions(events)
  {
    var front, last := events[..|events| - 1], events[|events| - 1];
    if i < |front| {
      OwningInActions(front, i, rows);
    } else {
      assert ActionsOf(last) == [Probed(Seen(rows))];
      assert Actions(events)[|Actions(front)|] == Probed(Seen(rows));
    }
  }

  function TableOf(p: Probe): Option<Rows> {
    match p
    case Seen(rows) => Some(rows)
    case Failed => None
  }

  /** What the latest probe showed, or None if it failed. */
  function LatestTable(events: seq<Event>): Option<Rows> {
    if events == [] then None
    else
      match events[|events| - 1]
      case StartProbe(p) => TableOf(p)
      case MonitorProbe(p) => TableOf(p)
      case SettleProbe(p) => TableOf(p)
      case PollProbe(p) => TableOf(p)
      case TargetProbe(p) => TableOf(p)
      case _ => LatestTable(events[..|events| - 1])
  }

  // ---------- The invariant ----------

  /** What was owned after the first n snapshots. */
  ghost function OwnedThrough(seen: seq<(Rows, string)>, leader: int, n: nat): Identities
    requires n <= |seen|
  {
    if n == 0 then map[] else OwnedAfter(seen[n - 1].0, leader, seen[n - 1].1, OwnedThrough(seen, leader, n - 1))
  }

  /** Every birth the leader was known by is one birth, read from some snapshot. */
  ghost predicate BirthFixed(seen: seq<(Rows, string)>, leader: int, birth: string) {
    && (forall k :: 0 <= k < |seen| && seen[k].1 != "" ==> seen[k].1 == birth)
    && (birth != "" ==> exists k :: 0 <= k < |seen| && RowOf(seen[k].0, leader).birth == birth)
  }

  /** What is owned is what the snapshots led to. */
  ghost predicate OwnedInv(s: State, leader: int) {
    s.owned == OwnedThrough(s.seen, leader, |s.seen|) && BirthFixed(s.seen, leader, s.leaderBirth)
  }

  /** The order of things, and whom a pass may still signal. */
  ghost predicate OrderInv(s: State) {
    && (s.joined ==> s.cancelled && s.monitor != Running)
    && (s.settled ==> s.joined)
    && (s.targets != {} ==> s.settled && s.last.Some?)
    && (forall p <- s.targets :: Survives(s.last.value, s.owned, p))
  }

  ghost predicate Inv(s: State, leader: int) { OwnedInv(s, leader) && OrderInv(s) }

  lemma OwnedThroughPrefix(seen: seq<(Rows, string)>, more: seq<(Rows, string)>, leader: int, n: nat)
    requires n <= |seen| && seen <= more
    ensures OwnedThrough(more, leader, n) == OwnedThrough(seen, leader, n)
  {
    hide OwnedAfter;
    if n > 0 { OwnedThroughPrefix(seen, more, leader, n - 1); }
  }

  lemma BirthExtends(seen: seq<(Rows, string)>, leader: int, rows: Rows, before: string, birth: string)
    requires BirthFixed(seen, leader, before)
    requires birth == before || (before == "" && birth == RowOf(rows, leader).birth)
    ensures BirthFixed(seen + [(rows, birth)], leader, birth)
  {
    var more := seen + [(rows, birth)];
    assert more[|seen|] == (rows, birth);
    if birth == before && birth != "" {
      var k :| 0 <= k < |seen| && RowOf(seen[k].0, leader).birth == birth;
      assert RowOf(more[k].0, leader).birth == birth;
    }
  }

  lemma EmptyBirth(leader: int)
    ensures BirthFixed([], leader, "")
  {
  }

  lemma StepOwned(s: State, leader: int, e: Event)
    requires OwnedInv(s, leader) && Enabled(s, e)
    ensures OwnedInv(After(s, leader, e), leader)
  {
    StepSeen(s, leader, e);
    hide After, Enabled, OwningTable, OwnedAfter, BirthFixed;
    var s' := After(s, leader, e);
    if OwningTable(e) != [] {
      var rows := OwningTable(e)[0];
      OwnedThroughPrefix(s.seen, s'.seen, leader, |s.seen|);
      if s'.leaderBirth == s.leaderBirth || s.leaderBirth == "" {
        BirthExtends(s.seen, leader, rows, s.leaderBirth, s'.leaderBirth);
      } else {
        EmptyBirth(leader);
        BirthExtends(s.seen, leader, rows, "", s'.leaderBirth);
      }
    }
  }

  lemma StepOrder(s: State, leader: int, e: Event)
    requires OrderInv(s) && Enabled(s, e)
    ensures OrderInv(After(s, leader, e))
  {
    hide OwnedAfter, Survives;
  }

  lemma StepInv(s: State, leader: int, e: Event)
    requires Inv(s, leader) && Enabled(s, e)
    ensures Inv(After(s, leader, e), leader)
  {
    hide OwnedInv, OrderInv, After;
    StepOwned(s, leader, e);
    StepOrder(s, leader, e);
  }

  lemma {:induction false} RunInv(s: State, leader: int, events: seq<Event>)
    requires Inv(s, leader) && Legal(s, leader, events)
    ensures Inv(Run(s, leader, events), leader)
    decreases |events|
  {
    hide Inv, Enabled, After;
    if events != [] {
      StepInv(s, leader, events[0]);
      RunInv(After(s, leader, events[0]), leader, events[1..]);
    }
  }

  // ---------- Custody ----------

  /** In snapshot k this very identity was alive and reachable by parent links from
      a live root: the leader's identity or an identity owned before. */
  ghost predicate TakenFrom(seen: seq<(Rows, string)>, leader: int, k: nat, pid: int, birth: string) {
    && k < |seen| && AliveAs(seen[k].0, pid, birth)
    && Connected(seen[k].0, leader, seen[k].1, OwnedThrough(seen, leader, k), pid)
  }

  /** Snapshot k is the last of the first n that this pid was taken from. */
  ghost predicate LatestTaken(seen: seq<(Rows, string)>, leader: int, n: nat, k: nat, pid: int, birth: string) {
    && k < n && TakenFrom(seen, leader, k, pid, birth)
    && forall j, other :: k < j < n ==> !TakenFrom(seen, leader, j, pid, other)
  }

  /** pid is owned under this birth after the first n snapshots. */
  ghost predicate OwnedAs(seen: seq<(Rows, string)>, leader: int, n: nat, pid: int, birth: string)
    requires n <= |seen|
  {
    pid in OwnedThrough(seen, leader, n) && OwnedThrough(seen, leader, n)[pid] == birth
  }

  /** One snapshot: a pid taken from it is owned under the birth it shows; any other
      is owned as before. */
  lemma OwnedStep(seen: seq<(Rows, string)>, leader: int, n: nat, pid: int, birth: string)
    requires n < |seen|
    ensures TakenFrom(seen, leader, n, pid, birth) ==> OwnedAs(seen, leader, n + 1, pid, birth)
    ensures (forall other :: !TakenFrom(seen, leader, n, pid, other)) ==>
      (OwnedAs(seen, leader, n + 1, pid, birth) <==> OwnedAs(seen, leader, n, pid, birth))
  {
    OwnedExactly(seen[n].0, leader, seen[n].1, OwnedThrough(seen, leader, n), pid);
    hide OwnedAfter, Connected;
    if pid in seen[n].0 && AliveAs(seen[n].0, pid, seen[n].0[pid].birth)
      && Connected(seen[n].0, leader, seen[n].1, OwnedThrough(seen, leader, n), pid)
    {
      assert TakenFrom(seen, leader, n, pid, seen[n].0[pid].birth);
    }
  }

  lemma TakenOnce(seen: seq<(Rows, string)>, leader: int, k: nat, pid: int, birth: string, other: string)
    requires TakenFrom(seen, leader, k, pid, birth) && TakenFrom(seen, leader, k, pid, other)
    ensures birth == other
  {
    hide Connected, OwnedThrough;
  }

  lemma OwnedUnique(seen: seq<(Rows, string)>, leader: int, n: nat, pid: int, birth: string, other: string)
    requires n <= |seen| && OwnedAs(seen, leader, n, pid, other)
    ensures OwnedAs(seen, leader, n, pid, birth) <==> birth == other
  {
  }

  lemma LatestKept(seen: seq<(Rows, string)>, leader: int, m: nat, n: nat, pid: int, birth: string)
    requires n == m + 1 && forall other :: !TakenFrom(seen, leader, m, pid, other)
    ensures (exists k :: LatestTaken(seen, leader, n, k, pid, birth))
      <==> (exists k :: LatestTaken(seen, leader, m, k, pid, birth))
  {
    hide TakenFrom;
    if k :| LatestTaken(seen, leader, n, k, pid, birth) { assert LatestTaken(seen, leader, m, k, pid, birth); }
    if k :| LatestTaken(seen, leader, m, k, pid, birth) { assert LatestTaken(seen, leader, n, k, pid, birth); }
  }

  /** An identity is owned exactly if it was taken from some snapshot, and no later
      one showed the pid anew. */
  lemma {:induction false} OwnedIffTaken(seen: seq<(Rows, string)>, leader: int, n: nat, pid: int, birth: string)
    requires n <= |seen|
    ensures OwnedAs(seen, leader, n, pid, birth) <==> exists k :: LatestTaken(seen, leader, n, k, pid, birth)
    decreases n
  {
    if n > 0 {
      hide TakenFrom, OwnedAs;
      var m: nat := n - 1;
      OwnedIffTaken(seen, leader, m, pid, birth);
      OwnedStep(seen, leader, m, pid, birth);
      if other :| TakenFrom(seen, leader, m, pid, other) {
        OwnedStep(seen, leader, m, pid, other);
        OwnedUnique(seen, leader, n, pid, birth, other);
        assert LatestTaken(seen, leader, n, m, pid, other);
        if k :| LatestTaken(seen, leader, n, k, pid, birth) {
          assert k == m;
          TakenOnce(seen, leader, m, pid, birth, other);
        }
      } else {
        LatestKept(seen, leader, m, n, pid, birth);
      }
    }
  }

  /** Of the first n snapshots, the last one a pid was taken from. */
  lemma {:induction false} LastTaken(seen: seq<(Rows, string)>, leader: int, n: nat, k: nat, pid: int, birth: string)
    returns (last: nat, latest: string)
    requires k < n && TakenFrom(seen, leader, k, pid, birth)
    ensures LatestTaken(seen, leader, n, last, pid, latest)
    decreases n - k
  {
    hide TakenFrom;
    if j, other :| k < j < n && TakenFrom(seen, leader, j, pid, other) {
      last, latest := LastTaken(seen, leader, n, j, pid, other);
    } else {
      last, latest := k, birth;
    }
  }

  /** The snapshots of a run: what its probes showed, in order, with one birth of the
      leader, which one of them showed. */
  ghost predicate Witnessed(s: State, leader: int, events: seq<Event>) {
    && Tables(s.seen) == OwningTables(events)
    && BirthFixed(s.seen, leader, s.leaderBirth)
  }

  /** Custody over every run: an identity is owned at a moment exactly if, in some
      snapshot that a probe of the run showed, it was a live row reachable from the
      leader's identity or from an identity owned before that snapshot, and no later
      snapshot took the pid under another birth; and the leader's identity is one
      and the same throughout. */
  lemma CustodyHolds(leader: int, events: seq<Event>, pid: int, birth: string)
    requires Legal(INITIAL, leader, events)
    ensures var s := Run(INITIAL, leader, events);
      && Witnessed(s, leader, events)
      && (pid in s.owned && s.owned[pid] == birth <==>
            exists k :: LatestTaken(s.seen, leader, |s.seen|, k, pid, birth))
  {
    EmptyBirth(leader);
    RunInv(INITIAL, leader, events);
    SeenIsProbed(INITIAL, leader, events);
    var s := Run(INITIAL, leader, events);
    hide Run, Legal, LatestTaken, BirthFixed, OwningTables, Tables;
    OwnedIffTaken(s.seen, leader, |s.seen|, pid, birth);
  }

  /** Nobody is lost: over every run, whoever a snapshot showed alive below a live
      root is owned from then on. */
  lemma NobodyIsLost(leader: int, events: seq<Event>, k: nat, pid: int, birth: string)
    requires Legal(INITIAL, leader, events) && TakenFrom(Run(INITIAL, leader, events).seen, leader, k, pid, birth)
    ensures pid in Run(INITIAL, leader, events).owned
  {
    var s := Run(INITIAL, leader, events);
    hide Run, Legal, TakenFrom;
    var last, latest := LastTaken(s.seen, leader, |s.seen|, k, pid, birth);
    CustodyHolds(leader, events, pid, latest);
  }

  // ---------- Signals ----------

  lemma {:induction false} SplitLast(s: State, leader: int, front: seq<Event>, e: Event)
    requires Legal(s, leader, front + [e])
    ensures Legal(s, leader, front) && Enabled(Run(s, leader, front), e)
    ensures Run(s, leader, front + [e]) == After(Run(s, leader, front), leader, e)
    decreases |front|
  {
    hide Enabled, After;
    var more := front + [e];
    if front == [] {
      assert more[0] == e && more[1..] == [];
    } else {
      assert more[0] == front[0] && more[1..] == front[1..] + [e];
      SplitLast(After(s, leader, front[0]), leader, front[1..], e);
    }
  }

  lemma StepLast(s: State, leader: int, front: seq<Event>, e: Event)
    requires Inv(s, leader) && Enabled(s, e) && (s.settled ==> s.last == LatestTable(front))
    ensures After(s, leader, e).settled ==> After(s, leader, e).last == LatestTable(front + [e])
  {
    hide OwnedAfter, OwnedThrough, BirthFixed, Surviving, Survives;
    assert (front + [e])[..|front|] == front;
  }

  /** Once stop has probed, its latest snapshot is what the latest probe showed. */
  lemma {:induction false} LastIsLatest(leader: int, events: seq<Event>)
    requires Legal(INITIAL, leader, events)
    ensures Run(INITIAL, leader, events).settled ==> Run(INITIAL, leader, events).last == LatestTable(events)
    decreases |events|
  {
    if events != [] {
      var front, e := events[..|events| - 1], events[|events| - 1];
      assert events == front + [e];
      SplitLast(INITIAL, leader, front, e);
      LastIsLatest(leader, front);
      EmptyBirth(leader);
      RunInv(INITIAL, leader, front);
      hide Run, Legal, Enabled, After, Inv, LatestTable;
      StepLast(Run(INITIAL, leader, front), leader, front, e);
    } else {
      assert !INITIAL.settled;
    }
  }

  /** A signal only ever goes out after the join, to an owned pid that the latest
      probe showed alive under its recorded birth. This rests on the order of things
      alone: between listing and signalling nobody probes and nothing is owned. */
  lemma SignalsAreChecked(leader: int, before: seq<Event>, pid: int, signal: Signal)
    requires Legal(INITIAL, leader, before) && Enabled(Run(INITIAL, leader, before), Send(pid, signal))
    ensures var s := Run(INITIAL, leader, before);
      && s.joined && s.monitor != Running
      && LatestTable(before).Some? && Survives(LatestTable(before).value, s.owned, pid)
  {
    EmptyBirth(leader);
    RunInv(INITIAL, leader, before);
    LastIsLatest(leader, before);
  }

  // ---------- Signalling passes ----------

  /** From `before` on, the events are one signalling pass: the probe that lists whom
      to signal, then signals of one kind. */
  ghost predicate Pass(before: seq<Event>, after: seq<Event>, signal: Signal) {
    && before <= after && |before| < |after| && after[|before|].TargetProbe?
    && forall i :: |before| < i < |after| ==> after[i].Send? && after[i].signal == signal
  }

  /** A pass that ran to its end: nobody it listed is left to signal. */
  ghost predicate CompletePass(leader: int, before: seq<Event>, after: seq<Event>, signal: Signal) {
    && Pass(before, after, signal) && after[|before|].probe.Seen?
    && Legal(INITIAL, leader, after) && Run(INITIAL, leader, after).targets == {}
  }

  /** p is sent this signal by one of the events from i on. */
  ghost predicate SentIn(events: seq<Event>, from: nat, p: int, signal: Signal) {
    exists i :: from <= i < |events| && events[i] == Send(p, signal)
  }

  lemma SentOneMore(front: seq<Event>, e: Event, from: nat, p: int, signal: Signal)
    requires from <= |front|
    ensures SentIn(front + [e], from, p, signal) <==> SentIn(front, from, p, signal) || e == Send(p, signal)
  {
    var more := front + [e];
    assert more[|front|] == e;
    assert forall i :: 0 <= i < |front| ==> more[i] == front[i];
  }

  lemma PassFront(before: seq<Event>, front: seq<Event>, e: Event, signal: Signal)
    requires Pass(before, front + [e], signal) && |before| < |front|
    ensures Pass(before, front, signal) && front[|before|] == (front + [e])[|before|]
    ensures e.Send? && e.signal == signal
  {
    var more := front + [e];
    assert before == more[..|before|] == front[..|before|];
    assert more[|front|] == e;
    forall i | |before| < i < |front| ensures front[i].Send? && front[i].signal == signal {
      assert more[i] == front[i];
    }
  }

  lemma {:induction false} PassTargets(leader: int, before: seq<Event>, after: seq<Event>, signal: Signal, p: int)
    requires Pass(before, after, signal) && after[|before|].probe.Seen? && Legal(INITIAL, leader, after)
    ensures Legal(INITIAL, leader, before)
    ensures p in Run(INITIAL, leader, after).targets <==>
      Survives(after[|before|].probe.rows, Run(INITIAL, leader, before).owned, p)
        && !SentIn(after, |before| + 1, p, signal)
    ensures Run(INITIAL, leader, after).owned == Run(INITIAL, leader, before).owned
    ensures SentIn(after, |before| + 1, p, signal) ==>
      Survives(after[|before|].probe.rows, Run(INITIAL, leader, before).owned, p)
    decreases |after|
  {
    var front, e := after[..|after| - 1], after[|after| - 1];
    assert after == front + [e];
    SplitLast(INITIAL, leader, front, e);
    hide Survives;
    if |after| == |before| + 1 {
      assert front == before;
    } else {
      PassFront(before, front, e, signal);
      PassTargets(leader, before, front, signal, p);
      SentOneMore(front, e, |before| + 1, p, signal);
      hide Run, Legal, SentIn;
    }
  }

  /** A complete pass signals exactly those its own probe showed alive under the
      birth they are owned by. */
  lemma CompletePassSignals(leader: int, before: seq<Event>, after: seq<Event>, signal: Signal, p: int)
    requires CompletePass(leader, before, after, signal)
    ensures Legal(INITIAL, leader, before)
    ensures SentIn(after, |before| + 1, p, signal) <==>
      Survives(after[|before|].probe.rows, Run(INITIAL, leader, before).owned, p)
  {
    PassTargets(leader, before, after, signal, p);
  }

  /** From `before` on, every event is a snapshot that only looks. */
  ghost predicate OnlyLooks(before: seq<Event>, after: seq<Event>) {
    before <= after && forall i :: |before| <= i < |after| ==> after[i].PollProbe?
  }

  /** How far the signalling of stop got, with the events up to the end of the
      SIGTERM pass, of the polls that followed, and of the SIGKILL pass. */
  datatype Stage =
    | TriedTerm
    | Waited(termed: seq<Event>)
    | TriedKill(termed: seq<Event>, polled: seq<Event>)
    | Killed(termed: seq<Event>, polled: seq<Event>, killed: seq<Event>)

  /** SIGKILL is sent only after a complete SIGTERM pass, and only a complete SIGKILL
      pass is followed by anything. */
  ghost predicate Reached(leader: int, before: seq<Event>, after: seq<Event>, stage: Stage) {
    match stage
    case TriedTerm => Pass(before, after, Term)
    case Waited(termed) => CompletePass(leader, before, termed, Term) && OnlyLooks(termed, after)
    case TriedKill(termed, polled) =>
      CompletePass(leader, before, termed, Term) && OnlyLooks(termed, polled) && Pass(polled, after, Kill)
    case Killed(termed, polled, killed) =>
      && CompletePass(leader, before, termed, Term) && OnlyLooks(termed, polled)
      && CompletePass(leader, polled, killed, Kill) && OnlyLooks(killed, after)
  }

  // ---------- After the join, and without errors ----------

  ghost predicate MonitorEvent(e: Event) { e.MonitorProbe? || e.MonitorDone? }

  lemma JoinedStep(s: State, leader: int, e: Event)
    requires Inv(s, leader) && s.joined && Enabled(s, e)
    ensures var s' := After(s, leader, e);
      && !MonitorEvent(e) && s'.joined && s'.observationErr == s.observationErr
      && (s.settled ==> s'.settled && s'.owned == s.owned)
  {
    hide OwnedAfter, OwnedThrough, BirthFixed, Surviving, Survives;
  }

  /** Once joined, the monitor takes no further step in any continuation, and after
      the first probe of stop ownership never changes again. */
  lemma {:induction false} NothingAfterJoin(s: State, leader: int, events: seq<Event>)
    requires Inv(s, leader) && s.joined && Legal(s, leader, events)
    ensures forall i :: 0 <= i < |events| ==> !MonitorEvent(events[i])
    ensures s.settled ==> Run(s, leader, events).owned == s.owned
    ensures Run(s, leader, events).observationErr == s.observationErr
    decreases |events|
  {
    hide Inv, Enabled, After, MonitorEvent;
    if events != [] {
      StepInv(s, leader, events[0]);
      JoinedStep(s, leader, events[0]);
      NothingAfterJoin(After(s, leader, events[0]), leader, events[1..]);
      forall i | 0 <= i < |events| ensures !MonitorEvent(events[i]) {
        if i > 0 { assert events[i] == events[1..][i - 1]; }
      }
    }
  }

  predicate FailedProbe(e: Event) {
    match e
    case StartProbe(p) => p == Failed
    case MonitorProbe(p) => p == Failed
    case SettleProbe(p) => p == Failed
    case PollProbe(p) => p == Failed
    case TargetProbe(p) => p == Failed
    case _ => false
  }

  /** Event i is a probe of the monitor that ended after its cancellation. */
  ghost predicate CancelledProbe(s: State, leader: int, events: seq<Event>, i: nat) {
    i < |events| && events[i].MonitorProbe? && Legal(s, leader, events[..i]) && Run(s, leader, events[..i]).cancelled
  }

  lemma {:induction false} ErrorsStay(s: State, leader: int, events: seq<Event>)
    requires Legal(s, leader, events)
    ensures s.observationErr ==> Run(s, leader, events).observationErr
    ensures s.probeErr ==> Run(s, leader, events).probeErr
    decreases |events|
  {
    if events != [] { ErrorsStay(After(s, leader, events[0]), leader, events[1..]); }
  }

  /** No recorded error means every probe that did not succeed was the monitor's, and
      the cancellation had already reached it. */
  lemma {:induction false} CleanObservation(s: State, leader: int, events: seq<Event>, i: nat)
    requires Legal(s, leader, events) && i < |events| && FailedProbe(events[i])
    requires !Run(s, leader, events).observationErr && !Run(s, leader, events).probeErr
    ensures CancelledProbe(s, leader, events, i)
    decreases |events|
  {
    var s' := After(s, leader, events[0]);
    if i == 0 {
      if s'.observationErr || s'.probeErr { ErrorsStay(s', leader, events[1..]); }
      assert events[..0] == [];
    } else {
      hide Enabled, After;
      CleanObservation(s', leader, events[1..], i - 1);
      assert events[..i][0] == events[0] && events[..i][1..] == events[1..][..i - 1];
    }
  }

  /** Event i is a failed probe that counts: not one the monitor lost to its
      cancellation. */
  ghost predicate Counts(s: State, leader: int, events: seq<Event>, i: nat) {
    i < |events| && FailedProbe(events[i]) && !CancelledProbe(s, leader, events, i)
  }

  lemma CountsLater(s: State, leader: int, events: seq<Event>, i: nat)
    requires Legal(s, leader, events) && events != [] && Counts(After(s, leader, events[0]), leader, events[1..], i)
    ensures Counts(s, leader, events, i + 1)
  {
    hide After, Enabled;
    assert events[i + 1] == events[1..][i];
    assert events[..i + 1][0] == events[0] && events[..i + 1][1..] == events[1..][..i];
  }

  lemma {:induction false} ErrorHasCause(s: State, leader: int, events: seq<Event>) returns (i: nat)
    requires Legal(s, leader, events) && !s.observationErr && !s.probeErr
    requires Run(s, leader, events).observationErr || Run(s, leader, events).probeErr
    ensures Counts(s, leader, events, i)
    decreases |events|
  {
    var s' := After(s, leader, events[0]);
    if s'.observationErr || s'.probeErr {
      i := 0;
      assert events[..0] == [];
    } else {
      hide After, Enabled, Counts;
      i := ErrorHasCause(s', leader, events[1..]);
      CountsLater(s, leader, events, i);
      i := i + 1;
    }
  }

  /** An error is recorded exactly if some probe failed that the monitor did not lose
      to its cancellation. */
  lemma ErrorsExactly(leader: int, events: seq<Event>)
    requires Legal(INITIAL, leader, events)
    ensures var s := Run(INITIAL, leader, events);
      s.observationErr || s.probeErr <==> exists i :: Counts(INITIAL, leader, events, i)
  {
    var s := Run(INITIAL, leader, events);
    hide Run, Legal;
    if s.observationErr || s.probeErr {
      var i := ErrorHasCause(INITIAL, leader, events);
    } else if i: nat :| Counts(INITIAL, leader, events, i) {
      CleanObservation(INITIAL, leader, events, i);
    }
  }
}
