/** The tracker that owns descendants across snapshots and cleans them up. Probes,
    signal results and the clock are the environment's to choose. Whatever it does
    is a run of Custody. */
module DescendantCleanup {
  import opened ByteStrings
  import opened Descendants
  import opened Custody

  datatype KillResult = Delivered | NoSuchProcess | Denied

  /** Joined errors; nil is the empty set. */
  datatype Error = ProbeError | KillError | ContextEnded | SurvivedCleanup | ObservationError

  datatype Status = NotObserved | SnapshotFailed | ObservedTrustedDescendants | LeaderExitRace

  const TERM_GRACE := 350
  const POLL := 20

  // ---------- The order of searches ----------

  lemma MergeAssociates(a: Identities, b: Identities, c: Identities)
    ensures (a + b) + c == a + (b + c)
  {
  }

  lemma GainedStep(rows: Rows, roots: set<int>, a: int)
    ensures Gained(rows, roots) + LiveBelow(rows, a) == Gained(rows, roots + {a})
  {
    var left, right := Gained(rows, roots) + LiveBelow(rows, a), Gained(rows, roots + {a});
    forall c ensures c in left <==> c in right {
      if c in right {
        var b :| b in roots + {a} && b != c && Reachable(rows, b, c);
      }
      if c in Gained(rows, roots) {
        var b :| b in roots && b != c && Reachable(rows, b, c);
        assert b in roots + {a};
      }
      if c in LiveBelow(rows, a) { assert a in roots + {a}; }
    }
  }

  // ---------- The environment ----------

  /** The operating system and the caller's context: any probe may fail or show
      any table, any signal may fail, time only moves forward, and the context
      ends at its deadline or earlier. */
  class World {
    ghost var trace: seq<Action>
    ghost var denied: bool       // some signal was refused
    var now: nat
    var ended: bool
    const deadline: nat

    constructor (deadline: nat)
      ensures trace == [] && !denied && this.deadline == deadline
    {
      trace, denied, now, ended, this.deadline := [], false, 0, false, deadline;
    }

    predicate Done()
      reads this
    {
      ended || now >= deadline
    }

    method Pass(least: nat)
      modifies this`now, this`ended
      ensures now >= old(now) + least && (old(ended) ==> ended)
    {
      var more: int := *;
      var stop: bool := *;
      now := now + least + (if more > 0 then more else 0);
      ended := ended || stop;
    }

    method Snapshot() returns (p: Probe)
      modifies this
      ensures trace == old(trace) + [Probed(p)] && denied == old(denied)
      ensures now >= old(now) && (old(ended) ==> ended)
    {
      Pass(0);
      p := *;
      trace := trace + [Probed(p)];
    }

    method SendSignal(pid: int, signal: Signal) returns (r: KillResult)
      modifies this
      ensures trace == old(trace) + [Signalled(pid, signal)] && denied == (old(denied) || r == Denied)
      ensures now >= old(now) && (old(ended) ==> ended)
    {
      Pass(0);
      r := *;
      trace, denied := trace + [Signalled(pid, signal)], denied || r == Denied;
    }

    /** select on the context and a poll timer. */
    method Wait() returns (contextDone: bool)
      modifies this`now, this`ended
      ensures if contextDone then Done() else !old(Done()) && now >= old(now) + POLL
      ensures now >= old(now)
    {
      if Done() { return true; }
      var woken: bool := *;
      if woken {
        Pass(0);
        if Done() { return true; }
      }
      Pass(POLL);
      contextDone := false;
    }
  }

  /** What an error of stop's second half rests on. */
  ghost predicate Caused(w: World, e: Error)
    reads w
  {
    match e
    case ProbeError => w.trace != [] && w.trace[|w.trace| - 1] == Probed(Failed)
    case KillError => w.denied
    case ContextEnded => w.Done()
    case SurvivedCleanup => w.Done()
    case ObservationError => false
  }

  lemma NotObservation(w: World, e: Error)
    requires Caused(w, e)
    ensures e != ObservationError
  {
  }

  // ---------- What a trace shows ----------

  /** The table of the latest probe, when that probe succeeded. */
  ghost function LastSeen(t: seq<Action>): Option<Rows> {
    if t == [] then None
    else match t[|t| - 1]
      case Probed(Seen(rows)) => Some(rows)
      case Probed(Failed) => None
      case Signalled(_, _) => LastSeen(t[..|t| - 1])
  }

  ghost predicate OneProbe(before: seq<Action>, after: seq<Action>) {
    |after| == |before| + 1 && before <= after && after[|before|].Probed?
  }

  /** Every signal from `from` on went to an owned pid that the latest snapshot
      still showed alive under its recorded birth. */
  ghost predicate SignalsChecked(t: seq<Action>, from: nat, owned: Identities) {
    forall i :: from <= i < |t| && t[i].Signalled? ==>
      LastSeen(t[..i]).Some? && Survives(LastSeen(t[..i]).value, owned, t[i].pid)
  }

  ghost predicate ProbesSucceeded(t: seq<Action>, from: nat) {
    forall i :: from <= i < |t| && t[i].Probed? ==> t[i].probe.Seen?
  }

  /** No owned identity is alive in the latest snapshot. */
  ghost predicate NoneLeft(t: seq<Action>, owned: Identities) {
    LastSeen(t).Some? && forall p <- owned :: !Survives(LastSeen(t).value, owned, p)
  }

  /** `leaked` is exactly what the latest snapshot still shows, and it is not empty. */
  ghost predicate StillAlive(t: seq<Action>, owned: Identities, leaked: seq<int>) {
    && LastSeen(t).Some? && leaked != []
    && forall p :: p in leaked <==> Survives(LastSeen(t).value, owned, p)
  }

  lemma ProbeAppended(t: seq<Action>, from: nat, p: Probe, owned: Identities)
    requires from <= |t| && SignalsChecked(t, from, owned)
    ensures var t' := t + [Probed(p)];
      && SignalsChecked(t', from, owned)
      && (ProbesSucceeded(t, from) && p.Seen? ==> ProbesSucceeded(t', from))
      && (p.Seen? ==> LastSeen(t') == Some(p.rows))
  {
    var t' := t + [Probed(p)];
    assert forall i :: 0 <= i <= |t| ==> t'[..i] == t[..i];
  }

  lemma NoSignalsYet(t: seq<Action>, from: nat, owned: Identities)
    requires |t| == from + 1 && t[from].Probed? && t[from].probe.Seen?
    ensures SignalsChecked(t, from, owned) && ProbesSucceeded(t, from) && LastSeen(t) == Some(t[from].probe.rows)
  {
  }

  lemma FailedSettles(t: seq<Action>, from: nat, owned: Identities)
    requires |t| == from + 1 && t[from].Probed?
    ensures SignalsChecked(t, from, owned)
  {
  }

  lemma SignalAppended(t: seq<Action>, from: nat, pid: int, signal: Signal, owned: Identities)
    requires from <= |t| && SignalsChecked(t, from, owned)
    requires LastSeen(t).Some? && Survives(LastSeen(t).value, owned, pid)
    ensures var t' := t + [Signalled(pid, signal)];
      && SignalsChecked(t', from, owned)
      && (ProbesSucceeded(t, from) ==> ProbesSucceeded(t', from))
      && LastSeen(t') == LastSeen(t)
  {
    var t' := t + [Signalled(pid, signal)];
    assert forall i :: 0 <= i <= |t| ==> t'[..i] == t[..i];
    assert t[..|t|] == t;
  }

  /** What the survivors of the latest snapshot mean for the outcome. */
  lemma SurvivorsDecide(t: seq<Action>, owned: Identities, rows: Rows, left: seq<int>)
    requires LastSeen(t) == Some(rows)
    requires forall p :: p in left <==> Survives(rows, owned, p)
    requires left == [] <==> forall p <- owned :: !Survives(rows, owned, p)
    ensures if left == [] then NoneLeft(t, owned) else StillAlive(t, owned, left)
  {
    hide Survives, LastSeen;
  }

  // ---------- The tracker ----------

  /** How the observation went, by stop's first snapshot: did it show the leader
      alive? */
  function StatusFor(rows: Rows, leader: int): Status {
    if leader in rows && AliveAs(rows, leader, rows[leader].birth) then ObservedTrustedDescendants else LeaderExitRace
  }

  lemma StatusByRow(rows: Rows, leader: int)
    ensures StatusFor(rows, leader) ==
      if RowOf(rows, leader).birth == "" || Zombie(RowOf(rows, leader)) then LeaderExitRace
      else ObservedTrustedDescendants
  {
  }

  /** stop has got equally far. */
  ghost predicate SamePhase(a: State, b: State) {
    a.cancelled == b.cancelled && a.joined == b.joined && a.settled == b.settled && a.probeErr == b.probeErr
  }

  class Tracker {
    var cleaned: seq<int>
    var leaked: seq<int>
    var status: Status
    var owned: Identities
    var leaderBirth: string
    var monitoring: bool         // a monitor goroutine exists and has not finished
    var cancelled: bool          // its context was cancelled
    var observationErr: bool
    ghost var events: seq<Event> // the run so far, and the state it leads to
    ghost var state: State

    constructor ()
      ensures cleaned == [] && leaked == [] && owned == map[] && leaderBirth == "" && status == NotObserved
      ensures !monitoring && !cancelled && !observationErr
      ensures events == [] && state == INITIAL
    {
      cleaned, leaked, status, owned, leaderBirth := [], [], NotObserved, map[], "";
      monitoring, cancelled, observationErr := false, false, false;
      events, state := [], INITIAL;
    }

    /** The events are a legal run, and what they ask of the operating system is what
        it was asked. */
    ghost predicate Logged(w: World, pid: int)
      reads this`events, this`state, w`trace
    {
      Legal(INITIAL, pid, events) && state == Run(INITIAL, pid, events) && w.trace == Actions(events)
    }

    /** The fields are those of the state the run leads to. */
    ghost predicate Agrees()
      reads this`state, this`owned, this`leaderBirth, this`observationErr, this`monitoring, this`cancelled
    {
      && state.owned == owned && state.leaderBirth == leaderBirth && state.observationErr == observationErr
      && (state.monitor == Running <==> monitoring) && (monitoring ==> state.cancelled == cancelled)
    }

    ghost predicate Follows(w: World, pid: int)
      reads this`state, this`owned, this`leaderBirth, this`observationErr, this`monitoring, this`cancelled
      reads this`events, w`trace
    {
      Logged(w, pid) && Agrees()
    }

    /** One more event, whose action (if any) the world has already seen. */
    ghost method Log(w: World, pid: int, e: Event, trace: seq<Action>)
      requires Legal(INITIAL, pid, events) && state == Run(INITIAL, pid, events) && trace == Actions(events)
      requires Enabled(state, e) && w.trace == trace + ActionsOf(e)
      modifies this`events, this`state
      ensures Logged(w, pid) && events == old(events) + [e] && state == After(old(state), pid, e)
    {
      RunAppend(INITIAL, pid, events, e);
      ActionsAppend(events, e);
      hide Run, Legal, Actions, ActionsOf;
      events, state := events + [e], After(state, pid, e);
    }

    /** remember: own every live process the snapshot connects to a live root. */
    method Remember(rows: Rows, pid: int)
      modifies this`owned
      ensures owned == OwnedAfter(rows, pid, leaderBirth, old(owned))
    {
      hide Roots, Live, SameProcess, Reachable;
      var roots := Roots(rows, pid, leaderBirth, owned);
      var rest := roots;
      ghost var start, searched := owned, {};
      assert owned == start + Gained(rows, searched);
      hide Gained, LiveBelow;
      while |rest| > 0
        invariant rest + searched == roots
        invariant owned == start + Gained(rows, searched)
        decreases |rest|
      {
        ghost var some := Member(rest);
        var ancestor :| ancestor in rest;
        var found := FindDescendants(rows, ancestor);
        GainedStep(rows, searched, ancestor);
        MergeAssociates(start, Gained(rows, searched), found);
        owned, rest, searched := owned + found, rest - {ancestor}, searched + {ancestor};
      }
      assert searched == roots;
    }

    /** start, up to the monitor: one probe fixes the leader's birth. */
    method Start(w: World, pid: int) returns (failed: bool)
      requires Follows(w, pid) && state.monitor == NotStarted && !state.cancelled && state.seen == [] && !cancelled
      modifies this, w
      ensures Follows(w, pid) && SamePhase(old(state), state) && OneProbe(old(w.trace), w.trace)
      ensures events == old(events) + [StartProbe(w.trace[|old(w.trace)|].probe)]
      ensures match w.trace[|old(w.trace)|].probe {
        case Failed => failed && observationErr && owned == old(owned) && !monitoring && leaderBirth == old(leaderBirth)
        case Seen(rows) =>
          && !failed && leaderBirth == RowOf(rows, pid).birth && monitoring && observationErr == old(observationErr)
          && owned == OwnedAfter(rows, pid, leaderBirth, old(owned)) }
      ensures cleaned == old(cleaned) && !cancelled
    {
      hide OwnedAfter, Run, Legal, Actions;
      ghost var before := w.trace;
      var p := w.Snapshot();
      Log(w, pid, StartProbe(p), before);
      match p {
        case Failed =>
          observationErr := true;
          failed := true;
        case Seen(rows) =>
          leaderBirth := RowOf(rows, pid).birth;
          Remember(rows, pid);
          monitoring := true;
          failed := false;
      }
    }

    /** One tick of the monitor: own what the probe shows, or stop; a failure counts
        against the observation only if the monitor was not cancelled. */
    method MonitorTick(w: World, pid: int)
      requires Follows(w, pid) && monitoring
      modifies this`owned, this`monitoring, this`observationErr, this`events, this`state, w
      ensures Follows(w, pid) && SamePhase(old(state), state) && OneProbe(old(w.trace), w.trace)
      ensures events == old(events) + [MonitorProbe(w.trace[|old(w.trace)|].probe)]
      ensures match w.trace[|old(w.trace)|].probe {
        case Failed => owned == old(owned) && !monitoring && observationErr == (old(observationErr) || !cancelled)
        case Seen(rows) => owned == OwnedAfter(rows, pid, leaderBirth, old(owned)) && monitoring
          && observationErr == old(observationErr) }
    {
      hide OwnedAfter, Run, Legal, Actions;
      ghost var before := w.trace;
      var p := w.Snapshot();
      Log(w, pid, MonitorProbe(p), before);
      match p {
        case Failed =>
          if !cancelled { observationErr := true; }
          monitoring := false;
        case Seen(rows) =>
          Remember(rows, pid);
      }
    }

    /** The pids listed from i on are those still to be signalled, and the latest
        snapshot showed each of them alive under its recorded birth. */
    ghost predicate Listed(targets: seq<int>, i: int, t: seq<Action>)
      reads this`state, this`owned
    {
      && 0 <= i <= |targets| && Increasing(targets) && LastSeen(t).Some?
      && (forall j :: i <= j < |targets| ==>
            targets[j] in state.targets && Survives(LastSeen(t).value, owned, targets[j]))
      && (forall p <- state.targets :: exists j :: i <= j < |targets| && targets[j] == p)
    }

    /** The snapshot of a signalling pass: whom it is to signal. */
    method FindTargets(w: World, pid: int, ghost from: nat) returns (targets: Option<seq<int>>)
      requires Follows(w, pid) && state.settled && !state.probeErr
      requires from <= |w.trace| && SignalsChecked(w.trace, from, owned) && ProbesSucceeded(w.trace, from)
      modifies w, this`events, this`state
      ensures Follows(w, pid) && old(events) <= events && state.settled
      ensures |w.trace| == |old(w.trace)| + 1 && old(w.trace) <= w.trace && SignalsChecked(w.trace, from, owned)
      ensures |events| == |old(events)| + 1 && events[|old(events)|].TargetProbe? && w.now >= old(w.now)
      ensures targets.None? ==> Caused(w, ProbeError)
      ensures targets.Some? ==>
        && !state.probeErr && ProbesSucceeded(w.trace, from) && Listed(targets.value, 0, w.trace)
        && events[|old(events)|].probe.Seen?
    {
      hide Run, Legal, Actions, LastSeen, ProbesSucceeded, SignalsChecked, SameProcess, Zombie;
      ghost var before := w.trace;
      var p := w.Snapshot();
      Log(w, pid, TargetProbe(p), before);
      ProbeAppended(before, from, p, owned);
      if p.Failed? { return None; }
      var listed := FindSurvivors(p.rows, owned);
      forall j | 0 <= j < |listed| ensures listed[j] in state.targets && Survives(p.rows, owned, listed[j]) {
        assert listed[j] in listed;
      }
      targets := Some(listed);
    }

    /** One signal of a signalling pass. */
    method SignalOne(w: World, pid: int, signal: Signal, targets: seq<int>, i: nat, ghost from: nat)
      returns (r: KillResult)
      requires Follows(w, pid) && state.settled && !state.probeErr && i < |targets| && Listed(targets, i, w.trace)
      requires from <= |w.trace| && SignalsChecked(w.trace, from, owned) && ProbesSucceeded(w.trace, from)
      modifies w, this`events, this`state
      ensures Follows(w, pid) && events == old(events) + [Send(targets[i], signal)]
      ensures state.settled && !state.probeErr && Listed(targets, i + 1, w.trace) && w.now >= old(w.now)
      ensures r == Denied ==> w.denied
      ensures old(w.trace) <= w.trace && SignalsChecked(w.trace, from, owned) && ProbesSucceeded(w.trace, from)
    {
      hide Run, Legal, Actions, ProbesSucceeded, SignalsChecked, Survives;
      ghost var before := w.trace;
      r := w.SendSignal(targets[i], signal);
      Log(w, pid, Send(targets[i], signal), before);
      SignalAppended(before, from, targets[i], signal, owned);
      hide LastSeen;
    }

    /** Past the last pid listed, nobody is left to signal. */
    lemma AllSignalled(w: World, pid: int, targets: seq<int>)
      requires Listed(targets, |targets|, w.trace) && Logged(w, pid)
      ensures Legal(INITIAL, pid, events) && Run(INITIAL, pid, events).targets == {}
    {
      hide Run, Legal, Actions, LastSeen, Survives;
      assert forall p :: p !in state.targets;
    }

    /** The two passes of stop that signal: a fresh snapshot decides who still is
        who it was. */
    method SignalMatching(w: World, pid: int, signal: Signal, ghost from: nat) returns (failure: Option<Error>)
      requires Follows(w, pid) && state.settled && !state.probeErr
      requires from <= |w.trace| && SignalsChecked(w.trace, from, owned) && ProbesSucceeded(w.trace, from)
      modifies w, this`events, this`state
      ensures Follows(w, pid) && old(events) <= events && state.settled && (failure == None ==> !state.probeErr)
      ensures old(w.trace) <= w.trace && SignalsChecked(w.trace, from, owned)
      ensures failure == None ==> ProbesSucceeded(w.trace, from)
      ensures Pass(old(events), events, signal) && w.now >= old(w.now)
      ensures failure == None ==> CompletePass(pid, old(events), events, signal)
      ensures failure.Some? ==> failure != Some(SurvivedCleanup) && Caused(w, failure.value)
    {
      hide ProbesSucceeded, SignalsChecked, Logged, Listed;
      var found := FindTargets(w, pid, from);
      if found.None? { return Some(ProbeError); }
      var targets := found.value;
      var i := 0;
      while i < |targets|
        invariant 0 <= i <= |targets| && old(w.trace) <= w.trace
        invariant Follows(w, pid) && old(events) <= events && state.settled && !state.probeErr
          && Listed(targets, i, w.trace)
        invariant SignalsChecked(w.trace, from, owned) && ProbesSucceeded(w.trace, from)
        invariant Pass(old(events), events, signal) && events[|old(events)|].probe.Seen? && w.now >= old(w.now)
      {
        if w.Done() { return Some(ContextEnded); }
        var r := SignalOne(w, pid, signal, targets, i, from);
        if r == Denied { return Some(KillError); }
        i := i + 1;
      }
      AllSignalled(w, pid, targets);
      failure := None;
    }

    /** A snapshot of stop that only looks. */
    method Poll(w: World, pid: int, ghost from: nat) returns (p: Probe)
      requires Follows(w, pid) && state.settled && !state.probeErr
      requires from <= |w.trace| && SignalsChecked(w.trace, from, owned) && ProbesSucceeded(w.trace, from)
      modifies w, this`events, this`state
      ensures Follows(w, pid) && events == old(events) + [PollProbe(p)] && state.settled
      ensures w.trace == old(w.trace) + [Probed(p)] && SignalsChecked(w.trace, from, owned)
      ensures p.Seen? ==> !state.probeErr && ProbesSucceeded(w.trace, from) && LastSeen(w.trace) == Some(p.rows)
      ensures w.now >= old(w.now) && (old(w.ended) ==> w.ended)
    {
      hide Run, Legal, Actions, LastSeen, ProbesSucceeded, SignalsChecked;
      ghost var before := w.trace;
      p := w.Snapshot();
      Log(w, pid, PollProbe(p), before);
      ProbeAppended(before, from, p, owned);
    }

    /** The grace period: look until nothing owned is left, or the period or the
        context ends. */
    method WaitForExit(w: World, pid: int, termDeadline: nat, ghost from: nat)
      returns (over: bool, failure: Option<Error>)
      requires Follows(w, pid) && state.settled && !state.probeErr
      requires from <= |w.trace| && SignalsChecked(w.trace, from, owned) && ProbesSucceeded(w.trace, from)
      modifies this`events, this`state, w
      ensures Follows(w, pid) && OnlyLooks(old(events), events) && old(w.trace) <= w.trace
      ensures SignalsChecked(w.trace, from, owned)
      ensures !over || failure == None ==> state.settled && !state.probeErr && ProbesSucceeded(w.trace, from)
      ensures !over ==> w.now >= termDeadline
      ensures over && failure == None ==> NoneLeft(w.trace, owned)
      ensures failure.Some? ==> over && failure != Some(SurvivedCleanup) && Caused(w, failure.value)
    {
      hide SignalsChecked, ProbesSucceeded, LastSeen, Survives, NoneLeft, StillAlive, Follows;
      while w.now < termDeadline
        invariant Follows(w, pid) && OnlyLooks(old(events), events) && state.settled && !state.probeErr
        invariant old(w.trace) <= w.trace && SignalsChecked(w.trace, from, owned) && ProbesSucceeded(w.trace, from)
        decreases termDeadline - w.now
      {
        var p := Poll(w, pid, from);
        if p.Failed? { return true, Some(ProbeError); }
        var left := FindSurvivors(p.rows, owned);
        SurvivorsDecide(w.trace, owned, p.rows, left);
        if |left| == 0 { return true, None; }
        var done := w.Wait();
        if done { return true, Some(ContextEnded); }
      }
      over, failure := false, None;
    }

    /** After SIGKILL: look until nothing owned is left or the context ends. */
    method WaitForEnd(w: World, pid: int, ghost from: nat) returns (failure: Option<Error>)
      requires Follows(w, pid) && state.settled && !state.probeErr
      requires from <= |w.trace| && SignalsChecked(w.trace, from, owned) && ProbesSucceeded(w.trace, from)
      modifies this`leaked, this`events, this`state, w
      ensures Follows(w, pid) && OnlyLooks(old(events), events) && old(w.trace) <= w.trace
      ensures SignalsChecked(w.trace, from, owned) && w.now >= old(w.now)
      ensures failure == None ==> !state.probeErr && ProbesSucceeded(w.trace, from) && NoneLeft(w.trace, owned)
      ensures failure == Some(SurvivedCleanup) ==> StillAlive(w.trace, owned, leaked)
      ensures failure.Some? ==> Caused(w, failure.value)
    {
      hide SignalsChecked, ProbesSucceeded, LastSeen, Survives, NoneLeft, StillAlive, Follows;
      while true
        invariant Follows(w, pid) && OnlyLooks(old(events), events) && state.settled && !state.probeErr
        invariant old(w.trace) <= w.trace && SignalsChecked(w.trace, from, owned) && ProbesSucceeded(w.trace, from)
        invariant w.now >= old(w.now)
        decreases !w.ended, w.deadline - w.now
      {
        var p := Poll(w, pid, from);
        if p.Failed? { return Some(ProbeError); }
        leaked := FindSurvivors(p.rows, owned);
        SurvivorsDecide(w.trace, owned, p.rows, leaked);
        if |leaked| == 0 { return None; }
        var done := w.Wait();
        if done { return Some(SurvivedCleanup); }
      }
    }

    /** Term, a grace period, then Kill until the context ends. Every signal of a
        pass that completes reaches whom its own snapshot shows, SIGKILL follows only
        a complete SIGTERM pass and the grace period, and survival is reported only
        after a complete SIGKILL pass. */
    method CleanUp(w: World, pid: int, ghost from: nat) returns (failure: Option<Error>, ghost stage: Stage)
      requires Follows(w, pid) && state.settled && !state.probeErr
      requires from <= |w.trace| && SignalsChecked(w.trace, from, owned) && ProbesSucceeded(w.trace, from)
      modifies this`leaked, this`events, this`state, w
      ensures Follows(w, pid) && old(events) <= events && (failure == None ==> !state.probeErr)
      ensures old(w.trace) <= w.trace && SignalsChecked(w.trace, from, owned)
      ensures Reached(pid, old(events), events, stage)
      ensures stage.TriedKill? || stage.Killed? ==> w.now >= old(w.now) + 350
      ensures failure == None ==> stage.Waited? || stage.Killed?
      ensures failure == None ==> ProbesSucceeded(w.trace, from) && NoneLeft(w.trace, owned)
      ensures failure == Some(SurvivedCleanup) ==> stage.Killed? && StillAlive(w.trace, owned, leaked)
      ensures failure.Some? ==> Caused(w, failure.value)
    {
      hide SignalsChecked, ProbesSucceeded, LastSeen, Survives, NoneLeft, StillAlive, Follows, Pass, CompletePass,
        Caused;
      stage := TriedTerm;
      failure := SignalMatching(w, pid, Term, from);
      if failure != None { return; }
      ghost var termed := events;
      var over;
      over, failure := WaitForExit(w, pid, w.now + TERM_GRACE, from);
      stage := Waited(termed);
      if over { return; }
      stage := TriedKill(termed, events);
      failure := SignalMatching(w, pid, Kill, from);
      if failure != None { return; }
      stage := Killed(termed, stage.polled, events);
      failure := WaitForEnd(w, pid, from);
    }

    /** The snapshot of Settle, and the ownership and leader it decides. */
    method SettleOwnership(w: World, pid: int) returns (p: Probe)
      requires Follows(w, pid) && state.joined && !state.settled && !state.probeErr
      modifies this`owned, this`leaderBirth, this`events, this`state, w
      ensures Follows(w, pid) && events == old(events) + [SettleProbe(p)]
      ensures w.trace == old(w.trace) + [Probed(p)]
      ensures match p {
        case Failed => owned == old(owned)
        case Seen(rows) =>
          && state.settled && !state.probeErr
          && leaderBirth == (if old(leaderBirth) == "" then RowOf(rows, pid).birth else old(leaderBirth))
          && owned == OwnedAfter(rows, pid, leaderBirth, old(owned)) }
    {
      hide OwnedAfter, Run, Legal, Actions;
      ghost var before := w.trace;
      p := w.Snapshot();
      Log(w, pid, SettleProbe(p), before);
      if p.Seen? {
        if leaderBirth == "" { leaderBirth := RowOf(p.rows, pid).birth; }
        Remember(p.rows, pid);
      }
    }

    /** stop's first probe settles, alone, what is owned, what is reported cleaned
        and how the observation went. */
    method Settle(w: World, pid: int) returns (p: Probe)
      requires Follows(w, pid) && state.joined && !state.settled && !state.probeErr && cleaned == []
      modifies this, w
      ensures Follows(w, pid) && events == old(events) + [SettleProbe(p)]
      ensures w.trace == old(w.trace) + [Probed(p)]
      ensures observationErr == old(observationErr) && monitoring == old(monitoring) && cancelled == old(cancelled)
      ensures match p {
        case Failed => owned == old(owned) && status == SnapshotFailed
        case Seen(rows) =>
          && state.settled && !state.probeErr
          && leaderBirth == (if old(leaderBirth) == "" then RowOf(rows, pid).birth else old(leaderBirth))
          && owned == OwnedAfter(rows, pid, leaderBirth, old(owned))
          && Increasing(cleaned) && (forall p :: p in cleaned <==> p in owned)
          && status == StatusFor(rows, pid) }
    {
      hide OwnedAfter, Zombie, Logged, StatusFor;
      p := SettleOwnership(w, pid);
      if p.Failed? {
        status := SnapshotFailed;
        return;
      }
      var rows := p.rows;
      StatusByRow(rows, pid);
      status := ObservedTrustedDescendants;
      if RowOf(rows, pid).birth == "" || Zombie(RowOf(rows, pid)) { status := LeaderExitRace; }
      cleaned := SortPids(owned.Keys);
    }

    /** The part of stop after the monitor was joined. When nothing owned is left
        alive it ends there: no further probe and no signal. Otherwise it signals. */
    method StopAfterJoin(w: World, pid: int) returns (failure: Option<Error>, ghost stage: Option<Stage>)
      requires Follows(w, pid) && state.joined && !state.settled && !state.probeErr && cleaned == []
      modifies this, w
      ensures Follows(w, pid) && old(events) <= events && (failure == None ==> !state.probeErr)
      ensures old(w.trace) < w.trace && w.trace[|old(w.trace)|].Probed?
      ensures observationErr == old(observationErr) && monitoring == old(monitoring)
      ensures var first := w.trace[|old(w.trace)|].probe;
        if first.Failed? then failure == Some(ProbeError)
        else if forall p <- owned :: !Survives(first.rows, owned, p) then
          failure == None && |w.trace| == |old(w.trace)| + 1 && stage == None
        else stage.Some? && Reached(pid, old(events) + [SettleProbe(first)], events, stage.value)
      ensures SignalsChecked(w.trace, |old(w.trace)|, owned)
      ensures failure == None ==> ProbesSucceeded(w.trace, |old(w.trace)|) && NoneLeft(w.trace, owned)
      ensures failure == Some(SurvivedCleanup) ==> StillAlive(w.trace, owned, leaked)
      ensures failure.Some? ==> Caused(w, failure.value)
    {
      hide SignalsChecked, ProbesSucceeded, LastSeen, Survives, NoneLeft, StillAlive, Zombie, SameProcess, OwnedAfter,
        StatusFor, Increasing, Reached;
      stage := None;
      ghost var from := |w.trace|;
      var p := Settle(w, pid);
      if p.Failed? {
        FailedSettles(w.trace, from, owned);
        return Some(ProbeError), None;
      }
      hide Follows;
      NoSignalsYet(w.trace, from, owned);
      var left := FindSurvivors(p.rows, owned);
      SurvivorsDecide(w.trace, owned, p.rows, left);
      if |left| == 0 { return None, None; }
      ghost var reached;
      failure, reached := CleanUp(w, pid, from);
      stage := Some(reached);
    }

    /** The monitor, cancelled: it may still finish probes before it ends. */
    method EndMonitor(w: World, pid: int)
      requires Follows(w, pid) && monitoring && cancelled && state.cancelled
      modifies this`owned, this`monitoring, this`observationErr, this`events, this`state, w
      ensures Follows(w, pid) && old(events) <= events && !monitoring && SamePhase(old(state), state)
      ensures old(w.trace) <= w.trace && forall i :: |old(w.trace)| <= i < |w.trace| ==> w.trace[i].Probed?
      ensures observationErr == old(observationErr)
    {
      hide OwnedAfter, Run, Legal, Actions;
      var ticks: int := *;
      while ticks > 0 && monitoring
        invariant Follows(w, pid) && old(events) <= events && SamePhase(old(state), state)
        invariant old(w.trace) <= w.trace && forall i :: |old(w.trace)| <= i < |w.trace| ==> w.trace[i].Probed?
        invariant observationErr == old(observationErr)
        decreases ticks
      {
        hide Logged;
        MonitorTick(w, pid);
        ticks := ticks - 1;
      }
      if monitoring {
        Log(w, pid, MonitorDone, w.trace);
        monitoring := false;
      }
    }

    /** stop's first half: cancel the monitor and wait for it. What it meets from
        then on is no error. */
    method JoinMonitor(w: World, pid: int)
      requires Follows(w, pid) && !state.cancelled && !state.joined && !state.settled && !state.probeErr
      modifies this`owned, this`monitoring, this`cancelled, this`observationErr, this`events, this`state, w
      ensures Follows(w, pid) && old(events) <= events && !monitoring
      ensures state.joined && !state.settled && !state.probeErr
      ensures old(w.trace) <= w.trace && forall i :: |old(w.trace)| <= i < |w.trace| ==> w.trace[i].Probed?
      ensures observationErr == old(observationErr)
    {
      hide OwnedAfter, Run, Legal, Actions;
      Log(w, pid, Cancel, w.trace);
      if monitoring {
        cancelled := true;
        EndMonitor(w, pid);
      }
      Log(w, pid, Join, w.trace);
    }

    /** stop: cancel and join the monitor, settle ownership with one snapshot, then
        clean up. From `joined` on the monitor never runs again, and every signal
        comes after that point. */
    method Stop(w: World, pid: int) returns (failure: set<Error>, ghost joined: nat)
      requires Follows(w, pid) && !state.cancelled && !state.joined && !state.settled && !state.probeErr
        && cleaned == []
      modifies this, w
      ensures Follows(w, pid) && old(events) <= events && (failure == {} ==> !state.probeErr)
      ensures |old(w.trace)| <= joined < |w.trace| && old(w.trace) <= w.trace && !monitoring
      ensures forall i :: |old(w.trace)| <= i < joined ==> w.trace[i].Probed?
      ensures SignalsChecked(w.trace, joined, owned)
      ensures failure == {} ==> !observationErr && ProbesSucceeded(w.trace, joined) && NoneLeft(w.trace, owned)
      ensures observationErr == old(observationErr) && (observationErr <==> ObservationError in failure)
      ensures forall e <- failure :: e == ObservationError || Caused(w, e)
    {
      hide Logged, SignalsChecked, ProbesSucceeded, NoneLeft, StillAlive, Survives, Caused;
      JoinMonitor(w, pid);
      joined := |w.trace|;
      var stopped, _ := StopAfterJoin(w, pid);
      failure := (if stopped.Some? then {stopped.value} else {}) + (if observationErr then {ObservationError} else {});
      if stopped.Some? {
        assert stopped.value in failure;
        assert stopped.value != ObservationError by { NotObservation(w, stopped.value); }
      }
      if observationErr { assert ObservationError in failure; }
    }
  }

  // ---------- A whole use ----------

  /** The table behind this identity was a probe's answer, and it showed the identity
      alive below a live root. */
  ghost predicate OwnedByProbe(t: seq<Action>, s: State, leader: int, pid: int) {
    && pid in s.owned
    && (exists k :: 0 <= k < |s.seen| &&
          TakenFrom(s.seen, leader, k, pid, s.owned[pid]) && Probed(Seen(s.seen[k].0)) in t)
  }

  lemma RunOwnsByProbe(leader: int, events: seq<Event>, pid: int)
    requires Legal(INITIAL, leader, events) && pid in Run(INITIAL, leader, events).owned
    ensures OwnedByProbe(Actions(events), Run(INITIAL, leader, events), leader, pid)
  {
    var s := Run(INITIAL, leader, events);
    CustodyHolds(leader, events, pid, s.owned[pid]);
    hide Run, Legal, TakenFrom, BirthFixed, OwningTables, OwningTable, Actions;
    var k: nat :| LatestTaken(s.seen, leader, |s.seen|, k, pid, s.owned[pid]);
    assert Tables(s.seen)[k] == s.seen[k].0;
    TablesAreProbed(events, k);
    var i :| 0 <= i < |events| && OwningTable(events[i]) == [OwningTables(events)[k]];
    OwningInActions(events, i, s.seen[k].0);
  }

  lemma NothingYet(leader: int)
    ensures Legal(INITIAL, leader, []) && Run(INITIAL, leader, []) == INITIAL && Actions([]) == []
  {
  }

  /** A tracker's whole use: perhaps start, any number of monitor ticks, then stop,
      during which the monitor may still tick. Every identity it ends up owning was
      taken from a table a probe showed, and whoever such a table showed alive below
      a live root is owned; every signal was checked against the table
      of the latest probe; and without an error every probe that failed was one of
      the monitor's that the cancellation had reached. */
  method Use(w: World, pid: int) returns (t: Tracker, failure: set<Error>)
    requires w.trace == []
    modifies w
    ensures t.Follows(w, pid)
    ensures forall p <- t.owned :: OwnedByProbe(w.trace, t.state, pid, p)
    ensures Tables(t.state.seen) == OwningTables(t.events) && w.trace == Actions(t.events)
    ensures forall k, p, birth :: TakenFrom(t.state.seen, pid, k, p, birth) ==> p in t.owned
    ensures SignalsChecked(w.trace, 0, t.owned)
    ensures failure == {} ==> NoneLeft(w.trace, t.owned)
    ensures failure == {} ==>
      forall i :: 0 <= i < |t.events| && FailedProbe(t.events[i]) ==> CancelledProbe(INITIAL, pid, t.events, i)
  {
    hide Survives, NoneLeft, OwnedByProbe, OwnedAfter, TakenFrom, OwningTables, Tables, Actions, Legal, Run,
      FailedProbe,
      CancelledProbe;
    NothingYet(pid);
    t := new Tracker();
    var started: bool := *;
    if started {
      var failed := t.Start(w, pid);
      var ticks: int := *;
      while ticks > 0 && t.monitoring
        invariant t.Follows(w, pid) && t.cleaned == []
        invariant !t.state.cancelled && !t.state.joined && !t.state.settled && !t.state.probeErr
        invariant forall i :: 0 <= i < |w.trace| ==> w.trace[i].Probed?
        decreases ticks
      {
        t.MonitorTick(w, pid);
        ticks := ticks - 1;
      }
    }
    ghost var joined;
    failure, joined := t.Stop(w, pid);
    forall p | p in t.owned ensures OwnedByProbe(w.trace, t.state, pid, p) {
      RunOwnsByProbe(pid, t.events, p);
    }
    SeenIsProbed(INITIAL, pid, t.events);
    forall k, p, birth | TakenFrom(t.state.seen, pid, k, p, birth) ensures p in t.owned {
      NobodyIsLost(pid, t.events, k, p, birth);
    }
    if failure == {} {
      forall i | 0 <= i < |t.events| && FailedProbe(t.events[i]) ensures CancelledProbe(INITIAL, pid, t.events, i) {
        CleanObservation(INITIAL, pid, t.events, i);
      }
    }
  }
}
