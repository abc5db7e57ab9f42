/** Which signals a group is sent, when, and what verdict the answers lead to: both
    said of the calls and the clock readings alone. */
module GroupSignals {
  import opened ByteStrings
  import opened GroupQuiescence

  // ---------- What is said of the calls ----------

  /** The answer neither ends the grace period nor is an error. */
  predicate StillThere(call: Call) { call.answer == Delivered || call.answer == NotPermitted }

  /** The clock reading that decides whether the grace loop polls again. */
  function Guard(env: Environment, calls: seq<Call>, j: nat): nat
    requires j < |calls|
  {
    Reading(env, j, calls[j].at, if j == 0 then 3 else 2)
  }

  /** Call j left the group there before the grace deadline, and was followed by a
      probe a poll interval later, or at that deadline if it came sooner. */
  ghost predicate PolledAgain(env: Environment, calls: seq<Call>, j: nat, graceDeadline: nat) {
    && j + 1 < |calls| && StillThere(calls[j]) && Guard(env, calls, j) < graceDeadline
    && calls[j + 1].signal == Probe && calls[j + 1].at >= Min(Guard(env, calls, j) + 5_000_000, graceDeadline)
  }

  /** The first m calls are those up to the end of the grace loop. */
  ghost predicate Polls(env: Environment, calls: seq<Call>, m: nat, graceDeadline: nat) {
    1 <= m <= |calls| && forall j :: 0 <= j < m - 1 ==> PolledAgain(env, calls, j, graceDeadline)
  }

  /** Calls k to j are an unbroken run of "gone" answers that began with call k. */
  ghost predicate GoneRun(calls: seq<Call>, k: nat, j: nat) {
    && k <= j < |calls|
    && (forall i :: k <= i <= j ==> calls[i].answer == Gone)
    && (k > 0 ==> calls[k - 1].answer != Gone)
  }

  /** At the check after call j, 10 ms have gone by on the clock since the reading
      after the first answer of the run. */
  ghost predicate WindowShown(env: Environment, calls: seq<Call>, j: nat) {
    exists k: nat :: GoneRun(calls, k, j)
      && Reading(env, j, calls[j].at, 2) >= Reading(env, k, calls[k].at, 1) + 10_000_000
  }

  /** After call j the final loop has to go on, and does so a poll interval later, or
      at the deadline if it came sooner. */
  ghost predicate GoesOnAfter(env: Environment, calls: seq<Call>, j: nat, deadline: nat) {
    && j + 1 < |calls| && calls[j].signal == Probe && calls[j].answer != OtherError
    && !WindowShown(env, calls, j) && Reading(env, j, calls[j].at, 3) < deadline
    && calls[j + 1].at >= Min(Reading(env, j, calls[j].at, 3) + 5_000_000, deadline)
  }

  /** The verdict, and the time, are what the last probe calls for. */
  ghost predicate VerdictFits(env: Environment, r: Outcome, deadline: nat) {
    && r.calls != []
    && var last := |r.calls| - 1;
    && r.calls[last].signal == Probe
    && match r.verdict
       case SignalError => r.calls[last].answer == OtherError && r.end >= r.calls[last].at
       case Quiet => WindowShown(env, r.calls, last) && r.end == Reading(env, last, r.calls[last].at, 2)
       case NotQuiescent(_) =>
         && r.calls[last].answer != OtherError && !WindowShown(env, r.calls, last)
         && r.end == Reading(env, last, r.calls[last].at, 3) >= deadline
       case InvalidPid => false
  }

  // ---------- The grace loop ----------

  /** How the grace loop ended, by its last call. */
  ghost predicate GraceEnds(env: Environment, calls: seq<Call>, now: nat, gone: Option<nat>, failed: bool,
          graceDeadline: nat)
    requires calls != []
  {
    var n := |calls| - 1;
    match calls[n].answer
    case Gone => gone == Some(Reading(env, n, calls[n].at, 1)) && !failed
    case OtherError => gone.None? && failed && now >= calls[n].at
    case _ => gone.None? && !failed && now >= graceDeadline && Guard(env, calls, n) >= graceDeadline
  }

  /** Only the calls up to j + 1 matter. */
  lemma PolledKept(env: Environment, calls: seq<Call>, more: seq<Call>, j: nat, graceDeadline: nat)
    requires calls <= more && PolledAgain(env, calls, j, graceDeadline)
    ensures PolledAgain(env, more, j, graceDeadline)
  {
    hide Reading;
    assert more[j] == calls[j] && more[j + 1] == calls[j + 1];
  }

  lemma PollsKept(env: Environment, calls: seq<Call>, more: seq<Call>, m: nat, graceDeadline: nat)
    requires calls <= more && Polls(env, calls, m, graceDeadline)
    ensures Polls(env, more, m, graceDeadline)
  {
    hide PolledAgain;
    forall j | 0 <= j < m - 1 ensures PolledAgain(env, more, j, graceDeadline) {
      PolledKept(env, calls, more, j, graceDeadline);
    }
  }

  lemma PollsOneMore(env: Environment, calls: seq<Call>, call: Call, graceDeadline: nat)
    requires calls != [] && Polls(env, calls, |calls|, graceDeadline)
    requires StillThere(calls[|calls| - 1]) && Guard(env, calls, |calls| - 1) < graceDeadline
    requires call.signal == Probe && call.at >= Min(Guard(env, calls, |calls| - 1) + 5_000_000, graceDeadline)
    ensures Polls(env, calls + [call], |calls| + 1, graceDeadline)
  {
    hide Reading;
    PollsKept(env, calls, calls + [call], |calls|, graceDeadline);
    assert PolledAgain(env, calls + [call], |calls| - 1, graceDeadline);
  }

  lemma WokenLate(env: Environment, n: nat, t: nat, limit: nat, before: nat)
    requires before <= t && before < limit
    ensures Woken(env, n, t, limit) >= Min(before + 5_000_000, limit)
  {
  }

  lemma {:induction false} GracePolls(env: Environment, calls: seq<Call>, guard: nat, until: nat, graceDeadline: nat)
    requires guard <= until && calls != [] && Polls(env, calls, |calls|, graceDeadline)
    requires StillThere(calls[|calls| - 1]) && guard == Guard(env, calls, |calls| - 1)
    ensures var (after, now, gone, failed) := Grace(env, calls, guard, until, graceDeadline);
      && calls <= after && Polls(env, after, |after|, graceDeadline)
      && GraceEnds(env, after, now, gone, failed, graceDeadline)
    decreases if guard < graceDeadline then graceDeadline - guard else 0
  {
    if guard < graceDeadline {
      var n := |calls|;
      var call := Answered(env, n, Probe, Woken(env, n, until, graceDeadline));
      var calls' := calls + [call];
      WokenLate(env, n, until, graceDeadline, guard);
      PollsOneMore(env, calls, call, graceDeadline);
      assert calls'[n] == call && Guard(env, calls', n) == Reading(env, n, call.at, 2);
      hide Polls, Woken, Reading, Guard;
      if StillThere(call) {
        hide GraceEnds;
        GracePolls(env, calls', Reading(env, n, call.at, 2), Reading(env, n, call.at, 3), graceDeadline);
      }
    }
  }

  // ---------- The final loop ----------

  lemma NoSecondRun(calls: seq<Call>, k: nat, other: nat, j: nat)
    requires GoneRun(calls, k, j) && k < other
    ensures !GoneRun(calls, other, j)
  {
    assert other <= j ==> calls[other - 1].answer == Gone;
  }

  /** The time from which the group counts as gone is the reading after the first
      answer of the run that the calls end with. */
  ghost predicate GoneExact(env: Environment, calls: seq<Call>, gone: Option<nat>) {
    if calls == [] || calls[|calls| - 1].answer != Gone then gone == None
    else exists k: nat :: GoneRun(calls, k, |calls| - 1) && gone == Some(Reading(env, k, calls[k].at, 1))
  }

  lemma RunKept(calls: seq<Call>, more: seq<Call>, k: nat, j: nat)
    requires calls <= more && j < |calls|
    ensures GoneRun(calls, k, j) <==> GoneRun(more, k, j)
  {
    assert forall i :: 0 <= i < |calls| ==> more[i] == calls[i];
  }

  lemma WindowKept(env: Environment, calls: seq<Call>, more: seq<Call>, j: nat)
    requires calls <= more && j < |calls|
    ensures WindowShown(env, calls, j) <==> WindowShown(env, more, j)
  {
    hide Reading;
    forall k: nat ensures GoneRun(calls, k, j) <==> GoneRun(more, k, j) { RunKept(calls, more, k, j); }
    assert forall i :: 0 <= i < |calls| ==> more[i] == calls[i];
    hide GoneRun;
  }

  lemma GoneStaysExact(env: Environment, calls: seq<Call>, call: Call, gone: Option<nat>)
    requires GoneExact(env, calls, gone)
    ensures GoneExact(env, calls + [call], GoneSince(env, |calls|, call, gone))
  {
    hide Reading;
    var calls' := calls + [call];
    if call.answer == Gone {
      if gone.None? {
        assert GoneRun(calls', |calls|, |calls|);
      } else {
        var k: nat :| GoneRun(calls, k, |calls| - 1) && gone == Some(Reading(env, k, calls[k].at, 1));
        assert GoneRun(calls', k, |calls|) && calls'[k] == calls[k];
      }
    }
  }

  /** The loop's test of the window is the one stated. */
  lemma WindowTested(env: Environment, calls: seq<Call>, gone: Option<nat>)
    requires calls != [] && GoneExact(env, calls, gone)
    ensures var j := |calls| - 1; WindowShown(env, calls, j) <==>
      gone.Some? && Reading(env, j, calls[j].at, 2) >= gone.value + QUIESCENCE_WINDOW
  {
    hide Reading;
    var j: nat := |calls| - 1;
    if calls[j].answer == Gone {
      var k: nat :| GoneRun(calls, k, j) && gone == Some(Reading(env, k, calls[k].at, 1));
      forall other: nat | GoneRun(calls, other, j) ensures other == k {
        if k < other { NoSecondRun(calls, k, other, j); }
        if other < k { NoSecondRun(calls, other, k, j); }
      }
    }
  }

  /** A call of the final loop that is not its last. */
  lemma WentOn(env: Environment, calls: seq<Call>, r: Outcome, gone: Option<nat>, deadline: nat)
    requires calls != [] && calls < r.calls && GoneExact(env, calls, gone)
    requires var n := |calls| - 1; var now := Reading(env, n, calls[n].at, 3);
      && calls[n].signal == Probe && calls[n].answer != OtherError && now < deadline
      && !(gone.Some? && Reading(env, n, calls[n].at, 2) >= gone.value + QUIESCENCE_WINDOW)
      && r.calls[n + 1] == Answered(env, n + 1, Probe, Woken(env, n + 1, now, deadline))
    ensures GoesOnAfter(env, r.calls, |calls| - 1, deadline)
  {
    var n: nat := |calls| - 1;
    WindowTested(env, calls, gone);
    WindowKept(env, calls, r.calls, n);
    assert r.calls[n] == calls[n];
    WokenLate(env, n + 1, Reading(env, n, calls[n].at, 3), deadline, Reading(env, n, calls[n].at, 3));
    hide WindowShown, Woken, Reading, GoneExact;
  }

  /** The last call of the final loop. */
  lemma LastProbe(env: Environment, calls: seq<Call>, t: nat, gone: Option<nat>, permission: bool, deadline: nat)
    requires GoneExact(env, calls, gone)
    requires !GoesOn(env, |calls|, Answered(env, |calls|, Probe, t), gone, deadline)
    ensures var r := Await(env, calls, t, gone, permission, deadline);
      r.calls == calls + [Answered(env, |calls|, Probe, t)] && VerdictFits(env, r, deadline)
  {
    var call := Answered(env, |calls|, Probe, t);
    GoneStaysExact(env, calls, call, gone);
    WindowTested(env, calls + [call], GoneSince(env, |calls|, call, gone));
    hide Woken, GoneExact, WindowShown;
  }

  lemma AwaitStep(env: Environment, calls: seq<Call>, t: nat, gone: Option<nat>, permission: bool, deadline: nat)
    requires GoesOn(env, |calls|, Answered(env, |calls|, Probe, t), gone, deadline)
    ensures var n := |calls|; var call := Answered(env, n, Probe, t);
      var next := Woken(env, n + 1, Reading(env, n, call.at, 3), deadline);
      && t < deadline && t < next
      && Await(env, calls, t, gone, permission, deadline)
         == Await(env, calls + [call], next, GoneSince(env, n, call, gone), permission || call.answer == NotPermitted,
              deadline)
  {
    hide Woken, GoneSince;
  }

  lemma {:induction false} AwaitFits(env: Environment, calls: seq<Call>, t: nat, gone: Option<nat>, permission: bool,
          deadline: nat)
    requires GoneExact(env, calls, gone)
    ensures var r := Await(env, calls, t, gone, permission, deadline);
      && r.calls[|calls|] == Answered(env, |calls|, Probe, t)
      && (forall j :: |calls| <= j < |r.calls| - 1 ==> GoesOnAfter(env, r.calls, j, deadline))
      && VerdictFits(env, r, deadline)
    decreases if t < deadline then deadline - t else 0
  {
    hide Await, Woken, Reading, GoneExact, GoneSince, WindowShown, VerdictFits, GoesOnAfter;
    var n := |calls|;
    var call := Answered(env, n, Probe, t);
    if GoesOn(env, n, call, gone, deadline) {
      var calls', gone' := calls + [call], GoneSince(env, n, call, gone);
      GoneStaysExact(env, calls, call, gone);
      AwaitStep(env, calls, t, gone, permission, deadline);
      var next := Woken(env, n + 1, Reading(env, n, call.at, 3), deadline);
      AwaitFits(env, calls', next, gone', permission || call.answer == NotPermitted, deadline);
      WentOn(env, calls', Await(env, calls, t, gone, permission, deadline), gone', deadline);
    } else {
      LastProbe(env, calls, t, gone, permission, deadline);
    }
  }

  // ---------- The whole cleanup ----------

  /** An error ended things with call n - 1. */
  ghost predicate FailedAt(r: Outcome, n: nat) {
    r.verdict == SignalError && |r.calls| == n > 0 && r.end >= r.calls[n - 1].at
  }

  /** A missing permission is reported if SIGTERM, SIGKILL or a probe of the final
      loop met one; the grace loop's probes do not count. */
  ghost predicate PermissionFits(r: Outcome, m: nat) {
    r.verdict.NotQuiescent? ==>
      (r.verdict.permission <==>
        exists j :: 0 <= j < |r.calls| && (j == 0 || j >= m) && r.calls[j].answer == NotPermitted)
  }

  /** The calls after the grace loop's m: a SIGKILL unless one of them found the
      group gone, then the final loop's probes, unless an error came first; and the
      verdict. */
  ghost predicate Continues(env: Environment, r: Outcome, m: nat, graceDeadline: nat, deadline: nat)
    requires 1 <= m <= |r.calls|
  {
    var first := if r.calls[m - 1].answer == Gone then m else m + 1;   // of the final loop
    if r.calls[m - 1].answer == OtherError then FailedAt(r, m)
    else
      && (r.calls[m - 1].answer != Gone ==>
            && Guard(env, r.calls, m - 1) >= graceDeadline
            && m < |r.calls| && r.calls[m].signal == Kill && r.calls[m].at >= graceDeadline)
      && if first == m + 1 && r.calls[m].answer == OtherError then FailedAt(r, m + 1)
         else
           && first < |r.calls| && VerdictFits(env, r, deadline)
           && forall j :: first <= j < |r.calls| - 1 ==> GoesOnAfter(env, r.calls, j, deadline)
  }

  lemma {:induction false} AwaitPermission(env: Environment, calls: seq<Call>, t: nat, gone: Option<nat>,
          permission: bool, deadline: nat)
    ensures var r := Await(env, calls, t, gone, permission, deadline); r.verdict.NotQuiescent? ==>
      (r.verdict.permission <==>
        permission || exists j :: |calls| <= j < |r.calls| && r.calls[j].answer == NotPermitted)
    decreases if t < deadline then deadline - t else 0
  {
    var n := |calls|;
    var call := Answered(env, n, Probe, t);
    var r := Await(env, calls, t, gone, permission, deadline);
    if GoesOn(env, n, call, gone, deadline) {
      var next, gone' := Woken(env, n + 1, Reading(env, n, call.at, 3), deadline), GoneSince(env, n, call, gone);
      AwaitStep(env, calls, t, gone, permission, deadline);
      hide Await, Woken, Reading, GoneSince;
      AwaitPermission(env, calls + [call], next, gone', permission || call.answer == NotPermitted, deadline);
      assert (calls + [call])[n] == call && r.calls[n] == call;
    } else {
      assert r.calls == calls + [call] && r.calls[n] == call;
    }
  }

  lemma NothingReported(r: Outcome, m: nat)
    requires r.verdict == SignalError
    ensures PermissionFits(r, m)
  {
  }

  lemma EntryPermission(env: Environment, t: nat, deadline: nat)
    ensures Terminate(env, t, deadline).permission == (env(0).answer == NotPermitted)
  {
    hide Grace;
  }

  lemma PermissionReported(env: Environment, e: Entry, deadline: nat)
    requires e.calls != [] && !Escalate(env, e).failed && e.permission == (e.calls[0].answer == NotPermitted)
    ensures var e' := Escalate(env, e);
      PermissionFits(Await(env, e'.calls, e'.now, e'.gone, e'.permission, deadline), |e.calls|)
  {
    var e', m := Escalate(env, e), |e.calls|;
    AwaitPermission(env, e'.calls, e'.now, e'.gone, e'.permission, deadline);
    var r := Await(env, e'.calls, e'.now, e'.gone, e'.permission, deadline);
    assert r.calls[0] == e.calls[0];
    assert |e'.calls| == m + 1 ==> r.calls[m] == e'.calls[m];
    assert |e'.calls| == m + 1 ==> e'.permission == (e.permission || e'.calls[m].answer == NotPermitted);
    hide Await, Escalate;
  }

  lemma EntryPolls(env: Environment, t: nat, deadline: nat)
    ensures var e := Terminate(env, t, deadline); var graceDeadline := GraceDeadline(env, t, deadline);
      && e.calls != [] && e.calls[0] == Answered(env, 0, Term, t)
      && Polls(env, e.calls, |e.calls|, graceDeadline)
      && GraceEnds(env, e.calls, e.now, e.gone, e.failed, graceDeadline)
  {
    var call := Answered(env, 0, Term, t);
    if StillThere(call) {
      GracePolls(env, [call], Reading(env, 0, call.at, 3), Reading(env, 0, call.at, 4),
        GraceDeadline(env, t, deadline));
      hide Grace, Polls, GraceEnds;
    }
  }

  lemma NotGone(env: Environment, calls: seq<Call>)
    requires calls != [] && calls[|calls| - 1].answer != Gone
    ensures GoneExact(env, calls, None)
  {
  }

  lemma GoneAtEnd(env: Environment, calls: seq<Call>, graceDeadline: nat)
    requires calls != [] && Polls(env, calls, |calls|, graceDeadline) && calls[|calls| - 1].answer == Gone
    ensures GoneExact(env, calls, Some(Reading(env, |calls| - 1, calls[|calls| - 1].at, 1)))
  {
    hide Reading, Guard;
    var n: nat := |calls| - 1;
    assert n > 0 ==> PolledAgain(env, calls, n - 1, graceDeadline);
    assert GoneRun(calls, n, n);
  }

  /** Where the final loop starts, the group counts as gone from the right reading. */
  lemma EntryExact(env: Environment, e: Entry, graceDeadline: nat)
    requires e.calls != [] && Polls(env, e.calls, |e.calls|, graceDeadline)
    requires GraceEnds(env, e.calls, e.now, e.gone, e.failed, graceDeadline)
    ensures var e' := Escalate(env, e); !e'.failed ==> GoneExact(env, e'.calls, e'.gone)
  {
    hide Reading, Polls, GoneExact;
    if e.calls[|e.calls| - 1].answer == Gone {
      GoneAtEnd(env, e.calls, graceDeadline);
    } else if !e.failed {
      assert GoneExact(env, e.calls, None) by { NotGone(env, e.calls); }
      GoneStaysExact(env, e.calls, Answered(env, |e.calls|, Kill, e.now), None);
    }
  }

  lemma EscalateThen(env: Environment, e: Entry, graceDeadline: nat)
    requires e.calls != []
    requires GraceEnds(env, e.calls, e.now, e.gone, e.failed, graceDeadline)
    ensures var e' := Escalate(env, e); var m := |e.calls|;
      && e.calls <= e'.calls
      && (e.calls[m - 1].answer in {Gone, OtherError} ==> e' == e && e.failed == (e.calls[m - 1].answer == OtherError))
      && (e.calls[m - 1].answer !in {Gone, OtherError} ==>
            && Guard(env, e.calls, m - 1) >= graceDeadline
            && |e'.calls| == m + 1 && e'.calls[m].signal == Kill && e'.calls[m].at >= graceDeadline
            && e'.failed == (e'.calls[m].answer == OtherError) && e'.now >= e'.calls[m].at)
  {
    hide Reading;
  }

  lemma Assembled(env: Environment, e: Entry, r: Outcome, graceDeadline: nat, deadline: nat)
    requires e.calls != [] && GraceEnds(env, e.calls, e.now, e.gone, e.failed, graceDeadline)
    requires var e' := Escalate(env, e);
      && e'.calls <= r.calls
      && if e'.failed then r.verdict == SignalError && r.calls == e'.calls && r.end == e'.now
         else
           && |e'.calls| < |r.calls| && VerdictFits(env, r, deadline)
           && forall j :: |e'.calls| <= j < |r.calls| - 1 ==> GoesOnAfter(env, r.calls, j, deadline)
    ensures |e.calls| <= |r.calls| && Continues(env, r, |e.calls|, graceDeadline, deadline)
  {
    EscalateThen(env, e, graceDeadline);
    var m, e' := |e.calls|, Escalate(env, e);
    assert r.calls[m - 1] == e.calls[m - 1];
    assert |e'.calls| == m + 1 ==> r.calls[m] == e'.calls[m];
    hide Escalate, GraceEnds, GoesOnAfter, VerdictFits, Reading;
  }

  /** What escalation and the final loop make of an entry. */
  ghost function Finished(env: Environment, e: Entry, deadline: nat): Outcome {
    var e' := Escalate(env, e);
    if e'.failed then Outcome(SignalError, e'.calls, e'.now, 0)
    else Await(env, e'.calls, e'.now, e'.gone, e'.permission, deadline)
  }

  lemma CleanupFinishes(env: Environment, pid: int, t: nat, deadline: nat)
    requires pid > 0
    ensures Cleanup(env, pid, t, deadline) == Finished(env, Terminate(env, t, deadline), deadline)
  {
    hide Terminate, Escalate, Await;
  }

  lemma FinishedFits(env: Environment, e: Entry, graceDeadline: nat, deadline: nat)
    requires e.calls != [] && Polls(env, e.calls, |e.calls|, graceDeadline)
    requires GraceEnds(env, e.calls, e.now, e.gone, e.failed, graceDeadline)
    requires e.permission == (e.calls[0].answer == NotPermitted)
    ensures var r := Finished(env, e, deadline);
      && e.calls <= r.calls
      && Continues(env, r, |e.calls|, graceDeadline, deadline) && PermissionFits(r, |e.calls|)
  {
    hide Escalate, Await, Polls, GraceEnds, GoesOnAfter, VerdictFits, Reading, Continues, PermissionFits, GoneExact;
    EscalateThen(env, e, graceDeadline);
    EntryExact(env, e, graceDeadline);
    var e', r := Escalate(env, e), Finished(env, e, deadline);
    if e'.failed {
      NothingReported(r, |e.calls|);
    } else {
      AwaitFits(env, e'.calls, e'.now, e'.gone, e'.permission, deadline);
      PermissionReported(env, e, deadline);
    }
    Assembled(env, e, r, graceDeadline, deadline);
  }

  /** What a cleanup asks of the operating system, and what it makes of the answers.
      SIGTERM first; then probes until one finds the group gone or the grace period,
      750 ms or what is left of the deadline, is over; then SIGKILL exactly if none
      did; then probes until 10 ms of unbroken "gone", at once when they are over, or
      until the deadline. Nothing else is sent, and an error ends it where it comes. */
  lemma GroupIsSignalled(env: Environment, pid: int, t: nat, deadline: nat) returns (m: nat)
    requires pid > 0
    ensures var r := Cleanup(env, pid, t, deadline);
      && 1 <= m <= |r.calls|
      && r.calls[0].signal == Term && r.calls[0].at == t + env(0).before
      && var graceDeadline := Min(Reading(env, 0, r.calls[0].at, 2) + 750_000_000, deadline);
      && Polls(env, r.calls, m, graceDeadline)
      && Continues(env, r, m, graceDeadline, deadline) && PermissionFits(r, m)
  {
    EntryPolls(env, t, deadline);
    EntryPermission(env, t, deadline);
    CleanupFinishes(env, pid, t, deadline);
    hide Cleanup, Finished, Terminate, Polls, GraceEnds, Continues, PermissionFits, Reading;
    var e := Terminate(env, t, deadline);
    var graceDeadline := GraceDeadline(env, t, deadline);
    m := |e.calls|;
    FinishedFits(env, e, graceDeadline, deadline);
    PollsKept(env, e.calls, Cleanup(env, pid, t, deadline).calls, m, graceDeadline);
  }

  /** Exactly a positive pid names a group; for any other nothing is sent. */
  lemma OnlyGroupsAreSignalled(env: Environment, pid: int, t: nat, deadline: nat)
    ensures var r := Cleanup(env, pid, t, deadline);
      (r.calls == [] <==> pid <= 0) && (r.verdict == InvalidPid <==> pid <= 0)
  {
    if pid > 0 {
      hide Cleanup, Polls, WindowShown, GoesOnAfter, Reading, Guard;
      var m := GroupIsSignalled(env, pid, t, deadline);
    }
  }
}
