/** cleanupDirectCommandGroup: terminate a process group and prove it quiet. The
    environment chooses every signal's answer and how late the clock is read. */
module GroupQuiescence {
  import opened ByteStrings

  // Nanoseconds.
  const POLL_INTERVAL := 5_000_000
  const QUIESCENCE_WINDOW := 10_000_000
  const GRACE_PERIOD := 750_000_000

  datatype Answer = Delivered | Gone | NotPermitted | OtherError   // nil, ESRCH, EPERM, any other error

  datatype Signal = Term | Probe | Kill

  /** What the environment does around one signal: the answer, how long the poll
      timer before it overruns, the delay before the answer is given, and the delays
      before each of the clock readings that may follow it. */
  datatype Tick = Tick(
    answer: Answer,
    overrun: nat,
    before: nat,
    first: nat,
    second: nat,
    third: nat,
    fourth: nat)

  type Environment = nat -> Tick

  /** One signal with the time of its answer. */
  datatype Call = Call(signal: Signal, answer: Answer, at: nat)

  datatype Verdict = Quiet | SignalError | NotQuiescent(permission: bool) | InvalidPid

  /** end: the last clock reading, or the answer that was an error. since: the
      reading from which the group counted as gone, when it was quiet. */
  datatype Outcome = Outcome(verdict: Verdict, calls: seq<Call>, end: nat, since: nat)

  function Answered(env: Environment, n: nat, signal: Signal, t: nat): Call {
    Call(signal, env(n).answer, t + env(n).before)
  }

  /** The k-th clock reading after the n-th answer, given at `at`. */
  function Reading(env: Environment, n: nat, at: nat, k: nat): (t: nat)
    requires 1 <= k <= 4
    ensures t >= at
  {
    at + env(n).first
    + (if k >= 2 then env(n).second else 0)
    + (if k >= 3 then env(n).third else 0)
    + (if k >= 4 then env(n).fourth else 0)
  }

  /** When the poll timer set at clock reading t fires: it never waits past `limit`. */
  function Woken(env: Environment, n: nat, t: nat, limit: nat): (w: nat)
    ensures w >= t
    ensures t < limit ==> w > t
  {
    t + (if t < limit then Min(POLL_INTERVAL, limit - t) else 0) + env(n).overrun
  }

  /** The grace loop: poll until the group is gone or the grace deadline passes.
      guard: the reading in the loop's condition; until: the one the timer uses. */
  function Grace(env: Environment, calls: seq<Call>, guard: nat, until: nat,
          graceDeadline: nat): (r: (seq<Call>, nat, Option<nat>, bool))
    requires guard <= until
    ensures calls <= r.0
    decreases if guard < graceDeadline then graceDeadline - guard else 0
  {
    if guard >= graceDeadline then (calls, guard, None, false)
    else
      var n := |calls|;
      var call := Answered(env, n, Probe, Woken(env, n, until, graceDeadline));
      match call.answer
      case Gone => (calls + [call], Reading(env, n, call.at, 1), Some(Reading(env, n, call.at, 1)), false)
      case OtherError => (calls + [call], call.at, None, true)
      case _ => Grace(env, calls + [call], Reading(env, n, call.at, 2), Reading(env, n, call.at, 3), graceDeadline)
  }

  /** When the group counts as gone from, after this answer. */
  function GoneSince(env: Environment, n: nat, call: Call, gone: Option<nat>): Option<nat> {
    if call.answer != Gone then None else if gone.None? then Some(Reading(env, n, call.at, 1)) else gone
  }

  /** The final loop: wait for an unbroken quiet window. */
  function Await(env: Environment, calls: seq<Call>, t: nat, gone: Option<nat>, permission: bool,
          deadline: nat): (r: Outcome)
    ensures calls < r.calls
    decreases if t < deadline then deadline - t else 0
  {
    var n := |calls|;
    var call := Answered(env, n, Probe, t);
    var calls' := calls + [call];
    if call.answer == OtherError then Outcome(SignalError, calls', call.at, 0)
    else
      var gone' := GoneSince(env, n, call, gone);
      var permission' := permission || call.answer == NotPermitted;
      var checked, now := Reading(env, n, call.at, 2), Reading(env, n, call.at, 3);
      if gone'.Some? && checked >= gone'.value + QUIESCENCE_WINDOW then Outcome(Quiet, calls', checked, gone'.value)
      else if now >= deadline then Outcome(NotQuiescent(permission'), calls', now, 0)
      else Await(env, calls', Woken(env, n + 1, now, deadline), gone', permission', deadline)
  }

  /** Where the final loop starts from, or the error that ended things before. */
  datatype Entry = Entry(calls: seq<Call>, now: nat, gone: Option<nat>, permission: bool, failed: bool)

  /** The grace deadline: 750 ms after the first answer was dealt with, or the
      deadline. */
  function GraceDeadline(env: Environment, t: nat, deadline: nat): nat {
    Min(Reading(env, 0, Answered(env, 0, Term, t).at, 2) + GRACE_PERIOD, deadline)
  }

  /** SIGTERM, then the grace loop unless the group is gone already. */
  function Terminate(env: Environment, t: nat, deadline: nat): Entry {
    var call := Answered(env, 0, Term, t);
    if call.answer == OtherError then Entry([call], call.at, None, false, true)
    else if call.answer == Gone then
      Entry([call], Reading(env, 0, call.at, 2), Some(Reading(env, 0, call.at, 1)), false, false)
    else
      var guard, until := Reading(env, 0, call.at, 3), Reading(env, 0, call.at, 4);
      var (calls, t', gone, failed) := Grace(env, [call], guard, until, GraceDeadline(env, t, deadline));
      Entry(calls, t', gone, call.answer == NotPermitted, failed)
  }

  /** SIGKILL if the group was never seen gone. */
  function Escalate(env: Environment, e: Entry): Entry {
    if e.failed || e.gone.Some? then e
    else
      var n := |e.calls|;
      var call := Answered(env, n, Kill, e.now);
      Entry(e.calls + [call], Reading(env, n, call.at, 1), GoneSince(env, n, call, None),
            e.permission || call.answer == NotPermitted, call.answer == OtherError)
  }

  /** cleanupDirectCommandGroup from clock reading t. */
  function Cleanup(env: Environment, pid: int, t: nat, deadline: nat): Outcome {
    if pid <= 0 then Outcome(InvalidPid, [], t, 0)
    else
      var e := Escalate(env, Terminate(env, t, deadline));
      if e.failed then Outcome(SignalError, e.calls, e.now, 0)
      else Await(env, e.calls, e.now, e.gone, e.permission, deadline)
  }

  // ---------- The loops themselves ----------

  /** SIGTERM and the grace loop. */
  method TerminateGroup(env: Environment, start: nat, deadline: nat) returns (e: Entry)
    ensures e == Terminate(env, start, deadline)
  {
    var calls := [Answered(env, 0, Term, start)];
    var at := calls[0].at;
    if calls[0].answer == OtherError { return Entry(calls, at, None, false, true); }
    var permission := calls[0].answer == NotPermitted;
    var graceDeadline := Reading(env, 0, at, 2) + GRACE_PERIOD;
    if graceDeadline > deadline { graceDeadline := deadline; }
    if calls[0].answer == Gone {
      return Entry(calls, Reading(env, 0, at, 2), Some(Reading(env, 0, at, 1)), permission, false);
    }
    var guard, until := Reading(env, 0, at, 3), Reading(env, 0, at, 4);
    ghost var whole := Grace(env, calls, guard, until, graceDeadline);
    while guard < graceDeadline
      invariant guard <= until && whole == Grace(env, calls, guard, until, graceDeadline)
      decreases if guard < graceDeadline then graceDeadline - guard else 0
    {
      var n := |calls|;
      var call := Answered(env, n, Probe, Woken(env, n, until, graceDeadline));
      calls := calls + [call];
      var now := Reading(env, n, call.at, 1);
      if call.answer == Gone { return Entry(calls, now, Some(now), permission, false); }
      if call.answer == OtherError { return Entry(calls, call.at, None, permission, true); }
      guard, until := Reading(env, n, call.at, 2), Reading(env, n, call.at, 3);
    }
    e := Entry(calls, guard, None, permission, false);
  }

  /** The final loop. */
  method AwaitQuiescence(env: Environment, entry: Entry, deadline: nat) returns (r: Outcome)
    ensures r == Await(env, entry.calls, entry.now, entry.gone, entry.permission, deadline)
  {
    var calls, t, permission := entry.calls, entry.now, entry.permission;
    var gone: Option<nat> := entry.gone;
    ghost var whole := Await(env, calls, t, gone, permission, deadline);
    while true
      invariant whole == Await(env, calls, t, gone, permission, deadline)
      decreases if t < deadline then deadline - t else 0
    {
      var n := |calls|;
      var call := Answered(env, n, Probe, t);
      calls := calls + [call];
      match call.answer {
        case Gone =>
          if gone.None? { gone := Some(Reading(env, n, call.at, 1)); }
          var checked := Reading(env, n, call.at, 2);
          if checked >= gone.value + QUIESCENCE_WINDOW { return Outcome(Quiet, calls, checked, gone.value); }
        case NotPermitted =>
          gone := None;
          permission := true;
        case OtherError => return Outcome(SignalError, calls, call.at, 0);
        case Delivered => gone := None;
      }
      var now := Reading(env, n, call.at, 3);
      if now >= deadline { return Outcome(NotQuiescent(permission), calls, now, 0); }
      t := Woken(env, n + 1, now, deadline);
    }
  }

  method CleanupGroup(env: Environment, pid: int, start: nat, deadline: nat) returns (r: Outcome)
    ensures r == Cleanup(env, pid, start, deadline)
  {
    if pid <= 0 { return Outcome(InvalidPid, [], start, 0); }
    hide Terminate, Await;
    var e := TerminateGroup(env, start, deadline);
    if e.failed { return Outcome(SignalError, e.calls, e.now, 0); }
    if e.gone.None? {
      var n := |e.calls|;
      var call := Answered(env, n, Kill, e.now);
      var now := Reading(env, n, call.at, 1);
      if call.answer == OtherError { return Outcome(SignalError, e.calls + [call], now, 0); }
      var gone := if call.answer == Gone then Some(now) else None;
      e := Entry(e.calls + [call], now, gone, e.permission || call.answer == NotPermitted, false);
    }
    r := AwaitQuiescence(env, e, deadline);
  }

  // ---------- Quiet means an unbroken run of "no such process" ----------

  /** From call k on every answer was "gone", and the group has counted as gone
      since a clock reading taken after answer k. */
  ghost predicate GoneFrom(calls: seq<Call>, since: nat, k: nat) {
    && k < |calls| && calls[k].at <= since
    && forall i :: k <= i < |calls| ==> calls[i].answer == Gone
  }

  ghost predicate GoneConsistent(calls: seq<Call>, gone: Option<nat>) {
    gone.Some? ==> exists k :: GoneFrom(calls, gone.value, k)
  }

  lemma GoneExtends(env: Environment, calls: seq<Call>, call: Call, gone: Option<nat>)
    requires GoneConsistent(calls, gone)
    ensures GoneConsistent(calls + [call], GoneSince(env, |calls|, call, gone))
  {
    if call.answer == Gone {
      var since := GoneSince(env, |calls|, call, gone).value;
      if gone.None? {
        assert GoneFrom(calls + [call], since, |calls|);
      } else {
        var k :| GoneFrom(calls, since, k);
        assert GoneFrom(calls + [call], since, k);
      }
    }
  }

  /** What a quiet verdict rests on. */
  ghost predicate QuietRun(r: Outcome) {
    r.verdict.Quiet? ==>
      && r.end >= r.since + QUIESCENCE_WINDOW && r.calls != []
      && r.calls[|r.calls| - 1].at <= r.end
      && exists k :: GoneFrom(r.calls, r.since, k)
  }

  /** The final loop goes on after this answer. */
  predicate GoesOn(env: Environment, n: nat, call: Call, gone: Option<nat>, deadline: nat) {
    var since := GoneSince(env, n, call, gone);
    && call.answer != OtherError && Reading(env, n, call.at, 3) < deadline
    && !(since.Some? && Reading(env, n, call.at, 2) >= since.value + QUIESCENCE_WINDOW)
  }

  lemma {:induction false} AwaitQuiet(env: Environment, calls: seq<Call>, t: nat, gone: Option<nat>, permission: bool,
          deadline: nat)
    requires GoneConsistent(calls, gone)
    ensures QuietRun(Await(env, calls, t, gone, permission, deadline))
    decreases if t < deadline then deadline - t else 0
  {
    var n := |calls|;
    var call := Answered(env, n, Probe, t);
    GoneExtends(env, calls, call, gone);
    if GoesOn(env, n, call, gone, deadline) {
      AwaitQuiet(env, calls + [call], Woken(env, n + 1, Reading(env, n, call.at, 3), deadline),
                 GoneSince(env, n, call, gone), permission || call.answer == NotPermitted, deadline);
    }
  }

  lemma {:induction false} GraceConsistent(env: Environment, calls: seq<Call>, guard: nat, until: nat,
          graceDeadline: nat)
    requires guard <= until
    ensures var r := Grace(env, calls, guard, until, graceDeadline); GoneConsistent(r.0, r.2)
    decreases if guard < graceDeadline then graceDeadline - guard else 0
  {
    if guard < graceDeadline {
      var n := |calls|;
      var call := Answered(env, n, Probe, Woken(env, n, until, graceDeadline));
      GoneExtends(env, calls, call, None);
      if call.answer != Gone && call.answer != OtherError {
        GraceConsistent(env, calls + [call], Reading(env, n, call.at, 2), Reading(env, n, call.at, 3), graceDeadline);
      }
    }
  }

  lemma EntryConsistent(env: Environment, t: nat, deadline: nat)
    ensures var e := Escalate(env, Terminate(env, t, deadline)); !e.failed ==> GoneConsistent(e.calls, e.gone)
  {
    var call := Answered(env, 0, Term, t);
    GoneExtends(env, [], call, None);
    assert [] + [call] == [call];
    GraceConsistent(env, [call], Reading(env, 0, call.at, 3), Reading(env, 0, call.at, 4),
      GraceDeadline(env, t, deadline));
    hide Grace;
    var e := Terminate(env, t, deadline);
    if !e.failed && e.gone.None? { GoneExtends(env, e.calls, Answered(env, |e.calls|, Kill, e.now), None); }
  }

  /** A nil return rests on an unbroken run of "no such process" answers up to the
      last call, over which the clock was read at least the window apart. */
  lemma QuietOnlyAfterWindow(env: Environment, pid: int, t: nat, deadline: nat)
    ensures QuietRun(Cleanup(env, pid, t, deadline))
  {
    hide Terminate, Escalate, Await;
    EntryConsistent(env, t, deadline);
    var e := Escalate(env, Terminate(env, t, deadline));
    if !e.failed { AwaitQuiet(env, e.calls, e.now, e.gone, e.permission, deadline); }
  }

  /** How far apart the first and last answers of the unbroken final run were. */
  ghost function AnswerSpan(calls: seq<Call>, k: nat): int
    requires k < |calls|
  {
    calls[|calls| - 1].at - calls[k].at
  }

  /** The window is checked at most `lag` after an answer is in. */
  ghost predicate LagWithin(env: Environment, lag: nat) {
    forall n :: env(n).first + env(n).second <= lag
  }

  lemma {:induction false} QuietNearAnswer(env: Environment, calls: seq<Call>, t: nat, gone: Option<nat>,
          permission: bool, deadline: nat, lag: nat)
    requires LagWithin(env, lag)
    ensures var r := Await(env, calls, t, gone, permission, deadline);
      r.verdict.Quiet? ==> r.end <= r.calls[|r.calls| - 1].at + lag
    decreases if t < deadline then deadline - t else 0
  {
    var n := |calls|;
    var call := Answered(env, n, Probe, t);
    if GoesOn(env, n, call, gone, deadline) {
      QuietNearAnswer(env, calls + [call], Woken(env, n + 1, Reading(env, n, call.at, 3), deadline),
                      GoneSince(env, n, call, gone), permission || call.answer == NotPermitted, deadline, lag);
    }
  }

  /** The answers themselves span the window less the clock lag: the whole window
      when the clock is read promptly. */
  lemma AnswersSpanWindow(env: Environment, pid: int, t: nat, deadline: nat, lag: nat)
    requires LagWithin(env, lag) && Cleanup(env, pid, t, deadline).verdict.Quiet?
    ensures var r := Cleanup(env, pid, t, deadline);
      exists k :: GoneFrom(r.calls, r.since, k) && AnswerSpan(r.calls, k) >= QUIESCENCE_WINDOW - lag
  {
    QuietOnlyAfterWindow(env, pid, t, deadline);
    hide Terminate, Escalate, Await;
    var e := Escalate(env, Terminate(env, t, deadline));
    QuietNearAnswer(env, e.calls, e.now, e.gone, e.permission, deadline, lag);
    var r := Cleanup(env, pid, t, deadline);
    var k :| GoneFrom(r.calls, r.since, k);
    assert AnswerSpan(r.calls, k) >= QUIESCENCE_WINDOW - lag;
  }

  /** The first answer at once, the second late enough that its clock reading, `lag`
      later still, just completes the window. */
  function LateReading(lag: nat): Environment
    requires lag <= QUIESCENCE_WINDOW
  {
    n => if n == 0 then Tick(Gone, 0, 0, 0, 0, 0, 0) else Tick(Gone, 0, QUIESCENCE_WINDOW - lag, lag, 0, 0, 0)
  }

  /** Every bit of lag really is lost: for each lag there is a run declared quiet
      whose answers, two in all, lie only the window less that lag apart. */
  lemma LagShortensRun(lag: nat)
    requires lag <= QUIESCENCE_WINDOW
    ensures LagWithin(LateReading(lag), lag)
    ensures var r := Cleanup(LateReading(lag), 1, 0, 2_000_000_000);
      r.verdict.Quiet? && |r.calls| == 2 && AnswerSpan(r.calls, 0) == QUIESCENCE_WINDOW - lag
  {
    var env := LateReading(lag);
    var first := Answered(env, 0, Term, 0);
    assert Terminate(env, 0, 2_000_000_000) == Entry([first], 0, Some(0), false, false);
    assert Cleanup(env, 1, 0, 2_000_000_000) == Await(env, [first], 0, Some(0), false, 2_000_000_000);
  }

  ghost predicate SpansWindow(r: Outcome) {
    exists k :: GoneFrom(r.calls, r.since, k) && AnswerSpan(r.calls, k) >= QUIESCENCE_WINDOW
  }

  /** So quiet answers always span the whole window exactly when no lag is possible. */
  lemma WindowSpannedIffPrompt(lag: nat)
    requires lag <= QUIESCENCE_WINDOW
    ensures lag == 0 <==> forall env: Environment, pid: int, t: nat, deadline: nat ::
      LagWithin(env, lag) && Cleanup(env, pid, t, deadline).verdict.Quiet? ==>
        SpansWindow(Cleanup(env, pid, t, deadline))
  {
    if lag == 0 {
      forall env: Environment, pid: int, t: nat, deadline: nat | LagWithin(env, lag)
        && Cleanup(env, pid, t, deadline).verdict.Quiet?
        ensures SpansWindow(Cleanup(env, pid, t, deadline))
      {
        AnswersSpanWindow(env, pid, t, deadline, 0);
      }
    } else {
      LagShortensRun(lag);
      var r := Cleanup(LateReading(lag), 1, 0, 2_000_000_000);
      assert forall k: nat :: k < |r.calls| ==> AnswerSpan(r.calls, k) < QUIESCENCE_WINDOW;
      assert !SpansWindow(r);
    }
  }

  /** A quiet verdict on a single answer "no such process". */
  ghost predicate QuietOnOne(r: Outcome) {
    && r.verdict.Quiet? && r.calls != []
    && (|r.calls| >= 2 ==> r.calls[|r.calls| - 2].answer != Gone)
  }

  /** The first two signals are delivered and the third finds nobody, but the check
      of the window stalls for the whole of it. */
  const STALLED: Environment :=
    n => if n < 2 then Tick(Delivered, 0, 0, 0, 0, 0, 0) else Tick(Gone, 0, 0, 0, QUIESCENCE_WINDOW, 0, 0)

  lemma StalledQuietOnOne()
    ensures QuietOnOne(Cleanup(STALLED, 1, 0, 0))
  {
    var term, kill := Answered(STALLED, 0, Term, 0), Answered(STALLED, 1, Kill, 0);
    assert Terminate(STALLED, 0, 0) == Entry([term], 0, None, false, false);
    assert Escalate(STALLED, Terminate(STALLED, 0, 0)) == Entry([term, kill], 0, None, false, false);
    assert Cleanup(STALLED, 1, 0, 0) == Await(STALLED, [term, kill], 0, None, false, 0);
  }

  /** One answer may be enough for a quiet verdict exactly when the check of the
      window may lag behind it by the whole window. */
  lemma QuietOnOneIffStalled(lag: nat)
    ensures lag >= QUIESCENCE_WINDOW <==> exists env: Environment, pid: int, t: nat, deadline: nat ::
      LagWithin(env, lag) && QuietOnOne(Cleanup(env, pid, t, deadline))
  {
    if lag >= QUIESCENCE_WINDOW {
      StalledQuietOnOne();
      assert LagWithin(STALLED, lag);
    } else {
      hide Cleanup;
      forall env: Environment, pid: int, t: nat, deadline: nat | LagWithin(env, lag)
        ensures !QuietOnOne(Cleanup(env, pid, t, deadline))
      {
        var r := Cleanup(env, pid, t, deadline);
        if r.verdict.Quiet? {
          AnswersSpanWindow(env, pid, t, deadline, lag);
          var k: nat :| GoneFrom(r.calls, r.since, k) && AnswerSpan(r.calls, k) >= QUIESCENCE_WINDOW - lag;
          assert k < |r.calls| - 1;
          assert r.calls[|r.calls| - 2].answer == Gone;
        }
      }
    }
  }

  // ---------- Kill only when the grace period saw no end ----------

  /** Every Kill was sent, at or after the grace deadline, to a group no earlier
      answer had reported gone; and there is at most one. */
  ghost predicate KillsLate(calls: seq<Call>, graceDeadline: nat) {
    forall i :: 0 <= i < |calls| && calls[i].signal == Kill ==>
      && calls[i].at >= graceDeadline
      && (forall j :: 0 <= j < i ==> calls[j].answer != Gone && calls[j].signal != Kill)
  }

  ghost predicate NoKill(calls: seq<Call>) {
    forall i :: 0 <= i < |calls| ==> calls[i].signal != Kill
  }

  ghost predicate NeverGone(calls: seq<Call>) {
    forall i :: 0 <= i < |calls| ==> calls[i].answer != Gone
  }

  lemma {:induction false} GraceNoKill(env: Environment, calls: seq<Call>, guard: nat, until: nat, graceDeadline: nat)
    requires guard <= until && NoKill(calls) && NeverGone(calls)
    ensures var r := Grace(env, calls, guard, until, graceDeadline);
      NoKill(r.0) && (r.2.None? && !r.3 ==> NeverGone(r.0) && r.1 >= graceDeadline)
    decreases if guard < graceDeadline then graceDeadline - guard else 0
  {
    if guard < graceDeadline {
      var n := |calls|;
      var call := Answered(env, n, Probe, Woken(env, n, until, graceDeadline));
      if call.answer != Gone && call.answer != OtherError {
        GraceNoKill(env, calls + [call], Reading(env, n, call.at, 2), Reading(env, n, call.at, 3), graceDeadline);
      }
    }
  }

  lemma {:induction false} AwaitNoMoreKills(env: Environment, calls: seq<Call>, t: nat, gone: Option<nat>,
          permission: bool, deadline: nat, graceDeadline: nat)
    requires KillsLate(calls, graceDeadline)
    ensures KillsLate(Await(env, calls, t, gone, permission, deadline).calls, graceDeadline)
    decreases if t < deadline then deadline - t else 0
  {
    var n := |calls|;
    var call := Answered(env, n, Probe, t);
    assert KillsLate(calls + [call], graceDeadline);
    if GoesOn(env, n, call, gone, deadline) {
      AwaitNoMoreKills(env, calls + [call], Woken(env, n + 1, Reading(env, n, call.at, 3), deadline),
                       GoneSince(env, n, call, gone), permission || call.answer == NotPermitted, deadline,
                       graceDeadline);
    }
  }

  lemma EntryKillsLate(env: Environment, t: nat, deadline: nat)
    ensures KillsLate(Escalate(env, Terminate(env, t, deadline)).calls, GraceDeadline(env, t, deadline))
  {
    var call := Answered(env, 0, Term, t);
    var e := Terminate(env, t, deadline);
    assert NoKill(e.calls) && (!e.failed && e.gone.None? ==>
      NeverGone(e.calls) && e.now >= GraceDeadline(env, t, deadline)) by {
      if call.answer != Gone {
        GraceNoKill(env, [call], Reading(env, 0, call.at, 3), Reading(env, 0, call.at, 4),
          GraceDeadline(env, t, deadline));
      }
    }
    hide Terminate, Grace;
  }

  /** SIGKILL goes out at most once, not before the grace deadline, and only if the
      group had never been seen gone. */
  lemma KillOnlyAfterGrace(env: Environment, pid: int, t: nat, deadline: nat)
    ensures KillsLate(Cleanup(env, pid, t, deadline).calls, GraceDeadline(env, t, deadline))
  {
    hide Terminate, Escalate, Await;
    EntryKillsLate(env, t, deadline);
    var e := Escalate(env, Terminate(env, t, deadline));
    if !e.failed {
      AwaitNoMoreKills(env, e.calls, e.now, e.gone, e.permission, deadline, GraceDeadline(env, t, deadline));
    }
  }

  // ---------- The deadline ----------

  /** Timers overrun by at most `overrun`, answers come within `before`, and all the
      clock readings between an answer and the next signal within `reading`. */
  ghost predicate DelaysWithin(env: Environment, overrun: nat, before: nat, reading: nat) {
    forall n ::
      && env(n).overrun <= overrun && env(n).before <= before
      && env(n).first + env(n).second + env(n).third + env(n).fourth <= reading
  }

  lemma {:induction false} AwaitOnTime(env: Environment, calls: seq<Call>, t: nat, gone: Option<nat>, permission: bool,
          deadline: nat, bound: nat, overrun: nat, before: nat, reading: nat)
    requires DelaysWithin(env, overrun, before, reading) && t + before + reading <= bound
      && deadline + overrun + before + reading <= bound
    ensures Await(env, calls, t, gone, permission, deadline).end <= bound
    decreases if t < deadline then deadline - t else 0
  {
    var n := |calls|;
    var call := Answered(env, n, Probe, t);
    if GoesOn(env, n, call, gone, deadline) {
      assert env(n + 1).overrun <= overrun;
      AwaitOnTime(env, calls + [call], Woken(env, n + 1, Reading(env, n, call.at, 3), deadline),
                  GoneSince(env, n, call, gone), permission || call.answer == NotPermitted, deadline, bound,
                  overrun, before, reading);
    }
  }

  lemma {:induction false} GraceOnTime(env: Environment, calls: seq<Call>, guard: nat, until: nat, graceDeadline: nat,
          bound: nat, overrun: nat, before: nat, reading: nat)
    requires DelaysWithin(env, overrun, before, reading) && guard <= until <= guard + reading
    requires guard <= bound && graceDeadline + overrun + before + 2 * reading <= bound
    ensures Grace(env, calls, guard, until, graceDeadline).1 <= bound
    decreases if guard < graceDeadline then graceDeadline - guard else 0
  {
    if guard < graceDeadline {
      var n := |calls|;
      var call := Answered(env, n, Probe, Woken(env, n, until, graceDeadline));
      assert call.at <= graceDeadline + reading + overrun + before;
      if call.answer != Gone && call.answer != OtherError {
        GraceOnTime(env, calls + [call], Reading(env, n, call.at, 2), Reading(env, n, call.at, 3), graceDeadline, bound,
          overrun, before, reading);
      }
    }
  }

  lemma EntryOnTime(env: Environment, t: nat, deadline: nat, last: nat, overrun: nat, before: nat, reading: nat)
    requires DelaysWithin(env, overrun, before, reading) && t <= last && deadline <= last
    ensures Escalate(env, Terminate(env, t, deadline)).now <= last + overrun + 2 * before + 3 * reading
  {
    var call := Answered(env, 0, Term, t);
    var bound := last + overrun + before + 2 * reading;
    GraceOnTime(env, [call], Reading(env, 0, call.at, 3), Reading(env, 0, call.at, 4), GraceDeadline(env, t, deadline),
                bound, overrun, before, reading);
    hide Grace;
    var e := Terminate(env, t, deadline);
    assert e.now <= bound;
    assert env(|e.calls|).before <= before;
  }

  /** For every sequence of answers the cleanup returns, and later than its deadline
      (or than its start, if the deadline has passed already) only by the delays of
      one timer, three answers and the readings around them. */
  lemma EndsWithinDelays(env: Environment, pid: int, t: nat, deadline: nat, overrun: nat, before: nat, reading: nat)
    requires DelaysWithin(env, overrun, before, reading)
    ensures Cleanup(env, pid, t, deadline).end
      <= (if deadline > t then deadline else t) + overrun + 3 * before + 4 * reading
  {
    var last := if deadline > t then deadline else t;
    EntryOnTime(env, t, deadline, last, overrun, before, reading);
    hide Terminate, Escalate, Await;
    var e := Escalate(env, Terminate(env, t, deadline));
    if !e.failed {
      AwaitOnTime(env, e.calls, e.now, e.gone, e.permission, deadline,
                  last + overrun + 3 * before + 4 * reading, overrun, before, reading);
    }
  }

  /** When nothing takes time but waiting, it returns by the deadline. */
  lemma EndsByDeadline(env: Environment, pid: int, t: nat, deadline: nat)
    requires DelaysWithin(env, 0, 0, 0)
    ensures Cleanup(env, pid, t, deadline).end <= (if deadline > t then deadline else t)
  {
    EndsWithinDelays(env, pid, t, deadline, 0, 0, 0);
  }
}
