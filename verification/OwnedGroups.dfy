/** OwnedGroup: a process group whose id stays pinned by an unreaped keeper until
    the last group signal was sent. */
module OwnedGroups {
  import opened ByteStrings

  const RETIRE_BOUND := 10.0
  const KILL_INTERVAL := 0.2
  const LEAST_KEEPER_WAIT := 0.1
  const SIGKILL := 9

  /** (stdout, stderr). */
  type Output = (Bytes, Bytes)

  datatype Reason = GroupHold | PermissionError | TimeoutExpired | OtherException

  datatype Outcome<+T> = Returned(value: T) | Raised(reason: Reason)

  /** One os.killpg and whether the keeper had been reaped when it was made: only
      then could the group id name somebody else. */
  datatype GroupSignal = GroupSignal(signal: int, reaped: bool)

  ghost predicate Pinned(signals: seq<GroupSignal>) {
    forall i :: 0 <= i < |signals| ==> !signals[i].reaped
  }

  /** So many SIGKILLs while the keeper is unreaped. */
  ghost function Kills(count: nat): (s: seq<GroupSignal>)
    ensures |s| == count && Pinned(s)
  {
    if count == 0 then [] else Kills(count - 1) + [GroupSignal(SIGKILL, false)]
  }

  lemma OneMoreKill(before: seq<GroupSignal>, count: nat)
    ensures before + Kills(count) + [GroupSignal(SIGKILL, false)] == before + Kills(count + 1)
  {
  }

  function RealMax(a: real, b: real): real { if a < b then b else a }
  function RealMin(a: real, b: real): real { if a < b then a else b }

  // ---------- The environment ----------

  /** A waiting call finishes or fails after some time, or outlasts its timeout. */
  datatype Wait = Finishes(after: real, output: Output) | Fails(after: real) | Outlasts

  /** What the n-th system call meets: processes exit when they like, and a group
      signal may be refused. */
  datatype Answer = Answer(refused: bool, wait: Wait)

  type Environment = nat -> Answer

  /** How long a waiting call takes: it gives up exactly at its timeout, at once
      when that is negative. */
  function Elapsed(w: Wait, timeout: Option<real>): (t: real)
    ensures t >= 0.0
    ensures timeout.Some? ==> t <= RealMax(0.0, timeout.value)
  {
    match timeout
    case None => if w.Outlasts? then 0.0 else RealMax(0.0, w.after)
    case Some(limit) => if w.Outlasts? then RealMax(0.0, limit) else RealMin(RealMax(0.0, w.after), RealMax(0.0, limit))
  }

  /** Popen.communicate. Without a timeout nothing expires; what outlasts every
      timeout is then a call that was interrupted. */
  function Communicated(w: Wait, timeout: Option<real>): Outcome<Output> {
    match w
    case Finishes(_, output) => Returned(output)
    case Fails(_) => Raised(OtherException)
    case Outlasts => Raised(if timeout.None? then OtherException else TimeoutExpired)
  }

  class System {
    const env: Environment
    const darwin: bool
    var calls: nat
    var reaped: bool
    var now: real
    ghost var signals: seq<GroupSignal>

    constructor (env: Environment, darwin: bool)
      ensures signals == [] && !reaped && calls == 0 && this.env == env && this.darwin == darwin
    {
      this.env, this.darwin, calls, reaped, now, signals := env, darwin, 0, false, 0.0, [];
    }

    method KillPg(signal: int) returns (refused: bool)
      modifies this`signals, this`calls
      ensures signals == old(signals) + [GroupSignal(signal, reaped)]
      ensures refused == env(old(calls)).refused && calls == old(calls) + 1
    {
      signals := signals + [GroupSignal(signal, reaped)];
      refused := env(calls).refused;
      calls := calls + 1;
    }

    /** Popen.communicate on the command. */
    method Communicate(timeout: Option<real>) returns (r: Outcome<Output>)
      modifies this`now, this`calls
      ensures r == Communicated(env(old(calls)).wait, timeout)
      ensures now == old(now) + Elapsed(env(old(calls)).wait, timeout) && calls == old(calls) + 1
    {
      r := Communicated(env(calls).wait, timeout);
      now := now + Elapsed(env(calls).wait, timeout);
      calls := calls + 1;
    }

    /** Popen.wait on the keeper: the only call that reaps it. */
    method WaitKeeper(timeout: real) returns (wait: Wait)
      modifies this`now, this`calls, this`reaped
      ensures wait == env(old(calls)).wait && reaped == (old(reaped) || wait.Finishes?)
      ensures now == old(now) + Elapsed(wait, Some(timeout)) && calls == old(calls) + 1
    {
      wait := env(calls).wait;
      now := now + Elapsed(wait, Some(timeout));
      if wait.Finishes? { reaped := true; }
      calls := calls + 1;
    }
  }

  // ---------- What one retirement does ----------

  datatype DrainEnd = Drained(output: Output) | Held | Broken(reason: Reason)

  /** One round of the drain loop: the next system call, the time the round takes,
      and how the loop ends, if it does. */
  datatype Round = Round(calls: nat, taken: real, end: Option<DrainEnd>)

  function RoundFrom(env: Environment, darwin: bool, n: nat, remaining: real): Round {
    var wait := env(n + 1).wait;
    var taken := Elapsed(wait, Some(RealMax(0.0, RealMin(KILL_INTERVAL, remaining))));
    if env(n).refused && !darwin then Round(n + 1, 0.0, Some(Broken(PermissionError)))
    else if wait.Finishes? then Round(n + 2, taken, Some(Drained(wait.output)))
    else if wait.Fails? then Round(n + 2, taken, Some(Broken(OtherException)))
    else Round(n + 2, taken, if remaining <= KILL_INTERVAL then Some(Held) else None)
  }

  /** The whole drain loop: the next system call, the time since retirement began,
      the kills sent and how the loop ended. */
  datatype Drain = Drain(calls: nat, time: real, kills: nat, end: DrainEnd)

  /** How many full kill intervals fit in a time. */
  ghost function Rounds(t: real): nat {
    if t <= 0.0 then 0 else (t * 5.0).Floor + 1
  }

  /** The drain loop from system call n on, at time t after retirement began. */
  function DrainFrom(env: Environment, darwin: bool, n: nat, t: real, bound: real): Drain
    decreases Rounds(bound - t)
  {
    var round := RoundFrom(env, darwin, n, bound - t);
    match round.end
    case Some(end) => Drain(round.calls, t + round.taken, 1, end)
    case None =>
      var rest := DrainFrom(env, darwin, round.calls, t + round.taken, bound);
      rest.(kills := rest.kills + 1)
  }

  /** `drain` is what is left of the drain from call n and time t on, with `rounds`
      kills sent before. */
  ghost predicate Continues(env: Environment, darwin: bool, n: nat, t: real, bound: real, rounds: nat, drain: Drain) {
    var rest := DrainFrom(env, darwin, n, t, bound);
    rest.(kills := rest.kills + rounds) == drain
  }

  lemma OneRound(env: Environment, darwin: bool, n: nat, t: real, bound: real, rounds: nat, drain: Drain)
    requires Continues(env, darwin, n, t, bound, rounds, drain)
    ensures var round := RoundFrom(env, darwin, n, bound - t);
      match round.end {
        case Some(end) => drain == Drain(round.calls, t + round.taken, rounds + 1, end)
        case None =>
          && Continues(env, darwin, round.calls, t + round.taken, bound, rounds + 1, drain)
          && Rounds(bound - (t + round.taken)) < Rounds(bound - t)
      }
  {
  }

  /** A first retirement: its result, how long it takes, the system calls and kills
      it makes, and whether the group counts as retired and the keeper is reaped. */
  datatype Retirement = Retirement(
    result: Outcome<Output>,
    taken: real,
    calls: nat,
    kills: nat,
    retired: bool,
    reaped: bool)

  function Retiring(env: Environment, darwin: bool, n: nat, drained: Option<Output>, bound: real): Retirement {
    var d := if drained.Some? then Drain(n, 0.0, 0, Drained(drained.value)) else DrainFrom(env, darwin, n, 0.0, bound);
    if d.end.Broken? then Retirement(Raised(d.end.reason), d.time, d.calls, d.kills, false, false)
    else if env(d.calls).refused && !darwin then
      Retirement(Raised(PermissionError), d.time, d.calls + 1, d.kills + 1, false, false)
    else
      var wait := env(d.calls + 1).wait;
      var result :=
        if wait.Fails? then Raised(OtherException)
        else if wait.Outlasts? || d.end.Held? then Raised(GroupHold)
        else Returned(d.end.output);
      var taken := d.time + Elapsed(wait, Some(RealMax(LEAST_KEEPER_WAIT, bound - d.time)));
      Retirement(result, taken, d.calls + 2, d.kills + 1, true, wait.Finishes?)
  }

  // ---------- What it answers, call by call ----------

  /** System call n is a group signal that raises. */
  predicate Refused(env: Environment, darwin: bool, n: nat) { env(n).refused && !darwin }

  /** Round j of a drain that starts at system call n sends a kill with call n + 2j,
      at time 0.2 j, and drains with the call after it. It is not the last when the
      kill is taken, the output does not come, and more than 0.2 s are left. */
  ghost predicate GoesOn(env: Environment, darwin: bool, n: nat, bound: real, j: nat) {
    && !Refused(env, darwin, n + 2 * j) && env(n + 2 * j + 1).wait.Outlasts?
    && bound - j as real * 0.2 > 0.2
  }

  /** The first of `rounds` rounds went on, and the last did not. */
  ghost predicate DrainsIn(env: Environment, darwin: bool, n: nat, bound: real, rounds: nat) {
    && rounds > 0 && (forall j :: 0 <= j < rounds - 1 ==> GoesOn(env, darwin, n, bound, j))
    && !GoesOn(env, darwin, n, bound, rounds - 1)
  }

  /** How a drain of so many rounds ends. */
  function EndOf(env: Environment, darwin: bool, n: nat, rounds: nat): DrainEnd
    requires rounds > 0
  {
    var last := n + 2 * (rounds - 1);
    if Refused(env, darwin, last) then Broken(PermissionError)
    else
      match env(last + 1).wait
      case Finishes(_, output) => Drained(output)
      case Fails(_) => Broken(OtherException)
      case Outlasts => Held
  }

  lemma {:induction false} DrainFromRound(env: Environment, darwin: bool, n: nat, j: nat, bound: real)
    returns (rounds: nat)
    requires forall i :: 0 <= i < j ==> GoesOn(env, darwin, n, bound, i)
    ensures rounds > j && DrainsIn(env, darwin, n, bound, rounds)
    ensures var d := DrainFrom(env, darwin, n + 2 * j, j as real * 0.2, bound);
      && d.kills == rounds - j && d.end == EndOf(env, darwin, n, rounds)
      && (!d.end.Broken? ==> d.calls == n + 2 * rounds)
    decreases Rounds(bound - j as real * 0.2)
  {
    var m := n + 2 * j;
    if GoesOn(env, darwin, n, bound, j) {
      assert (j + 1) as real * 0.2 == j as real * 0.2 + 0.2;
      rounds := DrainFromRound(env, darwin, n, j + 1, bound);
    } else {
      rounds := j + 1;
    }
  }

  /** A first retirement, call by call: no round at all if the output was drained
      before, and otherwise rounds as above; then, unless one of them raised, one last
      kill and one wait for the keeper. The output is returned exactly if it came and
      the keeper was reaped. */
  lemma RetiringExact(env: Environment, darwin: bool, n: nat, drained: Option<Output>, bound: real)
    returns (rounds: nat)
    ensures drained.Some? ==> rounds == 0
    ensures drained.None? ==> DrainsIn(env, darwin, n, bound, rounds)
    ensures var s := Retiring(env, darwin, n, drained, bound); var last := n + 2 * rounds;
      var end := if drained.Some? then Drained(drained.value) else EndOf(env, darwin, n, rounds);
      if end.Broken? then s.result == Raised(end.reason) && s.kills == rounds && !s.retired && !s.reaped
      else if Refused(env, darwin, last) then
        s.result == Raised(PermissionError) && s.kills == rounds + 1 && !s.retired && !s.reaped
      else
        && s.kills == rounds + 1 && s.calls == last + 2 && s.retired
        && s.reaped == env(last + 1).wait.Finishes?
        && (s.result.Returned? <==> end.Drained? && s.reaped)
        && (s.result.Returned? ==> s.result.value == end.output)
        && (s.result.Raised? ==>
              s.result.reason == if env(last + 1).wait.Fails? then OtherException else GroupHold)
  {
    if drained.Some? {
      rounds := 0;
    } else {
      rounds := DrainFromRound(env, darwin, n, 0, bound);
    }
    hide DrainFrom;
  }

  // ---------- How long it takes ----------

  lemma {:induction false} DrainBounds(env: Environment, darwin: bool, n: nat, t: real, bound: real)
    requires 0.0 <= t <= RealMax(0.0, bound)
    ensures var d := DrainFrom(env, darwin, n, t, bound);
      && t <= d.time <= RealMax(0.0, bound)
      && (d.kills - 1) as real * KILL_INTERVAL <= RealMax(0.0, bound) - t
    decreases Rounds(bound - t)
  {
    var round := RoundFrom(env, darwin, n, bound - t);
    if round.end.None? {
      DrainBounds(env, darwin, round.calls, t + round.taken, bound);
      var kills := DrainFrom(env, darwin, round.calls, t + round.taken, bound).kills;
      assert kills as real * KILL_INTERVAL == (kills - 1) as real * KILL_INTERVAL + KILL_INTERVAL;
    }
  }

  /** A retirement takes at most its bound (nothing, when that is negative) and the
      least keeper wait, and sends at most bound / 0.2 + 2 kills. */
  lemma RetiringBounds(env: Environment, darwin: bool, n: nat, drained: Option<Output>, bound: real)
    ensures var s := Retiring(env, darwin, n, drained, bound);
      && 0.0 <= s.taken <= RealMax(0.0, bound) + LEAST_KEEPER_WAIT
      && (s.kills - 2) as real * KILL_INTERVAL <= RealMax(0.0, bound)
  {
    DrainBounds(env, darwin, n, 0.0, bound);
  }

  /** Nothing is refused and nothing ends before its timeout. */
  const OUTLASTING: Environment := n => Answer(false, Outlasts)

  lemma {:induction false} DrainOutlasting(darwin: bool, n: nat, t: real, bound: real)
    requires 0.0 <= t <= RealMax(0.0, bound)
    ensures var d := DrainFrom(OUTLASTING, darwin, n, t, bound); d.time == RealMax(0.0, bound) && d.end == Held
    decreases Rounds(bound - t)
  {
    if bound - t > KILL_INTERVAL { DrainOutlasting(darwin, n + 2, t + KILL_INTERVAL, bound); }
  }

  /** The slowest run: a drain that is held to the bound, and a keeper that is not
      reaped in its least wait. */
  lemma OutlastingTaken(darwin: bool, n: nat, drained: Option<Output>, bound: real)
    ensures Retiring(OUTLASTING, darwin, n, drained, bound).taken
         == (if drained.Some? then RealMax(LEAST_KEEPER_WAIT, bound) else RealMax(0.0, bound) + LEAST_KEEPER_WAIT)
  {
    DrainOutlasting(darwin, n, 0.0, bound);
  }

  /** A retirement always ends within its bound and 0.1 s more exactly when the
      bound is not negative. */
  lemma EndsWithinSlackExactly(darwin: bool, n: nat, drained: Option<Output>, bound: real)
    ensures (forall env :: Retiring(env, darwin, n, drained, bound).taken <= bound + LEAST_KEEPER_WAIT) <==>
      bound >= 0.0
  {
    OutlastingTaken(darwin, n, drained, bound);
    if bound >= 0.0 {
      forall env ensures Retiring(env, darwin, n, drained, bound).taken <= bound + LEAST_KEEPER_WAIT {
        RetiringBounds(env, darwin, n, drained, bound);
      }
    }
  }

  /** It always ends within the bound itself exactly when the output was drained
      before and the bound leaves room for the keeper wait. So a call with the
      default bound may overrun it. */
  lemma EndsWithinBoundExactly(darwin: bool, n: nat, drained: Option<Output>, bound: real)
    ensures (forall env :: Retiring(env, darwin, n, drained, bound).taken <= bound)
       <==> drained.Some? && bound >= LEAST_KEEPER_WAIT
  {
    OutlastingTaken(darwin, n, drained, bound);
  }

  // ---------- The group ----------

  class OwnedGroup {
    var retired: bool
    var output: Option<Output>
    var drained: Option<Output>

    /** The keeper is reaped only once retirement began, and every group signal so
        far was sent while it was not. */
    ghost predicate Valid(os: System)
      reads this, os
    {
      && (os.reaped ==> retired)
      && Pinned(os.signals)
      && (output.Some? ==> retired)
    }

    /** The keeper runs already. When the command cannot be started, the group is
        killed and the keeper waited for before the exception leaves. */
    constructor (os: System, started: bool)
      requires !os.reaped && Pinned(os.signals)
      modifies os
      ensures Valid(os) && drained == None && output == None
      ensures started ==> !retired && !os.reaped && os.signals == old(os.signals)
      ensures !started ==>
        && os.signals == old(os.signals) + [GroupSignal(SIGKILL, false)]
        && (retired <==> !(os.env(old(os.calls)).refused && !os.darwin))
        && (os.reaped <==> retired && os.env(old(os.calls) + 1).wait.Finishes?)
    {
      retired, output, drained := false, None, None;
      new;
      if !started {
        var raised := Kill(os, SIGKILL);
        if !raised {
          retired := true;
          var wait := os.WaitKeeper(RETIRE_BOUND);
        }
      }
    }

    /** _kill: a group that is gone counts as killed; refusals raise except where a
        group of zombies refuses. */
    method Kill(os: System, signal: int) returns (raised: bool)
      requires Valid(os) && !os.reaped
      modifies os`signals, os`calls
      ensures Valid(os) && os.signals == old(os.signals) + [GroupSignal(signal, false)]
      ensures raised == (os.env(old(os.calls)).refused && !os.darwin) && os.calls == old(os.calls) + 1
    {
      var refused := os.KillPg(signal);
      raised := refused && !os.darwin;
    }

    method SendSignal(os: System, signal: int) returns (r: Outcome<()>)
      requires Valid(os)
      modifies os`signals, os`calls
      ensures Valid(os)
      ensures retired ==> r == Raised(GroupHold) && os.signals == old(os.signals)
      ensures !retired ==>
        && os.signals == old(os.signals) + [GroupSignal(signal, false)]
        && r == if os.env(old(os.calls)).refused && !os.darwin then Raised(PermissionError) else Returned(())
    {
      if retired { return Raised(GroupHold); }
      var raised := Kill(os, signal);
      r := if raised then Raised(PermissionError) else Returned(());
    }

    method Communicate(os: System, timeout: Option<real>) returns (r: Outcome<Output>)
      requires Valid(os)
      modifies this`drained, os`now, os`calls
      ensures Valid(os)
      ensures r == Communicated(os.env(old(os.calls)).wait, timeout)
      ensures drained == if r.Returned? then Some(r.value) else old(drained)
    {
      r := os.Communicate(timeout);
      if r.Returned? { drained := Some(r.value); }
    }

    /** One round of retire's loop. */
    method DrainOnce(os: System, remaining: real) returns (end: Option<DrainEnd>)
      requires Valid(os) && !os.reaped
      modifies os`signals, os`calls, os`now
      ensures Valid(os) && os.signals == old(os.signals) + [GroupSignal(SIGKILL, false)]
      ensures var round := RoundFrom(os.env, os.darwin, old(os.calls), remaining);
        os.calls == round.calls && os.now == old(os.now) + round.taken && end == round.end
    {
      var raised := Kill(os, SIGKILL);
      if raised { return Some(Broken(PermissionError)); }
      var r := os.Communicate(Some(RealMax(0.0, RealMin(KILL_INTERVAL, remaining))));
      match r {
        case Returned(output) => end := Some(Drained(output));
        case Raised(TimeoutExpired) => end := if remaining <= KILL_INTERVAL then Some(Held) else None;
        case Raised(reason) => end := Some(Broken(reason));
      }
    }

    /** retire's loop: kill and drain until the output is in or the bound is near. */
    method DrainOutput(os: System, bound: real) returns (end: DrainEnd)
      requires Valid(os) && !os.reaped
      modifies os`signals, os`calls, os`now
      ensures Valid(os)
      ensures var d := DrainFrom(os.env, os.darwin, old(os.calls), 0.0, bound);
        && end == d.end && os.calls == d.calls && os.now == old(os.now) + d.time
        && os.signals == old(os.signals) + Kills(d.kills)
    {
      var deadline := os.now + bound;
      ghost var whole := DrainFrom(os.env, os.darwin, os.calls, 0.0, bound);
      ghost var taken, kills := 0.0, 0;
      var last: Option<DrainEnd> := None;
      assert os.signals == old(os.signals) + Kills(0);
      while last.None?
        invariant Valid(os) && os.now == old(os.now) + taken && os.signals == old(os.signals) + Kills(kills)
        invariant last.None? ==> Continues(os.env, os.darwin, os.calls, taken, bound, kills, whole)
        invariant last.Some? ==> whole == Drain(os.calls, taken, kills, last.value)
        decreases last.None?, Rounds(bound - taken)
      {
        OneRound(os.env, os.darwin, os.calls, taken, bound, kills, whole);
        OneMoreKill(old(os.signals), kills);
        hide Continues, DrainFrom, RoundFrom, Kills, Rounds, Elapsed;
        var remaining := deadline - os.now;
        assert remaining == bound - taken;
        ghost var round := RoundFrom(os.env, os.darwin, os.calls, remaining);
        last := DrainOnce(os, remaining);
        taken, kills := taken + round.taken, kills + 1;
      }
      end := last.value;
    }

    /** retire. A group already retired answers as before and sends nothing; the
        first time it does exactly what Retiring says. */
    method Retire(os: System, bound: real) returns (r: Outcome<Output>)
      requires Valid(os)
      modifies this`retired, this`output, os
      ensures Valid(os)
      ensures old(retired) ==>
        && r == (if output.Some? then Returned(output.value) else Raised(GroupHold))
        && retired && output == old(output) && os.signals == old(os.signals) && os.now == old(os.now)
      ensures !old(retired) ==> var s := Retiring(os.env, os.darwin, old(os.calls), drained, bound);
        && r == s.result && retired == s.retired && os.reaped == s.reaped
        && os.now == old(os.now) + s.taken && os.signals == old(os.signals) + Kills(s.kills)
        && output == if r.Returned? then Some(r.value) else None
    {
      if retired {
        return if output.None? then Raised(GroupHold) else Returned(output.value);
      }
      hide DrainFrom;
      var deadline := os.now + bound;
      var end: DrainEnd;
      if drained.Some? {
        end := Drained(drained.value);
      } else {
        end := DrainOutput(os, bound);
      }
      if end.Broken? { return Raised(end.reason); }
      var raised := Kill(os, SIGKILL);
      if raised { return Raised(PermissionError); }
      retired := true;
      var wait := os.WaitKeeper(RealMax(LEAST_KEEPER_WAIT, deadline - os.now));
      if wait.Fails? { return Raised(OtherException); }
      if wait.Outlasts? || end.Held? { return Raised(GroupHold); }
      output := Some(end.output);
      r := Returned(end.output);
    }
  }

  // ---------- Any sequence of calls ----------

  datatype Call = SignalCall(signal: int) | CommunicateCall(timeout: Option<real>) | RetireCall(bound: real)

  /** What each call answered, as far as retirement goes. */
  datatype Response = Other | Retired(result: Outcome<Output>)

  /** Once a retirement succeeded every later one gives the same result. */
  ghost predicate RetirementsRepeat(answers: seq<Response>) {
    forall i, j :: 0 <= i < j < |answers| && answers[i].Retired? && answers[j].Retired? && answers[i].result.Returned?
      ==> answers[j].result == answers[i].result
  }

  /** Over every sequence of calls on a new group, whatever exits in between: each
      group signal is sent while the keeper is unreaped, and a second retirement
      repeats the first result or raises. */
  method Drive(os: System, started: bool, calls: seq<Call>) returns (answers: seq<Response>)
    requires !os.reaped && os.signals == []
    modifies os
    ensures Pinned(os.signals)
    ensures |answers| == |calls| && RetirementsRepeat(answers)
  {
    var g := new OwnedGroup(os, started);
    answers := [];
    for k := 0 to |calls|
      invariant g.Valid(os) && |answers| == k && RetirementsRepeat(answers)
      invariant forall i :: 0 <= i < k && answers[i].Retired? && answers[i].result.Returned? ==>
        g.retired && g.output == Some(answers[i].result.value)
    {
      match calls[k] {
        case SignalCall(signal) =>
          var r := g.SendSignal(os, signal);
          answers := answers + [Other];
        case CommunicateCall(timeout) =>
          var r := g.Communicate(os, timeout);
          answers := answers + [Other];
        case RetireCall(bound) =>
          var r := g.Retire(os, bound);
          answers := answers + [Retired(r)];
      }
    }
  }
}
