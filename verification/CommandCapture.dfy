/** Capturing a command's two output pipes under one shared byte budget, drained
    by two goroutines, and what the run reports from it. */
module CommandCapture {
  import opened ByteStrings

  const MAX_UINT64 := 0xFFFF_FFFF_FFFF_FFFF

  // ---------- The budget ----------

  /** directCommandBudget between two lock holders. tokens counts what was sent on
      the one-place channel `exceeded`. */
  datatype BudgetState = BudgetState(limit: nat, observed: nat, stored: nat, overflow: bool, tokens: nat)

  /** admit on the 64-bit counters: the state after, and how many bytes to keep. */
  function Admitted(b: BudgetState, length: nat): (BudgetState, nat) {
    var observed := if MAX_UINT64 - b.observed < length then MAX_UINT64 else b.observed + length;
    var remaining := if b.stored < b.limit then b.limit - b.stored else 0;
    var keep := Min(length, remaining);
    var over := observed > b.limit && !b.overflow;
    (BudgetState(b.limit, observed, b.stored + keep, b.overflow || over, b.tokens + (if over then 1 else 0)), keep)
  }

  /** The counters after `total` bytes were offered in all. */
  ghost predicate Accounts(b: BudgetState, total: nat) {
    && b.limit <= MAX_UINT64
    && b.observed == Min(total, MAX_UINT64)
    && b.stored == Min(b.limit, total)
    && (b.overflow <==> b.limit < Min(total, MAX_UINT64))
    && b.tokens == (if b.overflow then 1 else 0)
  }

  /** However the offers are cut up, the budget stores min(limit, total), knows
      exactly whether the limit was passed, and says so once: the send on the
      one-place channel never blocks. */
  lemma AdmitAccounts(b: BudgetState, total: nat, length: nat)
    requires Accounts(b, total)
    ensures var (b', keep) := Admitted(b, length);
      && Accounts(b', total + length)
      && keep == Min(b.limit, total + length) - Min(b.limit, total)
      && b'.tokens <= 1
  {
  }

  class Budget {
    var limit: nat
    var observed: nat
    var stored: nat
    var overflow: bool
    var tokens: nat

    ghost function State(): BudgetState
      reads this
    {
      BudgetState(limit, observed, stored, overflow, tokens)
    }

    constructor (limit: nat)
      ensures State() == BudgetState(limit, 0, 0, false, 0)
    {
      this.limit, observed, stored, overflow, tokens := limit, 0, 0, false, 0;
    }

    method Admit(length: nat) returns (keep: nat)
      modifies this
      ensures (State(), keep) == Admitted(old(State()), length)
    {
      if MAX_UINT64 - observed < length { observed := MAX_UINT64; } else { observed := observed + length; }
      var remaining := 0;
      if stored < limit { remaining := limit - stored; }
      keep := Min(length, remaining);
      stored := stored + keep;
      if observed > limit && !overflow {
        overflow := true;
        tokens := tokens + 1;
      }
    }
  }

  /** directCommandCapture: keeps what the budget admits, claims to have taken all. */
  class Capture {
    const budget: Budget
    var buffer: Bytes

    constructor (budget: Budget)
      ensures this.budget == budget && buffer == []
    {
      this.budget, buffer := budget, [];
    }

    method Write(value: Bytes) returns (n: nat)
      requires budget.stored <= budget.limit
      modifies this, budget
      ensures n == |value|
      ensures budget.State() == Admitted(old(budget.State()), |value|).0
      ensures buffer == old(buffer) + value[..Admitted(old(budget.State()), |value|).1]
    {
      var keep := budget.Admit(|value|);
      if keep > 0 { buffer := buffer + value[..keep]; }
      n := |value|;
    }
  }

  // ---------- Two drains, any interleaving ----------

  datatype Drain = Draining | Ended(ok: bool)

  /** One pipe: everything read from it so far, what was admitted but not yet
      appended, what was appended, and whether its goroutine has reported. */
  datatype Side = Side(read: Bytes, pending: Option<Bytes>, buffer: Bytes, drain: Drain)

  /** The goroutine that waits for the drains. */
  datatype Main = Collecting(collected: nat, failed: bool) | Expired

  datatype State = State(budget: BudgetState, stdout: Side, stderr: Side, reports: seq<bool>, main: Main)

  datatype Event =
    | Read(first: bool, chunk: Bytes)   // a chunk arrives and is put through admit
    | Store(first: bool)                // the kept part reaches the buffer
    | End(first: bool, ok: bool)        // io.Copy returned (ok: at end of file) and the drain reports
    | Collect                           // the main goroutine takes one report
    | Expire                            // no report is there and time is up

  function SideOf(s: State, first: bool): Side { if first then s.stdout else s.stderr }

  function WithSide(s: State, first: bool, side: Side): State {
    if first then s.(stdout := side) else s.(stderr := side)
  }

  const EMPTY_SIDE := Side([], None, [], Draining)

  function Start(limit: nat): State {
    State(BudgetState(limit, 0, 0, false, 0), EMPTY_SIDE, EMPTY_SIDE, [], Collecting(0, false))
  }

  ghost predicate Enabled(s: State, e: Event) {
    match e
    case Read(first, chunk) => SideOf(s, first).drain.Draining? && SideOf(s, first).pending.None?
    case Store(first) => SideOf(s, first).pending.Some?
    case End(first, _) => SideOf(s, first).drain.Draining? && SideOf(s, first).pending.None?
    case Collect => s.main.Collecting? && s.main.collected < 2 && s.reports != []
    case Expire => s.main.Collecting? && s.main.collected < 2 && s.reports == []
  }

  function After(s: State, e: Event): State
    requires Enabled(s, e)
  {
    match e
    case Read(first, chunk) =>
      var (b, keep) := Admitted(s.budget, |chunk|);
      var side := SideOf(s, first);
      WithSide(s, first, side.(read := side.read + chunk, pending := Some(chunk[..keep]))).(budget := b)
    case Store(first) =>
      var side := SideOf(s, first);
      WithSide(s, first, side.(buffer := side.buffer + side.pending.value, pending := None))
    case End(first, ok) =>
      WithSide(s, first, SideOf(s, first).(drain := Ended(ok))).(reports := s.reports + [ok])
    case Collect =>
      s.(reports := s.reports[1..], main := Collecting(s.main.collected + 1, s.main.failed || !s.reports[0]))
    case Expire => s.(main := Expired)
  }

  ghost predicate Legal(s: State, events: seq<Event>)
    decreases |events|
  {
    events == [] || (Enabled(s, events[0]) && Legal(After(s, events[0]), events[1..]))
  }

  ghost function Run(s: State, events: seq<Event>): State
    requires Legal(s, events)
    decreases |events|
  {
    if events == [] then s else Run(After(s, events[0]), events[1..])
  }

  /** Admitted so far on one side. */
  ghost function Kept(side: Side): Bytes {
    side.buffer + (if side.pending.Some? then side.pending.value else [])
  }

  ghost predicate Inv(s: State) {
    && Accounts(s.budget, |s.stdout.read| + |s.stderr.read|)
    && Kept(s.stdout) <= s.stdout.read && Kept(s.stderr) <= s.stderr.read
    && |Kept(s.stdout)| + |Kept(s.stderr)| == s.budget.stored
  }

  ghost function Reported(side: Side): nat { if side.drain.Ended? then 1 else 0 }

  /** Reports not yet collected plus those collected are the drains that ended, and
      what they show of failures is exactly how the drains ended. */
  ghost predicate ReportsInv(s: State) {
    && (s.stdout.drain.Ended? ==> s.stdout.pending.None?) && (s.stderr.drain.Ended? ==> s.stderr.pending.None?)
    && (s.main.Collecting? ==>
          && s.main.collected <= 2
          && |s.reports| + s.main.collected == Reported(s.stdout) + Reported(s.stderr)
          && (!s.main.failed && (forall i :: 0 <= i < |s.reports| ==> s.reports[i]) <==>
                (s.stdout.drain.Ended? ==> s.stdout.drain.ok) && (s.stderr.drain.Ended? ==> s.stderr.drain.ok)))
  }

  /** While anything is still admitted, nothing was dropped before. */
  lemma WholeSoFar(s: State, first: bool, chunk: Bytes)
    requires Inv(s) && Admitted(s.budget, |chunk|).1 > 0
    ensures Kept(SideOf(s, first)) == SideOf(s, first).read
  {
    assert |Kept(s.stdout)| + |Kept(s.stderr)| == |s.stdout.read| + |s.stderr.read|;
  }

  lemma ReadInv(s: State, first: bool, chunk: Bytes)
    requires Inv(s) && Enabled(s, Read(first, chunk))
    ensures Inv(After(s, Read(first, chunk)))
  {
    AdmitAccounts(s.budget, |s.stdout.read| + |s.stderr.read|, |chunk|);
    var (b, keep) := Admitted(s.budget, |chunk|);
    hide Accounts;
    var side := SideOf(s, first);
    assert Kept(side) == side.buffer;
    var side' := side.(read := side.read + chunk, pending := Some(chunk[..keep]));
    assert |Kept(side')| == |Kept(side)| + keep;
    assert Kept(side') <= side'.read by {
      if keep > 0 { WholeSoFar(s, first, chunk); }
    }
  }

  lemma StepInv(s: State, e: Event)
    requires Inv(s) && ReportsInv(s) && Enabled(s, e)
    ensures Inv(After(s, e)) && ReportsInv(After(s, e))
  {
    hide Accounts;
    match e
    case Read(first, chunk) => ReadInv(s, first, chunk);
    case Store(first) =>
      assert Kept(SideOf(After(s, e), first)) == Kept(SideOf(s, first));
    case End(first, ok) =>
      assert forall i :: 0 <= i < |s.reports| ==> After(s, e).reports[i] == s.reports[i];
      assert After(s, e).reports[|s.reports|] == ok;
    case Collect =>
      assert forall i :: 0 < i < |s.reports| ==> s.reports[1..][i - 1] == s.reports[i];
    case Expire =>
  }

  lemma {:induction false} RunInv(s: State, events: seq<Event>)
    requires Inv(s) && ReportsInv(s) && Legal(s, events)
    ensures Inv(Run(s, events)) && ReportsInv(Run(s, events))
    decreases |events|
  {
    hide Inv, ReportsInv, Enabled, After;
    if events != [] {
      StepInv(s, events[0]);
      RunInv(After(s, events[0]), events[1..]);
    }
  }

  lemma {:induction false} LimitKept(s: State, events: seq<Event>)
    requires Legal(s, events)
    ensures Run(s, events).budget.limit == s.budget.limit
    decreases |events|
  {
    if events != [] { LimitKept(After(s, events[0]), events[1..]); }
  }

  /** Under every interleaving each capture is a prefix of its stream, the two hold
      (with what is on its way to them) min(limit, total) bytes in all, and the
      overflow token was sent exactly once if the 64-bit count of offered bytes passed
      the limit, else never. */
  lemma CapturesUnderAnyInterleaving(limit: nat, events: seq<Event>)
    requires limit <= MAX_UINT64 && Legal(Start(limit), events)
    ensures var s := Run(Start(limit), events); var total := |s.stdout.read| + |s.stderr.read|;
      && s.stdout.buffer <= s.stdout.read && s.stderr.buffer <= s.stderr.read
      && |Kept(s.stdout)| + |Kept(s.stderr)| == Min(limit, total) == s.budget.stored
      && s.budget.tokens == (if Min(total, MAX_UINT64) > limit then 1 else 0)
  {
    RunInv(Start(limit), events);
    LimitKept(Start(limit), events);
  }

  /** Waiting for the pipes may expire only while some pipe is not drained: a drain
      that ended in time is always collected. */
  lemma ExpiresOnlyUndrained(limit: nat, events: seq<Event>)
    requires limit <= MAX_UINT64 && Legal(Start(limit), events) && Enabled(Run(Start(limit), events), Expire)
    ensures var s := Run(Start(limit), events); s.stdout.drain.Draining? || s.stderr.drain.Draining?
  {
    RunInv(Start(limit), events);
    hide Run, Legal;
  }

  /** A run in which each pipe's bytes come in one piece. */
  function OnePieceEach(out: Bytes, err: Bytes): seq<Event> {
    [Read(true, out), Store(true), End(true, true), Read(false, err), Store(false), End(false, true), Collect, Collect]
  }

  lemma Prepended(s: State, e: Event, rest: seq<Event>)
    ensures Legal(s, [e] + rest) <==> Enabled(s, e) && Legal(After(s, e), rest)
    ensures Legal(s, [e] + rest) ==> Run(s, [e] + rest) == Run(After(s, e), rest)
  {
    assert ([e] + rest)[1..] == rest;
    hide Enabled, After;
  }

  /** The state once one pipe was read in one piece and has reported. */
  function Drained(s: State, first: bool, bytes: Bytes): State {
    var (b, keep) := Admitted(s.budget, |bytes|);
    WithSide(s, first, Side(bytes, None, bytes[..keep], Ended(true))).(budget := b, reports := s.reports + [true])
  }

  lemma PipeDrains(s: State, first: bool, bytes: Bytes, rest: seq<Event>)
    requires SideOf(s, first) == EMPTY_SIDE && Legal(Drained(s, first, bytes), rest)
    ensures var events := [Read(first, bytes), Store(first), End(first, true)] + rest;
      Legal(s, events) && Run(s, events) == Run(Drained(s, first, bytes), rest)
  {
    var e1, e2, e3 := Read(first, bytes), Store(first), End(first, true);
    var (b, keep) := Admitted(s.budget, |bytes|);
    hide Admitted;
    assert [] + bytes == bytes && [] + bytes[..keep] == bytes[..keep];
    var s1 := After(s, e1);
    var s2 := After(s1, e2);
    assert SideOf(s2, first) == Side(bytes, None, bytes[..keep], Draining);
    var s3 := After(s2, e3);
    Prepended(s, e1, [e2] + ([e3] + rest));
    Prepended(s1, e2, [e3] + rest);
    Prepended(s2, e3, rest);
    assert [e1, e2, e3] + rest == [e1] + ([e2] + ([e3] + rest));
    hide Legal, Run;
  }

  lemma ReportsCollected(s: State)
    requires s.main == Collecting(0, false) && s.reports == [true, true]
    ensures Legal(s, [Collect, Collect])
    ensures Run(s, [Collect, Collect]) == s.(reports := [], main := Collecting(2, false))
  {
    var s1 := After(s, Collect);
    assert s1.reports == [true];
    var s2 := After(s1, Collect);
    assert s2.reports == [];
    Prepended(s1, Collect, []);
    Prepended(s, Collect, [Collect]);
    assert [Collect] + [] == [Collect] && [Collect] + [Collect] == [Collect, Collect];
    assert Legal(s2, []);
  }

  /** Whatever the command writes, a run captures it and reports success: each pipe
      may be drained to its end, and each capture then holds what the limit left. */
  lemma SomeRunCaptures(limit: nat, out: Bytes, err: Bytes)
    requires limit <= MAX_UINT64
    ensures Legal(Start(limit), OnePieceEach(out, err))
    ensures var s := Run(Start(limit), OnePieceEach(out, err)); var kept := Min(limit, |out|);
      && s.stdout == Side(out, None, out[..kept], Ended(true))
      && s.stderr == Side(err, None, err[..Min(limit - kept, |err|)], Ended(true))
      && s.main == Collecting(2, false)
  {
    var s1 := Drained(Start(limit), true, out);
    var s2 := Drained(s1, false, err);
    assert s2.reports == [true, true];
    hide Legal, Run, Drained;
    ReportsCollected(s2);
    PipeDrains(s1, false, err, [Collect, Collect]);
    var second := [Read(false, err), Store(false), End(false, true)] + [Collect, Collect];
    PipeDrains(Start(limit), true, out, second);
    assert OnePieceEach(out, err) == [Read(true, out), Store(true), End(true, true)] + second;
  }

  // ---------- What the run reports ----------

  datatype Outcome = Finished | Cancelled | TimedOut | LimitSignalled

  datatype Wait = WaitDone | WaitExitError | WaitFailed | WaitDeadline

  datatype RunError =
    | ErrWaitDeadline
    | ErrWait
    | ErrCancelled
    | ErrTimeout
    | ErrOutputLimit
    | ErrContainment
    | ErrPipeWait
    | ErrPipe

  /** How runDirectCommandWithFiles joins its errors, once the drains were waited
      for: selected is the arm of the first select, s the state at the end. */
  function RunErrors(selected: Outcome, wait: Wait, terminated: bool, cleaned: bool, s: State): set<RunError>
    requires s.main.Expired? || s.main.collected == 2
  {
    (match wait { case WaitDeadline => {ErrWaitDeadline} case WaitFailed => {ErrWait} case _ => {} })
    + (if selected == Cancelled then {ErrCancelled} else {})
    + (if selected == TimedOut then {ErrTimeout} else {})
    + (if selected == LimitSignalled || s.budget.overflow then {ErrOutputLimit} else {})
    + (if !terminated || !cleaned then {ErrContainment} else {})
    + (if s.main.Expired? then {ErrPipeWait} else if s.main.failed then {ErrPipe} else {})
  }

  lemma NoErrorConditions(selected: Outcome, wait: Wait, terminated: bool, cleaned: bool, s: State)
    requires s.main.Expired? || s.main.collected == 2
    ensures RunErrors(selected, wait, terminated, cleaned, s) == {} <==>
      && (wait.WaitDone? || wait.WaitExitError?) && selected == Finished && !s.budget.overflow
      && terminated && cleaned && s.main.Collecting? && !s.main.failed
  {
    var errors := RunErrors(selected, wait, terminated, cleaned, s);
    if wait.WaitDeadline? { assert ErrWaitDeadline in errors; }
    if wait.WaitFailed? { assert ErrWait in errors; }
    if selected == Cancelled { assert ErrCancelled in errors; }
    if selected == TimedOut { assert ErrTimeout in errors; }
    if selected == LimitSignalled || s.budget.overflow { assert ErrOutputLimit in errors; }
    if !terminated || !cleaned { assert ErrContainment in errors; }
    if s.main.Expired? { assert ErrPipeWait in errors; }
    if s.main.Collecting? && s.main.failed { assert ErrPipe in errors; }
  }

  /** What causes each error: how the wait and the select ended, the bytes offered,
      and how the drains ended. */
  predicate Causes(e: RunError, limit: nat, selected: Outcome, wait: Wait, terminated: bool, cleaned: bool, s: State) {
    match e
    case ErrWaitDeadline => wait == WaitDeadline
    case ErrWait => wait == WaitFailed
    case ErrCancelled => selected == Cancelled
    case ErrTimeout => selected == TimedOut
    case ErrOutputLimit =>
      selected == LimitSignalled || Min(|s.stdout.read| + |s.stderr.read|, MAX_UINT64) > limit
    case ErrContainment => !terminated || !cleaned
    case ErrPipeWait => s.main.Expired?
    case ErrPipe => s.main.Collecting? && (s.stdout.drain == Ended(false) || s.stderr.drain == Ended(false))
  }

  /** What the end of a run shows of its pipes. */
  lemma EndShows(limit: nat, events: seq<Event>)
    requires limit <= MAX_UINT64 && Legal(Start(limit), events)
    ensures var s := Run(Start(limit), events); var total := |s.stdout.read| + |s.stderr.read|;
      && (s.budget.overflow <==> Min(total, MAX_UINT64) > limit)
      && (s.main.Collecting? && s.main.collected == 2 ==>
            && s.stdout.drain.Ended? && s.stderr.drain.Ended? && s.reports == []
            && (s.main.failed <==> !s.stdout.drain.ok || !s.stderr.drain.ok))
  {
    RunInv(Start(limit), events);
    LimitKept(Start(limit), events);
    hide Run, Legal;
  }

  /** Each error is joined exactly for its own cause. */
  lemma ErrorsExact(limit: nat, events: seq<Event>, selected: Outcome, wait: Wait, terminated: bool, cleaned: bool,
          e: RunError)
    requires limit <= MAX_UINT64 && Legal(Start(limit), events)
    requires var s := Run(Start(limit), events); s.main.Expired? || s.main.collected == 2
    ensures var s := Run(Start(limit), events);
      e in RunErrors(selected, wait, terminated, cleaned, s) <==>
        Causes(e, limit, selected, wait, terminated, cleaned, s)
  {
    EndShows(limit, events);
    hide Run, Legal;
  }

  /** Each capture is exactly everything read from its pipe. */
  predicate Whole(s: State) {
    s.stdout.buffer == s.stdout.read && s.stderr.buffer == s.stderr.read
  }

  /** The run reports no error exactly if the command was waited for and its group
      cleaned up, both pipes were read up to end of file in time, and no more was
      offered than the limit. Both captures then hold all of it, unless the limit is
      the largest 64-bit number and still was passed: then, and only then, what was
      dropped goes unreported. */
  lemma NoErrorMeansComplete(limit: nat, events: seq<Event>, selected: Outcome, wait: Wait, terminated: bool,
          cleaned: bool)
    requires limit <= MAX_UINT64 && Legal(Start(limit), events)
    requires var s := Run(Start(limit), events); s.main.Expired? || s.main.collected == 2
    ensures var s := Run(Start(limit), events); var total := |s.stdout.read| + |s.stderr.read|;
      var errors := RunErrors(selected, wait, terminated, cleaned, s);
      && (errors == {} <==>
            && selected == Finished && (wait.WaitDone? || wait.WaitExitError?) && terminated && cleaned
            && s.main.Collecting? && s.stdout.drain == Ended(true) && s.stderr.drain == Ended(true)
            && Min(total, MAX_UINT64) <= limit)
      && (errors == {} ==> (Whole(s) <==> limit < MAX_UINT64 || total <= MAX_UINT64))
  {
    RunInv(Start(limit), events);
    LimitKept(Start(limit), events);
    var s := Run(Start(limit), events);
    hide Run, Legal;
    NoErrorConditions(selected, wait, terminated, cleaned, s);
    hide RunErrors;
    if s.main.Collecting? && s.stdout.drain == Ended(true) && s.stderr.drain == Ended(true) {
      assert Kept(s.stdout) == s.stdout.buffer && Kept(s.stderr) == s.stderr.buffer;
    }
  }
}
