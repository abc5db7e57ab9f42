/** parseCodex's token accounting: one stream that mixes cumulative snapshots and
    per-turn deltas, of which only one kind may be counted. */
module CodexAccounting {
  import opened ByteStrings
  import opened TokenCounts

  const CODEX_FIELDS: seq<string> := ["input_tokens", "cached_input_tokens", "output_tokens"]
  const USAGE_KINDS: seq<string> := ["token_count", "turn.completed"]
  const TURN_KINDS: seq<string> := ["turn.completed", "task_complete", "agent_message"]

  // ---------- One record ----------

  function Container(r: Record): Record {
    match AsObject(Field(r, "msg"))
    case Some(message) => message
    case None => r
  }

  function Kind(r: Record): Json {
    if Truthy(Field(r, "type")) then Field(r, "type") else Field(Container(r), "type")
  }

  predicate OneOf(j: Json, names: seq<string>) { j.Str? && j.s in names }

  /** What a line says about tokens. */
  datatype Event = Silent | Snapshot(usage: Record) | Delta(usage: Record)

  function EventOf(line: Option<Record>): Event {
    match line
    case None => Silent
    case Some(r) =>
      if !OneOf(Kind(r), USAGE_KINDS) && !OneOf(Field(Container(r), "type"), USAGE_KINDS) then Silent
      else
        match AsObject(Field(Container(r), "total_token_usage"))
        case Some(usage) => Snapshot(usage)
        case None =>
          match AsObject(Field(Container(r), "last_token_usage"))
          case Some(usage) => Delta(usage)
          case None =>
            match AsObject(Field(Container(r), "usage"))
            case Some(usage) => Delta(usage)
            case None => Silent
  }

  predicate IsTurn(line: Option<Record>) { line.Some? && OneOf(Kind(line.value), TURN_KINDS) }

  /** The key names one of these kinds. */
  predicate NamesOne(r: Record, key: string, kinds: seq<string>) {
    key in r && r[key].Str? && r[key].s in kinds
  }

  /** The object under "msg", and without one the record itself. */
  lemma ContainerExact(r: Record)
    ensures forall message: Record :: Says(r, "msg", Obj(message)) ==> Container(r) == message
    ensures (forall message: Record :: !Says(r, "msg", Obj(message))) ==> Container(r) == r
  {
    if AsObject(Field(r, "msg")).Some? { assert Says(r, "msg", Obj(AsObject(Field(r, "msg")).value)); }
  }

  /** A line counts turns when the record names one of the three kinds, or names
      nothing and its container does. */
  lemma TurnExact(r: Record)
    ensures IsTurn(Some(r)) <==>
      var kinds := ["turn.completed", "task_complete", "agent_message"];
      NamesOne(r, "type", kinds) || (!SaysSomething(r, "type") && NamesOne(Container(r), "type", kinds))
  {
    TruthyExact(r, "type");
    hide Container;
  }

  /** Only a record of a usage kind speaks of tokens, by its own name or its
      container's: a snapshot by a total, and a delta, when there is no total, by the
      last usage or else the usage. */
  lemma EventExact(r: Record, usage: Record)
    ensures var c := Container(r);
      var speaks := NamesOne(r, "type", ["token_count", "turn.completed"])
        || NamesOne(c, "type", ["token_count", "turn.completed"]);
      && (EventOf(Some(r)) == Snapshot(usage) <==> speaks && Says(c, "total_token_usage", Obj(usage)))
      && (EventOf(Some(r)) == Delta(usage) <==>
            && speaks && AsObject(Field(c, "total_token_usage")).None?
            && (Says(c, "last_token_usage", Obj(usage))
                || (AsObject(Field(c, "last_token_usage")).None? && Says(c, "usage", Obj(usage)))))
  {
    TruthyExact(r, "type");
    hide Container;
  }

  // ---------- What the loop keeps ----------

  datatype Stream = Stream(snapshot: Option<Fields>, deltas: Fields, sawDelta: bool, tail: bool)

  const START := Stream(None, map f | f in CODEX_FIELDS :: Known(0), false, false)

  function AddFields(sums: Fields, usage: Record): Fields {
    map f | f in CODEX_FIELDS :: Add(if f in sums then sums[f] else Unknown, Number(Field(usage, f)))
  }

  function Visit(s: Stream, e: Event): Stream {
    match e
    case Silent => s
    case Snapshot(usage) => s.(snapshot := Some(CumulativeFields(s.snapshot, usage, CODEX_FIELDS)), tail := false)
    case Delta(usage) => s.(deltas := AddFields(s.deltas, usage), sawDelta := true, tail := s.snapshot.Some?)
  }

  function StreamOf(t: Transcript): Stream {
    if t == [] then START else Visit(StreamOf(t[..|t| - 1]), EventOf(t[|t| - 1]))
  }

  /** The total reported for a field. */
  function Total(s: Stream, field: string): Count {
    var totals: Fields :=
      if s.snapshot.Some? && !s.tail then s.snapshot.value
      else if s.snapshot.None? && s.sawDelta then s.deltas
      else map[];
    if field in totals then totals[field] else Unknown
  }

  // ---------- What the transcript says ----------

  ghost predicate HasSnapshot(t: Transcript) {
    exists i :: 0 <= i < |t| && EventOf(t[i]).Snapshot?
  }

  ghost predicate HasDelta(t: Transcript) {
    exists i :: 0 <= i < |t| && EventOf(t[i]).Delta?
  }

  /** A delta that no later snapshot covers. */
  ghost predicate Uncovered(t: Transcript, i: int) {
    0 <= i < |t| && EventOf(t[i]).Delta? && forall j :: i < j < |t| ==> !EventOf(t[j]).Snapshot?
  }

  ghost predicate HasUncovered(t: Transcript) {
    exists i :: Uncovered(t, i)
  }

  /** The values the snapshots reported for a field, in order. */
  function Snapshots(t: Transcript, field: string): seq<Count> {
    if t == [] then []
    else
      Snapshots(t[..|t| - 1], field)
        + (match EventOf(t[|t| - 1]) case Snapshot(usage) => [Number(Field(usage, field))] case _ => [])
  }

  /** The values the deltas reported for a field, in order. */
  function Deltas(t: Transcript, field: string): seq<Count> {
    if t == [] then []
    else
      Deltas(t[..|t| - 1], field)
        + (match EventOf(t[|t| - 1]) case Delta(usage) => [Number(Field(usage, field))] case _ => [])
  }

  // ---------- One more line ----------

  lemma SnapshotStep(t: Transcript)
    requires t != []
    ensures HasSnapshot(t) <==> HasSnapshot(t[..|t| - 1]) || EventOf(t[|t| - 1]).Snapshot?
  {
    var front := t[..|t| - 1];
    hide EventOf;
    if i :| 0 <= i < |front| && EventOf(front[i]).Snapshot? { assert EventOf(t[i]).Snapshot?; }
    if i :| 0 <= i < |t| && EventOf(t[i]).Snapshot? { assert i < |front| ==> EventOf(front[i]).Snapshot?; }
  }

  lemma DeltaStep(t: Transcript)
    requires t != []
    ensures HasDelta(t) <==> HasDelta(t[..|t| - 1]) || EventOf(t[|t| - 1]).Delta?
  {
    var front := t[..|t| - 1];
    hide EventOf;
    if i :| 0 <= i < |front| && EventOf(front[i]).Delta? { assert EventOf(t[i]).Delta?; }
    if i :| 0 <= i < |t| && EventOf(t[i]).Delta? { assert i < |front| ==> EventOf(front[i]).Delta?; }
  }

  /** A snapshot covers every delta before it; a delta is not covered yet; another
      line changes nothing. */
  lemma UncoveredStep(t: Transcript)
    requires t != []
    ensures HasUncovered(t) <==> match EventOf(t[|t| - 1]) {
        case Silent => HasUncovered(t[..|t| - 1])
        case Snapshot(_) => false
        case Delta(_) => true
      }
  {
    var front, last := t[..|t| - 1], |t| - 1;
    hide EventOf;
    assert EventOf(t[last]).Delta? ==> Uncovered(t, last);
    if EventOf(t[last]).Silent? {
      if i :| Uncovered(front, i) {
        forall j | i < j < |t| ensures !EventOf(t[j]).Snapshot? { assert j < last ==> t[j] == front[j]; }
        assert Uncovered(t, i);
      }
      if i :| Uncovered(t, i) {
        forall j | i < j < |front| ensures !EventOf(front[j]).Snapshot? { assert t[j] == front[j]; }
        assert Uncovered(front, i);
      }
    }
  }

  // ---------- Exactness ----------

  /** The loop's flags are what the transcript says. */
  lemma {:induction false} FlagsSay(t: Transcript)
    ensures var s := StreamOf(t);
      && (s.snapshot.Some? <==> HasSnapshot(t))
      && (s.sawDelta <==> HasDelta(t))
      && (s.tail <==> HasSnapshot(t) && HasUncovered(t))
  {
    if t != [] {
      FlagsSay(t[..|t| - 1]);
      SnapshotStep(t);
      DeltaStep(t);
      UncoveredStep(t);
      hide EventOf, CumulativeFields, AddFields, HasSnapshot, HasDelta, HasUncovered;
    }
  }

  /** The loop's counters are the snapshots cumulated and the deltas added. */
  lemma {:induction false} CountersSay(t: Transcript, field: string)
    requires field in CODEX_FIELDS
    ensures var s := StreamOf(t); var seen := Snapshots(t, field);
      && field in s.deltas && s.deltas[field] == Added(Deltas(t, field))
      && (s.snapshot.Some? <==> seen != [])
      && (s.snapshot.Some? ==> field in s.snapshot.value && s.snapshot.value[field] == Cumulated(seen))
  {
    if t != [] {
      var front, e := t[..|t| - 1], EventOf(t[|t| - 1]);
      CountersSay(front, field);
      hide EventOf, Number, Cumulate, Add;
      var before, seen := Snapshots(front, field), Snapshots(t, field);
      var earlier, deltas := Deltas(front, field), Deltas(t, field);
      match e {
        case Silent =>
          assert seen == before && deltas == earlier;
        case Snapshot(usage) =>
          assert seen[..|seen| - 1] == before && deltas == earlier;
        case Delta(usage) =>
          assert deltas[..|deltas| - 1] == earlier && seen == before;
      }
    }
  }

  /** The exact total of a field, said of the transcript alone. With a snapshot, only
      snapshots count: the last one, provided that no delta is left uncovered and
      that they are naturals that never go down. Without one, the sum of the deltas,
      provided that there are any and all are naturals. */
  ghost function Reported(t: Transcript, field: string): Count {
    if HasSnapshot(t) then
      var seen := Snapshots(t, field);
      if seen != [] && !HasUncovered(t) && Nondecreasing(seen) then seen[|seen| - 1] else Unknown
    else if HasDelta(t) && AllKnown(Deltas(t, field)) then Known(SumOf(Deltas(t, field)))
    else Unknown
  }

  lemma CodexTotalExact(t: Transcript, field: string)
    requires field in CODEX_FIELDS
    ensures Total(StreamOf(t), field) == Reported(t, field)
    ensures HasSnapshot(t) ==> (Total(StreamOf(t), field).Known? <==>
      !HasUncovered(t) && Nondecreasing(Snapshots(t, field)))
  {
    FlagsSay(t);
    CountersSay(t, field);
    hide StreamOf, HasSnapshot, HasDelta, HasUncovered, Snapshots, Deltas;
    AddedExact(Deltas(t, field));
    if Snapshots(t, field) != [] { CumulatedExact(Snapshots(t, field)); }
  }

  // ---------- The loop and the report ----------

  datatype Report = Report(turns: Count, totals: Fields, unparsed: nat)

  function Turns(t: Transcript): nat {
    if t == [] then 0 else Turns(t[..|t| - 1]) + (if IsTurn(t[|t| - 1]) then 1 else 0)
  }

  /** Turns are unknown when no record marks one. */
  ghost function ReportOf(t: Transcript): Report {
    Report(if Turns(t) > 0 then Known(Turns(t)) else Unknown,
           map f | f in CODEX_FIELDS :: Reported(t, f),
           Unparsed(t))
  }

  method AddDeltas(sums: Fields, usage: Record, names: seq<string>) returns (r: Fields)
    requires sums.Keys == set f | f in names
    requires forall i, j :: 0 <= i < j < |names| ==> names[i] != names[j]
    ensures r == map f | f in names :: Add(sums[f], Number(Field(usage, f)))
  {
    r := sums;
    for i := 0 to |names|
      invariant r.Keys == sums.Keys
      invariant forall j :: 0 <= j < i ==> r[names[j]] == Add(sums[names[j]], Number(Field(usage, names[j])))
      invariant forall j :: i <= j < |names| ==> r[names[j]] == sums[names[j]]
    {
      hide Add, Number, Field;
      r := r[names[i] := Add(r[names[i]], Number(Field(usage, names[i])))];
    }
  }

  /** Sums for exactly the Codex fields. */
  ghost predicate SumsOf(sums: Fields) { sums.Keys == set f | f in CODEX_FIELDS }

  lemma DeltasAdded(sums: Fields, usage: Record)
    requires SumsOf(sums)
    ensures AddFields(sums, usage) == map f | f in CODEX_FIELDS :: Add(sums[f], Number(Field(usage, f)))
    ensures SumsOf(AddFields(sums, usage))
  {
  }

  /** The visitor's body for one line. */
  method VisitEvent(s: Stream, e: Event) returns (s': Stream)
    requires SumsOf(s.deltas)
    ensures s' == Visit(s, e) && SumsOf(s'.deltas)
  {
    match e {
      case Silent => s' := s;
      case Snapshot(usage) =>
        var fields := Cumulative(s.snapshot, usage, CODEX_FIELDS);
        s' := s.(snapshot := Some(fields), tail := false);
      case Delta(usage) =>
        var deltas := AddDeltas(s.deltas, usage, CODEX_FIELDS);
        DeltasAdded(s.deltas, usage);
        s' := s.(deltas := deltas, sawDelta := true, tail := s.snapshot.Some?);
    }
  }

  function Totals(s: Stream): Fields {
    map f | f in CODEX_FIELDS :: Total(s, f)
  }

  /** The totals the loop ends with are those the transcript reports. */
  lemma TotalsExact(t: Transcript)
    ensures Totals(StreamOf(t)) == map f | f in CODEX_FIELDS :: Reported(t, f)
  {
    forall f | f in CODEX_FIELDS ensures Total(StreamOf(t), f) == Reported(t, f) { CodexTotalExact(t, f); }
    hide Total, Reported, StreamOf;
  }

  /** parseCodex, as far as turns and tokens go. */
  method ParseCodex(t: Transcript) returns (r: Report)
    ensures r == ReportOf(t)
  {
    hide Totals, Reported;
    var turns, unparsed, sawTurn := 0, 0, false;
    var s := START;
    for i := 0 to |t|
      invariant s == StreamOf(t[..i]) && SumsOf(s.deltas)
      invariant turns == Turns(t[..i]) && unparsed == Unparsed(t[..i]) && (sawTurn <==> turns > 0)
    {
      hide EventOf, IsTurn, Visit, SumsOf;
      assert t[..i + 1][..i] == t[..i] && t[..i + 1][i] == t[i];
      if t[i].None? { unparsed := unparsed + 1; }
      if IsTurn(t[i]) { turns, sawTurn := turns + 1, true; }
      s := VisitEvent(s, EventOf(t[i]));
    }
    assert t[..|t|] == t;
    TotalsExact(t);
    r := Report(if sawTurn then Known(turns) else Unknown, Totals(s), unparsed);
  }
}
