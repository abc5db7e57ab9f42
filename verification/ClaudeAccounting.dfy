/** parseClaude's token accounting: cumulative counters deduplicated per request,
    kept apart for the main chain and the side chains. */
module ClaudeAccounting {
  import opened ByteStrings
  import opened TokenCounts

  const CLAUDE_FIELDS: seq<string> := ["input_tokens", "cache_creation_input_tokens", "cache_read_input_tokens",
    "output_tokens"]

  // ---------- One record ----------

  predicate IsAssistant(r: Record) { Field(r, "type") == Str("assistant") }

  predicate OnSideChain(r: Record) { Truthy(Field(r, "isSidechain")) }

  function UsageOf(r: Record): Option<Record> {
    AsObject(FieldOf(AsObject(Field(r, "message")), "usage"))
  }

  /** The request a record belongs to; None makes it anonymous. */
  function RequestOf(r: Record): Option<string> {
    var named := FieldOf(UsageOf(r), "requestId");
    match if Truthy(named) then named else Field(r, "requestId")
    case Str(id) => if id != "" then Some(id) else None
    case _ => None
  }

  lemma SideExact(r: Record)
    ensures IsAssistant(r) <==> Says(r, "type", Str("assistant"))
    ensures OnSideChain(r) <==> SaysSomething(r, "isSidechain")
  {
    TruthyExact(r, "isSidechain");
  }

  /** A record's usage is the object under "usage" of the object under "message". */
  lemma UsageExact(r: Record, usage: Record)
    ensures UsageOf(r) == Some(usage) <==>
      exists message: Record :: Says(r, "message", Obj(message)) && Says(message, "usage", Obj(usage))
  {
    if UsageOf(r) == Some(usage) { assert Says(r, "message", Obj(r["message"].fields)); }
  }

  /** A record belongs to the non-empty string its usage names, or, when its usage
      names nothing, to the one it names itself. */
  lemma RequestExact(r: Record, id: string)
    ensures RequestOf(r) == Some(id) <==>
      && id != ""
      && if exists usage :: UsageOf(r) == Some(usage) && SaysSomething(usage, "requestId") then
           Says(UsageOf(r).value, "requestId", Str(id))
         else Says(r, "requestId", Str(id))
  {
    if UsageOf(r).Some? { TruthyExact(UsageOf(r).value, "requestId"); }
    hide UsageOf, SaysSomething;
  }

  /** An assistant record of the given side. */
  predicate Counts(line: Option<Record>, side: bool) {
    line.Some? && IsAssistant(line.value) && OnSideChain(line.value) == side
  }

  // ---------- What the loop keeps, per side ----------

  datatype Side = Side(usages: map<string, Fields>, requests: set<string>, anonymous: bool, present: bool)

  const NOTHING := Side(map[], {}, false, false)

  function Visit(s: Side, r: Record): Side {
    match RequestOf(r)
    case None => s.(anonymous := true, present := true)
    case Some(id) =>
      var s' := s.(requests := s.requests + {id}, present := true);
      match UsageOf(r)
      case None => s'
      case Some(usage) =>
        var previous := if id in s.usages then Some(s.usages[id]) else None;
        s'.(usages := s.usages[id := CumulativeFields(previous, usage, CLAUDE_FIELDS)])
  }

  function VisitLine(s: Side, line: Option<Record>, side: bool): Side {
    if Counts(line, side) then Visit(s, line.value) else s
  }

  function SideOf(t: Transcript, side: bool): Side {
    if t == [] then NOTHING else VisitLine(SideOf(t[..|t| - 1], side), t[|t| - 1], side)
  }

  /** The counters known for a field, by request. */
  ghost function KnownUsages(s: Side, field: string): map<string, nat> {
    map id | id in s.usages && field in s.usages[id] && s.usages[id][field].Known? :: s.usages[id][field].n
  }

  /** The token total of a side for one field. */
  ghost function Total(s: Side, field: string): Count {
    if s.anonymous || exists id <- s.requests :: id !in s.usages then Unknown
    else if exists id <- s.usages :: field !in s.usages[id] || s.usages[id][field].Unknown? then Unknown
    else Known(SumMap(KnownUsages(s, field)))
  }

  // ---------- What the transcript says ----------

  ghost predicate HasAnonymous(t: Transcript, side: bool) {
    exists i :: 0 <= i < |t| && Counts(t[i], side) && RequestOf(t[i].value).None?
  }

  /** The requests a side's assistant records belong to. */
  function RequestIds(t: Transcript, side: bool): set<string> {
    if t == [] then {}
    else
      var line := t[|t| - 1];
      RequestIds(t[..|t| - 1], side)
        + (if Counts(line, side) && RequestOf(line.value).Some? then {RequestOf(line.value).value} else {})
  }

  /** The values one request reported for one field, in order. */
  function Values(t: Transcript, side: bool, id: string, field: string): seq<Count> {
    if t == [] then []
    else
      var before := Values(t[..|t| - 1], side, id, field);
      var line := t[|t| - 1];
      if Counts(line, side) && RequestOf(line.value) == Some(id) && UsageOf(line.value).Some?
      then before + [Number(Field(UsageOf(line.value).value, field))]
      else before
  }

  lemma AnonymousStep(t: Transcript, side: bool)
    requires t != []
    ensures HasAnonymous(t, side) <==>
      HasAnonymous(t[..|t| - 1], side) || (Counts(t[|t| - 1], side) && RequestOf(t[|t| - 1].value).None?)
  {
    var front := t[..|t| - 1];
    assert forall i :: 0 <= i < |front| ==> front[i] == t[i];
    if HasAnonymous(front, side) {
      var i :| 0 <= i < |front| && Counts(front[i], side) && RequestOf(front[i].value).None?;
      assert Counts(t[i], side) && RequestOf(t[i].value).None?;
    }
  }

  lemma SideOfStep(t: Transcript, side: bool)
    requires t != []
    ensures SideOf(t, side) == VisitLine(SideOf(t[..|t| - 1], side), t[|t| - 1], side)
  {
  }

  /** The loop's state is what the transcript says. */
  lemma {:induction false} SideSays(t: Transcript, side: bool)
    ensures var s := SideOf(t, side);
      && (s.anonymous <==> HasAnonymous(t, side))
      && s.requests == RequestIds(t, side)
      && (s.present <==> exists i :: 0 <= i < |t| && Counts(t[i], side))
  {
    if t != [] {
      hide RequestOf, UsageOf, Counts, CumulativeFields;
      var front := t[..|t| - 1];
      SideSays(front, side);
      AnonymousStep(t, side);
      hide HasAnonymous, SideOf;
      assert SideOf(t, side) == VisitLine(SideOf(front, side), t[|t| - 1], side) by { SideOfStep(t, side); }
      assert forall i :: 0 <= i < |front| ==> front[i] == t[i];
      if i :| 0 <= i < |front| && Counts(front[i], side) { assert Counts(t[i], side); }
    }
  }

  /** A request's stored counters are its values, cumulated. */
  lemma {:induction false} UsagesSay(t: Transcript, side: bool, id: string, field: string)
    requires field in CLAUDE_FIELDS
    ensures var s := SideOf(t, side); var vs := Values(t, side, id, field);
      && (id in s.usages <==> vs != [])
      && (vs != [] ==> field in s.usages[id] && s.usages[id][field] == Cumulated(vs))
  {
    if t != [] {
      var front := t[..|t| - 1];
      UsagesSay(front, side, id, field);
      hide RequestOf, UsageOf, Counts, Number, Cumulate;
      var before, vs := Values(front, side, id, field), Values(t, side, id, field);
      if vs != before {
        assert vs[..|vs| - 1] == before;
        assert Cumulated(vs) == Cumulate(Cumulated(before), vs[|vs| - 1]);
      }
    }
  }

  /** Every request has usage and its reported values never go down. */
  ghost predicate CleanRequest(t: Transcript, side: bool, id: string, field: string) {
    Values(t, side, id, field) != [] && Nondecreasing(Values(t, side, id, field))
  }

  ghost predicate Clean(t: Transcript, side: bool, field: string) {
    && !HasAnonymous(t, side)
    && forall id <- RequestIds(t, side) :: CleanRequest(t, side, id, field)
  }

  lemma {:induction false} ValuesRequested(t: Transcript, side: bool, id: string, field: string)
    requires Values(t, side, id, field) != []
    ensures id in RequestIds(t, side)
  {
    var last := t[|t| - 1];
    if !(Counts(last, side) && RequestOf(last.value) == Some(id)) {
      ValuesRequested(t[..|t| - 1], side, id, field);
    }
  }

  ghost function LastValue(t: Transcript, side: bool, id: string, field: string): nat
    requires CleanRequest(t, side, id, field)
  {
    var vs := Values(t, side, id, field);
    vs[|vs| - 1].n
  }

  /** The last value each request reported. */
  ghost function LastValues(t: Transcript, side: bool, field: string): map<string, nat>
    requires Clean(t, side, field)
  {
    map id | id in RequestIds(t, side) :: LastValue(t, side, id, field)
  }

  /** What is stored for one request: nothing without usage, its last value when the
      values are clean, and otherwise "unknown". */
  ghost predicate RequestStored(t: Transcript, side: bool, id: string, field: string) {
    var s := SideOf(t, side);
    && (id in s.usages <==> Values(t, side, id, field) != [])
    && (id in s.usages ==> id in s.requests && field in s.usages[id])
    && (id in s.usages && CleanRequest(t, side, id, field) ==>
      s.usages[id][field] == Known(LastValue(t, side, id, field)))
    && (id in s.usages && !CleanRequest(t, side, id, field) ==> s.usages[id][field] == Unknown)
  }

  lemma RequestTotal(t: Transcript, side: bool, id: string, field: string)
    requires field in CLAUDE_FIELDS
    ensures RequestStored(t, side, id, field)
  {
    UsagesSay(t, side, id, field);
    if Values(t, side, id, field) != [] {
      CumulatedExact(Values(t, side, id, field));
      ValuesRequested(t, side, id, field);
      SideSays(t, side);
    }
  }

  lemma CleanTotal(t: Transcript, side: bool, field: string)
    requires Clean(t, side, field) && forall id :: RequestStored(t, side, id, field)
    requires SideOf(t, side).requests == RequestIds(t, side) && !SideOf(t, side).anonymous
    ensures Total(SideOf(t, side), field) == Known(SumMap(LastValues(t, side, field)))
  {
    var s := SideOf(t, side);
    forall id | id in s.requests ensures id in s.usages && field in s.usages[id]
      && s.usages[id][field] == Known(LastValue(t, side, id, field))
    {
      assert RequestStored(t, side, id, field) && CleanRequest(t, side, id, field);
    }
    forall id | id in s.usages ensures id in s.requests { assert RequestStored(t, side, id, field); }
    hide SideOf, RequestIds, RequestStored, HasAnonymous, CleanRequest, LastValue;
    var stored := KnownUsages(s, field);
    assert stored == LastValues(t, side, field);
  }

  lemma UncleanTotal(t: Transcript, side: bool, field: string)
    requires !Clean(t, side, field) && forall id :: RequestStored(t, side, id, field)
    requires SideOf(t, side).requests == RequestIds(t, side) && (SideOf(t, side).anonymous <==> HasAnonymous(t, side))
    ensures Total(SideOf(t, side), field) == Unknown
  {
    hide SideOf, RequestIds, HasAnonymous, CleanRequest;
    if !HasAnonymous(t, side) {
      var id :| id in RequestIds(t, side) && !CleanRequest(t, side, id, field);
      assert RequestStored(t, side, id, field);
    }
  }

  /** Exact accounting: a side's total for a field is known exactly when none of its
      assistant records is anonymous and every request has usage whose values for
      the field are naturals that never go down; it is then the sum, over the
      requests, of the last value each reported. */
  lemma ClaudeTotalExact(t: Transcript, side: bool, field: string)
    requires field in CLAUDE_FIELDS
    ensures Total(SideOf(t, side), field)
         == if Clean(t, side, field) then Known(SumMap(LastValues(t, side, field))) else Unknown
  {
    SideSays(t, side);
    forall id ensures RequestStored(t, side, id, field) { RequestTotal(t, side, id, field); }
    if Clean(t, side, field) {
      CleanTotal(t, side, field);
    } else {
      UncleanTotal(t, side, field);
    }
  }

  /** Whether a total is known, said alone. */
  lemma ClaudeKnownExactly(t: Transcript, side: bool, field: string)
    requires field in CLAUDE_FIELDS
    ensures Total(SideOf(t, side), field).Known? <==> Clean(t, side, field)
  {
    ClaudeTotalExact(t, side, field);
  }

  // ---------- Repeating a record ----------

  /** r is the latest usage record of its request on its side. */
  ghost predicate Latest(t: Transcript, i: nat, side: bool) {
    && i < |t| && Counts(t[i], side) && RequestOf(t[i].value).Some? && UsageOf(t[i].value).Some?
    && forall j :: i < j < |t| && Counts(t[j], side) && RequestOf(t[j].value) == RequestOf(t[i].value) ==>
      UsageOf(t[j].value).None?
  }

  lemma {:induction false} LatestSettles(t: Transcript, i: nat, side: bool)
    requires Latest(t, i, side)
    ensures var s := SideOf(t, side); var id := RequestOf(t[i].value).value;
      && s.present && id in s.requests && id in s.usages
      && exists previous :: s.usages[id] == CumulativeFields(previous, UsageOf(t[i].value).value, CLAUDE_FIELDS)
    decreases |t|
  {
    var front := t[..|t| - 1];
    hide CumulativeFields;
    if i < |front| {
      assert forall j :: 0 <= j < |front| ==> front[j] == t[j];
      LatestSettles(front, i, side);
      hide RequestOf, UsageOf, Counts;
    } else {
      var s, id := SideOf(front, side), RequestOf(t[i].value).value;
      var previous := if id in s.usages then Some(s.usages[id]) else None;
      assert SideOf(t, side).usages[id] == CumulativeFields(previous, UsageOf(t[i].value).value, CLAUDE_FIELDS);
    }
  }

  lemma CumulativeAgain(previous: Option<Fields>, usage: Record)
    ensures var once := CumulativeFields(previous, usage, CLAUDE_FIELDS);
      CumulativeFields(Some(once), usage, CLAUDE_FIELDS) == once
  {
    var once := CumulativeFields(previous, usage, CLAUDE_FIELDS);
    forall f | f in CLAUDE_FIELDS ensures CumulativeFields(Some(once), usage, CLAUDE_FIELDS)[f] == once[f] {
      CumulateTwice(PriorField(previous, f), Number(Field(usage, f)));
    }
  }

  /** Repeating a request's latest usage record at the end changes nothing. */
  lemma RepeatingLatestChangesNothing(t: Transcript, i: nat, side: bool, other: bool)
    requires Latest(t, i, side)
    ensures SideOf(t + [t[i]], other) == SideOf(t, other)
  {
    var t' := t + [t[i]];
    assert t'[..|t'| - 1] == t;
    LatestSettles(t, i, side);
    if other == side {
      var s, id, usage := SideOf(t, side), RequestOf(t[i].value).value, UsageOf(t[i].value).value;
      var previous :| s.usages[id] == CumulativeFields(previous, usage, CLAUDE_FIELDS);
      CumulativeAgain(previous, usage);
      assert s.requests + {id} == s.requests;
      assert s.usages[id := s.usages[id]] == s.usages;
    }
  }

  // ---------- The loop and the report ----------

  datatype SideReport = SideReport(turns: Count, totals: Fields)

  /** main: the reported chain; sidechain: nil unless both are told apart. */
  datatype Report = Report(main: SideReport, sidechain: Option<SideReport>, unparsed: nat)

  ghost function SideReportOf(s: Side): SideReport {
    SideReport(if s.anonymous then Unknown else Known(|s.requests|), map f | f in CLAUDE_FIELDS :: Total(s, f))
  }

  const UNKNOWN_REPORT := SideReport(Unknown, map f | f in CLAUDE_FIELDS :: Unknown)

  /** A field's exact total, said of the transcript. */
  ghost function SaidTotal(t: Transcript, side: bool, field: string): Count {
    if Clean(t, side, field) then Known(SumMap(LastValues(t, side, field))) else Unknown
  }

  /** A side's report, said of the transcript: its requests are the turns unless a
      record is anonymous, and each field has its exact total. */
  ghost function SideSaid(t: Transcript, side: bool): SideReport {
    SideReport(
      if HasAnonymous(t, side) then Unknown else Known(|RequestIds(t, side)|),
      map f | f in CLAUDE_FIELDS :: SaidTotal(t, side, f))
  }

  ghost predicate Present(t: Transcript, side: bool) {
    exists i :: 0 <= i < |t| && Counts(t[i], side)
  }

  /** The main chain is reported beside the side chains when it is there, the side
      chains alone when only they are, and nothing is known when neither is. */
  ghost function ReportOf(t: Transcript): Report {
    if Present(t, false) then Report(SideSaid(t, false), Some(SideSaid(t, true)), Unparsed(t))
    else if Present(t, true) then Report(SideSaid(t, true), None, Unparsed(t))
    else Report(UNKNOWN_REPORT, None, Unparsed(t))
  }

  /** What the loop keeps of a side reports exactly what the transcript says of it. */
  lemma SideReportExact(t: Transcript, side: bool)
    ensures SideReportOf(SideOf(t, side)) == SideSaid(t, side)
    ensures SideOf(t, side).present <==> Present(t, side)
  {
    SideSays(t, side);
    assert SideOf(t, side).present <==> Present(t, side);
    forall f | f in CLAUDE_FIELDS ensures Total(SideOf(t, side), f) == SaidTotal(t, side, f) {
      ClaudeTotalExact(t, side, f);
    }
    hide SideOf, HasAnonymous, RequestIds, Total, SaidTotal, Present;
  }

  /** The part of a map on a set of keys. */
  ghost function Among(m: map<string, nat>, keys: set<string>): map<string, nat> {
    map id | id in keys && id in m :: m[id]
  }

  lemma AmongTake(m: map<string, nat>, keys: set<string>, id: string)
    requires id in keys
    ensures SumMap(Among(m, keys)) == (if id in m then m[id] else 0) + SumMap(Among(m, keys - {id}))
  {
    var part, less := Among(m, keys), Among(m, keys - {id});
    hide SumMap;
    if id in m {
      SumMapTake(part, id);
      assert part - {id} == less;
    } else {
      assert part == less;
    }
  }

  /** The usages not in `rest` are added up in `sum`. */
  ghost predicate AddedSoFar(s: Side, field: string, rest: set<string>, sum: Count) {
    var known := KnownUsages(s, field);
    match sum
    case Known(n) => n + SumMap(Among(known, rest)) == SumMap(known) && forall id <- s.usages.Keys - rest :: id in known
    case Unknown => exists id <- s.usages :: id !in known
  }

  lemma AddedStep(s: Side, field: string, rest: set<string>, sum: Count, id: string, value: Count)
    requires rest <= s.usages.Keys && id in rest && AddedSoFar(s, field, rest, sum)
    requires value == if field in s.usages[id] then s.usages[id][field] else Unknown
    ensures AddedSoFar(s, field, rest - {id}, Add(sum, value))
  {
    var known := KnownUsages(s, field);
    assert id in known <==> value.Known?;
    assert value.Known? ==> known[id] == value.n;
    AmongTake(known, rest, id);
    hide SumMap, Among, KnownUsages;
    assert id in s.usages;
    if sum.Known? && value.Known? {
      forall x | x in s.usages.Keys - (rest - {id}) ensures x in known { assert x == id || x in s.usages.Keys - rest; }
    }
  }

  lemma FinishTotal(s: Side, incomplete: bool, field: string, rest: set<string>, sum: Count)
    requires incomplete <==> s.anonymous || exists id <- s.requests :: id !in s.usages
    requires |rest| == 0 && AddedSoFar(s, field, rest, sum)
    ensures Total(s, field) == if incomplete then Unknown else sum
  {
    assert rest == {};
    assert Among(KnownUsages(s, field), rest) == map[];
    if !incomplete && sum.Known? {
      forall id | id in s.usages ensures field in s.usages[id] && s.usages[id][field].Known? {
        assert id in s.usages.Keys - rest;
        assert id in KnownUsages(s, field);
      }
    }
  }

  /** The total of one field: the sum over a side's usages in whatever order the map
      gives them, then the incompleteness rule. */
  method TotalField(s: Side, incomplete: bool, field: string) returns (sum: Count)
    requires incomplete <==> s.anonymous || exists id <- s.requests :: id !in s.usages
    ensures sum == Total(s, field)
  {
    sum := Known(0);
    var rest := s.usages.Keys;
    assert Among(KnownUsages(s, field), rest) == KnownUsages(s, field);
    hide Total, SumMap;
    while |rest| > 0
      invariant rest <= s.usages.Keys && AddedSoFar(s, field, rest, sum)
      decreases |rest|
    {
      hide *;
      ghost var some := Member(rest);
      var id :| id in rest;
      var value := if field in s.usages[id] then s.usages[id][field] else Unknown;
      AddedStep(s, field, rest, sum, id, value);
      sum := Add(sum, value);
      rest := rest - {id};
    }
    FinishTotal(s, incomplete, field, rest, sum);
    if incomplete { sum := Unknown; }
  }

  method ReportSide(s: Side) returns (r: SideReport)
    ensures r == SideReportOf(s)
  {
    var turns := if s.anonymous then Unknown else Known(|s.requests|);
    var incomplete := s.anonymous || exists id <- s.requests :: id !in s.usages;
    var totals: Fields := map[];
    for i := 0 to |CLAUDE_FIELDS|
      invariant totals.Keys == set f | f in CLAUDE_FIELDS[..i]
      invariant forall f <- totals :: totals[f] == Total(s, f)
    {
      var sum := TotalField(s, incomplete, CLAUDE_FIELDS[i]);
      totals := totals[CLAUDE_FIELDS[i] := sum];
      assert CLAUDE_FIELDS[..i + 1] == CLAUDE_FIELDS[..i] + [CLAUDE_FIELDS[i]];
    }
    assert CLAUDE_FIELDS[..|CLAUDE_FIELDS|] == CLAUDE_FIELDS;
    r := SideReport(turns, totals);
  }

  /** The visitor's body for an assistant record. */
  method VisitRecord(s: Side, r: Record) returns (s': Side)
    ensures s' == Visit(s, r)
  {
    s' := s.(present := true);
    match RequestOf(r) {
      case None => s' := s'.(anonymous := true);
      case Some(id) =>
        s' := s'.(requests := s'.requests + {id});
        match UsageOf(r) {
          case None =>
          case Some(usage) =>
            var fields := Cumulative(if id in s.usages then Some(s.usages[id]) else None, usage, CLAUDE_FIELDS);
            s' := s'.(usages := s'.usages[id := fields]);
        }
    }
  }

  /** parseClaude, as far as turns and tokens go. */
  method ParseClaude(t: Transcript) returns (r: Report)
    ensures r == ReportOf(t)
  {
    var main, side, unparsed := NOTHING, NOTHING, 0;
    for i := 0 to |t|
      invariant main == SideOf(t[..i], false) && side == SideOf(t[..i], true) && unparsed == Unparsed(t[..i])
    {
      assert t[..i + 1][..i] == t[..i] && t[..i + 1][i] == t[i];
      match t[i] {
        case None => unparsed := unparsed + 1;
        case Some(record) =>
          if IsAssistant(record) {
            if OnSideChain(record) {
              side := VisitRecord(side, record);
            } else {
              main := VisitRecord(main, record);
            }
          }
      }
    }
    assert t[..|t|] == t;
    SideReportExact(t, false);
    SideReportExact(t, true);
    hide SideOf, SideReportOf, SideSaid, Present;
    if main.present {
      var m := ReportSide(main);
      var s := ReportSide(side);
      r := Report(m, Some(s), unparsed);
    } else if side.present {
      var s := ReportSide(side);
      r := Report(s, None, unparsed);
    } else {
      r := Report(UNKNOWN_REPORT, None, unparsed);
    }
  }
}
