/** The totals of a receipt over several workers. */
module WorkerReceipts {
  import opened TokenCounts

  const METRIC_FIELDS: seq<string> := [
    "turns", "inputTokens", "cacheCreationTokens", "cacheReadTokens", "outputTokens",
    "sourceOpens", "broadSearches", "compactions", "retries", "unparsedLines"]

  datatype Solved = Yes | No | NotObserved

  /** One worker's entry: its metrics, whether its transcript was read, its status. */
  datatype Worker = Worker(metrics: Fields, observed: bool, status: string, solved: Solved)

  datatype Totals = Totals(metrics: Fields, observed: nat, cancelled: nat, failed: nat, solved: Count)

  function MetricOf(w: Worker, field: string): Count {
    if field in w.metrics then w.metrics[field] else Unknown
  }

  /** Every worker's value of one field. */
  function Column(ws: seq<Worker>, field: string): (column: seq<Count>)
    ensures |column| == |ws| && forall i :: 0 <= i < |ws| ==> column[i] == MetricOf(ws[i], field)
  {
    if ws == [] then [] else Column(ws[..|ws| - 1], field) + [MetricOf(ws[|ws| - 1], field)]
  }

  predicate Observed(w: Worker) { w.observed }
  predicate Cancelled(w: Worker) { w.status == "cancelled" }
  predicate Failed(w: Worker) { w.status == "failed" }
  predicate HasSolved(w: Worker) { w.solved == Yes }

  function CountWhere(ws: seq<Worker>, holds: Worker -> bool): nat {
    if ws == [] then 0 else CountWhere(ws[..|ws| - 1], holds) + (if holds(ws[|ws| - 1]) then 1 else 0)
  }

  ghost predicate SolvedUnobserved(ws: seq<Worker>) {
    exists i :: 0 <= i < |ws| && ws[i].solved == NotObserved
  }

  /** Three counts, and a fourth that is known only when every worker's outcome is. */
  ghost predicate Counted(ws: seq<Worker>, observed: nat, cancelled: nat, failed: nat, solved: Count) {
    && observed == CountWhere(ws, Observed)
    && cancelled == CountWhere(ws, Cancelled)
    && failed == CountWhere(ws, Failed)
    && solved == if SolvedUnobserved(ws) then Unknown else Known(CountWhere(ws, HasSolved))
  }

  ghost function ExactSum(vs: seq<Count>): Count {
    if AllKnown(vs) then Known(SumOf(vs)) else Unknown
  }

  /** What a receipt states: a total is known exactly when every worker's value is,
      and is then their sum. */
  ghost predicate Accounts(ws: seq<Worker>, r: Totals) {
    && r.metrics.Keys == (set f | f in METRIC_FIELDS)
    && (forall f <- METRIC_FIELDS :: r.metrics[f] == ExactSum(Column(ws, f)))
    && Counted(ws, r.observed, r.cancelled, r.failed, r.solved)
  }

  ghost predicate Summed(ws: seq<Worker>, metrics: Fields) {
    && metrics.Keys == (set f | f in METRIC_FIELDS)
    && (forall f <- METRIC_FIELDS :: metrics[f] == Added(Column(ws, f)))
  }

  lemma SummedStep(ws: seq<Worker>, i: nat, metrics: Fields)
    requires i < |ws| && Summed(ws[..i], metrics)
    ensures Summed(ws[..i + 1], map f | f in METRIC_FIELDS :: Add(metrics[f], MetricOf(ws[i], f)))
  {
    hide MetricOf, METRIC_FIELDS;
    assert ws[..i + 1][..i] == ws[..i];
    forall f ensures Added(Column(ws[..i + 1], f)) == Add(Added(Column(ws[..i], f)), MetricOf(ws[i], f)) {
      assert Column(ws[..i + 1], f)[..i] == Column(ws[..i], f);
    }
    hide Added, Column;
  }

  lemma CountedStep(ws: seq<Worker>, i: nat, observed: nat, cancelled: nat, failed: nat, solved: Count)
    requires i < |ws| && Counted(ws[..i], observed, cancelled, failed, solved)
    ensures Counted(ws[..i + 1],
                    observed + (if ws[i].observed then 1 else 0),
                    cancelled + (if ws[i].status == "cancelled" then 1 else 0),
                    failed + (if ws[i].status == "failed" then 1 else 0),
                    if ws[i].solved == NotObserved then Unknown else if ws[i].solved == Yes then Add(solved, Known(1))
                      else solved)
  {
    var before, ws' := ws[..i], ws[..i + 1];
    assert ws'[..i] == before && ws'[i] == ws[i];
    forall k | 0 <= k < i ensures before[k] == ws'[k] {}
    assert SolvedUnobserved(ws') <==> SolvedUnobserved(before) || ws[i].solved == NotObserved;
  }

  method AddMetrics(sums: Fields, w: Worker, names: seq<string>) returns (r: Fields)
    requires sums.Keys == set f | f in names
    requires forall i, j :: 0 <= i < j < |names| ==> names[i] != names[j]
    ensures r == map f | f in names :: Add(sums[f], MetricOf(w, f))
  {
    r := sums;
    for i := 0 to |names|
      invariant r.Keys == sums.Keys
      invariant forall j :: 0 <= j < i ==> r[names[j]] == Add(sums[names[j]], MetricOf(w, names[j]))
      invariant forall j :: i <= j < |names| ==> r[names[j]] == sums[names[j]]
    {
      hide Add, MetricOf;
      r := r[names[i] := Add(r[names[i]], MetricOf(w, names[i]))];
    }
  }

  /** The totals loop of buildReceipt. */
  method BuildTotals(ws: seq<Worker>) returns (r: Totals)
    ensures Accounts(ws, r)
  {
    var metrics: Fields := map f | f in METRIC_FIELDS :: Known(0);
    var observed, cancelled, failed, solved := 0, 0, 0, Known(0);
    for i := 0 to |ws|
      invariant Summed(ws[..i], metrics)
      invariant Counted(ws[..i], observed, cancelled, failed, solved)
    {
      hide METRIC_FIELDS, Counted, Added, Column, MetricOf, Add;
      var w := ws[i];
      SummedStep(ws, i, metrics);
      CountedStep(ws, i, observed, cancelled, failed, solved);
      metrics := AddMetrics(metrics, w, METRIC_FIELDS);
      if w.observed { observed := observed + 1; }
      if w.status == "cancelled" { cancelled := cancelled + 1; }
      if w.status == "failed" { failed := failed + 1; }
      if w.solved == NotObserved {
        solved := Unknown;
      } else if w.solved == Yes {
        solved := Add(solved, Known(1));
      }
    }
    assert ws[..|ws|] == ws;
    forall f | f in METRIC_FIELDS ensures metrics[f] == ExactSum(Column(ws, f)) { AddedExact(Column(ws, f)); }
    r := Totals(metrics, observed, cancelled, failed, solved);
  }
}
