/** Exact token counts: natural numbers with an absorbing "not observed", read from
    JSON numbers, added, and accumulated per request. */
module TokenCounts {
  import opened ByteStrings

  datatype Json =
    | Null
    | Bool(b: bool)
    | Num(digits: string)
    | Str(s: string)
    | Arr(items: seq<Json>)
    | Obj(fields: map<string, Json>)

  type Record = map<string, Json>

  /** A transcript: its lines in order, None where a line did not parse. */
  type Transcript = seq<Option<Record>>

  /** NOT_OBSERVED, or an exact natural number. */
  datatype Count = Unknown | Known(n: nat)

  // ---------- Reading records ----------

  /** record[key]: an absent key reads as nil. */
  function Field(r: Record, key: string): Json {
    if key in r then r[key] else Null
  }

  /** asObject. */
  function AsObject(j: Json): Option<Record> {
    match j
    case Obj(fields) => Some(fields)
    case _ => None
  }

  /** A key of a possibly missing object. */
  function FieldOf(r: Option<Record>, key: string): Json {
    match r
    case Some(fields) => Field(fields, key)
    case None => Null
  }

  function Truthy(j: Json): bool {
    match j
    case Null => false
    case Bool(b) => b
    case Num(digits) => digits != "0"
    case Str(s) => s != ""
    case Arr(items) => items != []
    case Obj(fields) => |fields| > 0
  }

  /** The key is there, with this value. */
  predicate Says(r: Record, key: string, j: Json) { key in r && r[key] == j }

  /** The key is there with a value that is not nil, false, the number 0 or empty. */
  predicate SaysSomething(r: Record, key: string) {
    key in r && r[key] !in {Null, Bool(false), Num("0"), Str(""), Arr([]), Obj(map[])}
  }

  lemma TruthyExact(r: Record, key: string)
    ensures Truthy(Field(r, key)) <==> SaysSomething(r, key)
  {
    if Field(r, key).Obj? && |Field(r, key).fields| == 0 { assert Field(r, key).fields == map[]; }
  }

  function Unparsed(t: Transcript): nat {
    if t == [] then 0 else Unparsed(t[..|t| - 1]) + (if t[|t| - 1].None? then 1 else 0)
  }

  // ---------- number ----------

  predicate Digit(c: char) { '0' <= c <= '9' }

  ghost predicate AllDigits(s: string) {
    s != "" && forall i :: 0 <= i < |s| ==> Digit(s[i])
  }

  /** The value of a decimal numeral, or None when a character is not a digit. */
  function ParseDecimal(s: string): Option<nat> {
    if s == "" then Some(0)
    else
      match ParseDecimal(s[..|s| - 1])
      case None => None
      case Some(n) => if Digit(s[|s| - 1]) then Some(10 * n + ((s[|s| - 1] as int) - ('0' as int))) else None
  }

  predicate ContainsAny(s: string, chars: string) {
    exists c <- s :: c in chars
  }

  /** number: a natural numeral without sign, point or exponent. */
  function Number(j: Json): Count {
    match j
    case Num(s) =>
      if s == "" || ContainsAny(s, ".eE+-") then Unknown
      else (match ParseDecimal(s) case None => Unknown case Some(n) => Known(n))
    case _ => Unknown
  }

  lemma {:induction false} ParseDecimalDigits(s: string)
    ensures ParseDecimal(s).Some? <==> s == "" || AllDigits(s)
  {
    if s != "" {
      var front := s[..|s| - 1];
      ParseDecimalDigits(front);
      if AllDigits(s) {
        assert forall i :: 0 <= i < |front| ==> front[i] == s[i];
      } else if front == "" || AllDigits(front) {
        assert forall i :: 0 <= i < |front| ==> s[i] == front[i];
      }
    }
  }

  function Numeral(n: nat): string {
    if n < 10 then [('0' as int + n) as char] else Numeral(n / 10) + [('0' as int + n % 10) as char]
  }

  /** A count is known exactly for the plain numerals, and every natural number has
      one: nothing overflows and nothing is rounded. */
  lemma NumberExact(s: string)
    ensures Number(Num(s)).Known? <==> AllDigits(s)
  {
    ParseDecimalDigits(s);
    if AllDigits(s) {
      forall i | 0 <= i < |s| ensures s[i] !in ".eE+-" { assert Digit(s[i]); }
    }
  }

  lemma {:induction false} NumeralReadsBack(n: nat)
    ensures AllDigits(Numeral(n)) && ParseDecimal(Numeral(n)) == Some(n) && Number(Num(Numeral(n))) == Known(n)
  {
    if n >= 10 {
      NumeralReadsBack(n / 10);
      assert Numeral(n)[..|Numeral(n)| - 1] == Numeral(n / 10);
    } else {
      assert Numeral(n)[..0] == "";
    }
    NumberExact(Numeral(n));
  }

  // ---------- add ----------

  function Add(a: Count, b: Count): Count {
    if a.Known? && b.Known? then Known(a.n + b.n) else Unknown
  }

  ghost predicate AllKnown(vs: seq<Count>) {
    forall i :: 0 <= i < |vs| ==> vs[i].Known?
  }

  ghost function SumOf(vs: seq<Count>): nat
    requires AllKnown(vs)
  {
    if vs == [] then 0 else SumOf(vs[..|vs| - 1]) + vs[|vs| - 1].n
  }

  /** Adding up from 0, one value after the other. */
  ghost function Added(vs: seq<Count>): Count {
    if vs == [] then Known(0) else Add(Added(vs[..|vs| - 1]), vs[|vs| - 1])
  }

  /** A running sum is known exactly when every summand is, and is then exact. */
  lemma {:induction false} AddedExact(vs: seq<Count>)
    ensures AllKnown(vs) ==> Added(vs) == Known(SumOf(vs))
    ensures !AllKnown(vs) ==> Added(vs) == Unknown
  {
    if vs != [] {
      var front := vs[..|vs| - 1];
      AddedExact(front);
      assert AllKnown(vs) <==> AllKnown(front) && vs[|vs| - 1].Known? by {
        assert forall i :: 0 <= i < |front| ==> front[i] == vs[i];
      }
    }
  }

  // ---------- cumulative ----------

  /** One field of a cumulative counter: the new value, unless it or the prior one
      is unknown or it went down. */
  function Cumulate(prior: Count, value: Count): Count {
    if prior.Unknown? || value.Unknown? then Unknown
    else if value.n < prior.n then Unknown
    else value
  }

  /** A counter after a sequence of reported values. */
  function Cumulated(vs: seq<Count>): Count {
    if vs == [] then Known(0) else Cumulate(Cumulated(vs[..|vs| - 1]), vs[|vs| - 1])
  }

  /** Known values that never go down. */
  ghost predicate Nondecreasing(vs: seq<Count>) {
    && AllKnown(vs)
    && forall i, j :: 0 <= i < j < |vs| ==> vs[i].n <= vs[j].n
  }

  /** The counter is known exactly when the values are naturals that never go down;
      it is then the last of them. */
  lemma {:induction false} CumulatedExact(vs: seq<Count>)
    requires vs != []
    ensures Nondecreasing(vs) ==> Cumulated(vs) == vs[|vs| - 1]
    ensures !Nondecreasing(vs) ==> Cumulated(vs) == Unknown
  {
    var front, last := vs[..|vs| - 1], vs[|vs| - 1];
    assert forall i :: 0 <= i < |front| ==> front[i] == vs[i];
    if front != [] {
      CumulatedExact(front);
      if Nondecreasing(front) && last.Known? && front[|front| - 1].n <= last.n {
        assert forall i :: 0 <= i < |front| ==> front[i].n <= last.n;
        assert Nondecreasing(vs);
      }
      if Nondecreasing(vs) { assert vs[|front| - 1].n <= vs[|vs| - 1].n; }
    }
  }

  /** Reporting the same value again changes nothing. */
  lemma CumulateTwice(prior: Count, value: Count)
    ensures Cumulate(Cumulate(prior, value), value) == Cumulate(prior, value)
  {
  }

  type Fields = map<string, Count>

  function PriorField(previous: Option<Fields>, field: string): Count {
    match previous
    case None => Known(0)
    case Some(fields) => if field in fields then fields[field] else Unknown
  }

  function CumulativeFields(previous: Option<Fields>, usage: Record, names: seq<string>): Fields {
    map f | f in names :: Cumulate(PriorField(previous, f), Number(Field(usage, f)))
  }

  /** cumulative, with its loop over the field names. */
  method Cumulative(previous: Option<Fields>, usage: Record, names: seq<string>) returns (result: Fields)
    ensures result == CumulativeFields(previous, usage, names)
  {
    result := map[];
    for i := 0 to |names|
      invariant result.Keys == set f | f in names[..i]
      invariant forall f <- result :: result[f] == Cumulate(PriorField(previous, f), Number(Field(usage, f)))
    {
      var value := Number(Field(usage, names[i]));
      var prior := PriorField(previous, names[i]);
      if value == Unknown || prior == Unknown {
        result := result[names[i] := Unknown];
      } else if value.n < prior.n {
        result := result[names[i] := Unknown];
      } else {
        result := result[names[i] := value];
      }
      assert names[..i + 1] == names[..i] + [names[i]];
    }
    assert names[..|names|] == names;
  }

  // ---------- Sums over a map, in any order ----------

  lemma KeyExists(m: map<string, nat>)
    requires |m| > 0
    ensures exists k :: k in m
  {
    assert |m.Keys| > 0;
    var k := Member(m.Keys);
    assert k in m;
  }

  ghost function PickKey(m: map<string, nat>): (k: string)
    requires |m| > 0
    ensures k in m
  {
    KeyExists(m);
    var k :| k in m;
    k
  }

  /** The sum of a map's values, taken in some order. */
  ghost function SumMap(m: map<string, nat>): nat
    decreases |m|
  {
    if |m| == 0 then 0
    else
      var k := PickKey(m);
      m[k] + SumMap(m - {k})
  }

  /** Any key may be taken first. */
  lemma {:induction false} SumMapTake(m: map<string, nat>, k: string)
    requires k in m
    ensures SumMap(m) == m[k] + SumMap(m - {k})
    decreases |m|
  {
    var p := PickKey(m);
    if p != k {
      SumMapTake(m - {p}, k);
      SumMapTake(m - {k}, p);
      assert m - {p} - {k} == m - {k} - {p};
    }
  }
}
