/** The gob stream as the packs rely on it: length-framed messages, where an
    encoder sends the type definitions a value needs once, before the first
    value, and every later value is a bare value message. What the value bytes
    are, and how a decoder compiles them against received definitions, are
    parameters. */
module Gob {
  import opened ByteStrings

  datatype Symbol = Symbol(name: Bytes, line: int)
  datatype Marker = Marker(line: int, text: Bytes)

  datatype Value =
    | Text(text: Bytes)
    | Symbols(symbols: seq<Symbol>)
    | Texts(texts: seq<Bytes>)
    | Markers(markers: seq<Marker>)

  datatype Kind = TextKind | SymbolsKind | TextsKind | MarkersKind

  function KindOf(v: Value): Kind {
    match v
    case Text(_) => TextKind
    case Symbols(_) => SymbolsKind
    case Texts(_) => TextsKind
    case Markers(_) => MarkersKind
  }

  /** One type definition: its id and its wire description. */
  datatype Def = Def(id: nat, body: Bytes)

  /** How one Go type goes on the wire. */
  datatype Layout = Layout(defs: seq<Def>, id: nat, put: Value -> Bytes)

  /** layouts: the sender's wire types. engine: what a decoder makes of a value
      message of type `id`, given the definitions received so far, when the
      caller's variable is of the given kind. */
  datatype Codec = Codec(
    layouts: Kind -> Layout,
    engine: (Kind, map<nat, Bytes>, nat, Bytes) -> Option<Value>)

  function DefMap(defs: seq<Def>): map<nat, Bytes> {
    if defs == [] then map[] else DefMap(defs[..|defs| - 1])[defs[|defs| - 1].id := defs[|defs| - 1].body]
  }

  /** The only law asked of the codec: definition ids are distinct, and decoding
      against all of a type's definitions gives back the value. Ids stay below
      2^62 so that the signed id written on the wire fits 64 bits. */
  ghost predicate Lawful(c: Codec) {
    && (forall k: Kind, i: nat, j: nat :: i < j < |c.layouts(k).defs| ==>
          c.layouts(k).defs[i].id != c.layouts(k).defs[j].id)
    && (forall k: Kind, i: nat :: i < |c.layouts(k).defs| ==> 0 < c.layouts(k).defs[i].id < 0x4000_0000_0000_0000)
    && (forall k: Kind :: c.layouts(k).id < 0x4000_0000_0000_0000)
    && (forall v: Value :: var l := c.layouts(KindOf(v));
          c.engine(KindOf(v), DefMap(l.defs), l.id, l.put(v)) == Some(v))
  }

  // ---------- Unsigned and signed integers on the wire ----------

  /** The fewest big-endian bytes that hold n (none for zero). */
  function Minimal(n: nat): (b: Bytes)
  {
    if n == 0 then [] else Minimal(n / 256) + [n % 256]
  }

  lemma {:induction false} MinimalBound(n: nat, width: nat)
    requires n < Pow256(width)
    ensures |Minimal(n)| <= width
    ensures n > 0 ==> |Minimal(n)| > 0
    decreases width
  {
    if n > 0 { MinimalBound(n / 256, width - 1); }
  }

  /** Below 128 one byte; otherwise the byte count, negated as a byte, then the
      bytes. */
  function PutUint(n: nat): (b: Bytes)
    requires n < 0x1_0000_0000_0000_0000
    ensures |b| >= 1 && (|b| == 1 <==> n <= 127)
  {
    if n < 128 then [n]
    else
      MinimalBound(n, 8);
      [256 - |Minimal(n)|] + Minimal(n)
  }

  function GetUint(s: Bytes): (r: Option<(nat, Bytes)>)
    ensures r.Some? ==> |r.value.1| < |s|
  {
    if s == [] then None
    else if s[0] < 128 then Some((s[0], s[1..]))
    else
      var k := 256 - s[0];
      if k > 8 || |s| < 1 + k then None else Some((GetBE(s[1..1 + k]), s[1 + k..]))
  }

  /** Negative ids announce type definitions. */
  function PutInt(i: int): Bytes
    requires -0x4000_0000_0000_0000 < i < 0x4000_0000_0000_0000
  {
    PutUint(if i < 0 then (-i - 1) * 2 + 1 else i * 2)
  }

  function GetInt(s: Bytes): Option<(int, Bytes)> {
    match GetUint(s)
    case None => None
    case Some((u, rest)) => Some((if u % 2 == 1 then -(u / 2) - 1 else u / 2, rest))
  }

  lemma {:induction false} GetMinimal(n: nat)
    ensures GetBE(Minimal(n)) == n
  {
    if n > 0 {
      GetMinimal(n / 256);
      assert Minimal(n)[..|Minimal(n)| - 1] == Minimal(n / 256);
    }
  }

  lemma UintRoundTrip(n: nat, rest: Bytes)
    requires n < 0x1_0000_0000_0000_0000
    ensures GetUint(PutUint(n) + rest) == Some((n, rest))
  {
    var s := PutUint(n) + rest;
    if n >= 128 {
      MinimalBound(n, 8);
      GetMinimal(n);
      assert s[1..1 + |Minimal(n)|] == Minimal(n);
    }
  }

  lemma IntRoundTrip(i: int, rest: Bytes)
    requires -0x4000_0000_0000_0000 < i < 0x4000_0000_0000_0000
    ensures GetInt(PutInt(i) + rest) == Some((i, rest))
  {
    UintRoundTrip(if i < 0 then (-i - 1) * 2 + 1 else i * 2, rest);
  }

  // ---------- Messages ----------

  /** A message on the stream: its length (as a 64-bit count), then its bytes. */
  function Frame(payload: Bytes): (r: Bytes)
    ensures |r| > |payload|
  {
    PutUint(|payload| % 0x1_0000_0000_0000_0000) + payload
  }

  function Unframe(s: Bytes): (r: Option<(Bytes, Bytes)>)
    ensures r.Some? ==> |r.value.1| < |s|
  {
    match GetUint(s)
    case None => None
    case Some((n, rest)) => if |rest| < n then None else Some((rest[..n], rest[n..]))
  }

  lemma FrameRoundTrip(payload: Bytes, rest: Bytes)
    requires |payload| < 0x1_0000_0000_0000_0000
    ensures Unframe(Frame(payload) + rest) == Some((payload, rest))
  {
    hide PutUint, GetUint;
    assert Frame(payload) + rest == PutUint(|payload|) + (payload + rest);
    UintRoundTrip(|payload|, payload + rest);
  }

  function DefMessage(d: Def): Bytes {
    Frame(PutInt(-(d.id % 0x4000_0000_0000_0000)) + d.body)
  }

  function DefMessages(defs: seq<Def>): Bytes {
    if defs == [] then [] else DefMessage(defs[0]) + DefMessages(defs[1..])
  }

  function ValueMessage(l: Layout, v: Value): Bytes {
    Frame(PutInt(l.id % 0x4000_0000_0000_0000) + l.put(v))
  }

  /** An encoder: whether its type's definitions have gone out. */
  datatype Encoder = Encoder(layout: Layout, sent: bool)

  /** Encoder.Encode: the bytes it appends and the encoder afterwards. */
  function Encode(e: Encoder, v: Value): (r: (Bytes, Encoder))
    ensures r.1.layout == e.layout && r.1.sent
  {
    ((if e.sent then [] else DefMessages(e.layout.defs)) + ValueMessage(e.layout, v), e.(sent := true))
  }

  /** gobEncode: one value through a fresh encoder. */
  function EncodeAlone(c: Codec, v: Value): Bytes {
    Encode(Encoder(c.layouts(KindOf(v)), false), v).0
  }

  /** Decoder.Decode: read messages up to and including the next value. None is
      any decode error: a cut or malformed message, a definition received
      twice, or a value its definitions do not explain. */
  function Decode(c: Codec, k: Kind, defs: map<nat, Bytes>, s: Bytes): (r: Option<(Value, map<nat, Bytes>, Bytes)>)
    decreases |s|
  {
    match Unframe(s)
    case None => None
    case Some((payload, rest)) =>
      match GetInt(payload)
      case None => None
      case Some((id, body)) =>
        if id < 0 then
          if -id in defs then None else Decode(c, k, defs[-id := body], rest)
        else
          match c.engine(k, defs, id, body)
          case None => None
          case Some(v) => Some((v, defs, rest))
  }

  /** One value from a fresh decoder (readBlock). */
  function DecodeAlone(c: Codec, k: Kind, s: Bytes): Option<Value> {
    match Decode(c, k, map[], s)
    case None => None
    case Some((v, _, _)) => Some(v)
  }

  /** decodeV2Block: replay the descriptor, drop the primer, decode the block. */
  function DecodeBlock(c: Codec, k: Kind, descriptor: Bytes, block: Bytes): Option<Value> {
    match Decode(c, k, map[], descriptor + block)
    case None => None
    case Some((_, defs, rest)) =>
      match Decode(c, k, defs, rest)
      case None => None
      case Some((v, _, _)) => Some(v)
  }

  // ---------- What a decoder makes of encoder output ----------

  lemma DefMapKeys(defs: seq<Def>)
    ensures forall id: nat :: id in DefMap(defs) <==> exists i: nat :: i < |defs| && defs[i].id == id
  {
    if defs != [] {
      var front := defs[..|defs| - 1];
      DefMapKeys(front);
      forall id: nat ensures id in DefMap(defs) <==> exists i: nat :: i < |defs| && defs[i].id == id {
        if id in DefMap(front) {
          var i: nat :| i < |front| && front[i].id == id;
          assert defs[i].id == id;
        }
        if i: nat :| i < |defs| && defs[i].id == id {
          if i < |front| { assert front[i].id == id; }
        }
      }
    }
  }

  lemma DecodeOneDef(c: Codec, kind: Kind, known: map<nat, Bytes>, d: Def, tail: Bytes)
    requires 0 < d.id < 0x4000_0000_0000_0000 && d.id !in known
    requires |DefMessage(d)| < 0x1_0000_0000_0000_0000
    ensures Decode(c, kind, known, DefMessage(d) + tail) == Decode(c, kind, known[d.id := d.body], tail)
  {
    hide Frame, Unframe, PutInt, GetInt;
    var announced: int := 0 - (d.id as int);
    FrameRoundTrip(PutInt(announced) + d.body, tail);
    IntRoundTrip(announced, d.body);
  }

  /** Reading the definitions from position n on completes the definition map. */
  lemma {:induction false} DecodeDefs(c: Codec, kind: Kind, defs: seq<Def>, n: nat, rest: Bytes)
    requires forall i: nat, j: nat :: i < j < |defs| ==> defs[i].id != defs[j].id
    requires forall i: nat :: i < |defs| ==> 0 < defs[i].id < 0x4000_0000_0000_0000
    requires n <= |defs|
    requires |DefMessages(defs[n..])| < 0x1_0000_0000_0000_0000
    ensures Decode(c, kind, DefMap(defs[..n]), DefMessages(defs[n..]) + rest) == Decode(c, kind, DefMap(defs), rest)
    decreases |defs| - n
  {
    hide Decode, DefMessage;
    if n == |defs| {
      assert defs[..n] == defs && defs[n..] == [];
      assert DefMessages(defs[n..]) + rest == rest;
    } else {
      var later := defs[n..][1..];
      assert later == defs[n + 1..];
      assert DefMessages(defs[n..]) + rest == DefMessage(defs[n]) + (DefMessages(later) + rest);
      DefMapKeys(defs[..n]);
      DecodeOneDef(c, kind, DefMap(defs[..n]), defs[n], DefMessages(later) + rest);
      assert defs[..n + 1][..n] == defs[..n];
      assert DefMap(defs[..n + 1]) == DefMap(defs[..n])[defs[n].id := defs[n].body];
      DecodeDefs(c, kind, defs, n + 1, rest);
    }
  }

  lemma LawfulAt(c: Codec, v: Value)
    requires Lawful(c)
    ensures var l := c.layouts(KindOf(v));
      l.id < 0x4000_0000_0000_0000 && c.engine(KindOf(v), DefMap(l.defs), l.id, l.put(v)) == Some(v)
  {
  }

  lemma DecodeOneValue(c: Codec, k: Kind, defs: map<nat, Bytes>, s: Bytes, id: nat, body: Bytes, rest: Bytes, v: Value)
    requires exists payload :: Unframe(s) == Some((payload, rest)) && GetInt(payload) == Some((id, body))
    requires c.engine(k, defs, id, body) == Some(v)
    ensures Decode(c, k, defs, s) == Some((v, defs, rest))
  {
    hide Unframe, GetInt;
  }

  lemma DecodeValue(c: Codec, v: Value, rest: Bytes)
    requires Lawful(c)
    requires |ValueMessage(c.layouts(KindOf(v)), v)| < 0x1_0000_0000_0000_0000
    ensures var l := c.layouts(KindOf(v));
      Decode(c, KindOf(v), DefMap(l.defs), ValueMessage(l, v) + rest) == Some((v, DefMap(l.defs), rest))
  {
    LawfulAt(c, v);
    hide Lawful, DefMap, PutInt, GetInt, Frame, Unframe, Decode, KindOf;
    var l := c.layouts(KindOf(v));
    FrameRoundTrip(PutInt(l.id) + l.put(v), rest);
    IntRoundTrip(l.id, l.put(v));
    DecodeOneValue(c, KindOf(v), DefMap(l.defs), ValueMessage(l, v) + rest, l.id, l.put(v), rest, v);
  }

  lemma LawfulDefs(c: Codec, k: Kind)
    requires Lawful(c)
    ensures var defs := c.layouts(k).defs;
      && (forall i: nat, j: nat :: i < j < |defs| ==> defs[i].id != defs[j].id)
      && (forall i: nat :: i < |defs| ==> 0 < defs[i].id < 0x4000_0000_0000_0000)
  {
  }

  lemma AloneIs(c: Codec, v: Value)
    ensures var l := c.layouts(KindOf(v)); EncodeAlone(c, v) == DefMessages(l.defs) + ValueMessage(l, v)
  {
    hide DefMessages, ValueMessage;
  }

  lemma DecodeFresh(c: Codec, v: Value, rest: Bytes)
    requires Lawful(c)
    requires |EncodeAlone(c, v)| < 0x1_0000_0000_0000_0000
    ensures Decode(c, KindOf(v), map[], EncodeAlone(c, v) + rest)
         == Some((v, DefMap(c.layouts(KindOf(v)).defs), rest))
  {
    var l := c.layouts(KindOf(v));
    var tail := ValueMessage(l, v) + rest;
    assert l.defs[0..] == l.defs && l.defs[..0] == [];
    assert DefMap([]) == map[];
    AloneIs(c, v);
    LawfulDefs(c, KindOf(v));
    hide Lawful, Decode, DefMap, EncodeAlone, ValueMessage, DefMessages;
    assert EncodeAlone(c, v) + rest == DefMessages(l.defs) + tail;
    DecodeDefs(c, KindOf(v), l.defs, 0, tail);
    DecodeValue(c, v, rest);
  }

  /** A value gob-encoded on its own decodes to itself. */
  lemma AloneRoundTrip(c: Codec, v: Value)
    requires Lawful(c)
    requires |EncodeAlone(c, v)| < 0x1_0000_0000_0000_0000
    ensures DecodeAlone(c, KindOf(v), EncodeAlone(c, v)) == Some(v)
  {
    DecodeFresh(c, v, []);
    assert EncodeAlone(c, v) + [] == EncodeAlone(c, v);
  }

  // ---------- One encoder, many blocks ----------

  /** Everything one encoder writes for a list of values, message group by
      message group. */
  function EncodeRun(e: Encoder, vs: seq<Value>): (r: seq<Bytes>)
    ensures |r| == |vs|
    decreases |vs|
  {
    if vs == [] then [] else
      var (b, e') := Encode(e, vs[0]);
      [b] + EncodeRun(e', vs[1..])
  }

  lemma {:induction false} EncodeRunSent(e: Encoder, vs: seq<Value>, i: nat)
    requires e.sent && i < |vs|
    decreases i
    ensures EncodeRun(e, vs)[i] == ValueMessage(e.layout, vs[i])
  {
    if i > 0 { EncodeRunSent(e, vs[1..], i - 1); }
  }

  lemma RunParts(c: Codec, vs: seq<Value>, i: nat)
    requires 0 < i < |vs|
    ensures var l := c.layouts(KindOf(vs[0])); var out := EncodeRun(Encoder(l, false), vs);
      out[0] == EncodeAlone(c, vs[0]) && out[i] == ValueMessage(l, vs[i])
  {
    hide ValueMessage, DefMessages, KindOf;
    var l := c.layouts(KindOf(vs[0]));
    var rest := EncodeRun(Encoder(l, true), vs[1..]);
    assert EncodeRun(Encoder(l, false), vs) == [Encode(Encoder(l, false), vs[0]).0] + rest;
    EncodeRunSent(Encoder(l, true), vs[1..], i - 1);
    hide EncodeRun;
  }

  lemma Replays(c: Codec, k: Kind, descriptor: Bytes, block: Bytes, first: Value, defs: map<nat, Bytes>, v: Value)
    requires Decode(c, k, map[], descriptor + block) == Some((first, defs, block))
    requires Decode(c, k, defs, block + []) == Some((v, defs, []))
    ensures DecodeBlock(c, k, descriptor, block) == Some(v)
  {
    hide Decode;
    assert block + [] == block;
  }

  /** Block independence: of everything one encoder wrote, the primer's bytes and
      any one later block decode to that block's value, whatever was encoded
      before, between or after. */
  lemma BlockIndependence(c: Codec, vs: seq<Value>, i: nat)
    requires Lawful(c)
    requires 0 < i < |vs|
    requires KindOf(vs[0]) == KindOf(vs[i])
    requires var out := EncodeRun(Encoder(c.layouts(KindOf(vs[0])), false), vs);
      |out[0]| < 0x1_0000_0000_0000_0000 && |out[i]| < 0x1_0000_0000_0000_0000
    ensures var out := EncodeRun(Encoder(c.layouts(KindOf(vs[0])), false), vs);
      DecodeBlock(c, KindOf(vs[i]), out[0], out[i]) == Some(vs[i])
  {
    hide *;
    var k, l := KindOf(vs[i]), c.layouts(KindOf(vs[0]));
    var out := EncodeRun(Encoder(l, false), vs);
    RunParts(c, vs, i);
    DecodeFresh(c, vs[0], out[i]);
    DecodeValue(c, vs[i], []);
    Replays(c, k, out[0], out[i], vs[0], DefMap(l.defs), vs[i]);
  }

  /** Why the descriptor is replayed: on its own a block is only ever offered to
      the engine without any definition. */
  lemma BlockAloneHasNoDefinitions(c: Codec, l: Layout, v: Value)
    requires |ValueMessage(l, v)| < 0x1_0000_0000_0000_0000
    requires l.id < 0x4000_0000_0000_0000
    ensures DecodeAlone(c, KindOf(v), ValueMessage(l, v)) == c.engine(KindOf(v), map[], l.id, l.put(v))
  {
    hide PutInt, GetInt, Frame, Unframe;
    var payload := PutInt(l.id) + l.put(v);
    FrameRoundTrip(payload, []);
    IntRoundTrip(l.id, l.put(v));
    assert Frame(payload) + [] == Frame(payload);
  }

  lemma KnownDefRefused(c: Codec, kind: Kind, known: map<nat, Bytes>, d: Def, tail: Bytes)
    requires 0 < d.id < 0x4000_0000_0000_0000 && d.id in known
    requires |DefMessage(d)| < 0x1_0000_0000_0000_0000
    ensures Decode(c, kind, known, DefMessage(d) + tail) == None
  {
    hide Frame, Unframe, PutInt, GetInt;
    var announced: int := 0 - (d.id as int);
    FrameRoundTrip(PutInt(announced) + d.body, tail);
    IntRoundTrip(announced, d.body);
  }

  lemma FirstDefinition(c: Codec, v: Value)
    requires Lawful(c) && c.layouts(KindOf(v)).defs != []
    ensures var d := c.layouts(KindOf(v)).defs[0];
      && 0 < d.id < 0x4000_0000_0000_0000 && d.id in DefMap(c.layouts(KindOf(v)).defs)
      && |DefMessage(d)| <= |EncodeAlone(c, v)| && DefMessage(d) == EncodeAlone(c, v)[..|DefMessage(d)|]
  {
    var l := c.layouts(KindOf(v));
    DefMapKeys(l.defs);
    hide DefMap, DefMessage, ValueMessage;
    var tail := DefMessages(l.defs[1..]) + ValueMessage(l, v);
    assert EncodeAlone(c, v) == DefMessage(l.defs[0]) + tail;
  }

  lemma Replayed(c: Codec, k: Kind, descriptor: Bytes, block: Bytes, first: Value, defs: map<nat, Bytes>)
    requires Decode(c, k, map[], descriptor + block) == Some((first, defs, block))
    requires Decode(c, k, defs, block) == None
    ensures DecodeBlock(c, k, descriptor, block) == None
  {
    hide Decode;
  }

  /** Why one encoder writes a whole section: a block from an encoder of its own
      brings its definitions along, and after the descriptor they come twice. */
  lemma OwnEncoderRefused(c: Codec, first: Value, v: Value)
    requires Lawful(c) && KindOf(first) == KindOf(v) && c.layouts(KindOf(v)).defs != []
    requires |EncodeAlone(c, first)| < 0x1_0000_0000_0000_0000 && |EncodeAlone(c, v)| < 0x1_0000_0000_0000_0000
    ensures DecodeBlock(c, KindOf(v), EncodeAlone(c, first), EncodeAlone(c, v)) == None
  {
    hide Decode, DefMap, DefMessage, EncodeAlone, Lawful, DecodeBlock;
    var block, l := EncodeAlone(c, v), c.layouts(KindOf(v));
    FirstDefinition(c, v);
    DecodeFresh(c, first, block);
    var n := |DefMessage(l.defs[0])|;
    assert block == DefMessage(l.defs[0]) + block[n..];
    KnownDefRefused(c, KindOf(v), DefMap(l.defs), l.defs[0], block[n..]);
    Replayed(c, KindOf(v), EncodeAlone(c, first), block, first, DefMap(l.defs));
  }
}
