/** The fixed-size, self-checksummed manifest of pack v2. */
module PackV2Manifest {
  import opened ByteStrings
  import opened PackTypes

  // "ATLSPK2" and a NUL
  const MAGIC: Bytes := [65, 84, 76, 83, 80, 75, 50, 0]
  const DATA_NAME_WIDTH := 64
  const LOCATOR_WIDTH := 44
  const LEAF_ROWS := 32
  const FANOUT := 64
  const MAX_HEIGHT := 8
  const MAX_KEY_WIDTH := 4096
  const MAX_BLOCK_BYTES := 0x100_0000
  const SECTION_COUNT := 4
  const MANIFEST_SIZE := 8 + 64 + 2 + 2 + 44 * 6 + 32

  /** Locators the fixed-width fields can hold. */
  predicate Fits(l: Locator) {
    l.offset < 0x1_0000_0000_0000_0000 && l.length < 0x1_0000_0000
  }

  function PutLocator(l: Locator): (b: Bytes)
    ensures |b| == LOCATOR_WIDTH
  {
    PutBE(l.offset, 8) + PutBE(l.length, 4) + l.sha
  }

  function GetLocator(b: Bytes): (l: Locator)
    requires |b| >= LOCATOR_WIDTH
  {
    Locator(GetBE(b[0..8]), GetBE(b[8..12]), b[12..44])
  }

  lemma PowersOf256()
    ensures Pow256(2) == 0x1_0000
    ensures Pow256(4) == 0x1_0000_0000
    ensures Pow256(8) == 0x1_0000_0000_0000_0000
  {
    assert Pow256(2) == 256 * 256;
    assert Pow256(4) == 256 * 256 * Pow256(2);
    assert Pow256(6) == 256 * 256 * Pow256(4);
    assert Pow256(8) == 256 * 256 * Pow256(6);
  }

  lemma LocatorRoundTrip(l: Locator, rest: Bytes)
    requires Fits(l)
    ensures GetLocator(PutLocator(l) + rest) == l
  {
    var b := PutLocator(l) + rest;
    PowersOf256();
    GetPutBE(l.offset, 8);
    GetPutBE(l.length, 4);
    assert b[0..8] == PutBE(l.offset, 8);
    assert b[8..12] == PutBE(l.length, 4);
    assert b[12..44] == l.sha;
  }

  lemma LocatorReverse(b: Bytes)
    requires |b| == LOCATOR_WIDTH
    ensures PutLocator(GetLocator(b)) == b && Fits(GetLocator(b))
  {
    PowersOf256();
    PutGetBE(b[0..8]);
    PutGetBE(b[8..12]);
    assert b == b[0..8] + b[8..12] + b[12..44];
  }

  datatype Manifest = Manifest(
    dataFile: Bytes,
    keyWidth: nat,
    height: nat,
    root: Locator,
    vocabulary: Locator,
    descriptors: seq<Locator>)

  function LeafWidth(keyWidth: nat): nat { keyWidth + SECTION_COUNT * LOCATOR_WIDTH }
  function InteriorWidth(keyWidth: nat): nat { keyWidth + LOCATOR_WIDTH }

  // ---------- filepath.Base ----------

  const SLASH: Byte := 47
  const DOT: Byte := 46

  function TrimSlashes(p: Bytes): Bytes {
    if p != [] && p[|p| - 1] == SLASH then TrimSlashes(p[..|p| - 1]) else p
  }

  /** What follows the last slash. */
  function LastElement(p: Bytes): Bytes {
    if p == [] || p[|p| - 1] == SLASH then [] else LastElement(p[..|p| - 1]) + [p[|p| - 1]]
  }

  /** filepath.Base on a system whose separator is the slash. */
  function Base(p: Bytes): Bytes {
    if p == [] then [DOT]
    else
      var last := LastElement(TrimSlashes(p));
      if last == [] then [SLASH] else last
  }

  lemma {:induction false} LastElementPlain(p: Bytes)
    ensures SLASH !in LastElement(p)
    ensures SLASH !in p ==> LastElement(p) == p
  {
    if p != [] && p[|p| - 1] != SLASH {
      LastElementPlain(p[..|p| - 1]);
      assert p == p[..|p| - 1] + [p[|p| - 1]];
    }
  }

  lemma {:induction false} TrimSlashesPlain(p: Bytes)
    requires SLASH !in p
    ensures TrimSlashes(p) == p
  {
  }

  /** The names the reader takes as base names: slash-free ones, and the single
      slash, which filepath.Base returns unchanged. */
  lemma BaseNames(p: Bytes)
    ensures Base(p) == p <==> (p == [SLASH] || (p != [] && SLASH !in p))
  {
    LastElementPlain(TrimSlashes(p));
    LastElementPlain(p);
    if SLASH !in p {
      TrimSlashesPlain(p);
    } else if p == [SLASH] {
      assert p[..|p| - 1] == [];
      assert TrimSlashes(p) == [];
    }
  }

  // ---------- encode and decode ----------

  /** The name as its field holds it: padded, or cut to its first 64 bytes. */
  function NameField(name: Bytes): Bytes {
    if |name| <= DATA_NAME_WIDTH then Pad(name, DATA_NAME_WIDTH) else name[..DATA_NAME_WIDTH]
  }

  /** The checksummed part of an encoded manifest. The name field keeps the first
      64 bytes of the name; the two counters keep their low 16 bits. */
  function Body(m: Manifest): (b: Bytes)
    requires |m.descriptors| == SECTION_COUNT
    ensures |b| == MANIFEST_SIZE - 32
  {
    MAGIC
    + NameField(m.dataFile)
    + PutBE(m.keyWidth, 2) + PutBE(m.height, 2)
    + PutLocator(m.root) + PutLocator(m.vocabulary)
    + PutLocator(m.descriptors[0]) + PutLocator(m.descriptors[1])
    + PutLocator(m.descriptors[2]) + PutLocator(m.descriptors[3])
  }

  function EncodeManifest(h: Hash, m: Manifest): (b: Bytes)
    requires |m.descriptors| == SECTION_COUNT
    ensures |b| == MANIFEST_SIZE
  {
    Body(m) + h(Body(m))
  }

  /** The fields of a body, before any of them is judged. */
  function Fields(body: Bytes): (m: Manifest)
    requires |body| == MANIFEST_SIZE - 32
    ensures |m.descriptors| == SECTION_COUNT
  {
    Manifest(TrimNul(body[8..72]), GetBE(body[72..74]), GetBE(body[74..76]),
             GetLocator(body[76..120]), GetLocator(body[120..164]),
             [GetLocator(body[164..208]), GetLocator(body[208..252]),
              GetLocator(body[252..296]), GetLocator(body[296..340])])
  }

  function DecodeManifest(h: Hash, b: Bytes): (r: Result<Manifest>)
    ensures r.Ok? ==> |r.value.descriptors| == SECTION_COUNT
    ensures r.Ok? ==> 1 <= r.value.keyWidth <= MAX_KEY_WIDTH && 1 <= r.value.height <= MAX_HEIGHT
  {
    if |b| != MANIFEST_SIZE then Err(Malformed)
    else
      var body := b[..MANIFEST_SIZE - 32];
      if h(body) != b[MANIFEST_SIZE - 32..] then Err(ChecksumMismatch)
      else if body[..8] != MAGIC then Err(Malformed)
      else
        var m := Fields(body);
        if m.dataFile == [] then Err(Malformed)
        else if Base(m.dataFile) != m.dataFile then Err(Malformed)
        else if m.keyWidth < 1 then Err(Malformed)
        else if m.keyWidth > MAX_KEY_WIDTH then Err(Malformed)
        else if m.height < 1 then Err(Malformed)
        else if m.height > MAX_HEIGHT then Err(Malformed)
        else Ok(m)
  }

  /** What a manifest must satisfy to survive the trip, in terms a writer can
      check before encoding. */
  predicate ValidName(name: Bytes) {
    0 < |name| <= DATA_NAME_WIDTH && NoTrailingNul(name) && (name == [SLASH] || SLASH !in name)
  }

  predicate Valid(m: Manifest) {
    && |m.descriptors| == SECTION_COUNT
    && ValidName(m.dataFile)
    && 1 <= m.keyWidth <= MAX_KEY_WIDTH
    && 1 <= m.height <= MAX_HEIGHT
    && Fits(m.root) && Fits(m.vocabulary)
    && (forall k :: 0 <= k < SECTION_COUNT ==> Fits(m.descriptors[k]))
  }

  lemma BodyParts(m: Manifest)
    requires |m.descriptors| == SECTION_COUNT
    ensures var b := Body(m);
      && b[..8] == MAGIC
      && b[8..72] == NameField(m.dataFile)
      && b[72..74] == PutBE(m.keyWidth, 2) && b[74..76] == PutBE(m.height, 2)
      && b[76..120] == PutLocator(m.root) && b[120..164] == PutLocator(m.vocabulary)
      && b[164..208] == PutLocator(m.descriptors[0]) && b[208..252] == PutLocator(m.descriptors[1])
      && b[252..296] == PutLocator(m.descriptors[2]) && b[296..340] == PutLocator(m.descriptors[3])
  {
  }

  lemma LocatorAlone(l: Locator)
    requires Fits(l)
    ensures GetLocator(PutLocator(l)) == l
  {
    LocatorRoundTrip(l, []);
    assert PutLocator(l) + [] == PutLocator(l);
  }

  lemma FieldsOfBody(m: Manifest)
    requires |m.descriptors| == SECTION_COUNT
    ensures Fields(Body(m)) ==
      Manifest(TrimNul(NameField(m.dataFile)), GetBE(PutBE(m.keyWidth, 2)), GetBE(PutBE(m.height, 2)),
               GetLocator(PutLocator(m.root)), GetLocator(PutLocator(m.vocabulary)),
               [GetLocator(PutLocator(m.descriptors[0])), GetLocator(PutLocator(m.descriptors[1])),
                GetLocator(PutLocator(m.descriptors[2])), GetLocator(PutLocator(m.descriptors[3]))])
  {
    BodyParts(m);
    hide Body, PutBE, GetBE, TrimNul, Pad, PutLocator, GetLocator;
  }

  lemma NameRoundTrip(name: Bytes)
    requires ValidName(name)
    ensures TrimNul(NameField(name)) == name
  {
    TrimPad(name, DATA_NAME_WIDTH);
  }

  lemma CounterRoundTrip(n: nat)
    requires n < 0x1_0000
    ensures GetBE(PutBE(n, 2)) == n
  {
    PowersOf256();
    GetPutBE(n, 2);
  }

  /** Nothing is lost on the way through the fixed-width fields. */
  lemma WideFieldsRoundTrip(m: Manifest)
    requires |m.descriptors| == SECTION_COUNT && ValidName(m.dataFile) && m.keyWidth < 0x1_0000 && m.height < 0x1_0000
    requires Fits(m.root) && Fits(m.vocabulary) && forall k :: 0 <= k < SECTION_COUNT ==> Fits(m.descriptors[k])
    ensures Fields(Body(m)) == m
  {
    hide *;
    FieldsOfBody(m);
    NameRoundTrip(m.dataFile);
    CounterRoundTrip(m.keyWidth);
    CounterRoundTrip(m.height);
    LocatorAlone(m.root);
    LocatorAlone(m.vocabulary);
    forall k | 0 <= k < SECTION_COUNT ensures GetLocator(PutLocator(m.descriptors[k])) == m.descriptors[k] {
      LocatorAlone(m.descriptors[k]);
    }
  }

  lemma FieldsFit(body: Bytes)
    requires |body| == MANIFEST_SIZE - 32
    ensures var m := Fields(body);
      && |m.dataFile| <= DATA_NAME_WIDTH && NoTrailingNul(m.dataFile)
      && Fits(m.root) && Fits(m.vocabulary)
      && (forall k :: 0 <= k < SECTION_COUNT ==> Fits(m.descriptors[k]))
  {
    PadTrim(body[8..72]);
    LocatorReverse(body[76..120]);
    LocatorReverse(body[120..164]);
    LocatorReverse(body[164..208]);
    LocatorReverse(body[208..252]);
    LocatorReverse(body[252..296]);
    LocatorReverse(body[296..340]);
  }

  /** decode(encode(m)) gives m back exactly for the valid manifests: an invalid
      one is refused or read back as something else. */
  lemma DecodeEncode(h: Hash, m: Manifest)
    requires |m.descriptors| == SECTION_COUNT
    ensures DecodeManifest(h, EncodeManifest(h, m)) == Ok(m) <==> Valid(m)
  {
    var b := EncodeManifest(h, m);
    assert b[..MANIFEST_SIZE - 32] == Body(m);
    assert b[MANIFEST_SIZE - 32..] == h(Body(m));
    BodyParts(m);
    if Valid(m) {
      WideFieldsRoundTrip(m);
      BaseNames(m.dataFile);
    }
    if DecodeManifest(h, b) == Ok(m) {
      FieldsFit(Body(m));
      BaseNames(m.dataFile);
    }
  }

  lemma SlicesOf(body: Bytes)
    requires |body| == MANIFEST_SIZE - 32
    ensures body == body[..8] + body[8..72] + body[72..74] + body[74..76] + body[76..120] + body[120..164]
                  + body[164..208] + body[208..252] + body[252..296] + body[296..340]
  {
    assert body[120..] == body[120..164] + body[164..208] + body[208..252] + body[252..296] + body[296..340];
    assert body[..120] == body[..8] + body[8..72] + body[72..74] + body[74..76] + body[76..120];
  }

  lemma BodyOfFields(body: Bytes)
    requires |body| == MANIFEST_SIZE - 32 && body[..8] == MAGIC
    ensures Body(Fields(body)) == body
  {
    FieldsFit(body);
    PadTrim(body[8..72]);
    PutGetBE(body[72..74]);
    PutGetBE(body[74..76]);
    LocatorReverse(body[76..120]);
    LocatorReverse(body[120..164]);
    LocatorReverse(body[164..208]);
    LocatorReverse(body[208..252]);
    LocatorReverse(body[252..296]);
    LocatorReverse(body[296..340]);
    SlicesOf(body);
    hide PutLocator, GetLocator, PutBE, GetBE, TrimNul, Pad, Fits, NoTrailingNul;
  }

  /** Every byte string the reader accepts is the encoding of what it read, so no
      two files are read as the same manifest. */
  lemma EncodeDecode(h: Hash, b: Bytes)
    requires DecodeManifest(h, b).Ok?
    ensures Valid(DecodeManifest(h, b).value)
    ensures EncodeManifest(h, DecodeManifest(h, b).value) == b
  {
    var body := b[..MANIFEST_SIZE - 32];
    FieldsFit(body);
    BaseNames(Fields(body).dataFile);
    BodyOfFields(body);
    assert b == body + b[MANIFEST_SIZE - 32..];
  }
}
