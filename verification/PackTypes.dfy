/** What both pack formats share: the hash, results and errors, and located
    ranges of a growing data file. */
module PackTypes {
  import opened ByteStrings

  type Digest = d: Bytes | |d| == 32 witness Zeros(32)

  /** SHA-256 (section 6.2 of FIPS 180-4) enters as any function to 32 bytes. */
  type Hash = Bytes -> Digest

  datatype Error =
    | Malformed          // errPackV2Malformed
    | ShortRead          // io.ErrUnexpectedEOF
    | ChecksumMismatch   // errChecksumMismatch
    | DecodeFailed       // a gob error
    | WriteFailed        // the operating system refused a write
    | OpenFailed         // the data file cannot be opened
    | NoSnapshot         // errNoSnapshot
    | PathNotFound       // errPathNotFound

  datatype Result<+T> = Ok(value: T) | Err(error: Error) {
    predicate IsFailure() { Err? }
    function PropagateFailure<U>(): Result<U> requires Err? { Err(error) }
    function Extract(): T requires Ok? { value }
  }

  /** The largest file an operating system offset can address. */
  const MAX_FILE_BYTES := 0x8000_0000_0000_0000

  /** One checksummed byte range of the data file: v2Locator and PackBlock. */
  datatype Locator = Locator(offset: nat, length: nat, sha: Digest)

  /** `loc` addresses and authenticates exactly `p` inside `data`. */
  ghost predicate Placed(h: Hash, data: Bytes, loc: Locator, p: Bytes) {
    && loc.length == |p|
    && loc.offset + |p| <= |data| && loc.offset + |p| < MAX_FILE_BYTES
    && data[loc.offset..loc.offset + |p|] == p
    && loc.sha == h(p)
  }

  lemma PlacedLater(h: Hash, data: Bytes, more: Bytes, loc: Locator, p: Bytes)
    requires Placed(h, data, loc, p) && data <= more
    ensures Placed(h, more, loc, p)
  {
    assert more[..|data|] == data;
    assert more[loc.offset..loc.offset + |p|] == data[loc.offset..loc.offset + |p|];
  }

  /** The range a locator names lies in a file of that many bytes. A range of no
      bytes always does; an offset from 2^63 on addresses nothing. */
  predicate InFile(size: nat, loc: Locator) {
    loc.length == 0 || (loc.offset < 0x8000_0000_0000_0000 && loc.offset + loc.length <= size)
  }

  /** The bytes of that range. */
  function RangeOf(data: Bytes, loc: Locator): Bytes
    requires InFile(|data|, loc)
  {
    if loc.length == 0 then [] else data[loc.offset..loc.offset + loc.length]
  }

  lemma RangeKept(data: Bytes, more: Bytes, loc: Locator)
    requires data <= more && InFile(|data|, loc)
    ensures InFile(|more|, loc) && RangeOf(more, loc) == RangeOf(data, loc)
  {
    assert more[..|data|] == data;
  }

  // ---------- Reading altered bytes ----------

  /** The one assumption on the hash: no byte range of the two files differs while
      keeping its digest. */
  ghost predicate NoForgedRange(h: Hash, honest: Bytes, data: Bytes) {
    forall i: nat, j: nat :: i <= j <= |honest| && j <= |data| && h(honest[i..j]) == h(data[i..j]) ==>
      honest[i..j] == data[i..j]
  }

  /** How a data file differs from the honest one: not at all (bytes after its end
      do not matter), by being cut shorter, or in some byte. */
  datatype Damage = Unaltered | Altered | CutShort

  function DamageOf(honest: Bytes, data: Bytes): Damage {
    if honest <= data then Unaltered else if |data| < |honest| then CutShort else Altered
  }

  /** The honest answer, or, over an altered file, a checksum mismatch, or, over one
      that was cut short, a short read. */
  predicate Faithful<T(==)>(honest: Result<T>, r: Result<T>, damage: Damage) {
    || r == honest
    || (damage != Unaltered && r == Err(ChecksumMismatch))
    || (damage == CutShort && r == Err(ShortRead))
  }

  // ---------- Which bytes are as they were ----------

  /** Byte x lies in the range a locator names. */
  predicate InRange(x: nat, loc: Locator) { loc.offset <= x < loc.offset + loc.length }

  ghost predicate InSome(x: nat, locs: seq<Locator>) {
    exists i :: 0 <= i < |locs| && InRange(x, locs[i])
  }

  /** Byte x is there and as it was. */
  predicate SameAt(honest: Bytes, data: Bytes, x: nat) {
    x < |honest| && x < |data| && data[x] == honest[x]
  }

  /** Every byte of the range is. */
  ghost predicate SameIn(honest: Bytes, data: Bytes, loc: Locator) {
    forall x :: 0 <= x && InRange(x, loc) ==> SameAt(honest, data, x)
  }

  lemma AllSame(honest: Bytes, data: Bytes)
    requires forall x :: 0 <= x < |honest| ==> SameAt(honest, data, x)
    ensures honest <= data
  {
    if honest != [] { assert SameAt(honest, data, |honest| - 1); }
    forall x | 0 <= x < |honest| ensures honest[x] == data[x] { assert SameAt(honest, data, x); }
  }

  /** A range whose digest is the honest one's holds the honest bytes. */
  lemma RangeSame(h: Hash, honest: Bytes, data: Bytes, loc: Locator)
    requires NoForgedRange(h, honest, data) && InFile(|honest|, loc) && InFile(|data|, loc)
    requires h(RangeOf(data, loc)) == h(RangeOf(honest, loc))
    ensures RangeOf(data, loc) == RangeOf(honest, loc) && SameIn(honest, data, loc)
  {
    if loc.length > 0 {
      var i, j := loc.offset, loc.offset + loc.length;
      assert h(honest[i..j]) == h(data[i..j]);
      forall x | i <= x < j ensures SameAt(honest, data, x) {
        assert data[i..j][x - i] == honest[i..j][x - i];
      }
    }
  }

  // ---------- Results that list what was written ----------

  /** r with `done` in front of what it lists. */
  ghost function Prepend<T>(done: seq<T>, r: Result<(Bytes, seq<T>)>): Result<(Bytes, seq<T>)> {
    match r
    case Ok((data, rest)) => Ok((data, done + rest))
    case Err(e) => Err(e)
  }

  lemma PrependOne<T>(done: seq<T>, x: T, r: Result<(Bytes, seq<T>)>)
    ensures Prepend(done, Prepend([x], r)) == Prepend(done + [x], r)
  {
    if r.Ok? { assert done + ([x] + r.value.1) == (done + [x]) + r.value.1; }
  }

  lemma PrependNone<T>(r: Result<(Bytes, seq<T>)>)
    ensures Prepend([], r) == r
  {
    if r.Ok? { assert [] + r.value.1 == r.value.1; }
  }
}
