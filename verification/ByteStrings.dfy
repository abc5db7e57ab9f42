/** Byte strings as the pack formats use them: big-endian integers, NUL padding,
    byte-wise ordering, and joining fixed-width rows into pages. */
module ByteStrings {

  type Byte = b: int | 0 <= b < 256
  type Bytes = seq<Byte>

  datatype Option<+T> = None | Some(value: T)

  function Min(a: nat, b: nat): nat { if a < b then a else b }

  /** A set that is not empty has a member to pick. */
  lemma Member<T>(s: set<T>) returns (x: T)
    requires |s| > 0
    ensures x in s
  {
    x :| x in s;
  }

  // ---------- Big-endian unsigned integers ----------

  /** 256 to the power `width`: the number of values `width` bytes can hold. */
  function Pow256(width: nat): (p: nat)
    ensures p >= 1
  {
    if width == 0 then 1 else 256 * Pow256(width - 1)
  }

  /** The low `width` bytes of n, most significant first (higher bytes are lost,
      as in a Go conversion to a narrower unsigned type). */
  function PutBE(n: nat, width: nat): (b: Bytes)
    ensures |b| == width
  {
    if width == 0 then [] else PutBE(n / 256, width - 1) + [n % 256]
  }

  function GetBE(b: Bytes): nat {
    if b == [] then 0 else GetBE(b[..|b| - 1]) * 256 + b[|b| - 1]
  }

  /** Writing then reading loses exactly what does not fit. */
  lemma {:induction false} GetPutBE(n: nat, width: nat)
    ensures n < Pow256(width) ==> GetBE(PutBE(n, width)) == n
    ensures GetBE(PutBE(n, width)) < Pow256(width)
  {
    if width > 0 {
      GetPutBE(n / 256, width - 1);
      assert PutBE(n, width)[..width - 1] == PutBE(n / 256, width - 1);
    }
  }

  lemma {:induction false} PutGetBE(b: Bytes)
    ensures PutBE(GetBE(b), |b|) == b
    ensures GetBE(b) < Pow256(|b|)
  {
    if b != [] {
      PutGetBE(b[..|b| - 1]);
      assert GetBE(b) / 256 == GetBE(b[..|b| - 1]) && GetBE(b) % 256 == b[|b| - 1];
    }
  }

  // ---------- Byte-wise ordering (Go string comparison, bytes.Compare) ----------

  /** a <= b in the lexicographic byte order. */
  predicate LexLe(a: Bytes, b: Bytes) {
    a == [] || (b != [] && (a[0] < b[0] || (a[0] == b[0] && LexLe(a[1..], b[1..]))))
  }

  lemma {:induction false} LexTotal(a: Bytes, b: Bytes)
    ensures LexLe(a, b) || LexLe(b, a)
    ensures LexLe(a, b) && LexLe(b, a) ==> a == b
  {
    if a != [] && b != [] {
      LexTotal(a[1..], b[1..]);
      if a[0] == b[0] && a[1..] == b[1..] {
        assert a == [a[0]] + a[1..] && b == [b[0]] + b[1..];
      }
    }
  }

  lemma {:induction false} LexRefl(a: Bytes)
    ensures LexLe(a, a)
  {
    if a != [] { LexRefl(a[1..]); }
  }

  lemma {:induction false} LexTrans(a: Bytes, b: Bytes, c: Bytes)
    requires LexLe(a, b) && LexLe(b, c)
    ensures LexLe(a, c)
  {
    if a != [] && a[0] == b[0] && b[0] == c[0] { LexTrans(a[1..], b[1..], c[1..]); }
  }

  // ---------- NUL padding ----------

  predicate NulFree(b: Bytes) { 0 !in b }

  function Zeros(n: nat): (z: Bytes)
    ensures |z| == n
    ensures forall i :: 0 <= i < n ==> z[i] == 0
  {
    seq(n, _ => 0)
  }

  /** p extended with NULs to `width` bytes. */
  function Pad(p: Bytes, width: nat): (r: Bytes)
    requires |p| <= width
    ensures |r| == width
  {
    p + Zeros(width - |p|)
  }

  /** b without its trailing NULs. */
  function TrimNul(b: Bytes): Bytes {
    if b != [] && b[|b| - 1] == 0 then TrimNul(b[..|b| - 1]) else b
  }

  predicate NoTrailingNul(b: Bytes) { b != [] ==> b[|b| - 1] != 0 }

  lemma {:induction false} TrimPad(p: Bytes, width: nat)
    requires |p| <= width && NoTrailingNul(p)
    ensures TrimNul(Pad(p, width)) == p
    decreases width
  {
    if |p| < width {
      assert Pad(p, width)[..width - 1] == Pad(p, width - 1);
      TrimPad(p, width - 1);
    } else {
      assert Pad(p, width) == p;
    }
  }

  lemma {:induction false} PadTrim(b: Bytes)
    ensures |TrimNul(b)| <= |b|
    ensures NoTrailingNul(TrimNul(b))
    ensures Pad(TrimNul(b), |b|) == b
  {
    if b != [] && b[|b| - 1] == 0 {
      var front := b[..|b| - 1];
      PadTrim(front);
      assert Pad(TrimNul(b), |b|) == Pad(TrimNul(front), |front|) + [0];
    }
  }

  lemma {:induction false} ZerosLeast(b: Bytes)
    ensures LexLe(Zeros(|b|), b)
  {
    if b != [] {
      assert Zeros(|b|)[1..] == Zeros(|b| - 1);
      ZerosLeast(b[1..]);
    }
  }

  lemma {:induction false} LexAppend(a: Bytes, b: Bytes, x: Byte, y: Byte)
    requires |a| == |b|
    ensures LexLe(a + [x], b + [y]) <==> if a == b then x <= y else LexLe(a, b)
  {
    if a != [] {
      assert (a + [x])[1..] == a[1..] + [x] && (b + [y])[1..] == b[1..] + [y];
      assert a == [a[0]] + a[1..] && b == [b[0]] + b[1..];
      LexAppend(a[1..], b[1..], x, y);
    }
  }

  /** Big-endian: fields of one width are in byte order exactly when the numbers are. */
  lemma {:induction false} NumericOrder(a: Bytes, b: Bytes)
    requires |a| == |b|
    ensures LexLe(a, b) <==> GetBE(a) <= GetBE(b)
  {
    if a != [] {
      var n := |a| - 1;
      var a', b' := a[..n], b[..n];
      assert a == a' + [a[n]] && b == b' + [b[n]];
      LexAppend(a', b', a[n], b[n]);
      NumericOrder(a', b');
      PutGetBE(a');
      PutGetBE(b');
      hide LexLe, PutBE;
    }
  }

  /** Padding keeps the order of NUL-free keys, in both directions. */
  lemma {:induction false} PadOrder(a: Bytes, b: Bytes, width: nat)
    requires |a| <= width && |b| <= width && NulFree(a) && NulFree(b)
    ensures LexLe(Pad(a, width), Pad(b, width)) <==> LexLe(a, b)
  {
    if a == [] {
      assert Pad(a, width) == Zeros(width);
      ZerosLeast(Pad(b, width));
    } else if b == [] {
      assert a[0] in a;
    } else {
      assert Pad(a, width)[1..] == Pad(a[1..], width - 1);
      assert Pad(b, width)[1..] == Pad(b[1..], width - 1);
      assert NulFree(a[1..]) && NulFree(b[1..]);
      PadOrder(a[1..], b[1..], width - 1);
    }
  }

  /** Two NUL-free keys pad to the same row key only when they are the same key. */
  lemma PadInjective(a: Bytes, b: Bytes, width: nat)
    requires |a| <= width && |b| <= width && NulFree(a) && NulFree(b)
    requires Pad(a, width) == Pad(b, width)
    ensures a == b
  {
    LexRefl(Pad(a, width));
    PadOrder(a, b, width);
    PadOrder(b, a, width);
    LexTotal(a, b);
  }

  // ---------- Joining rows ----------

  /** The concatenation of all rows. */
  function Join(rows: seq<Bytes>): Bytes {
    if rows == [] then [] else rows[0] + Join(rows[1..])
  }

  ghost predicate AllWidth(rows: seq<Bytes>, width: nat) {
    forall i :: 0 <= i < |rows| ==> |rows[i]| == width
  }

  /** Row i of `page`, when the page is cut into rows of `width` bytes. */
  function RowAt(page: Bytes, width: nat, i: nat): (row: Bytes)
    requires (i + 1) * width <= |page|
    ensures |row| == width
  {
    assert (i + 1) * width == i * width + width;
    page[i * width..(i + 1) * width]
  }

  lemma {:induction false} JoinLength(rows: seq<Bytes>, width: nat)
    requires AllWidth(rows, width)
    ensures |Join(rows)| == |rows| * width
  {
    if rows != [] {
      assert AllWidth(rows[1..], width);
      JoinLength(rows[1..], width);
      assert |rows| * width == width + (|rows| - 1) * width;
    }
  }

  lemma RowAtShift(first: Bytes, rest: Bytes, width: nat, i: nat)
    requires |first| == width && (i + 1) * width <= |rest|
    ensures (i + 2) * width <= |first + rest|
    ensures RowAt(first + rest, width, i + 1) == RowAt(rest, width, i)
  {
    assert (i + 1) * width == i * width + width;
    assert (i + 2) * width == (i + 1) * width + width;
  }

  lemma FirstRowAt(first: Bytes, rest: Bytes, width: nat)
    requires |first| == width
    ensures width <= |first + rest| && RowAt(first + rest, width, 0) == first
  {
  }

  /** Cutting a joined page at the row width gives back row i. */
  lemma {:induction false} JoinRowAt(rows: seq<Bytes>, width: nat, i: nat)
    requires AllWidth(rows, width) && i < |rows|
    ensures (i + 1) * width <= |Join(rows)|
    ensures RowAt(Join(rows), width, i) == rows[i]
    decreases i
  {
    assert Join(rows) == rows[0] + Join(rows[1..]);
    hide Join, RowAt;
    if i == 0 {
      FirstRowAt(rows[0], Join(rows[1..]), width);
    } else {
      JoinRowAt(rows[1..], width, i - 1);
      RowAtShift(rows[0], Join(rows[1..]), width, i - 1);
    }
  }
}
