/** The address checksum: the nibble-folded loop computes the remainder of the message
    polynomial times x^16 divided by x^16 + x^12 + x^5 + 1. */
module Crc16 {
  import opened Bits

  // ---------- Bit-by-bit division ----------

  // Sixteen coefficients, highest power first.
  type Register = r: seq<bool> | |r| == 16 witness Zeros(16)

  // x^16 + x^12 + x^5 + 1
  const POLY: seq<bool> := [true] + Zeros(3) + [true] + Zeros(6) + [true] + Zeros(4) + [true]

  // Multiply the remainder by x, then cancel x^16 with the divisor.
  function Shift(r: Register, bit: bool): Register {
    var shifted := r[1..] + [false];
    if r[0] != bit then Xor(shifted, POLY[1..]) else shifted
  }

  function Divide(r: Register, bits: seq<bool>): Register
    decreases |bits|
  {
    if bits == [] then r else Divide(Shift(r, bits[0]), bits[1..])
  }

  function Crc(data: seq<Byte>): Register {
    Divide(Zeros(16), BitsOf(data))
  }

  lemma {:induction false} DivideConcat(r: Register, a: seq<bool>, b: seq<bool>)
    ensures Divide(r, a + b) == Divide(Divide(r, a), b)
    decreases |a|
  {
    if a == [] {
      assert a + b == b;
    } else {
      assert (a + b)[1..] == a[1..] + b;
      DivideConcat(Shift(r, a[0]), a[1..], b);
    }
  }

  lemma {:induction false} ShiftLinear(r: Register, s: Register, a: bool, b: bool)
    ensures Shift(Xor(r, s), a != b) == Xor(Shift(r, a), Shift(s, b))
  {
  }

  /** The remainder is linear: messages of equal length may be combined bit by bit. */
  lemma {:induction false} DivideLinear(r: Register, s: Register, a: seq<bool>, b: seq<bool>)
    requires |a| == |b|
    ensures Divide(Xor(r, s), Xor(a, b)) == Xor(Divide(r, a), Divide(s, b))
    decreases |a|
  {
    if a != [] {
      ShiftLinear(r, s, a[0], b[0]);
      assert Xor(a, b)[1..] == Xor(a[1..], b[1..]);
      DivideLinear(Shift(r, a[0]), Shift(s, b[0]), a[1..], b[1..]);
    }
  }

  function XorBytes(a: seq<Byte>, b: seq<Byte>): (c: seq<Byte>)
    requires |a| == |b|
    ensures |c| == |a|
  {
    seq(|a|, i requires 0 <= i < |a| => Xor(a[i], b[i]))
  }

  lemma {:induction false} BitsOfXor(a: seq<Byte>, b: seq<Byte>)
    requires |a| == |b|
    ensures BitsOf(XorBytes(a, b)) == Xor(BitsOf(a), BitsOf(b))
  {
    if a != [] {
      var n := |a| - 1;
      BitsOfXor(a[..n], b[..n]);
      assert XorBytes(a, b)[..n] == XorBytes(a[..n], b[..n]);
    }
  }

  /** The checksum of the bitwise sum of two messages is the sum of their checksums. */
  lemma {:induction false} CrcLinear(a: seq<Byte>, b: seq<Byte>)
    requires |a| == |b|
    ensures Crc(XorBytes(a, b)) == Xor(Crc(a), Crc(b))
  {
    BitsOfXor(a, b);
    assert Xor(Zeros(16), Zeros(16)) == Zeros(16);
    DivideLinear(Zeros(16), Zeros(16), BitsOf(a), BitsOf(b));
  }

  // ---------- Up to sixteen bits at once ----------

  function ZeroPow(n: nat, r: Register): Register {
    if n == 0 then r else ZeroPow(n - 1, Shift(r, false))
  }

  function Pack(bits: seq<bool>): Register
    requires |bits| <= 16
  {
    bits + Zeros(16 - |bits|)
  }

  // One bit fed in is that bit added at the top.
  lemma {:induction false} PackedShift(r: Register, bits: seq<bool>)
    requires 0 < |bits| <= 16
    ensures Shift(Xor(r, Pack(bits)), false) == Xor(Shift(r, bits[0]), Pack(bits[1..]))
  {
    var x, y := Xor(r, Pack(bits)), Pack(bits[1..]);
    var left, right := Shift(x, false), Xor(Shift(r, bits[0]), y);
    assert x[0] == (r[0] != bits[0]);
    forall i | 0 <= i < 16 ensures left[i] == right[i] {
      if i < 15 {
        assert x[i + 1] == (r[i + 1] != Pack(bits)[i + 1]) && y[i] == Pack(bits)[i + 1];
      }
    }
  }

  // Feeding at most sixteen bits is adding them at the top and shifting in zeros.
  lemma {:induction false} DividePacked(r: Register, bits: seq<bool>)
    requires |bits| <= 16
    ensures Divide(r, bits) == ZeroPow(|bits|, Xor(r, Pack(bits)))
    decreases |bits|
  {
    if bits == [] {
      assert Xor(r, Pack(bits)) == r;
    } else {
      var rest := bits[1..];
      DividePacked(Shift(r, bits[0]), rest);
      PackedShift(r, bits);
    }
  }

  lemma {:induction false} ZeroPowKeepsNonZero(n: nat, r: Register)
    requires r != Zeros(16)
    ensures ZeroPow(n, r) != Zeros(16)
  {
    if n > 0 {
      assert Shift(r, false) != Zeros(16) by {
        var s := Shift(r, false);
        if r[0] {
          assert POLY[1..][15] && s[15];
        } else {
          var i :| 0 <= i < 16 && r[i] != Zeros(16)[i];
          assert s[i - 1] == r[i];
        }
      }
      ZeroPowKeepsNonZero(n - 1, Shift(r, false));
    }
  }

  // Suffixes of zeros as one call of ZeroPow, whatever their length.
  lemma {:induction false} DivideZeros(r: Register, n: nat)
    ensures Divide(r, Zeros(n)) == ZeroPow(n, r)
    decreases n
  {
    if n > 0 {
      assert Zeros(n)[1..] == Zeros(n - 1);
      DivideZeros(Shift(r, false), n - 1);
    }
  }

  lemma {:induction false} ZeroPowOfZeros(n: nat)
    ensures ZeroPow(n, Zeros(16)) == Zeros(16)
  {
    if n > 0 {
      assert Shift(Zeros(16), false) == Zeros(16);
      ZeroPowOfZeros(n - 1);
    }
  }

  // A short non-zero burst among zeros leaves a non-zero remainder.
  lemma {:induction false} BurstRemainder(before: nat, burst: seq<bool>, after: nat)
    requires |burst| <= 16 && true in burst
    ensures Divide(Zeros(16), Zeros(before) + (burst + Zeros(after))) != Zeros(16)
  {
    DivideZeros(Zeros(16), before);
    ZeroPowOfZeros(before);
    DivideConcat(Zeros(16), Zeros(before), burst + Zeros(after));
    DivideConcat(Zeros(16), burst, Zeros(after));
    DividePacked(Zeros(16), burst);
    assert Xor(Zeros(16), Pack(burst)) == Pack(burst);
    var k :| 0 <= k < |burst| && burst[k];
    assert Pack(burst)[k] && !Zeros(16)[k];
    ZeroPowKeepsNonZero(|burst|, Pack(burst));
    DivideZeros(Divide(Zeros(16), burst), after);
    ZeroPowKeepsNonZero(after, Divide(Zeros(16), burst));
  }

  lemma {:induction false} BurstShape(d: seq<bool>, from: nat, to: nat)
    requires from <= to <= |d|
    requires forall i :: 0 <= i < |d| && !(from <= i < to) ==> !d[i]
    ensures d == Zeros(from) + (d[from..to] + Zeros(|d| - to))
  {
  }

  lemma {:induction false} BitBurstDetected(a: seq<bool>, b: seq<bool>, from: nat)
    requires |a| == |b| && a != b
    requires forall i :: 0 <= i < |a| && !(from <= i < from + 16) ==> a[i] == b[i]
    ensures Divide(Zeros(16), a) != Divide(Zeros(16), b)
  {
    var d, n := Xor(a, b), |a|;
    var k :| 0 <= k < n && a[k] != b[k];
    var to := if from + 16 <= n then from + 16 else n;
    assert d[k] && from <= k < to && d[from..to][k - from] == d[k];
    BurstShape(d, from, to);
    BurstRemainder(from, d[from..to], n - to);
    assert Xor(Zeros(16), Zeros(16)) == Zeros(16);
    DivideLinear(Zeros(16), Zeros(16), a, b);
    var ra := Divide(Zeros(16), a);
    assert Xor(ra, ra) == Zeros(16);
  }

  /** Two messages of equal length that differ only inside one window of sixteen bits never
      have the same checksum. */
  lemma {:induction false} BurstDetected(a: seq<Byte>, b: seq<Byte>, from: nat)
    requires |a| == |b| && a != b
    requires forall i :: 0 <= i < 8 * |a| && !(from <= i < from + 16) ==> BitsOf(a)[i] == BitsOf(b)[i]
    ensures Crc(a) != Crc(b)
  {
    if BitsOf(a) == BitsOf(b) {
      BitsOfInjective(a, b);
    } else {
      BitBurstDetected(BitsOf(a), BitsOf(b), from);
    }
  }

  // ---------- The remainder of polynomial division ----------

  // The quotient's coefficients times the divisor.
  function TimesPoly(q: seq<bool>): (p: seq<bool>)
    ensures |p| == |q| + 16
  {
    if q == [] then Zeros(16)
    else
      var n := |q| - 1;
      var shifted := TimesPoly(q[..n]) + [false];
      if q[n] then Xor(shifted, Zeros(n) + POLY) else shifted
  }

  function Quotient(bits: seq<bool>): (q: seq<bool>)
    ensures |q| == |bits|
  {
    if bits == [] then []
    else
      var n := |bits| - 1;
      Quotient(bits[..n]) + [Divide(Zeros(16), bits[..n])[0] != bits[n]]
  }

  // message * x^16 == q * POLY + rem
  predicate Divides(bits: seq<bool>, q: seq<bool>, rem: Register) {
    |q| == |bits| && bits + Zeros(16) == Xor(TimesPoly(q), Zeros(|bits|) + rem)
  }

  lemma {:induction false} DivideSnoc(bits: seq<bool>, bit: bool)
    ensures Divide(Zeros(16), bits + [bit]) == Shift(Divide(Zeros(16), bits), bit)
  {
    DivideConcat(Zeros(16), bits, [bit]);
  }

  lemma {:induction false} DivisionStep(bits: seq<bool>, q: seq<bool>, r: Register, bit: bool)
    requires Divides(bits, q, r)
    ensures Divides(bits + [bit], q + [r[0] != bit], Shift(r, bit))
  {
    var n := |bits|;
    var top := r[0] != bit;
    var prod := TimesPoly(q) + [false];
    assert (q + [top])[..n] == q;
    var left, before := bits + [bit] + Zeros(16), bits + Zeros(16);
    var right := Xor(TimesPoly(q + [top]), Zeros(n + 1) + Shift(r, bit));
    assert |POLY| == 17 && POLY[0];
    forall i | 0 <= i < n + 17 ensures left[i] == right[i] {
      assert i < n + 16 ==> before[i] == (TimesPoly(q)[i] != (Zeros(n) + r)[i]);
      assert top ==> TimesPoly(q + [top])[i] == (prod[i] != (Zeros(n) + POLY)[i]);
      assert i > n ==> (Zeros(n + 1) + Shift(r, bit))[i] == Shift(r, bit)[i - n - 1];
    }
  }

  lemma {:induction false} DivisionHolds(bits: seq<bool>)
    ensures Divides(bits, Quotient(bits), Divide(Zeros(16), bits))
  {
    if bits == [] {
      assert [] + Zeros(16) == Xor(Zeros(16), Zeros(0) + Zeros(16));
    } else {
      var n := |bits| - 1;
      DivisionHolds(bits[..n]);
      DivisionStep(bits[..n], Quotient(bits[..n]), Divide(Zeros(16), bits[..n]), bits[n]);
      DivideSnoc(bits[..n], bits[n]);
      assert bits == bits[..n] + [bits[n]];
    }
  }

  lemma {:induction false} TimesPolyLinear(p: seq<bool>, q: seq<bool>)
    requires |p| == |q|
    ensures TimesPoly(Xor(p, q)) == Xor(TimesPoly(p), TimesPoly(q))
  {
    if p != [] {
      var n := |p| - 1;
      TimesPolyLinear(p[..n], q[..n]);
      assert Xor(p, q)[..n] == Xor(p[..n], q[..n]);
    }
  }

  // A multiple of the divisor whose leading coefficients vanish is zero.
  lemma {:induction false} LowMultipleIsZero(q: seq<bool>)
    requires forall i :: 0 <= i < |q| ==> !TimesPoly(q)[i]
    ensures TimesPoly(q) == Zeros(|q| + 16)
  {
    if q != [] {
      var n := |q| - 1;
      forall i | 0 <= i < n ensures !TimesPoly(q[..n])[i] {
        assert !TimesPoly(q)[i];
      }
      LowMultipleIsZero(q[..n]);
      assert !TimesPoly(q)[n];
      assert POLY[0];
    }
  }

  lemma {:induction false} RemainderUnique(bits: seq<bool>, p: seq<bool>, q: seq<bool>, r: Register, s: Register)
    requires Divides(bits, p, r) && Divides(bits, q, s)
    ensures r == s
  {
    var n := |bits|;
    var x := Xor(p, q);
    TimesPolyLinear(p, q);
    var left := bits + Zeros(16);
    forall i | 0 <= i < n + 16 ensures TimesPoly(x)[i] == ((Zeros(n) + r)[i] != (Zeros(n) + s)[i]) {
      assert left[i] == Xor(TimesPoly(p), Zeros(n) + r)[i];
      assert left[i] == Xor(TimesPoly(q), Zeros(n) + s)[i];
    }
    LowMultipleIsZero(x);
    forall i | 0 <= i < 16 ensures r[i] == s[i] {
      assert !TimesPoly(x)[n + i];
    }
  }

  /** The checksum is the remainder of polynomial division, and no other register is. */
  lemma {:induction false} CrcIsRemainder(data: seq<Byte>, rem: Register)
    ensures rem == Crc(data) ==> exists q: seq<bool> :: Divides(BitsOf(data), q, rem)
    ensures (exists q: seq<bool> :: Divides(BitsOf(data), q, rem)) ==> rem == Crc(data)
  {
    var bits := BitsOf(data);
    DivisionHolds(bits);
    if rem == Crc(data) {
      assert Divides(bits, Quotient(bits), rem);
      assert exists q: seq<bool> :: Divides(bits, q, rem);
    }
    forall q: seq<bool> | Divides(bits, q, rem) ensures rem == Crc(data) {
      RemainderUnique(bits, q, Quotient(bits), rem, Crc(data));
    }
  }

  // Four shifts at once: the top four coefficients are cancelled together.
  function Nibble(r: Register): Register {
    var top := Right(r, 12);
    Xor(Xor(Xor(Left(r, 4), Left(top, 12)), Left(top, 5)), top)
  }

  function FoldBits(r: Register, byte: seq<bool>): Register
    requires |byte| == 8
  {
    var code := Xor(Right(r, 8), Zeros(8) + byte);
    var folded := Xor(code, Right(code, 4));
    Xor(Xor(Xor(Left(r, 8), Left(folded, 12)), Left(folded, 5)), folded)
  }

  lemma {:induction false} NibbleAt(r: Register, i: nat)
    requires i < 16
    ensures Nibble(r)[i]
            == ((i < 12 && r[i + 4]) != ((i < 4 && r[i]) != ((7 <= i < 11 && r[i - 7]) != (12 <= i && r[i - 12]))))
  {
    var top := Right(r, 12);
    assert Left(top, 12)[i] == (i < 4 && r[i]);
    assert Left(top, 5)[i] == (7 <= i < 11 && r[i - 7]);
    assert top[i] == (12 <= i && r[i - 12]);
  }

  lemma {:induction false} ShiftAt(r: Register, i: nat)
    requires i < 16
    ensures Shift(r, false)[i] == ((i < 15 && r[i + 1]) != (r[0] && (i == 3 || i == 10 || i == 15)))
  {
  }

  lemma {:induction false} FourShiftsAt(r: Register, i: nat)
    requires i < 16
    ensures ZeroPow(4, r)[i] == Nibble(r)[i]
  {
    var s1 := Shift(r, false);
    var s2 := Shift(s1, false);
    var s3 := Shift(s2, false);
    NibbleAt(r, i);
    ShiftAt(s3, i);
    if i < 15 { ShiftAt(s2, i + 1); }
    if i < 14 { ShiftAt(s1, i + 2); }
    if i < 13 { ShiftAt(r, i + 3); }
    ShiftAt(r, 0);
    ShiftAt(r, 1);
    ShiftAt(r, 2);
    ShiftAt(s1, 0);
    ShiftAt(s1, 1);
    ShiftAt(s2, 0);
    assert s3[0] == r[3] && s2[0] == r[2] && s1[0] == r[1];
    assert ZeroPow(1, s3) == Shift(s3, false);
    assert ZeroPow(2, s2) == ZeroPow(1, s3);
    assert ZeroPow(3, s1) == ZeroPow(2, s2);
  }

  // Entry k of the folded word, which occupies the low byte.
  function Folded(c: seq<bool>, k: nat): bool
    requires |c| >= 8
  {
    8 <= k < 16 && (c[k - 8] != (12 <= k && c[k - 12]))
  }

  lemma {:induction false} FoldBitsAt(r: Register, byte: seq<bool>, i: nat)
    requires |byte| == 8 && i < 16
    ensures var x := Xor(r, Pack(byte));
            FoldBits(r, byte)[i] == ((i < 8 && r[i + 8]) != (Folded(x, i + 12) != (Folded(x, i + 5) != Folded(x, i))))
  {
    var code := Xor(Right(r, 8), Zeros(8) + byte);
    var folded := Xor(code, Right(code, 4));
    assert forall k :: 0 <= k < 16 ==> folded[k] == Folded(Xor(r, Pack(byte)), k);
    assert Left(r, 8)[i] == (i < 8 && r[i + 8]);
    assert Left(folded, 12)[i] == (i < 4 && folded[i + 12]);
    assert Left(folded, 5)[i] == (i < 11 && folded[i + 5]);
  }

  lemma {:induction false} FoldAt(r: Register, byte: seq<bool>, i: nat)
    requires |byte| == 8 && i < 16
    ensures FoldBits(r, byte)[i] == Nibble(Nibble(Xor(r, Pack(byte))))[i]
  {
    var x := Xor(r, Pack(byte));
    FoldBitsAt(r, byte, i);
    NibbleAt(Nibble(x), i);
    if i < 12 { NibbleAt(x, i + 4); }
    if i < 4 { NibbleAt(x, i); }
    if 7 <= i < 11 { NibbleAt(x, i - 7); }
    if 12 <= i { NibbleAt(x, i - 12); }
    assert i < 8 ==> x[i + 8] == r[i + 8];
  }

  lemma {:induction false} FoldIsEightShifts(r: Register, byte: seq<bool>)
    requires |byte| == 8
    ensures FoldBits(r, byte) == Divide(r, byte)
  {
    var x := Xor(r, Pack(byte));
    DividePacked(r, byte);
    ZeroPowSum(4, 4, x);
    NibbleIsFourShifts(x);
    NibbleIsFourShifts(Nibble(x));
    forall i | 0 <= i < 16 ensures FoldBits(r, byte)[i] == Nibble(Nibble(x))[i] {
      FoldAt(r, byte, i);
    }
  }

  lemma {:induction false} NibbleIsFourShifts(r: Register)
    ensures ZeroPow(4, r) == Nibble(r)
  {
    forall i | 0 <= i < 16 ensures ZeroPow(4, r)[i] == Nibble(r)[i] {
      FourShiftsAt(r, i);
    }
  }

  lemma {:induction false} ZeroPowSum(m: nat, n: nat, r: Register)
    ensures ZeroPow(m + n, r) == ZeroPow(n, ZeroPow(m, r))
    decreases m
  {
    if m > 0 {
      ZeroPowSum(m - 1, n, Shift(r, false));
    }
  }

  // ---------- The source's loop ----------

  lemma {:induction false} CrcSnoc(data: seq<Byte>, byte: Byte)
    ensures Crc(data + [byte]) == FoldBits(Crc(data), byte)
  {
    assert (data + [byte])[..|data|] == data;
    DivideConcat(Zeros(16), BitsOf(data), byte);
    FoldIsEightShifts(Crc(data), byte);
  }

  /** The nibble-folded loop computes the remainder of polynomial division. */
  method Crc16(data: seq<Byte>) returns (crc: Register)
    ensures crc == Crc(data)
  {
    crc := Zeros(16);
    for i := 0 to |data|
      invariant crc == Crc(data[..i])
    {
      var code := Xor(Right(crc, 8), Zeros(8) + data[i]);
      code := Xor(code, Right(code, 4));
      CrcSnoc(data[..i], data[i]);
      assert data[..i + 1] == data[..i] + [data[i]];
      crc := Xor(Xor(Xor(Left(crc, 8), Left(code, 12)), Left(code, 5)), code);
    }
    assert data[..|data|] == data;
  }
}
