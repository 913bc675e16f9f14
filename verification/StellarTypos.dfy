/** Which mistyped symbols of an address the checksum always catches: any change inside three
    neighbouring symbols, except at exactly two places near the end. */
module StellarTypos {
  import opened Bits
  import opened Common
  import Crc16
  import opened Base32
  import opened StellarAddress

  // ---------- Streams of addresses ----------

  lemma {:induction false} StreamAgrees(s: seq<Code>, t: seq<Code>, from: nat, to: nat)
    requires AllSymbols(s) && AllSymbols(t) && |s| == |t| && from <= to <= |s|
    requires forall i :: 0 <= i < |s| && !(from <= i < to) ==> s[i] == t[i]
    ensures forall j :: 0 <= j < 5 * |s| && !(5 * from <= j < 5 * to) ==> Stream(s)[j] == Stream(t)[j]
  {
    forall j | 0 <= j < 5 * |s| && !(5 * from <= j < 5 * to) ensures Stream(s)[j] == Stream(t)[j] {
      var i, k := j / 5, j % 5;
      StreamAt(s, i, k);
      StreamAt(t, i, k);
    }
  }

  // Symbols are determined by their five bits.
  lemma {:induction false} SymbolAgrees(s: seq<Code>, t: seq<Code>, i: nat)
    requires AllSymbols(s) && AllSymbols(t) && |s| == |t| && i < |s|
    requires forall j :: 5 * i <= j < 5 * i + 5 ==> Stream(s)[j] == Stream(t)[j]
    ensures s[i] == t[i]
  {
    var a, b := FiveBits(SymbolValue(s[i])), FiveBits(SymbolValue(t[i]));
    forall k | 0 <= k < 5 ensures a[k] == b[k] {
      StreamAt(s, i, k);
      StreamAt(t, i, k);
      assert Stream(s)[5 * i + k] == Stream(t)[5 * i + k];
    }
    SymbolInjective(s[i], t[i]);
  }

  lemma {:induction false} BitsOfParts(p: seq<Byte>)
    requires |p| == 35
    ensures BitsOf(p[..33]) == BitsOf(p)[..264] && p[33] == BitsOf(p)[264..272] && p[34] == BitsOf(p)[272..]
  {
    assert p[..34][..33] == p[..33] && p[..34][33] == p[33];
    assert BitsOf(p) == BitsOf(p[..34]) + p[34];
    assert BitsOf(p[..34]) == BitsOf(p[..33]) + p[33];
  }

  // The checksum as the address carries it, high byte first.
  function Carried(stream: seq<bool>): seq<bool>
    requires |stream| == 280
  {
    stream[272..] + stream[264..272]
  }

  // An accepted address in terms of its stream.
  lemma {:induction false} AcceptedStream(s: seq<Code>)
    requires |s| == 56 && AllSymbols(s)
    ensures AddressKey(s).Some?
            <==> Stream(s)[..8] == VERSION_G && Crc16.Divide(Zeros(16), Stream(s)[..264]) == Carried(Stream(s))
  {
    var d := Decode(s).value;
    assert |d| == 35 && BitsOf(d) == Stream(s);
    FirstByte(d);
    BitsOfParts(d);
  }

  // What two accepted addresses differ in is itself divisible: its remainder is what it carries.
  lemma {:induction false} RemainderOfDifference(a: seq<bool>, b: seq<bool>)
    requires |a| == |b| == 280
    ensures Crc16.Divide(Zeros(16), Xor(a, b)[..264])
            == Xor(Crc16.Divide(Zeros(16), a[..264]), Crc16.Divide(Zeros(16), b[..264]))
    ensures Carried(Xor(a, b)) == Xor(Carried(a), Carried(b))
  {
    assert Xor(a, b)[..264] == Xor(a[..264], b[..264]);
    assert Xor(Zeros(16), Zeros(16)) == Zeros(16);
    Crc16.DivideLinear(Zeros(16), Zeros(16), a[..264], b[..264]);
  }

  // ---------- Windows that are always caught ----------

  // t differs from s, and only inside the three symbols from `from` on.
  ghost predicate Mistyped(s: seq<Code>, t: seq<Code>, from: nat) {
    |t| == |s| && t != s && forall i :: 0 <= i < |s| && !(from <= i < from + 3) ==> s[i] == t[i]
  }

  /** Changing up to three neighbouring symbols among the first 52 of an accepted address
      always makes it unacceptable. */
  lemma {:induction false} TypoRejected(s: seq<Code>, t: seq<Code>, from: nat)
    requires |s| == 56 && AddressKey(s).Some? && Mistyped(s, t, from) && from + 3 <= 52
    ensures AddressKey(t).None?
  {
    if AddressKey(t).Some? {
      PayloadOf(s);
      PayloadOf(t);
      var p, q := Decode(s).value, Decode(t).value;
      StreamAgrees(s, t, from, from + 3);
      BitsOfParts(p);
      BitsOfParts(q);
      var a, b := Stream(s), Stream(t);
      assert a[264..272] == b[264..272] && a[272..] == b[272..];
      if p[..33] == q[..33] {
        assert p == p[..33] + [p[33], p[34]] && q == q[..33] + [q[33], q[34]];
        StreamInjective(s, t);
      }
      Crc16.BurstDetected(p[..33], q[..33], 5 * from);
      assert false;
    }
  }

  // The stream of the difference of two accepted addresses.
  lemma {:induction false} DifferenceDivides(s: seq<Code>, t: seq<Code>)
    requires |s| == |t| == 56 && AddressKey(s).Some? && AddressKey(t).Some?
    ensures AllSymbols(s) && AllSymbols(t)
    ensures var d := Xor(Stream(s), Stream(t)); Crc16.Divide(Zeros(16), d[..264]) == Carried(d)
  {
    PayloadOf(s);
    PayloadOf(t);
    AcceptedStream(s);
    AcceptedStream(t);
    RemainderOfDifference(Stream(s), Stream(t));
  }

  lemma {:induction false} DifferenceInside(s: seq<Code>, t: seq<Code>, from: nat)
    requires |s| == 56 && AllSymbols(s) && AllSymbols(t) && Mistyped(s, t, from) && from + 3 <= 56
    ensures var d := Xor(Stream(s), Stream(t));
            && (forall j :: 0 <= j < 280 && !(5 * from <= j < 5 * from + 15) ==> !d[j])
            && d != Zeros(280)
  {
    StreamAgrees(s, t, from, from + 3);
    var a, b, d := Stream(s), Stream(t), Xor(Stream(s), Stream(t));
    if d == Zeros(280) {
      forall j | 0 <= j < 280 ensures a[j] == b[j] {
        assert !d[j];
      }
      StreamInjective(s, t);
    }
  }

  // The message part of the difference is zeros up to a burst of at most sixteen bits.
  lemma {:induction false} BurstAtEnd(m: seq<bool>, n: nat)
    requires n <= |m| <= n + 16 && forall j :: 0 <= j < n ==> !m[j]
    ensures Crc16.Divide(Zeros(16), m) == Crc16.ZeroPow(|m| - n, Crc16.Pack(m[n..]))
  {
    assert m == Zeros(n) + m[n..];
    Crc16.DivideConcat(Zeros(16), Zeros(n), m[n..]);
    Crc16.DivideZeros(Zeros(16), n);
    Crc16.ZeroPowOfZeros(n);
    Crc16.DividePacked(Zeros(16), m[n..]);
    assert Xor(Zeros(16), Crc16.Pack(m[n..])) == Crc16.Pack(m[n..]);
  }

  lemma {:induction false} NineShifts(r: Crc16.Register)
    ensures Crc16.ZeroPow(9, r) == Crc16.Shift(Crc16.Nibble(Crc16.Nibble(r)), false)
  {
    var two := Crc16.Nibble(Crc16.Nibble(r));
    Crc16.ZeroPowSum(4, 5, r);
    Crc16.NibbleIsFourShifts(r);
    Crc16.ZeroPowSum(4, 1, Crc16.Nibble(r));
    Crc16.NibbleIsFourShifts(Crc16.Nibble(r));
    assert Crc16.ZeroPow(1, two) == Crc16.ZeroPow(0, Crc16.Shift(two, false));
  }

  // Four shifts of nine bits at the top, as far as they matter.
  predicate OnceFolded(e: seq<bool>, x: Crc16.Register)
    requires |e| == 9
  {
    && x[0] == (e[4] != e[0]) && x[1] == (e[5] != e[1]) && x[2] == (e[6] != e[2]) && x[3] == (e[7] != e[3])
    && x[4] == e[8] && !x[5] && !x[6] && x[8] == e[1] && x[9] == e[2] && x[10] == e[3]
    && !x[11] && x[12] == e[0]
  }

  lemma {:induction false} FoldOnce(e: seq<bool>)
    requires |e| == 9
    ensures OnceFolded(e, Crc16.Nibble(Crc16.Pack(e)))
  {
    var r := Crc16.Pack(e);
    assert forall i :: 9 <= i < 16 ==> !r[i];
    Crc16.NibbleAt(r, 0);
    Crc16.NibbleAt(r, 1);
    Crc16.NibbleAt(r, 2);
    Crc16.NibbleAt(r, 3);
    Crc16.NibbleAt(r, 4);
    Crc16.NibbleAt(r, 5);
    Crc16.NibbleAt(r, 6);
    Crc16.NibbleAt(r, 8);
    Crc16.NibbleAt(r, 9);
    Crc16.NibbleAt(r, 10);
    Crc16.NibbleAt(r, 11);
    Crc16.NibbleAt(r, 12);
  }

  predicate TwiceFolded(e: seq<bool>, y: Crc16.Register)
    requires |e| == 9
  {
    && y[0] == (e[8] != (e[4] != e[0])) && y[1] == (e[5] != e[1]) && y[2] == (e[6] != e[2])
    && y[4] == e[1] && y[5] == e[2] && y[6] == e[3] && y[7] == (e[4] != e[0])
    && y[8] == (e[0] != (e[5] != e[1])) && y[15] == (e[7] != e[3])
  }

  lemma {:induction false} FoldTwice(e: seq<bool>, x: Crc16.Register)
    requires |e| == 9 && OnceFolded(e, x)
    ensures TwiceFolded(e, Crc16.Nibble(x))
  {
    Crc16.NibbleAt(x, 0);
    Crc16.NibbleAt(x, 1);
    Crc16.NibbleAt(x, 2);
    Crc16.NibbleAt(x, 4);
    Crc16.NibbleAt(x, 5);
    Crc16.NibbleAt(x, 6);
    Crc16.NibbleAt(x, 7);
    Crc16.NibbleAt(x, 8);
    Crc16.NibbleAt(x, 15);
  }

  // Nine bits at the end of a message always show in the high byte or the last two bits.
  lemma {:induction false} NineBitsShow(e: seq<bool>)
    requires |e| == 9
    requires var z := Crc16.ZeroPow(9, Crc16.Pack(e)); !z[14] && !z[15] && forall i :: 0 <= i < 8 ==> !z[i]
    ensures forall i :: 0 <= i < 9 ==> !e[i]
  {
    var y := Crc16.Nibble(Crc16.Nibble(Crc16.Pack(e)));
    var z := Crc16.Shift(y, false);
    NineShifts(Crc16.Pack(e));
    FoldOnce(e);
    FoldTwice(e, Crc16.Nibble(Crc16.Pack(e)));
    Crc16.ShiftAt(y, 15);
    assert !y[0];
    forall i | 0 <= i < 15 ensures z[i] == y[i + 1] {
      Crc16.ShiftAt(y, i);
    }
    assert !z[0] && !z[1] && !z[3 + 1] && !z[5] && !z[6] && !z[7] && !z[14] && !z[3];
  }

  // If the message part is the same, so is the checksum.
  lemma {:induction false} SameMessageSameStream(d: seq<bool>)
    requires |d| == 280 && d[..264] == Zeros(264) && Crc16.Divide(Zeros(16), d[..264]) == Carried(d)
    ensures d == Zeros(280)
  {
    BurstAtEnd(d[..264], 264);
    assert d[..264][264..] == [] && Crc16.Pack([]) == Zeros(16);
    assert Carried(d) == Zeros(16);
    CarriedNothing(d);
    assert d == d[..264] + d[264..];
  }

  lemma {:induction false} CarriedNothing(d: seq<bool>)
    requires |d| == 280 && Carried(d) == Zeros(16)
    ensures d[264..] == Zeros(16)
  {
    var c, tail := Carried(d), d[264..];
    forall i | 0 <= i < 16 ensures !tail[i] {
      assert tail[i] == if i < 8 then c[i + 8] else c[i - 8];
    }
  }

  lemma {:induction false} NineBitsAreNone(d: seq<bool>)
    requires |d| == 280 && Crc16.Divide(Zeros(16), d[..264]) == Carried(d)
    requires forall j :: 0 <= j < 280 && !(255 <= j < 270) ==> !d[j]
    ensures d[..264] == Zeros(264)
  {
    var e := d[..264][255..];
    BurstAtEnd(d[..264], 255);
    var z := Carried(d);
    assert z[14] == d[270] && z[15] == d[271] && forall i :: 0 <= i < 8 ==> z[i] == d[272 + i];
    NineBitsShow(e);
    forall j | 255 <= j < 264 ensures !d[j] {
      assert d[j] == e[j - 255];
    }
  }

  /** Past those, two more windows are safe: the one from the 52nd symbol on, which reaches from the
      message into the low byte of the checksum, and the last one, which is all checksum. */
  lemma {:induction false} EndTypoRejected(s: seq<Code>, t: seq<Code>, from: nat)
    requires |s| == 56 && AddressKey(s).Some? && Mistyped(s, t, from) && (from == 51 || from == 53)
    ensures AddressKey(t).None?
  {
    if AddressKey(t).Some? {
      DifferenceDivides(s, t);
      DifferenceInside(s, t, from);
      var d := Xor(Stream(s), Stream(t));
      if from == 51 {
        NineBitsAreNone(d);
      } else {
        assert d[..264] == Zeros(264);
      }
      SameMessageSameStream(d);
      assert false;
    }
  }

  // ---------- The two windows that are not ----------

  // A stream that is zero but for these places of a window.
  function Mask(from: nat, places: set<nat>): (m: seq<bool>)
    ensures |m| == 280
  {
    seq(280, j => 5 * from <= j && j - 5 * from in places)
  }

  // The register with these powers of x.
  function Powers(exponents: set<nat>): Crc16.Register {
    seq(16, i requires 0 <= i < 16 => 15 - i in exponents)
  }

  const PLACES_50: set<nat> := {1, 5, 6, 10, 12, 14}
  const PLACES_52: set<nat> := {2, 5, 10, 14}

  predicate NibbleBit(r: Crc16.Register, i: nat)
    requires i < 16
  {
    (i < 12 && r[i + 4]) != ((i < 4 && r[i]) != ((7 <= i < 11 && r[i - 7]) != (12 <= i && r[i - 12])))
  }

  lemma {:induction false} FoldIs(r: Crc16.Register, s: Crc16.Register)
    requires forall i :: 0 <= i < 16 ==> s[i] == NibbleBit(r, i)
    ensures Crc16.ZeroPow(4, r) == s
  {
    Crc16.NibbleIsFourShifts(r);
    var x := Crc16.Nibble(r);
    forall i | 0 <= i < 16 ensures x[i] == s[i] {
      Crc16.NibbleAt(r, i);
      assert s[i] == NibbleBit(r, i);
    }
  }

  lemma {:induction false} ShiftPower(k: nat)
    requires k < 15
    ensures Crc16.ZeroPow(1, Powers({k})) == Powers({k + 1})
  {
    var r := Powers({k});
    forall i | 0 <= i < 16 ensures Crc16.Shift(r, false)[i] == Powers({k + 1})[i] {
      Crc16.ShiftAt(r, i);
    }
    assert Crc16.ZeroPow(1, r) == Crc16.ZeroPow(0, Crc16.Shift(r, false));
  }

  lemma {:induction false} Remainder52()
    ensures Crc16.ZeroPow(4, Powers({13})) == Powers({13, 6, 1})
  {
    FoldIs(Powers({13}), Powers({13, 6, 1}));
  }

  lemma {:induction false} FirstFold50()
    ensures Crc16.ZeroPow(4, Powers({14, 10, 9, 5, 3})) == Powers({13, 9, 2})
  {
    FoldIs(Powers({14, 10, 9, 5, 3}), Powers({13, 9, 2}));
  }

  lemma {:induction false} SecondFold50()
    ensures Crc16.ZeroPow(4, Powers({13, 9, 2})) == Powers({1})
  {
    FoldIs(Powers({13, 9, 2}), Powers({1}));
  }

  lemma {:induction false} LastShifts50()
    ensures Crc16.ZeroPow(6, Powers({1})) == Powers({7})
  {
    FoldIs(Powers({1}), Powers({5}));
    ShiftPower(5);
    ShiftPower(6);
    Crc16.ZeroPowSum(1, 1, Powers({5}));
    Crc16.ZeroPowSum(4, 2, Powers({1}));
  }

  lemma {:induction false} Remainder50()
    ensures Crc16.ZeroPow(14, Powers({14, 10, 9, 5, 3})) == Powers({7})
  {
    FirstFold50();
    SecondFold50();
    LastShifts50();
    Crc16.ZeroPowSum(4, 10, Powers({14, 10, 9, 5, 3}));
    Crc16.ZeroPowSum(4, 6, Powers({13, 9, 2}));
  }

  // Where in the window coefficient i of the carried checksum lies.
  function Offset(from: nat, i: nat): nat
    requires from <= 52 && i < 16
  {
    (if i < 8 then 272 + i else 256 + i) - 5 * from
  }

  lemma {:induction false} MaskAt(from: nat, places: set<nat>, i: nat)
    requires 5 * from + i < 280
    ensures Mask(from, places)[5 * from + i] <==> i in places
  {
    assert 5 * from + i - 5 * from == i;
  }

  // The places of a window that lie in the message, as powers of the packed register.
  lemma {:induction false} MaskPacks(from: nat, places: set<nat>, powers: set<nat>)
    requires 50 <= from <= 52
    requires forall i :: 0 <= i < 16 ==> Powers(powers)[i] == (i < 264 - 5 * from && i in places)
    ensures Crc16.Pack(Mask(from, places)[..264][5 * from..]) == Powers(powers)
  {
    var tail := Mask(from, places)[..264][5 * from..];
    var left, right := Crc16.Pack(tail), Powers(powers);
    forall i | 0 <= i < 16 ensures left[i] == right[i] {
      if i < |tail| {
        MaskAt(from, places, i);
        assert left[i] == tail[i] == Mask(from, places)[5 * from + i];
      } else {
        assert !left[i];
      }
    }
  }

  // Its places in the carried checksum.
  lemma {:induction false} MaskCarries(from: nat, places: set<nat>, powers: set<nat>)
    requires 50 <= from <= 52
    requires forall i :: 0 <= i < 16 ==> Powers(powers)[i] == (Offset(from, i) in places)
    ensures Carried(Mask(from, places)) == Powers(powers)
  {
    var left, right := Carried(Mask(from, places)), Powers(powers);
    forall i | 0 <= i < 16 ensures left[i] == right[i] {
      MaskAt(from, places, Offset(from, i));
    }
  }

  lemma {:induction false} Mask52Divides()
    ensures var m := Mask(52, PLACES_52); Crc16.Divide(Zeros(16), m[..264]) == Carried(m)
  {
    var m := Mask(52, PLACES_52);
    BurstAtEnd(m[..264], 260);
    MaskPacks(52, PLACES_52, {13});
    Remainder52();
    MaskCarries(52, PLACES_52, {13, 6, 1});
  }

  lemma {:induction false} Mask50Divides()
    ensures var m := Mask(50, PLACES_50); Crc16.Divide(Zeros(16), m[..264]) == Carried(m)
  {
    var m := Mask(50, PLACES_50);
    BurstAtEnd(m[..264], 250);
    MaskPacks(50, PLACES_50, {14, 10, 9, 5, 3});
    Remainder50();
    MaskCarries(50, PLACES_50, {7});
  }

  lemma {:induction false} XorCancels(a: seq<bool>, b: seq<bool>, x: seq<bool>, y: seq<bool>)
    requires |a| == |b| == |x| == |y| && a == x && Xor(a, b) == Xor(x, y)
    ensures b == y
  {
    forall i | 0 <= i < |b| ensures b[i] == y[i] {
      assert Xor(a, b)[i] == Xor(x, y)[i];
    }
  }

  // Flipping a multiple of the divisor outside the version byte keeps an address acceptable.
  lemma {:induction false} FlipAccepted(s: seq<Code>, m: seq<bool>) returns (t: seq<Code>)
    requires |s| == 56 && AllSymbols(s) && AddressKey(s).Some?
    requires |m| == 280 && (forall j :: 0 <= j < 8 ==> !m[j]) && Crc16.Divide(Zeros(16), m[..264]) == Carried(m)
    ensures |t| == 56 && AllSymbols(t) && AddressKey(t).Some? && Stream(t) == Xor(Stream(s), m)
  {
    var a := Stream(s);
    var b := Xor(a, m);
    t := EncodeBits(b);
    AcceptedStream(s);
    AcceptedStream(t);
    assert Xor(a, b) == m && b[..8] == a[..8];
    RemainderOfDifference(a, b);
    XorCancels(Crc16.Divide(Zeros(16), a[..264]), Crc16.Divide(Zeros(16), b[..264]), Carried(a), Carried(b));
  }

  lemma {:induction false} FlipMistypes(s: seq<Code>, t: seq<Code>, from: nat, places: set<nat>, place: nat)
    requires |s| == |t| == 56 && AllSymbols(s) && AllSymbols(t)
    requires Stream(t) == Xor(Stream(s), Mask(from, places))
    requires from + 3 <= 56 && (forall k :: k in places ==> k < 15) && place in places
    ensures Mistyped(s, t, from)
  {
    forall i | 0 <= i < 56 && !(from <= i < from + 3) ensures s[i] == t[i] {
      forall j | 5 * i <= j < 5 * i + 5 ensures Stream(s)[j] == Stream(t)[j] {
        assert !Mask(from, places)[j];
      }
      SymbolAgrees(s, t, i);
    }
    assert Mask(from, places)[5 * from + place];
    assert Stream(s)[5 * from + place] != Stream(t)[5 * from + place];
  }

  /** Every accepted address has undetected mistypings in the windows from the 51st and from the 53rd
      symbol on. */
  lemma {:induction false} EndTypoAccepted(s: seq<Code>, from: nat) returns (t: seq<Code>)
    requires |s| == 56 && AddressKey(s).Some? && (from == 50 || from == 52)
    ensures Mistyped(s, t, from) && AddressKey(t).Some?
  {
    PayloadOf(s);
    if from == 50 {
      Mask50Divides();
      t := FlipAccepted(s, Mask(50, PLACES_50));
      FlipMistypes(s, t, 50, PLACES_50, 1);
    } else {
      Mask52Divides();
      t := FlipAccepted(s, Mask(52, PLACES_52));
      FlipMistypes(s, t, 52, PLACES_52, 2);
    }
  }

  /** The exact strength of the checksum against three neighbouring symbols: for every accepted address
      and every window, all mistypings are rejected if and only if the window does not start at the
      51st or the 53rd symbol. */
  lemma {:induction false} TypoRejectedIff(s: seq<Code>, from: nat)
    requires |s| == 56 && AddressKey(s).Some? && from + 3 <= 56
    ensures (forall t: seq<Code> :: Mistyped(s, t, from) ==> AddressKey(t).None?) <==> from != 50 && from != 52
  {
    if from == 50 || from == 52 {
      var t := EndTypoAccepted(s, from);
      assert Mistyped(s, t, from) && AddressKey(t).Some?;
    } else {
      forall t: seq<Code> | Mistyped(s, t, from) ensures AddressKey(t).None? {
        if from + 3 <= 52 {
          TypoRejected(s, t, from);
        } else {
          EndTypoRejected(s, t, from);
        }
      }
    }
  }
}
