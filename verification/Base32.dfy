/** The Base32 decoder of Stellar addresses, with its wrapping 32-bit accumulator, against the
    five-bit stream it regroups and the unpadded encoder of section 6 of RFC 4648. */
module Base32 {
  import opened Common
  import opened Bits

  // Bytes of a string, as numbers.
  type Code = c: nat | c < 256

  predicate IsSymbol(c: Code) {
    'A' as int <= c <= 'Z' as int || '2' as int <= c <= '7' as int
  }

  function SymbolValue(c: Code): (v: nat)
    requires IsSymbol(c)
    ensures v < 32
  {
    if c >= 'A' as int then c - 'A' as int else c - '2' as int + 26
  }

  function SymbolOf(v: nat): (c: Code)
    requires v < 32
    ensures IsSymbol(c) && SymbolValue(c) == v
  {
    if v < 26 then 'A' as int + v else '2' as int + (v - 26)
  }

  // Table 3 of RFC 4648.
  const ALPHABET := "ABCDEFGHIJKLMNOPQRSTUVWXYZ234567"

  /** The symbols are the standard alphabet, in its order. */
  lemma {:induction false} StandardAlphabet(v: nat)
    requires v < 32
    ensures |ALPHABET| == 32 && SymbolOf(v) == ALPHABET[v] as int
  {
    assert |ALPHABET| == 32;
    if v < 26 {
      assert ALPHABET[..26] == "ABCDEFGHIJKLMNOPQRSTUVWXYZ";
    } else {
      assert ALPHABET[26..] == "234567";
    }
  }

  // The low five bits of a symbol value.
  function FiveBits(v: nat): (bits: seq<bool>)
    requires v < 32
    ensures |bits| == 5
  {
    var v1 := if v >= 16 then v - 16 else v;
    var v2 := if v1 >= 8 then v1 - 8 else v1;
    var v3 := if v2 >= 4 then v2 - 4 else v2;
    var v4 := if v3 >= 2 then v3 - 2 else v3;
    [v >= 16, v1 >= 8, v2 >= 4, v3 >= 2, v4 >= 1]
  }

  function Number(bits: seq<bool>): (v: nat)
    requires |bits| == 5
    ensures v < 32 && FiveBits(v) == bits
  {
    (if bits[0] then 16 else 0) + (if bits[1] then 8 else 0) + (if bits[2] then 4 else 0)
    + (if bits[3] then 2 else 0) + (if bits[4] then 1 else 0)
  }

  predicate AllSymbols(s: seq<Code>) {
    forall i :: 0 <= i < |s| ==> IsSymbol(s[i])
  }

  // The unbounded stream of five-bit values.
  function Stream(s: seq<Code>): (bits: seq<bool>)
    requires AllSymbols(s)
    ensures |bits| == 5 * |s|
  {
    if s == [] then [] else Stream(s[..|s| - 1]) + FiveBits(SymbolValue(s[|s| - 1]))
  }

  // The whole bytes at the front of a bit stream.
  function Regroup(bits: seq<bool>): (data: seq<Byte>)
    ensures |data| == |bits| / 8 && BitsOf(data) == bits[..8 * |data|]
    decreases |bits|
  {
    if |bits| < 8 then []
    else if |bits| % 8 != 0 then Regroup(bits[..|bits| - 1])
    else Regroup(bits[..|bits| - 8]) + [bits[|bits| - 8..]]
  }

  function Decode(s: seq<Code>): Option<seq<Byte>> {
    if AllSymbols(s) then Some(Regroup(Stream(s))) else None
  }

  lemma {:induction false} StreamSnoc(s: seq<Code>, c: Code)
    requires AllSymbols(s) && IsSymbol(c)
    ensures AllSymbols(s + [c]) && Stream(s + [c]) == Stream(s) + FiveBits(SymbolValue(c))
  {
    assert (s + [c])[..|s|] == s;
  }

  lemma {:induction false} RegroupUnique(data: seq<Byte>, bits: seq<bool>)
    requires |data| == |bits| / 8 && BitsOf(data) == bits[..8 * |data|]
    ensures data == Regroup(bits)
  {
    BitsOfInjective(data, Regroup(bits));
  }

  // Shifting five bits into the accumulator appends them to its low end.
  lemma {:induction false} PushFive(bits: seq<bool>, count: nat, five: seq<bool>)
    requires |bits| == 32 && count < 8 && |five| == 5
    ensures Or(Left(bits, 5), Zeros(27) + five)[27 - count..] == bits[32 - count..] + five
  {
    var w := Or(Left(bits, 5), Zeros(27) + five);
    forall k | 27 - count <= k < 32 ensures w[k] == (bits[32 - count..] + five)[k - (27 - count)] {
      if k < 27 {
        assert Left(bits, 5)[k] == bits[k + 5] && !(Zeros(27) + five)[k];
      } else {
        assert !Left(bits, 5)[k] && (Zeros(27) + five)[k] == five[k - 27];
      }
    }
  }

  // The low byte of the shifted accumulator sits right above the leftover bits.
  lemma {:induction false} PopByte(bits: seq<bool>, count: nat)
    requires |bits| == 32 && count < 8
    ensures bits[24 - count..] == Right(bits, count)[24..] + bits[32 - count..]
  {
  }

  lemma {:induction false} BitsOfSnoc(data: seq<Byte>, byte: Byte)
    ensures BitsOf(data + [byte]) == BitsOf(data) + byte
  {
    assert (data + [byte])[..|data|] == data;
  }

  // Whole bytes, then the low `count` bits of the word, are the stream so far.
  ghost predicate Accumulated(result: seq<Byte>, bits: seq<bool>, count: int, stream: seq<bool>) {
    |bits| == 32 && 0 <= count <= 32 && BitsOf(result) + bits[32 - count..] == stream
  }

  lemma {:induction false} AccumulateFive(
      result: seq<Byte>, bits: seq<bool>, count: nat, five: seq<bool>, stream: seq<bool>)
    requires count < 8 && |five| == 5 && Accumulated(result, bits, count, stream)
    ensures Accumulated(result, Or(Left(bits, 5), Zeros(27) + five), count + 5, stream + five)
  {
    PushFive(bits, count, five);
    assert BitsOf(result) + (bits[32 - count..] + five) == (BitsOf(result) + bits[32 - count..]) + five;
  }

  lemma {:induction false} AccumulateByte(result: seq<Byte>, bits: seq<bool>, count: nat, stream: seq<bool>)
    requires count < 8 && Accumulated(result, bits, count + 8, stream)
    ensures Accumulated(result + [Right(bits, count)[24..]], bits, count, stream)
  {
    var byte := Right(bits, count)[24..];
    PopByte(bits, count);
    BitsOfSnoc(result, byte);
    assert (BitsOf(result) + byte) + bits[32 - count..] == BitsOf(result) + (byte + bits[32 - count..]);
  }

  // One pass of the loop body.
  method AddSymbol(bits0: seq<bool>, count0: int, result0: seq<Byte>, val: nat, ghost stream: seq<bool>)
      returns (bits: seq<bool>, bitCount: int, result: seq<Byte>)
    requires val < 32 && count0 < 8 && Accumulated(result0, bits0, count0, stream)
    ensures bitCount < 8 && Accumulated(result, bits, bitCount, stream + FiveBits(val))
  {
    AccumulateFive(result0, bits0, count0, FiveBits(val), stream);
    bits := Or(Left(bits0, 5), Zeros(27) + FiveBits(val));
    bitCount := count0 + 5;
    result := result0;
    if bitCount >= 8 {
      bitCount := bitCount - 8;
      AccumulateByte(result, bits, bitCount, stream + FiveBits(val));
      result := result + [Right(bits, bitCount)[24..]];
    }
  }

  /** The accumulator loop: shift in five bits, and push the byte above the leftover bits. */
  method DecodeBase32(s: seq<Code>) returns (r: Option<seq<Byte>>)
    ensures r == Decode(s)
  {
    var bits := Zeros(32);
    var bitCount := 0;
    var result: seq<Byte> := [];
    for i := 0 to |s|
      invariant AllSymbols(s[..i])
      invariant bitCount < 8 && Accumulated(result, bits, bitCount, Stream(s[..i]))
    {
      if !IsSymbol(s[i]) {
        return None;
      }
      StreamSnoc(s[..i], s[i]);
      assert s[..i + 1] == s[..i] + [s[i]];
      bits, bitCount, result := AddSymbol(bits, bitCount, result, SymbolValue(s[i]), Stream(s[..i]));
    }
    DecodedIsRegrouped(s, result, bits[32 - bitCount..]);
    return Some(result);
  }

  lemma {:induction false} DecodedIsRegrouped(s: seq<Code>, result: seq<Byte>, left: seq<bool>)
    requires AllSymbols(s[..|s|]) && |left| < 8 && BitsOf(result) + left == Stream(s[..|s|])
    ensures Decode(s) == Some(result)
  {
    assert s[..|s|] == s;
    assert BitsOf(result) == Stream(s)[..8 * |result|];
    RegroupUnique(result, Stream(s));
  }

  // ---------- The encoder ----------

  function EncodeBits(bits: seq<bool>): (s: seq<Code>)
    requires |bits| % 5 == 0
    ensures 5 * |s| == |bits| && AllSymbols(s) && Stream(s) == bits
    decreases |bits|
  {
    if bits == [] then []
    else
      var n := |bits| - 5;
      var s := EncodeBits(bits[..n]);
      var c := SymbolOf(Number(bits[n..]));
      StreamSnoc(s, c);
      s + [c]
  }

  lemma {:induction false} WholeGroups(bits: nat, n: nat)
    requires bits % 5 + n == 0 || bits % 5 + n == 5
    ensures (bits + n) % 5 == 0
  {
    var q, rest := bits / 5, bits % 5;
    assert bits == 5 * q + rest;
    assert bits + n == 5 * q || bits + n == 5 * (q + 1);
  }

  // The zero bits that fill up the final group.
  function Filling(bits: nat): (n: nat)
    ensures n < 5 && (bits + n) % 5 == 0
  {
    var rest := bits % 5;
    var n := if rest == 0 then 0 else 5 - rest;
    WholeGroups(bits, n);
    n
  }

  // The final group is filled up with zero bits; no padding characters are written.
  function Encode(data: seq<Byte>): seq<Code> {
    var bits := BitsOf(data);
    EncodeBits(bits + Zeros(Filling(|bits|)))
  }

  /** Decoding undoes encoding, for every byte string. */
  lemma {:induction false} DecodeEncode(data: seq<Byte>)
    ensures Decode(Encode(data)) == Some(data)
  {
    var bits := BitsOf(data) + Zeros(Filling(|BitsOf(data)|));
    assert bits[..8 * |data|] == BitsOf(data);
    RegroupUnique(data, bits);
  }

  lemma {:induction false} FiveBitsInjective(v: nat, w: nat)
    requires v < 32 && w < 32 && FiveBits(v) == FiveBits(w)
    ensures v == w
  {
    var a, b := FiveBits(v), FiveBits(w);
    assert a[0] == b[0] && a[1] == b[1] && a[2] == b[2] && a[3] == b[3] && a[4] == b[4];
  }

  lemma {:induction false} SymbolInjective(c: Code, d: Code)
    requires IsSymbol(c) && IsSymbol(d) && FiveBits(SymbolValue(c)) == FiveBits(SymbolValue(d))
    ensures c == d
  {
    FiveBitsInjective(SymbolValue(c), SymbolValue(d));
  }

  lemma {:induction false} StreamInjective(s: seq<Code>, t: seq<Code>)
    requires AllSymbols(s) && AllSymbols(t) && Stream(s) == Stream(t)
    ensures s == t
  {
    if s != [] {
      var n := |s| - 1;
      assert |t| == n + 1;
      var x, y := Stream(s[..n]), Stream(t[..n]);
      var a, b := FiveBits(SymbolValue(s[n])), FiveBits(SymbolValue(t[n]));
      SplitEqual(x, a, y, b);
      StreamInjective(s[..n], t[..n]);
      SymbolInjective(s[n], t[n]);
      assert s == s[..n] + [s[n]] && t == t[..n] + [t[n]];
    }
  }

  lemma {:induction false} SplitEqual(x: seq<bool>, a: seq<bool>, y: seq<bool>, b: seq<bool>)
    requires |x| == |y| && x + a == y + b
    ensures x == y && a == b
  {
    assert x == (x + a)[..|x|] && y == (y + b)[..|x|];
    assert a == (x + a)[|x|..] && b == (y + b)[|x|..];
  }

  lemma {:induction false} EncodeWhole(data: seq<Byte>, k: nat)
    requires |data| == 5 * k
    ensures |BitsOf(data)| % 5 == 0 && Encode(data) == EncodeBits(BitsOf(data))
  {
    var bits := BitsOf(data);
    assert |bits| == 5 * (8 * k);
    MultipleOfFive(8 * k);
    assert bits + Zeros(0) == bits;
  }

  lemma {:induction false} MultipleOfFive(m: nat)
    ensures (5 * m) % 5 == 0 && Filling(5 * m) == 0
  {
  }

  /** Where the symbols fill whole bytes, as 56 symbols do, encoding undoes decoding. */
  lemma {:induction false} EncodeDecode(s: seq<Code>, k: nat)
    requires |s| == 8 * k && AllSymbols(s)
    ensures Encode(Decode(s).value) == s
  {
    var data := Decode(s).value;
    assert |Stream(s)| == 8 * (5 * k) && |data| == 5 * k;
    assert BitsOf(data) == Stream(s);
    EncodeWhole(data, k);
    StreamInjective(EncodeBits(BitsOf(data)), s);
  }
}
