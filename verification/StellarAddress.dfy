/** The address checks around signature verification: which strings decode to a public key,
    and what the separate format check adds. */
module StellarAddress {
  import opened Common
  import opened Bits
  import Crc16
  import opened Base32

  const VERSION_G: Byte := [false, false, true, true, false, false, false, false]

  function LittleEndian(low: Byte, high: Byte): Crc16.Register {
    var word: seq<bool> := high;
    word + low
  }

  // Version byte, key, and the checksum with its low byte first (SEP-0023).
  function Payload(key: seq<Byte>): seq<Byte> {
    var crc := Crc16.Crc([VERSION_G] + key);
    [VERSION_G] + key + [crc[8..], crc[..8]]
  }

  // The public key bytes handed to the Ed25519 library, when the address gets that far.
  function AddressKey(s: seq<Code>): Option<seq<Byte>> {
    match Decode(s)
    case None => None
    case Some(d) =>
      if |d| == 35 && d[0] == VERSION_G && Crc16.Crc(d[..33]) == LittleEndian(d[33], d[34]) then Some(d[1..33])
      else None
  }

  /** The decoding part of the signature check, before any cryptography. */
  method DecodeAddress(address: seq<Code>) returns (key: Option<seq<Byte>>)
    ensures key == AddressKey(address)
  {
    var decoded := DecodeBase32(address);
    if decoded.None? {
      return None;
    }
    var d := decoded.value;
    if |d| != 35 {
      return None;
    }
    if d[0] != VERSION_G {
      return None;
    }
    var pubkey := d[1..33];
    var checksum := d[33..35];
    var calculated := Crc16.Crc16(d[0..33]);
    var expected := Or(Left(Zeros(8) + checksum[1], 8), Zeros(8) + checksum[0]);
    assert expected == LittleEndian(d[33], d[34]);
    assert d[0..33] == d[..33];
    if calculated != expected {
      return None;
    }
    return Some(pubkey);
  }

  // ---------- Exactly the accepted strings ----------

  lemma {:induction false} KeyIffPayload(d: seq<Byte>, key: seq<Byte>)
    requires |d| == 35
    ensures (d[0] == VERSION_G && Crc16.Crc(d[..33]) == LittleEndian(d[33], d[34]) && d[1..33] == key)
            <==> (|key| == 32 && d == Payload(key))
  {
    if d[1..33] == key && d[0] == VERSION_G {
      assert d[..33] == [VERSION_G] + key;
      var crc := Crc16.Crc(d[..33]);
      if crc == LittleEndian(d[33], d[34]) {
        assert crc[8..] == d[33] && crc[..8] == d[34];
        assert d == d[..33] + [d[33], d[34]];
      }
    }
    if |key| == 32 && d == Payload(key) {
      var crc := Crc16.Crc([VERSION_G] + key);
      assert d[..33] == [VERSION_G] + key && d[33] == crc[8..] && d[34] == crc[..8];
      assert crc == crc[..8] + crc[8..];
    }
  }

  // Dropping a 57th symbol does not change the decoded bytes.
  lemma {:induction false} LastSymbolIgnored(s: seq<Code>)
    requires |s| == 57 && AllSymbols(s)
    ensures Decode(s) == Decode(s[..56])
  {
    assert AllSymbols(s[..56]);
    var d := Regroup(Stream(s));
    assert Stream(s) == Stream(s[..56]) + FiveBits(SymbolValue(s[56]));
    assert BitsOf(d) == Stream(s[..56])[..8 * |d|];
    RegroupUnique(d, Stream(s[..56]));
  }

  /** A string decodes to `key` exactly when it is the encoding of 0x30, the 32 key bytes and
      their little-endian checksum, possibly followed by one more Base32 symbol. */
  lemma {:induction false} AcceptedExactly(s: seq<Code>, key: seq<Byte>)
    ensures AddressKey(s) == Some(key) <==>
            (|key| == 32 && AllSymbols(s) && (|s| == 56 || |s| == 57) && s[..56] == Encode(Payload(key)))
  {
    if AllSymbols(s) && (|s| == 56 || |s| == 57) {
      var t := s[..56];
      assert AllSymbols(t);
      if |s| == 57 {
        LastSymbolIgnored(s);
      } else {
        assert s == t;
      }
      var d := Decode(t).value;
      EncodeDecode(t, 7);
      KeyIffPayload(d, key);
      if |key| == 32 {
        DecodeEncode(Payload(key));
      }
    }
  }

  /** With exactly 56 symbols the address of a key is unique. */
  lemma {:induction false} AddressUnique(s: seq<Code>, t: seq<Code>)
    requires |s| == 56 && |t| == 56 && AddressKey(s).Some? && AddressKey(s) == AddressKey(t)
    ensures s == t
  {
    AcceptedExactly(s, AddressKey(s).value);
    AcceptedExactly(t, AddressKey(s).value);
    assert s[..56] == s && t[..56] == t;
  }

  /** The checksum does not pin the length: every accepted address stays accepted, for the same
      key, with any one of the 32 symbols appended. */
  lemma {:induction false} TrailingSymbolAccepted(s: seq<Code>, c: Code)
    requires |s| == 56 && AddressKey(s).Some? && IsSymbol(c)
    ensures AddressKey(s + [c]) == AddressKey(s)
  {
    var key := AddressKey(s).value;
    AcceptedExactly(s, key);
    AcceptedExactly(s + [c], key);
    assert (s + [c])[..56] == s && s[..56] == s;
  }

  // ---------- The stream of an address ----------

  lemma {:induction false} StreamAt(s: seq<Code>, i: nat, k: nat)
    requires AllSymbols(s) && i < |s| && k < 5
    ensures Stream(s)[5 * i + k] == FiveBits(SymbolValue(s[i]))[k]
  {
    if i < |s| - 1 {
      StreamAt(s[..|s| - 1], i, k);
    }
  }

  lemma {:induction false} PayloadOf(s: seq<Code>)
    requires |s| == 56 && AddressKey(s).Some?
    ensures AllSymbols(s)
    ensures var p := Decode(s).value;
            |p| == 35 && Crc16.Crc(p[..33]) == LittleEndian(p[33], p[34]) && BitsOf(p) == Stream(s)
  {
  }

  // ---------- The separate format check ----------

  // The UTF-8 bytes of one character.
  function Utf8Char(c: char): (bytes: seq<Code>)
    ensures |bytes| >= 1 && (c as int < 128 <==> bytes == [c as int])
    ensures c as int >= 128 ==> forall i :: 0 <= i < |bytes| ==> bytes[i] >= 128
  {
    var n := c as int;
    if n < 0x80 then [n]
    else if n < 0x800 then [0xC0 + n / 64, 0x80 + n % 64]
    else if n < 0x10000 then [0xE0 + n / 4096, 0x80 + n / 64 % 64, 0x80 + n % 64]
    else [0xF0 + n / 262144, 0x80 + n / 4096 % 64, 0x80 + n / 64 % 64, 0x80 + n % 64]
  }

  function Utf8(s: string): seq<Code> {
    if s == "" then [] else Utf8Char(s[0]) + Utf8(s[1..])
  }

  // `c.is_ascii_uppercase() || (b'2'..=b'7').contains(&(c as u8))`; the cast keeps the low byte.
  predicate AllowedChar(c: char) {
    'A' <= c <= 'Z' || '2' as int <= (c as int) % 256 <= '7' as int
  }

  predicate IsValidStellarAddress(address: string) {
    |Utf8(address)| == 56 && address != "" && address[0] == 'G'
    && forall i :: 0 <= i < |address| ==> AllowedChar(address[i])
  }

  predicate Ascii(s: string) {
    forall i :: 0 <= i < |s| ==> s[i] as int < 128
  }

  lemma {:induction false} Utf8OfAscii(s: string)
    requires Ascii(s)
    ensures |Utf8(s)| == |s| && forall i :: 0 <= i < |s| ==> Utf8(s)[i] == s[i] as int
  {
    if s != "" {
      Utf8OfAscii(s[1..]);
    }
  }

  lemma {:induction false} SymbolsAreAscii(s: string)
    requires AllSymbols(Utf8(s))
    ensures Ascii(s)
  {
    if s != "" {
      var head, tail := Utf8Char(s[0]), Utf8(s[1..]);
      assert IsSymbol(Utf8(s)[0]) && Utf8(s)[0] == head[0];
      assert forall i :: 0 <= i < |tail| ==> tail[i] == Utf8(s)[|head| + i];
      SymbolsAreAscii(s[1..]);
    }
  }

  /** Of ASCII strings, the format check admits exactly 56 Base32 symbols that start with a G. */
  lemma {:induction false} ValidAsciiIff(s: string)
    requires Ascii(s)
    ensures IsValidStellarAddress(s) <==> |s| == 56 && s[0] == 'G' && AllSymbols(Utf8(s))
  {
    Utf8OfAscii(s);
    forall i | 0 <= i < |s| ensures AllowedChar(s[i]) <==> IsSymbol(Utf8(s)[i]) {
      assert Utf8(s)[i] == s[i] as int < 128;
    }
  }

  /** The format check does not guarantee that an address decodes: it does exactly when every
      character is ASCII, since the cast to a byte also admits characters such as U+0132. */
  lemma {:induction false} ValidDecodesIffAscii(s: string)
    requires IsValidStellarAddress(s)
    ensures Decode(Utf8(s)).Some? <==> Ascii(s)
  {
    if Ascii(s) {
      Utf8OfAscii(s);
      assert forall i :: 0 <= i < |s| ==> AllowedChar(s[i]) && IsSymbol(s[i] as int);
    } else if AllSymbols(Utf8(s)) {
      SymbolsAreAscii(s);
    }
  }

  /** Every 56-byte address that decodes to a key also passes the format check. */
  lemma {:induction false} AcceptedIsValid(s: string)
    requires |Utf8(s)| == 56 && AddressKey(Utf8(s)).Some?
    ensures IsValidStellarAddress(s)
  {
    var codes := Utf8(s);
    SymbolsAreAscii(s);
    Utf8OfAscii(s);
    forall i | 0 <= i < |s| ensures AllowedChar(s[i]) {
      assert IsSymbol(codes[i]);
    }
    PayloadOf(codes);
    var p := Decode(codes).value;
    StartsWithG(codes, p);
  }

  // The first five bits of the version byte are those of 'G'.
  lemma {:induction false} SixIsG()
    ensures VERSION_G[..5] == FiveBits(6)
  {
  }

  lemma {:induction false} FirstByte(p: seq<Byte>)
    requires p != []
    ensures BitsOf(p)[..8] == p[0]
  {
    BitsOfConcat([p[0]], p[1..]);
    assert p == [p[0]] + p[1..] && [p[0]][..0] == [];
    assert BitsOf([p[0]]) == p[0];
  }

  lemma {:induction false} StartsWithG(s: seq<Code>, p: seq<Byte>)
    requires |s| == 56 && AllSymbols(s) && |p| == 35 && p[0] == VERSION_G && BitsOf(p) == Stream(s)
    ensures s[0] == 'G' as int
  {
    FirstByte(p);
    var five := FiveBits(SymbolValue(s[0]));
    forall k | 0 <= k < 5 ensures five[k] == VERSION_G[..5][k] {
      StreamAt(s, 0, k);
      assert BitsOf(p)[..8][k] == VERSION_G[k];
    }
    SixIsG();
    FiveBitsInjective(SymbolValue(s[0]), 6);
  }

  lemma {:induction false} Utf8Concat(a: string, b: string)
    ensures Utf8(a + b) == Utf8(a) + Utf8(b)
  {
    if a == "" {
      assert a + b == b;
    } else {
      assert (a + b)[1..] == a[1..] + b;
      Utf8Concat(a[1..], b);
    }
  }

  const LOOKS_VALID := "G" + seq(53, _ => 'A') + ['\U{0132}']

  /** A string the format check admits and the decoder rejects. */
  lemma {:induction false} NonAsciiPassesFormatCheck()
    ensures IsValidStellarAddress(LOOKS_VALID) && Decode(Utf8(LOOKS_VALID)).None?
  {
    var body := "G" + seq(53, _ => 'A');
    Utf8Concat(body, ['\U{0132}']);
    Utf8OfAscii(body);
    assert Utf8(['\U{0132}']) == Utf8Char('\U{0132}') + Utf8("");
    assert LOOKS_VALID[54] == '\U{0132}';
    ValidDecodesIffAscii(LOOKS_VALID);
  }
}
