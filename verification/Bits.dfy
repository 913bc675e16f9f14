/** Machine words as bit strings, most significant bit first: `<<` and `>>` drop bits at one end
    and fill with zeros at the other, `^` and `|` work bit by bit, a narrowing cast keeps the tail. */
module Bits {
  type Byte = b: seq<bool> | |b| == 8 witness Zeros(8)

  function Zeros(n: nat): seq<bool> {
    seq(n, _ => false)
  }

  function Left(w: seq<bool>, k: nat): (r: seq<bool>)
    requires k <= |w|
    ensures |r| == |w|
  {
    w[k..] + Zeros(k)
  }

  function Right(w: seq<bool>, k: nat): (r: seq<bool>)
    requires k <= |w|
    ensures |r| == |w|
  {
    Zeros(k) + w[..|w| - k]
  }

  function Xor(a: seq<bool>, b: seq<bool>): (c: seq<bool>)
    requires |a| == |b|
    ensures |c| == |a|
  {
    seq(|a|, i requires 0 <= i < |a| => a[i] != b[i])
  }

  function Or(a: seq<bool>, b: seq<bool>): (c: seq<bool>)
    requires |a| == |b|
    ensures |c| == |a|
  {
    seq(|a|, i requires 0 <= i < |a| => a[i] || b[i])
  }

  function BitsOf(data: seq<Byte>): (bits: seq<bool>)
    ensures |bits| == 8 * |data|
  {
    if data == [] then [] else BitsOf(data[..|data| - 1]) + data[|data| - 1]
  }

  lemma {:induction false} BitsOfInjective(a: seq<Byte>, b: seq<Byte>)
    requires BitsOf(a) == BitsOf(b)
    ensures a == b
  {
    if a != [] {
      var n := |a| - 1;
      var x, y := BitsOf(a), BitsOf(b);
      assert |b| == n + 1;
      assert BitsOf(a[..n]) == x[..8 * n] && BitsOf(b[..n]) == y[..8 * n];
      assert a[n] == x[8 * n..] && b[n] == y[8 * n..];
      BitsOfInjective(a[..n], b[..n]);
      assert a == a[..n] + [a[n]] && b == b[..n] + [b[n]];
    }
  }

  lemma {:induction false} BitsOfConcat(a: seq<Byte>, b: seq<Byte>)
    ensures BitsOf(a + b) == BitsOf(a) + BitsOf(b)
  {
    if b == [] {
      assert a + b == a;
    } else {
      var n := |b| - 1;
      assert (a + b)[..|a + b| - 1] == a + b[..n];
      BitsOfConcat(a, b[..n]);
    }
  }
}
