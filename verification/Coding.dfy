/** The byte encodings of store/util/coding.cc: fixed-width, varint and length-prefixed. */
module Coding {
  import opened Wrappers

  type byte = x: int | 0 <= x < 256
  type Bytes = seq<byte>

  const UINT32: nat := 0x1_0000_0000
  const UINT64: nat := 0x1_0000_0000_0000_0000

  // -------------------------------------------------------------- fixed width

  /** The low k bytes of n, least significant first. */
  function Fixed(n: nat, k: nat): (b: Bytes)
    ensures |b| == k
  {
    if k == 0 then [] else [n % 256] + Fixed(n / 256, k - 1)
  }

  function Unfixed(b: Bytes): nat {
    if b == [] then 0
    else
      var low: int := b[0];
      low + 256 * Unfixed(b[1..])
  }

  function Pow256(k: nat): nat {
    if k == 0 then 1 else 256 * Pow256(k - 1)
  }

  lemma {:induction false} FixedRoundTrip(n: nat, k: nat)
    requires n < Pow256(k)
    ensures Unfixed(Fixed(n, k)) == n
  {
    if k > 0 {
      FixedRoundTrip(n / 256, k - 1);
      assert Fixed(n, k)[1..] == Fixed(n / 256, k - 1);
    }
  }

  lemma {:induction false} UnfixedRoundTrip(b: Bytes)
    ensures Unfixed(b) < Pow256(|b|) && Fixed(Unfixed(b), |b|) == b
  {
    if b != [] {
      UnfixedRoundTrip(b[1..]);
      var low: int, high := b[0], Unfixed(b[1..]);
      assert (low + 256 * high) / 256 == high && (low + 256 * high) % 256 == low;
      assert b == [b[0]] + b[1..];
    }
  }

  /** Little-endian order: byte i is the digit of weight 256^i. */
  lemma {:induction false} FixedDigits(n: nat, k: nat, i: nat) returns (low: nat, high: nat)
    requires i < k
    ensures var digit: int := Fixed(n, k)[i];
      low < Pow256(i) && n == low + Pow256(i) * (digit + 256 * high)
    decreases i
  {
    low, high := 0, n / 256;
    if i > 0 {
      low, high := FixedDigits(n / 256, k - 1, i - 1);
      var digit: int := Fixed(n / 256, k - 1)[i-1];
      Reassociate(256, Pow256(i - 1), digit + 256 * high);
      low := n % 256 + 256 * low;
    }
  }

  lemma Reassociate(a: int, b: int, x: int)
    ensures a * (b * x) == (a * b) * x
  {
  }

  lemma UnfixedInjective(a: Bytes, b: Bytes)
    requires |a| == |b| && Unfixed(a) == Unfixed(b)
    ensures a == b
  {
    hide Fixed, Unfixed;
    UnfixedRoundTrip(a);
    UnfixedRoundTrip(b);
  }

  lemma Pow256Of8()
    ensures Pow256(8) == UINT64
  {
    assert Pow256(2) == 0x1_0000;
    assert Pow256(4) == UINT32;
    assert Pow256(6) == UINT32 * 0x1_0000;
    assert Pow256(8) == UINT64;
  }

  // ------------------------------------------------------------------- varint

  function Varint(n: nat): (b: Bytes)
    ensures b != []
  {
    if n < 128 then [n] else [n % 128 + 128] + Varint(n / 128)
  }

  /** Up to `limit` bytes of seven bits each, until one with a clear top bit. */
  function GetVarintUpTo(b: Bytes, limit: nat): (r: Option<(nat, Bytes)>)
    ensures r.Some? ==> |r.value.1| < |b|
  {
    if limit == 0 || b == [] then None
    else if b[0] < 128 then Some((b[0], b[1..]))
    else
      match GetVarintUpTo(b[1..], limit - 1)
      case None => None
      case Some((n, rest)) =>
        var low: int := b[0];
        Some((low - 128 + 128 * n, rest))
  }

  /** get_varint32: at most five bytes; bits beyond the 32nd are lost. */
  function GetVarint32(b: Bytes): (r: Option<(nat, Bytes)>)
    ensures r.Some? ==> |r.value.1| < |b| && r.value.0 < UINT32
  {
    match GetVarintUpTo(b, 5) case None => None case Some((n, rest)) => Some((n % UINT32, rest))
  }

  /** get_varint64: at most ten bytes. */
  function GetVarint64(b: Bytes): (r: Option<(nat, Bytes)>)
    ensures r.Some? ==> |r.value.1| < |b| && r.value.0 < UINT64
  {
    match GetVarintUpTo(b, 10) case None => None case Some((n, rest)) => Some((n % UINT64, rest))
  }

  function Pow128(k: nat): nat {
    if k == 0 then 1 else 128 * Pow128(k - 1)
  }

  lemma {:induction false} VarintRoundTrip(n: nat, k: nat, rest: Bytes)
    requires 0 < k && n < Pow128(k)
    ensures GetVarintUpTo(Varint(n) + rest, k) == Some((n, rest))
  {
    var b := Varint(n) + rest;
    if n >= 128 {
      VarintRoundTrip(n / 128, k - 1, rest);
      assert b[1..] == Varint(n / 128) + rest;
    } else {
      assert b[1..] == rest;
    }
  }

  /** Byte i is the digit of weight 128^i, with 128 added to all but the last. */
  lemma {:induction false} VarintDigits(n: nat, i: nat) returns (low: nat, high: nat)
    requires i < |Varint(n)|
    ensures var value: int := Varint(n)[i];
      var digit := value - (if i < |Varint(n)| - 1 then 128 else 0);
      0 <= digit < 128 && low < Pow128(i) && n == low + Pow128(i) * (digit + 128 * high)
    decreases i
  {
    low, high := 0, n / 128;
    if i > 0 {
      var low1, high1 := VarintDigits(n / 128, i - 1);
      var rest := Varint(n / 128);
      var value: int := rest[i-1];
      Reassociate(128, Pow128(i - 1), value - (if i < |rest| then 128 else 0) + 128 * high1);
      low, high := n % 128 + 128 * low1, high1;
    }
  }

  /** No more bytes are written than the number needs. */
  lemma {:induction false} VarintIsShort(n: nat)
    ensures n < Pow128(|Varint(n)|) && (|Varint(n)| > 1 ==> Pow128(|Varint(n)| - 1) <= n)
    decreases n
  {
    if n >= 128 {
      VarintIsShort(n / 128);
    }
  }

  /** Five groups of seven bits hold 32 bits, and ten hold 64. */
  lemma Pow128Bounds()
    ensures UINT32 <= Pow128(5) && UINT64 <= Pow128(10)
  {
    assert Pow128(2) == 0x4000;
    assert Pow128(4) == 0x1000_0000;
    assert Pow128(6) == 0x400_0000_0000;
    assert Pow128(8) == 0x100_0000_0000_0000;
    assert Pow128(10) == 0x40_0000_0000_0000_0000;
  }

  lemma Varint32RoundTrip(n: nat, rest: Bytes)
    requires n < UINT32
    ensures GetVarint32(Varint(n) + rest) == Some((n, rest))
  {
    hide Varint, GetVarintUpTo, Pow128;
    Pow128Bounds();
    VarintRoundTrip(n, 5, rest);
  }

  lemma Varint64RoundTrip(n: nat, rest: Bytes)
    requires n < UINT64
    ensures GetVarint64(Varint(n) + rest) == Some((n, rest))
  {
    hide Varint, GetVarintUpTo, Pow128;
    Pow128Bounds();
    VarintRoundTrip(n, 10, rest);
  }

  /** encode_varint64 */
  method EncodeVarint(n: nat) returns (b: Bytes)
    ensures b == Varint(n)
  {
    b := [];
    var v := n;
    while v >= 128
      invariant b + Varint(v) == Varint(n)
    {
      assert b + [v % 128 + 128] + Varint(v / 128) == b + Varint(v);
      b := b + [v % 128 + 128];
      v := v / 128;
    }
    b := b + [v];
  }

  // ---------------------------------------------------------- length prefixed

  function Prefixed(x: Bytes): Bytes {
    Varint(|x|) + x
  }

  function GetPrefixed(b: Bytes): (r: Option<(Bytes, Bytes)>)
    ensures r.Some? ==> |r.value.1| < |b|
  {
    match GetVarint32(b)
    case None => None
    case Some((n, rest)) => if n <= |rest| then Some((rest[..n], rest[n..])) else None
  }

  lemma PrefixedRoundTrip(x: Bytes, rest: Bytes)
    requires |x| < UINT32
    ensures GetPrefixed(Prefixed(x) + rest) == Some((x, rest))
  {
    hide Varint, GetVarintUpTo;
    assert Prefixed(x) + rest == Varint(|x|) + (x + rest);
    Varint32RoundTrip(|x|, x + rest);
  }
}
