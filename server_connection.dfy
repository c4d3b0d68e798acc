/**
 * `ServerConnection.calculateMessageLength`: the size in bytes of a Cap'n
 * Proto message written in the stream framing ("Serialization Over a
 * Stream" in the Cap'n Proto encoding documentation). The segment table
 * holds one 32-bit word for the segment count and one per segment, padded
 * to a whole number of 64-bit words; the segments follow. The computation
 * is done in Java `int`, so every step wraps modulo 2^32.
 */
module ServerConnection {
  const IntMin: int := -0x8000_0000
  const IntMax: int := 0x7FFF_FFFF
  const Modulus: int := 0x1_0000_0000

  predicate IsInt(x: int)
  {
    IntMin <= x <= IntMax
  }

  /** Java `int` arithmetic: the representative of x modulo 2^32 in the int range. */
  function Wrap(x: int): (r: int)
    ensures IsInt(r)
    ensures (r - x) % Modulus == 0
    ensures IsInt(x) ==> r == x
  {
    (x - IntMin) % Modulus + IntMin
  }

  lemma WrapAdd(a: int, b: int)
    ensures Wrap(Wrap(a) + b) == Wrap(a + b)
  {
    var k := (Wrap(a) - a) / Modulus;
    assert Wrap(a) == a + k * Modulus;
    assert Wrap(a) + b - IntMin == (a + b - IntMin) + k * Modulus;
  }

  /** `x & ~1` on a two's complement int: the low bit cleared. */
  function ClearLowBit(x: int): (r: int)
    requires IsInt(x)
    ensures IsInt(r) && r % 2 == 0 && r <= x <= r + 1
  {
    x - x % 2
  }

  /** `(segments.length + 2) & ~1`: the segment table size in 32-bit words. */
  function TableSize(n: nat): int
    requires n <= IntMax
  {
    ClearLowBit(Wrap(n + 2))
  }

  /**
   * Without overflow the table has room for the count word and one word per
   * segment, and it is the smallest even number of words that does.
   */
  lemma TableSizeIsPaddedWordCount(n: nat)
    requires n + 2 <= IntMax
    ensures TableSize(n) % 2 == 0
    ensures n + 1 <= TableSize(n) <= n + 2
    ensures forall m :: m % 2 == 0 && m >= n + 1 ==> TableSize(n) <= m
  {
  }

  /** A single segment gives a two-word (8-byte) table. */
  lemma OneSegmentTable()
    ensures TableSize(1) == 2 && 4 * TableSize(1) == 8
  {
  }

  function Sum(s: seq<int>): int
  {
    if s == [] then 0 else Sum(s[..|s| - 1]) + s[|s| - 1]
  }

  /** Extending a prefix by one element adds that element to the sum. */
  lemma SumPrefix(s: seq<int>, i: nat)
    requires i < |s|
    ensures Sum(s[..i + 1]) == Sum(s[..i]) + s[i]
  {
    assert s[..i + 1][..i] == s[..i];
  }

  predicate ValidSegments(remaining: seq<int>)
  {
    |remaining| <= IntMax && forall i :: 0 <= i < |remaining| ==> 0 <= remaining[i] <= IntMax
  }

  /** The length the method computes: table bytes plus all remaining segment bytes, wrapped. */
  function MessageLength(remaining: seq<int>): int
    requires ValidSegments(remaining)
  {
    Wrap(4 * TableSize(|remaining|) + Sum(remaining))
  }

  /** `calculateMessageLength` over the `remaining()` counts of the output segments. */
  method CalculateMessageLength(remaining: seq<int>) returns (length: int)
    requires ValidSegments(remaining)
    ensures IsInt(length)
    ensures length == MessageLength(remaining)
  {
    length := 0;
    var tableSize := ClearLowBit(Wrap(|remaining| + 2));
    length := Wrap(length + Wrap(4 * tableSize));
    WrapAdd(4 * tableSize, 0);
    var i := 0;
    while i < |remaining|
      invariant 0 <= i <= |remaining|
      invariant length == Wrap(4 * tableSize + Sum(remaining[..i]))
    {
      SumPrefix(remaining, i);
      WrapAdd(4 * tableSize + Sum(remaining[..i]), remaining[i]);
      length := Wrap(length + remaining[i]);
      i := i + 1;
    }
    assert remaining[..i] == remaining;
  }

  lemma {:induction false} SumMonotone(s: seq<int>, t: seq<int>)
    requires |s| == |t|
    requires forall i :: 0 <= i < |s| ==> s[i] <= t[i]
    ensures Sum(s) <= Sum(t)
  {
    if s != [] {
      SumMonotone(s[..|s| - 1], t[..|t| - 1]);
    }
  }

  lemma {:induction false} SumNonNegative(s: seq<int>)
    requires forall i :: 0 <= i < |s| ==> 0 <= s[i]
    ensures 0 <= Sum(s)
  {
    if s != [] {
      SumNonNegative(s[..|s| - 1]);
    }
  }

  /**
   * Without overflow the length is table bytes plus segment bytes, and it
   * grows with each segment's size.
   */
  lemma MessageLengthMonotone(s: seq<int>, t: seq<int>)
    requires ValidSegments(s) && ValidSegments(t) && |s| == |t| && |s| + 2 <= IntMax
    requires forall i :: 0 <= i < |s| ==> s[i] <= t[i]
    requires 4 * TableSize(|t|) + Sum(t) <= IntMax
    ensures MessageLength(s) == 4 * TableSize(|s|) + Sum(s)
    ensures MessageLength(s) <= MessageLength(t)
  {
    SumMonotone(s, t);
    SumNonNegative(s);
  }
}
