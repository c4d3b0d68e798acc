/**
 * Bytes and the fixed-width integer encodings used by the encoders:
 * big-endian and little-endian byte strings of an unsigned value, two's
 * complement for signed values, and UTF-8 for strings.
 */
module Bytes {
  newtype byte = x: int | 0 <= x < 256

  function Pow256(n: nat): (r: nat)
    ensures r >= 1
  {
    if n == 0 then 1 else 256 * Pow256(n - 1)
  }

  /** The `width` big-endian bytes of `x` (Rust `to_be_bytes`). */
  function BeBytes(x: nat, width: nat): (r: seq<byte>)
    requires x < Pow256(width)
    ensures |r| == width
  {
    if width == 0 then [] else BeBytes(x / 256, width - 1) + [(x % 256) as byte]
  }

  /** The unsigned value of a big-endian byte string (Rust `from_be_bytes`). */
  function BeValue(s: seq<byte>): (r: nat)
    ensures r < Pow256(|s|)
  {
    if s == [] then 0 else BeValue(s[..|s| - 1]) * 256 + s[|s| - 1] as nat
  }

  lemma {:induction false} BeValueOfBytes(x: nat, width: nat)
    requires x < Pow256(width)
    ensures BeValue(BeBytes(x, width)) == x
  {
    if width > 0 {
      var s := BeBytes(x, width);
      assert s[..|s| - 1] == BeBytes(x / 256, width - 1);
      BeValueOfBytes(x / 256, width - 1);
    }
  }

  lemma {:induction false} BeBytesOfValue(s: seq<byte>)
    ensures BeBytes(BeValue(s), |s|) == s
  {
    if s != [] {
      var init := s[..|s| - 1];
      var v := BeValue(s);
      assert v / 256 == BeValue(init) && v % 256 == s[|s| - 1] as nat;
      BeBytesOfValue(init);
    }
  }

  /** The `width` little-endian bytes of `x` (Rust `to_le_bytes`). */
  function LeBytes(x: nat, width: nat): (r: seq<byte>)
    requires x < Pow256(width)
    ensures |r| == width
  {
    if width == 0 then [] else [(x % 256) as byte] + LeBytes(x / 256, width - 1)
  }

  /** The unsigned value of a little-endian byte string. */
  function LeValue(s: seq<byte>): (r: nat)
    ensures r < Pow256(|s|)
  {
    if s == [] then 0 else s[0] as nat + 256 * LeValue(s[1..])
  }

  lemma {:induction false} LeValueOfBytes(x: nat, width: nat)
    requires x < Pow256(width)
    ensures LeValue(LeBytes(x, width)) == x
  {
    if width > 0 {
      var s := LeBytes(x, width);
      assert s[1..] == LeBytes(x / 256, width - 1);
      LeValueOfBytes(x / 256, width - 1);
    }
  }

  /** Reversing a big-endian string gives the little-endian one. */
  lemma {:induction false} LeIsReversedBe(x: nat, width: nat)
    requires x < Pow256(width)
    ensures LeBytes(x, width) == Reverse(BeBytes(x, width))
  {
    if width > 0 {
      LeIsReversedBe(x / 256, width - 1);
      ReverseAppend(BeBytes(x / 256, width - 1), [(x % 256) as byte]);
    }
  }

  function Reverse(s: seq<byte>): (r: seq<byte>)
    ensures |r| == |s|
  {
    if s == [] then [] else Reverse(s[1..]) + [s[0]]
  }

  lemma {:induction false} ReverseAppend(a: seq<byte>, b: seq<byte>)
    ensures Reverse(a + b) == Reverse(b) + Reverse(a)
  {
    if a == [] {
      assert a + b == b;
    } else {
      assert (a + b)[1..] == a[1..] + b;
      ReverseAppend(a[1..], b);
    }
  }

  /** Half of the range of a signed integer `width` bytes wide. */
  function SignedBound(width: nat): (r: nat)
    requires width > 0
    ensures 2 * r == Pow256(width)
  {
    Pow256(width - 1) * 128
  }

  predicate InSignedRange(v: int, width: nat)
    requires width > 0
  {
    -(SignedBound(width) as int) <= v < SignedBound(width)
  }

  /** The two's complement bit pattern of a signed value, as an unsigned number. */
  function TwosComplement(v: int, width: nat): (r: nat)
    requires width > 0 && InSignedRange(v, width)
    ensures r < Pow256(width)
    ensures v >= 0 <==> r < SignedBound(width)
  {
    if v >= 0 then v else v + Pow256(width)
  }

  /** The signed value a two's complement bit pattern stands for. */
  function FromTwos(r: nat, width: nat): (v: int)
    requires width > 0 && r < Pow256(width)
    ensures InSignedRange(v, width)
  {
    if r < SignedBound(width) then r else r - Pow256(width)
  }

  lemma TwosRoundTrip(v: int, width: nat)
    requires width > 0 && InSignedRange(v, width)
    ensures FromTwos(TwosComplement(v, width), width) == v
  {
  }

  /** Rust `iN::to_le_bytes`: the two's complement pattern, little-endian. */
  function SignedLeBytes(v: int, width: nat): (r: seq<byte>)
    requires width > 0 && InSignedRange(v, width)
    ensures |r| == width
  {
    LeBytes(TwosComplement(v, width), width)
  }

  lemma SignedLeRoundTrip(v: int, width: nat)
    requires width > 0 && InSignedRange(v, width)
    ensures FromTwos(LeValue(SignedLeBytes(v, width)), width) == v
  {
    LeValueOfBytes(TwosComplement(v, width), width);
  }

  /** UTF-8 encoding of one Unicode scalar value (Rust `str::as_bytes`). */
  function Utf8Char(c: char): (r: seq<byte>)
    ensures 1 <= |r| <= 4
    ensures (|r| == 1) <==> (c as int < 0x80)
  {
    var n := c as int;
    if n < 0x80 then [n as byte]
    else if n < 0x800 then [(0xC0 + n / 0x40) as byte, (0x80 + n % 0x40) as byte]
    else if n < 0x10000 then
      [(0xE0 + n / 0x1000) as byte, (0x80 + (n / 0x40) % 0x40) as byte, (0x80 + n % 0x40) as byte]
    else
      [(0xF0 + n / 0x40000) as byte, (0x80 + (n / 0x1000) % 0x40) as byte,
       (0x80 + (n / 0x40) % 0x40) as byte, (0x80 + n % 0x40) as byte]
  }

  /** Decoding one UTF-8 sequence back to its value. */
  function Utf8CharValue(b: seq<byte>): int
    requires 1 <= |b| <= 4
  {
    if |b| == 1 then b[0] as int
    else if |b| == 2 then (b[0] as int - 0xC0) * 0x40 + (b[1] as int - 0x80)
    else if |b| == 3 then
      ((b[0] as int - 0xE0) * 0x40 + (b[1] as int - 0x80)) * 0x40 + (b[2] as int - 0x80)
    else
      (((b[0] as int - 0xF0) * 0x40 + (b[1] as int - 0x80)) * 0x40 + (b[2] as int - 0x80)) * 0x40
        + (b[3] as int - 0x80)
  }

  lemma Utf8CharRoundTrip(c: char)
    ensures Utf8CharValue(Utf8Char(c)) == c as int
  {
    var n := c as int;
    if n >= 0x80 {
      var a, b, d := n / 0x40, n / 0x1000, n / 0x40000;
      assert n == a * 0x40 + n % 0x40;
      assert a == (a / 0x40) * 0x40 + a % 0x40;
      assert a / 0x40 == b;
      assert b == (b / 0x40) * 0x40 + b % 0x40;
      assert b / 0x40 == d;
    }
  }

  function Utf8(s: string): (r: seq<byte>)
    ensures |s| <= |r| <= 4 * |s|
  {
    if s == [] then [] else Utf8Char(s[0]) + Utf8(s[1..])
  }

  lemma {:induction false} Utf8Append(a: string, b: string)
    ensures Utf8(a + b) == Utf8(a) + Utf8(b)
  {
    if a == [] {
      assert a + b == b;
    } else {
      assert (a + b)[1..] == a[1..] + b;
      Utf8Append(a[1..], b);
    }
  }

  /** An ASCII string encodes to one byte per character, each the character's code. */
  lemma {:induction false} Utf8Ascii(s: string)
    requires forall i :: 0 <= i < |s| ==> s[i] as int < 0x80
    ensures |Utf8(s)| == |s|
    ensures forall i :: 0 <= i < |s| ==> Utf8(s)[i] as int == s[i] as int
  {
    if s != [] {
      Utf8Ascii(s[1..]);
    }
  }
}
