/** Bytes, the fixed-width integers of the crawler and big-endian numbers. */
module Bytes {

  newtype byte = x: int | 0 <= x < 256

  type bytes = seq<byte>

  const MAX_INT: int := 0x7FFF_FFFF_FFFF_FFFF

  type int64 = x: int | -MAX_INT - 1 <= x <= MAX_INT
  type uint16 = x: int | 0 <= x < 0x1_0000
  type uint32 = x: int | 0 <= x < 0x1_0000_0000

  /** A string or slice: its length always fits a machine int. */
  type ByteString = s: bytes | |s| <= MAX_INT

  /** A hexadecimal info hash. */
  type Hash = bytes

  datatype Option<+T> = None | Some(value: T)

  datatype Result<+T, +E> = Ok(value: T) | Err(error: E)

  /** The bytes of an ASCII text. */
  function Ascii(text: string): (s: bytes)
    ensures |s| == |text|
  {
    seq(|text|, i requires 0 <= i < |text| => (text[i] as int % 256) as byte)
  }

  lemma AsciiConcat(a: string, b: string)
    ensures Ascii(a + b) == Ascii(a) + Ascii(b)
  {
  }

  lemma ConcatAssociative<T>(a: seq<T>, b: seq<T>, c: seq<T>)
    ensures a + (b + c) == a + b + c
  {
  }

  function Min(a: int, b: int): int {
    if a <= b then a else b
  }

  // ---------------------------------------------------------------------
  // Big-endian numbers
  // ---------------------------------------------------------------------

  function Pow256(n: nat): nat {
    if n == 0 then 1 else 256 * Pow256(n - 1)
  }

  /** The number a byte string spells, most significant byte first. */
  function ToNat(s: bytes): nat {
    if s == [] then 0 else 256 * ToNat(s[..|s| - 1]) + s[|s| - 1] as int
  }

  /** The `width` low-order bytes of `n`, most significant byte first. */
  function BigEndian(n: nat, width: nat): (s: bytes)
    ensures |s| == width
  {
    if width == 0 then [] else BigEndian(n / 256, width - 1) + [(n % 256) as byte]
  }

  lemma {:induction false} ToNatBound(s: bytes)
    ensures ToNat(s) < Pow256(|s|)
  {
    if s != [] {
      ToNatBound(s[..|s| - 1]);
    }
  }

  lemma ToNatAppend(s: bytes, b: byte)
    ensures ToNat(s + [b]) == 256 * ToNat(s) + b as int
  {
    assert (s + [b])[..|s|] == s;
  }

  /** Writing a number that fits and reading it back. */
  lemma {:induction false} ToNatOfBigEndian(n: nat, width: nat)
    requires n < Pow256(width)
    ensures ToNat(BigEndian(n, width)) == n
  {
    if width > 0 {
      ToNatOfBigEndian(n / 256, width - 1);
      ToNatAppend(BigEndian(n / 256, width - 1), (n % 256) as byte);
    }
  }

  /** Reading a number and writing it back at the same width. */
  lemma {:induction false} BigEndianOfToNat(s: bytes)
    ensures BigEndian(ToNat(s), |s|) == s
  {
    if s != [] {
      BigEndianOfToNat(s[..|s| - 1]);
    }
  }

  lemma ToNatInjective(s: bytes, t: bytes)
    requires |s| == |t| && ToNat(s) == ToNat(t)
    ensures s == t
  {
    BigEndianOfToNat(s);
    BigEndianOfToNat(t);
  }
}
