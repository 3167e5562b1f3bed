/** internal/dht/id.go: 160-bit node ids, their exclusive-or distance and the bucket an
    id falls into. */
module NodeId {
  import opened Bytes
  import opened ExclusiveOr
  import opened Words

  const ID_LENGTH := 20
  const ID_BITS := 160

  type NodeID = s: bytes | |s| == ID_LENGTH witness seq(ID_LENGTH, _ => 0)

  /** The `^` of two bytes. */
  function XorByte(a: byte, b: byte): byte {
    Unsigned((a as bv8) ^ (b as bv8)) as byte
  }

  lemma ByteWord(a: byte)
    ensures Unsigned(a as bv8) == a as int
  {
    WordAndBack(a as int);
  }

  lemma XorByteIsXor(a: byte, b: byte)
    ensures XorByte(a, b) as int == Xor(a as int, b as int)
  {
    hide Unsigned, Xor;
    ByteWord(a);
    ByteWord(b);
    XorIsBitwise(a as bv8, b as bv8);
  }

  function XorBytes(a: bytes, b: bytes): (r: bytes)
    requires |a| == |b|
    ensures |r| == |a|
  {
    seq(|a|, i requires 0 <= i < |a| => XorByte(a[i], b[i]))
  }

  /** Distance between two ids, as a number. */
  function Dist(a: NodeID, b: NodeID): nat {
    Xor(ToNat(a), ToNat(b))
  }

  /** Bucket of a remote id, as seen from a local one. */
  function BucketOf(local: NodeID, remote: NodeID): nat {
    Log2(Dist(local, remote))
  }

  // ---------------------------------------------------------------------
  // Operations
  // ---------------------------------------------------------------------

  method Distance(a: NodeID, b: NodeID) returns (result: NodeID)
    ensures result == XorBytes(a, b)
  {
    hide XorByte;
    var bytes_ := new byte[ID_LENGTH];
    for i := 0 to ID_LENGTH
      invariant forall j | 0 <= j < i :: bytes_[j] == XorByte(a[j], b[j])
    {
      bytes_[i] := XorByte(a[i], b[i]);
    }
    result := bytes_[..];
  }

  /** Less is the numeric order. */
  method Less(id: NodeID, other: NodeID) returns (less: bool)
    ensures less <==> ToNat(id) < ToNat(other)
  {
    for i := 0 to ID_LENGTH
      invariant id[..i] == other[..i]
    {
      TakeNext(id, i);
      TakeNext(other, i);
      if id[i] < other[i] {
        PrefixDecides(id, other, i + 1);
        return true;
      }
      if id[i] > other[i] {
        PrefixDecides(other, id, i + 1);
        return false;
      }
      assert id[..i + 1] == other[..i + 1];
    }
    assert id[..ID_LENGTH] == id && other[..ID_LENGTH] == other;
    return false;
  }

  /** Number of leading zero bits; a walk over the bytes, then over the bits of the
      first one that is not zero. */
  method LeadingZeros(id: NodeID) returns (zeros: nat)
    ensures ToNat(id) == 0 ==> zeros == ID_BITS
    ensures ToNat(id) > 0 ==> zeros < ID_BITS && Log2(ToNat(id)) == ID_BITS - 1 - zeros
  {
    hide Log2, Pow2;
    zeros := 0;
    for i := 0 to ID_LENGTH
      invariant zeros == 8 * i
      invariant ToNat(id[..i]) == 0
    {
      TakeNext(id, i);
      if id[i] == 0 {
        zeros := zeros + 8;
        continue;
      }
      var bits := LeadingBits(id[i]);
      zeros := zeros + bits;
      FirstByteDecides(id, i, 7 - bits);
      return;
    }
    assert id[..ID_LENGTH] == id;
  }

  /** The mask loop on one byte. */
  method LeadingBits(octet: byte) returns (zeros: nat)
    requires octet != 0
    ensures zeros < 8 && Pow2(7 - zeros) <= octet as int < Pow2(8 - zeros)
  {
    zeros := 0;
    var b := octet as bv8;
    var mask: bv8 := 0x80;
    assert Unsigned(mask) == Pow2(7) == 128 && Pow2(8) == 256;
    ByteWord(octet);
    hide Unsigned;
    while mask != 0 && b & mask == 0
      invariant mask != 0 && mask & (mask - 1) == 0 && b <= mask + (mask - 1)
      invariant zeros < 8 && Unsigned(mask) == Pow2(7 - zeros) && Unsigned(b) < Pow2(8 - zeros)
      decreases 8 - zeros
    {
      MaskStep(b, mask);
      ShiftHalves(mask);
      WordOrder(b, mask);
      mask := mask >> 1;
      zeros := zeros + 1;
    }
    MaskHit(b, mask);
    WordOrder(b, mask);
  }

  method BucketIndex(local: NodeID, remote: NodeID) returns (index: nat)
    ensures index == BucketOf(local, remote) && index < ID_BITS
  {
    var dist := Distance(local, remote);
    XorBytesIsDist(local, remote);
    var lz := LeadingZeros(dist);
    if lz >= ID_BITS {
      return 0;
    }
    return ID_BITS - 1 - lz;
  }

  // ---------------------------------------------------------------------
  // Ids as numbers
  // ---------------------------------------------------------------------

  lemma TakeNext(s: bytes, i: nat)
    requires i < |s|
    ensures ToNat(s[..i + 1]) == 256 * ToNat(s[..i]) + s[i] as int
  {
    ToNatAppend(s[..i], s[i]);
    assert s[..i + 1] == s[..i] + [s[i]];
  }

  /** Once a prefix is smaller, the whole is. */
  lemma {:induction false} PrefixDecides(s: bytes, t: bytes, i: nat)
    requires i <= |s| == |t| && ToNat(s[..i]) < ToNat(t[..i])
    ensures ToNat(s) < ToNat(t)
    decreases |s| - i
  {
    if i == |s| {
      assert s[..i] == s && t[..i] == t;
    } else {
      TakeNext(s, i);
      TakeNext(t, i);
      PrefixDecides(s, t, i + 1);
    }
  }

  /** The first non-zero byte fixes the highest bit of the whole. */
  lemma FirstByteDecides(id: NodeID, i: nat, top: nat)
    requires i < ID_LENGTH && ToNat(id[..i]) == 0 && top < 8
    requires Pow2(top) <= id[i] as int < Pow2(top + 1)
    ensures Log2(ToNat(id)) == top + 8 * (ID_LENGTH - 1 - i)
    ensures ToNat(id) > 0
  {
    TakeNext(id, i);
    TopBitShifts(id, i + 1, top);
    var e := top + 8 * (ID_LENGTH - 1 - i);
    Log2Unique(ToNat(id), e);
  }

  lemma {:induction false} TopBitShifts(s: bytes, i: nat, e: nat)
    requires i <= |s| && Pow2(e) <= ToNat(s[..i]) < Pow2(e + 1)
    ensures Pow2(e + 8 * (|s| - i)) <= ToNat(s) < Pow2(e + 8 * (|s| - i) + 1)
    decreases |s| - i
  {
    if i == |s| {
      assert s[..i] == s;
    } else {
      TakeNext(s, i);
      Pow2Add(8, e);
      Pow2Add(8, e + 1);
      assert Pow2(8) == 256;
      TopBitShifts(s, i + 1, e + 8);
    }
  }

  /** Byte-wise exclusive or is exclusive or of the numbers. */
  lemma {:induction false} ToNatOfXorBytes(a: bytes, b: bytes)
    requires |a| == |b|
    ensures ToNat(XorBytes(a, b)) == Xor(ToNat(a), ToNat(b))
  {
    hide XorByte, Xor;
    if a == [] {
      XorZeroIff(0, 0);
    } else {
      var n := |a| - 1;
      ToNatOfXorBytes(a[..n], b[..n]);
      assert XorBytes(a, b)[..n] == XorBytes(a[..n], b[..n]);
      XorByteIsXor(a[n], b[n]);
      assert Pow2(8) == 256;
      XorConcat(8, ToNat(a[..n]), ToNat(b[..n]), a[n] as int, b[n] as int);
    }
  }

  lemma XorBytesIsDist(a: NodeID, b: NodeID)
    ensures ToNat(XorBytes(a, b)) == Dist(a, b)
  {
    ToNatOfXorBytes(a, b);
  }

  lemma {:induction false} Pow256IsPow2(n: nat)
    ensures Pow256(n) == Pow2(8 * n)
  {
    if n > 0 {
      Pow256IsPow2(n - 1);
      Pow2Add(8, 8 * (n - 1));
      assert Pow2(8) == 256;
    }
  }

  lemma IdBound(id: NodeID)
    ensures ToNat(id) < Pow2(ID_BITS)
  {
    ToNatBound(id);
    Pow256IsPow2(ID_LENGTH);
  }

  // ---------------------------------------------------------------------
  // Distance is a metric
  // ---------------------------------------------------------------------

  lemma DistZeroIff(a: NodeID, b: NodeID)
    ensures Dist(a, b) == 0 <==> a == b
  {
    XorZeroIff(ToNat(a), ToNat(b));
    if ToNat(a) == ToNat(b) {
      ToNatInjective(a, b);
    }
  }

  lemma DistSymmetric(a: NodeID, b: NodeID)
    ensures Dist(a, b) == Dist(b, a)
  {
    XorSymmetric(ToNat(a), ToNat(b));
  }

  lemma DistTriangle(a: NodeID, b: NodeID, c: NodeID)
    ensures Dist(a, c) <= Dist(a, b) + Dist(b, c)
  {
    XorTriangle(ToNat(a), ToNat(b), ToNat(c));
  }

  /** At any distance from a target there is at most one id. */
  lemma DistInjective(a: NodeID, b: NodeID, target: NodeID)
    requires Dist(a, target) == Dist(b, target)
    ensures a == b
  {
    XorInjective(ToNat(a), ToNat(b), ToNat(target));
    ToNatInjective(a, b);
  }

  lemma DistBound(a: NodeID, b: NodeID)
    ensures Dist(a, b) < Pow2(ID_BITS)
  {
    IdBound(a);
    IdBound(b);
    XorBelow(ID_BITS, ToNat(a), ToNat(b));
  }

  /** The bucket of a different id is the i with 2^i <= distance < 2^(i+1). */
  lemma BucketIsLog(local: NodeID, remote: NodeID, i: nat)
    requires local != remote
    ensures BucketOf(local, remote) == i <==> Pow2(i) <= Dist(local, remote) < Pow2(i + 1)
    ensures BucketOf(local, remote) < ID_BITS
  {
    var d := Dist(local, remote);
    DistZeroIff(local, remote);
    Log2Bounds(d);
    DistBound(local, remote);
    if Log2(d) >= ID_BITS {
      Pow2Monotone(ID_BITS, Log2(d));
    }
    if Pow2(i) <= d < Pow2(i + 1) {
      Log2Unique(d, i);
    }
  }

  // ---------------------------------------------------------------------
  // Text form
  // ---------------------------------------------------------------------

  function HexDigit(n: nat): char
    requires n < 16
  {
    "0123456789abcdef"[n]
  }

  /** Two lower-case digits a byte. */
  function Hex(s: bytes): (text: string)
    ensures |text| == 2 * |s|
  {
    if s == [] then []
    else [HexDigit(s[0] as int / 16), HexDigit(s[0] as int % 16)] + Hex(s[1..])
  }

  /** The value of a lower-case digit to base 16. */
  function DigitValue(ch: char): Option<nat> {
    if '0' <= ch <= '9' then Some(ch as int - '0' as int)
    else if 'a' <= ch <= 'f' then Some(ch as int - 'a' as int + 10)
    else None
  }

  lemma DigitRead(n: nat)
    requires n < 16
    ensures DigitValue(HexDigit(n)) == Some(n)
  {
  }

  /** Each byte is the number its two digits spell to base 16, the first counting sixteenfold. */
  lemma {:induction false} HexSpells(s: bytes, k: nat)
    requires k < |s|
    ensures var (high, low) := (DigitValue(Hex(s)[2 * k]), DigitValue(Hex(s)[2 * k + 1]));
            high.Some? && low.Some? && 16 * high.value + low.value == s[k] as int
  {
    hide HexDigit;
    DigitRead(s[0] as int / 16);
    DigitRead(s[0] as int % 16);
    if k > 0 {
      HexSpells(s[1..], k - 1);
      assert Hex(s)[2..] == Hex(s[1..]);
      assert Hex(s)[2 * k] == Hex(s[1..])[2 * (k - 1)] && Hex(s)[2 * k + 1] == Hex(s[1..])[2 * (k - 1) + 1];
    }
  }

  lemma HexDigitInjective(m: nat, n: nat)
    requires m < 16 && n < 16 && HexDigit(m) == HexDigit(n)
    ensures m == n
  {
  }

  /** Different ids have different hexadecimal keys. */
  lemma {:induction false} HexInjective(s: bytes, t: bytes)
    requires Hex(s) == Hex(t)
    ensures s == t
  {
    assert |s| == |t|;
    if s != [] {
      var x, y := Hex(s), Hex(t);
      assert x[0] == HexDigit(s[0] as int / 16) && y[0] == HexDigit(t[0] as int / 16);
      assert x[1] == HexDigit(s[0] as int % 16) && y[1] == HexDigit(t[0] as int % 16);
      HexDigitInjective(s[0] as int / 16, t[0] as int / 16);
      HexDigitInjective(s[0] as int % 16, t[0] as int % 16);
      assert x[2..] == Hex(s[1..]) && y[2..] == Hex(t[1..]);
      HexInjective(s[1..], t[1..]);
      assert s == [s[0]] + s[1..] && t == [t[0]] + t[1..];
    }
  }
}
