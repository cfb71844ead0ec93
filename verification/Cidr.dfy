/** CIDR prefix matching on 16-byte addresses. */
module Cidr {
  import opened Powers

  type Bytes = seq<bv8>

  /** The address as a big-endian number. */
  function Value(s: Bytes): nat {
    if s == [] then 0 else Value(s[..|s| - 1]) * 256 + s[|s| - 1] as int
  }

  /** The two addresses agree on their first p bits. */
  ghost predicate SameNetwork(a: Bytes, b: Bytes, p: nat)
    requires |a| == |b| == 16 && p <= 128
  {
    Value(a) / Pow2(128 - p) == Value(b) / Pow2(128 - p)
  }

  // ------------------------------------------------------------------ bytes and masks

  /** static_cast<unsigned char>(0xFF << (8 - bits)). */
  function Mask(bits: nat): bv8
    requires 1 <= bits <= 7
  {
    (((0xFF as bv16) << (8 - bits)) & 0xFF) as bv8
  }

  predicate MaskedEqual(x: bv8, y: bv8, bits: nat)
    requires 1 <= bits <= 7
  {
    (x & Mask(bits)) == (y & Mask(bits))
  }

  lemma SameByte(x: bv8, y: bv8)
    ensures x == y <==> x as int == y as int
  {
  }

  lemma Masked1(x: bv8, y: bv8)
    ensures MaskedEqual(x, y, 1) <==> (x as int) / 128 == (y as int) / 128
  {
    assert Mask(1) == 0x80;
    Shifted7(x);
    Shifted7(y);
    SameByte(x >> 7, y >> 7);
  }

  lemma Shifted7(x: bv8)
    ensures (x >> 7) as int == (x as int) / 128
  {
  }

  lemma Masked2(x: bv8, y: bv8)
    ensures MaskedEqual(x, y, 2) <==> (x as int) / 64 == (y as int) / 64
  {
    assert Mask(2) == 0xC0;
    Shifted6(x);
    Shifted6(y);
    SameByte(x >> 6, y >> 6);
  }

  lemma Shifted6(x: bv8)
    ensures (x >> 6) as int == (x as int) / 64
  {
  }

  lemma Masked3(x: bv8, y: bv8)
    ensures MaskedEqual(x, y, 3) <==> (x as int) / 32 == (y as int) / 32
  {
    assert Mask(3) == 0xE0;
    Shifted5(x);
    Shifted5(y);
    SameByte(x >> 5, y >> 5);
  }

  lemma Shifted5(x: bv8)
    ensures (x >> 5) as int == (x as int) / 32
  {
  }

  lemma Masked4(x: bv8, y: bv8)
    ensures MaskedEqual(x, y, 4) <==> (x as int) / 16 == (y as int) / 16
  {
    assert Mask(4) == 0xF0;
    Shifted4(x);
    Shifted4(y);
    SameByte(x >> 4, y >> 4);
  }

  lemma Shifted4(x: bv8)
    ensures (x >> 4) as int == (x as int) / 16
  {
  }

  lemma Masked5(x: bv8, y: bv8)
    ensures MaskedEqual(x, y, 5) <==> (x as int) / 8 == (y as int) / 8
  {
    assert Mask(5) == 0xF8;
    Shifted3(x);
    Shifted3(y);
    SameByte(x >> 3, y >> 3);
  }

  lemma Shifted3(x: bv8)
    ensures (x >> 3) as int == (x as int) / 8
  {
  }

  lemma Masked6(x: bv8, y: bv8)
    ensures MaskedEqual(x, y, 6) <==> (x as int) / 4 == (y as int) / 4
  {
    assert Mask(6) == 0xFC;
    Shifted2(x);
    Shifted2(y);
    SameByte(x >> 2, y >> 2);
  }

  lemma Shifted2(x: bv8)
    ensures (x >> 2) as int == (x as int) / 4
  {
  }

  lemma Masked7(x: bv8, y: bv8)
    ensures MaskedEqual(x, y, 7) <==> (x as int) / 2 == (y as int) / 2
  {
    assert Mask(7) == 0xFE;
    Shifted1(x);
    Shifted1(y);
    SameByte(x >> 1, y >> 1);
  }

  lemma Shifted1(x: bv8)
    ensures (x >> 1) as int == (x as int) / 2
  {
  }

  /** Comparing under the mask compares the quotients by the weight of the dropped bits. */
  lemma MaskIsDivision(x: bv8, y: bv8, bits: nat)
    requires 1 <= bits <= 7
    ensures MaskedEqual(x, y, bits) <==> (x as int) / Pow2(8 - bits) == (y as int) / Pow2(8 - bits)
  {
    SmallPowers();
    match bits
    case 1 => Masked1(x, y);
    case 2 => Masked2(x, y);
    case 3 => Masked3(x, y);
    case 4 => Masked4(x, y);
    case 5 => Masked5(x, y);
    case 6 => Masked6(x, y);
    case 7 => Masked7(x, y);
  }

  lemma SmallPowers()
    ensures Pow2(1) == 2 && Pow2(2) == 4 && Pow2(3) == 8 && Pow2(4) == 16
    ensures Pow2(5) == 32 && Pow2(6) == 64 && Pow2(7) == 128 && Pow2(8) == 256
  {
  }

  // ------------------------------------------------------------------ prefixes of the number

  lemma ValueSnoc(s: Bytes, b: bv8)
    ensures Value(s + [b]) == Value(s) * 256 + b as int
  {
    assert (s + [b])[..|s|] == s;
  }

  /** Dividing away the weight of the last bytes leaves the value of the first ones. */
  lemma {:induction false} PrefixValue(s: Bytes, k: nat)
    requires k <= |s|
    ensures Value(s) / Pow2(8 * (|s| - k)) == Value(s[..k])
    decreases |s|
  {
    if k == |s| {
      assert s[..k] == s;
    } else {
      var t, b := s[..|s| - 1], s[|s| - 1];
      PrefixValue(t, k);
      assert t[..k] == s[..k];
      var rest := 8 * (|t| - k);
      Pow2Sum(8, rest);
      SmallPowers();
      DivDiv(Value(s), 256, Pow2(rest));
      DivUnique(Value(s), 256, Value(t), b as int);
    }
  }

  lemma {:induction false} ValueInjective(s: Bytes, t: Bytes)
    requires |s| == |t|
    ensures Value(s) == Value(t) <==> s == t
  {
    if s != [] {
      var n := |s| - 1;
      ValueInjective(s[..n], t[..n]);
      DivUnique(Value(s), 256, Value(s[..n]), s[n] as int);
      DivUnique(Value(t), 256, Value(t[..n]), t[n] as int);
      assert s == s[..n] + [s[n]] && t == t[..n] + [t[n]];
    }
  }

  lemma SplitDigit(v: nat, b: nat, m: nat, d: nat)
    requires m > 0 && d > 0 && m * d == 256 && b < 256
    ensures (v * 256 + b) / d == v * m + b / d
    ensures 0 <= b / d < m
  {
    assert v * 256 == d * (v * m) by {
      assert v * (m * d) == d * (v * m);
    }
    assert b == d * (b / d) + b % d;
    assert d * (v * m + b / d) == d * (v * m) + d * (b / d);
    DivUnique(v * 256 + b, d, v * m + b / d, b % d);
    MulGrows(d, b / d - m + 1);
    assert d * (b / d - m + 1) == d * (b / d) - 256 + d;
  }

  lemma DigitsEqual(a: nat, b: nat, x: nat, y: nat, m: nat)
    requires x < m && y < m
    ensures a * m + x == b * m + y <==> a == b && x == y
  {
    DivUnique(a * m + x, m, a, x);
    DivUnique(b * m + y, m, b, y);
  }

  function HighBits(a: Bytes, k: nat, bits: nat): int
    requires k < |a| && bits <= 8
  {
    (a[k] as int) / Pow2(8 - bits)
  }

  lemma BitPowers(bits: nat)
    requires bits <= 8
    ensures Pow2(bits) * Pow2(8 - bits) == 256
  {
    Pow2Sum(bits, 8 - bits);
    SmallPowers();
  }

  lemma LowBitsDropped(a: Bytes, k: nat, bits: nat)
    requires |a| == 16 && k < 16 && 1 <= bits <= 7
    ensures Value(a) / Pow2(128 - 8 * k - bits) == Value(a[..k + 1]) / Pow2(8 - bits)
  {
    var low := 8 * (16 - (k + 1));
    Pow2Sum(low, 8 - bits);
    assert 128 - 8 * k - bits == low + (8 - bits);
    PrefixValue(a, k + 1);
    DivDiv(Value(a), Pow2(low), Pow2(8 - bits));
  }

  /** The first k bytes and a few bits of the next, as one quotient. */
  lemma PrefixQuotient(a: Bytes, k: nat, bits: nat)
    requires |a| == 16 && k < 16 && 1 <= bits <= 7
    ensures Value(a) / Pow2(128 - 8 * k - bits) == Value(a[..k]) * Pow2(bits) + HighBits(a, k, bits)
    ensures 0 <= HighBits(a, k, bits) < Pow2(bits)
  {
    LowBitsDropped(a, k, bits);
    assert a[..k + 1] == a[..k] + [a[k]];
    ValueSnoc(a[..k], a[k]);
    BitPowers(bits);
    SplitDigit(Value(a[..k]), a[k] as int, Pow2(bits), Pow2(8 - bits));
  }

  lemma WholeBytes(a: Bytes, b: Bytes, k: nat)
    requires |a| == |b| == 16 && k <= 16
    ensures Value(a) / Pow2(128 - 8 * k) == Value(b) / Pow2(128 - 8 * k) <==> a[..k] == b[..k]
  {
    ValueInjective(a[..k], b[..k]);
    PrefixValue(a, k);
    PrefixValue(b, k);
    assert 8 * (16 - k) == 128 - 8 * k;
  }

  lemma QuotientsAgree(a: Bytes, b: Bytes, k: nat, bits: nat)
    requires |a| == |b| == 16 && k < 16 && 1 <= bits <= 7
    ensures Value(a) / Pow2(128 - 8 * k - bits) == Value(b) / Pow2(128 - 8 * k - bits) <==>
            Value(a[..k]) == Value(b[..k]) && HighBits(a, k, bits) == HighBits(b, k, bits)
  {
    PrefixQuotient(a, k, bits);
    PrefixQuotient(b, k, bits);
    DigitsEqual(Value(a[..k]), Value(b[..k]), HighBits(a, k, bits), HighBits(b, k, bits), Pow2(bits));
  }

  lemma WholeBytesAndBits(a: Bytes, b: Bytes, k: nat, bits: nat)
    requires |a| == |b| == 16 && k < 16 && 1 <= bits <= 7
    ensures Value(a) / Pow2(128 - 8 * k - bits) == Value(b) / Pow2(128 - 8 * k - bits) <==>
            a[..k] == b[..k] && HighBits(a, k, bits) == HighBits(b, k, bits)
  {
    QuotientsAgree(a, b, k, bits);
    ValueInjective(a[..k], b[..k]);
  }

  /** The test split into full bytes and the high bits of one more byte decides SameNetwork. */
  lemma BytewiseIsSameNetwork(a: Bytes, b: Bytes, p: nat)
    requires |a| == |b| == 16 && p <= 128
    ensures var k, bits := p / 8, p % 8;
            SameNetwork(a, b, p) <==>
            a[..k] == b[..k] && (bits == 0 || (a[k] as int) / Pow2(8 - bits) == (b[k] as int) / Pow2(8 - bits))
  {
    var k, bits := p / 8, p % 8;
    if bits == 0 {
      WholeBytes(a, b, k);
    } else {
      WholeBytesAndBits(a, b, k, bits);
    }
  }

  /** The address test of the proxy configuration. */
  method PrefixMatches(network: Bytes, address: Bytes, prefixLength: nat) returns (matches: bool)
    requires |network| == |address| == 16 && prefixLength <= 128
    ensures matches <==> SameNetwork(network, address, prefixLength)
  {
    BytewiseIsSameNetwork(network, address, prefixLength);
    var fullBytes, bits := prefixLength / 8, prefixLength % 8;
    for i := 0 to fullBytes
      invariant forall j :: 0 <= j < i ==> network[j] == address[j]
    {
      if network[i] != address[i] {
        assert network[..fullBytes][i] != address[..fullBytes][i];
        return false;
      }
    }
    assert network[..fullBytes] == address[..fullBytes];
    if bits == 0 { return true; }
    MaskIsDivision(network[fullBytes], address[fullBytes], bits);
    matches := MaskedEqual(network[fullBytes], address[fullBytes], bits);
  }

  // ------------------------------------------------------------------ laws of matching

  /** A match on a longer prefix is a match on every shorter one. */
  lemma LongerImpliesShorter(a: Bytes, b: Bytes, p: nat, q: nat)
    requires |a| == |b| == 16 && q <= p <= 128
    requires SameNetwork(a, b, p)
    ensures SameNetwork(a, b, q)
  {
    Pow2Sum(128 - p, p - q);
    DivDiv(Value(a), Pow2(128 - p), Pow2(p - q));
    DivDiv(Value(b), Pow2(128 - p), Pow2(p - q));
  }

  /** The two ends of the scale: no bits match everything, all bits match only the address itself. */
  lemma ShortestAndLongest(a: Bytes, b: Bytes)
    requires |a| == |b| == 16
    ensures SameNetwork(a, b, 0)
    ensures SameNetwork(a, b, 128) <==> a == b
  {
    BytewiseIsSameNetwork(a, b, 0);
    BytewiseIsSameNetwork(a, b, 128);
    assert a[..16] == a && b[..16] == b;
  }
}
