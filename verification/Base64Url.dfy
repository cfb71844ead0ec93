/**
 * base64url without padding (section 5 of RFC 4648), as the token generator writes it by
 * hand and as the key publisher derives it from padded base64 (section 4 of RFC 4648).
 */
module Base64Url {
  import opened Common
  import opened Powers

  type Bytes = seq<bv8>
  type Sextet = bv6

  const UPPER := "ABCDEFGHIJKLMNOPQRSTUVWXYZ"
  const LOWER := "abcdefghijklmnopqrstuvwxyz"
  const DIGITS := "0123456789"
  const URL_ALPHABET := UPPER + LOWER + DIGITS + "-_"
  const STD_ALPHABET := UPPER + LOWER + DIGITS + "+/"

  // ------------------------------------------------------------------ groups of three bytes

  function Word(b0: bv8, b1: bv8, b2: bv8): bv32 {
    ((b0 as bv32) << 16) | ((b1 as bv32) << 8) | (b2 as bv32)
  }

  function First(v: bv32): Sextet { ((v >> 18) & 0x3f) as Sextet }
  function Second(v: bv32): Sextet { ((v >> 12) & 0x3f) as Sextet }
  function Third(v: bv32): Sextet { ((v >> 6) & 0x3f) as Sextet }
  function Fourth(v: bv32): Sextet { (v & 0x3f) as Sextet }

  /** The inverse of the grouping, byte by byte. */
  function Byte0(x0: Sextet, x1: Sextet): bv8 { ((x0 as bv8) << 2) | ((x1 as bv8) >> 4) }
  function Byte1(x1: Sextet, x2: Sextet): bv8 { ((x1 as bv8) << 4) | ((x2 as bv8) >> 2) }
  function Byte2(x2: Sextet, x3: Sextet): bv8 { ((x2 as bv8) << 6) | (x3 as bv8) }

  lemma GroupThere(b0: bv8, b1: bv8, b2: bv8)
    ensures var v := Word(b0, b1, b2);
            && Byte0(First(v), Second(v)) == b0
            && Byte1(Second(v), Third(v)) == b1
            && Byte2(Third(v), Fourth(v)) == b2
    ensures Second(Word(b0, 0, 0)) & 0xf == 0 && Third(Word(b0, b1, 0)) & 0x3 == 0
  {
  }

  lemma GroupBack(x0: Sextet, x1: Sextet, x2: Sextet, x3: Sextet)
    ensures var v := Word(Byte0(x0, x1), Byte1(x1, x2), Byte2(x2, x3));
            First(v) == x0 && Second(v) == x1 && Third(v) == x2 && Fourth(v) == x3
  {
  }

  lemma GroupBackShort(x0: Sextet, x1: Sextet, x2: Sextet)
    ensures x1 & 0xf == 0 ==> var v := Word(Byte0(x0, x1), 0, 0); First(v) == x0 && Second(v) == x1
    ensures x2 & 0x3 == 0 ==>
              var v := Word(Byte0(x0, x1), Byte1(x1, x2), 0); First(v) == x0 && Second(v) == x1 && Third(v) == x2
  {
  }

  // ------------------------------------------------------------------ sextets

  /** The six-bit values of a byte string, low bits of the last one filled with zeros. */
  function Sextets(b: Bytes): seq<Sextet> {
    if |b| == 0 then []
    else if |b| == 1 then var v := Word(b[0], 0, 0); [First(v), Second(v)]
    else if |b| == 2 then var v := Word(b[0], b[1], 0); [First(v), Second(v), Third(v)]
    else var v := Word(b[0], b[1], b[2]); [First(v), Second(v), Third(v), Fourth(v)] + Sextets(b[3..])
  }

  /** The strict inverse: refuses impossible lengths and nonzero filler bits. */
  function Unsextets(x: seq<Sextet>): Option<Bytes> {
    if |x| == 0 then Some([])
    else if |x| == 1 then None
    else if |x| == 2 then if x[1] & 0xf == 0 then Some([Byte0(x[0], x[1])]) else None
    else if |x| == 3 then if x[2] & 0x3 == 0 then Some([Byte0(x[0], x[1]), Byte1(x[1], x[2])]) else None
    else
      var rest := Unsextets(x[4..]);
      if rest.None? then None
      else Some([Byte0(x[0], x[1]), Byte1(x[1], x[2]), Byte2(x[2], x[3])] + rest.value)
  }

  lemma {:induction false} SextetsThere(b: Bytes)
    ensures Unsextets(Sextets(b)) == Some(b)
  {
    if |b| == 1 {
      GroupThere(b[0], 0, 0);
      assert b == [b[0]];
    } else if |b| == 2 {
      GroupThere(b[0], b[1], 0);
      assert b == [b[0], b[1]];
    } else if |b| > 2 {
      GroupThere(b[0], b[1], b[2]);
      SextetsThere(b[3..]);
      assert Sextets(b)[4..] == Sextets(b[3..]);
      assert b == [b[0], b[1], b[2]] + b[3..];
    }
  }

  lemma {:induction false} SextetsBack(x: seq<Sextet>)
    requires Unsextets(x).Some?
    ensures Sextets(Unsextets(x).value) == x
  {
    if |x| == 2 {
      GroupBackShort(x[0], x[1], 0);
    } else if |x| == 3 {
      GroupBackShort(x[0], x[1], x[2]);
    } else if |x| > 3 {
      GroupBack(x[0], x[1], x[2], x[3]);
      SextetsBack(x[4..]);
      var b := Unsextets(x).value;
      assert b[3..] == Unsextets(x[4..]).value;
      assert x == [x[0], x[1], x[2], x[3]] + x[4..];
    }
  }

  lemma {:induction false} SextetsLength(b: Bytes)
    ensures |Sextets(b)| == (4 * |b| + 2) / 3
  {
    if |b| > 2 { SextetsLength(b[3..]); }
  }

  // ------------------------------------------------------------------ sextets as digits

  lemma Low2(b: bv8)
    ensures (b & 0x3) as int == b as int % 4
  {
  }

  lemma Low4(b: bv8)
    ensures (b & 0xf) as int == b as int % 16
  {
  }

  lemma Low6(b: bv8)
    ensures (b & 0x3f) as int == b as int % 64
  {
  }

  lemma High2(b: bv8)
    ensures (b >> 6) as int == b as int / 64
  {
  }

  lemma High4(b: bv8)
    ensures (b >> 4) as int == b as int / 16
  {
  }

  lemma High6(b: bv8)
    ensures (b >> 2) as int == b as int / 4
  {
  }

  lemma Pack4(hi: bv8, lo: bv8)
    requires hi < 4 && lo < 16
    ensures ((hi << 4) | lo) as int == hi as int * 16 + lo as int
  {
  }

  lemma Pack2(hi: bv8, lo: bv8)
    requires hi < 16 && lo < 4
    ensures ((hi << 2) | lo) as int == hi as int * 4 + lo as int
  {
  }

  lemma SextetAsByte(x: Sextet)
    ensures (x as bv8) as int == x as int
  {
  }

  lemma FirstIs(b0: bv8, b1: bv8, b2: bv8)
    ensures First(Word(b0, b1, b2)) as int == b0 as int / 4
  {
    var x := First(Word(b0, b1, b2));
    assert x as bv8 == b0 >> 2;
    SextetAsByte(x);
    High6(b0);
  }

  lemma SecondIs(b0: bv8, b1: bv8, b2: bv8)
    ensures Second(Word(b0, b1, b2)) as int == b0 as int % 4 * 16 + b1 as int / 16
  {
    var x, hi, lo := Second(Word(b0, b1, b2)), b0 & 0x3, b1 >> 4;
    assert x as bv8 == (hi << 4) | lo && hi < 4 && lo < 16;
    SextetAsByte(x);
    Pack4(hi, lo);
    Low2(b0);
    High4(b1);
  }

  lemma ThirdIs(b0: bv8, b1: bv8, b2: bv8)
    ensures Third(Word(b0, b1, b2)) as int == b1 as int % 16 * 4 + b2 as int / 64
  {
    var x, hi, lo := Third(Word(b0, b1, b2)), b1 & 0xf, b2 >> 6;
    assert x as bv8 == (hi << 2) | lo && hi < 16 && lo < 4;
    SextetAsByte(x);
    Pack2(hi, lo);
    Low4(b1);
    High2(b2);
  }

  lemma FourthIs(b0: bv8, b1: bv8, b2: bv8)
    ensures Fourth(Word(b0, b1, b2)) as int == b2 as int % 64
  {
    var x := Fourth(Word(b0, b1, b2));
    assert x as bv8 == b2 & 0x3f;
    SextetAsByte(x);
    Low6(b2);
  }

  /** The big-endian value of a group of three bytes. */
  function GroupValue(b0: bv8, b1: bv8, b2: bv8): nat {
    b0 as int * 0x10000 + b1 as int * 0x100 + b2 as int
  }

  lemma FirstDigit(a: int, b: int, c: int)
    requires 0 <= b < 256 && 0 <= c < 256
    ensures (a * 0x10000 + b * 0x100 + c) / 0x40000 == a / 4
  {
    DivUnique(a * 0x10000 + b * 0x100 + c, 0x40000, a / 4, a % 4 * 0x10000 + b * 0x100 + c);
  }

  lemma SecondDigit(a: int, b: int, c: int)
    requires 0 <= b < 256 && 0 <= c < 256
    ensures (a * 0x10000 + b * 0x100 + c) / 0x1000 % 64 == a % 4 * 16 + b / 16
  {
    DivUnique(a * 0x10000 + b * 0x100 + c, 0x1000, a * 16 + b / 16, b % 16 * 0x100 + c);
    assert a * 16 + b / 16 == 64 * (a / 4) + (a % 4 * 16 + b / 16);
  }

  lemma ThirdDigit(a: int, b: int, c: int)
    requires 0 <= c < 256
    ensures (a * 0x10000 + b * 0x100 + c) / 0x40 % 64 == b % 16 * 4 + c / 64
  {
    DivUnique(a * 0x10000 + b * 0x100 + c, 0x40, a * 1024 + b * 4 + c / 64, c % 64);
    assert a * 1024 + b * 4 + c / 64 == 64 * (a * 16 + b / 16) + (b % 16 * 4 + c / 64);
  }

  lemma FourthDigit(a: int, b: int, c: int)
    ensures (a * 0x10000 + b * 0x100 + c) % 64 == c % 64
  {
    assert a * 0x10000 + b * 0x100 + c == 64 * (a * 1024 + b * 4) + c;
  }

  lemma FirstIsDigit(b0: bv8, b1: bv8, b2: bv8)
    ensures First(Word(b0, b1, b2)) as int == GroupValue(b0, b1, b2) / 0x40000
  {
    FirstIs(b0, b1, b2);
    FirstDigit(b0 as int, b1 as int, b2 as int);
  }

  lemma SecondIsDigit(b0: bv8, b1: bv8, b2: bv8)
    ensures Second(Word(b0, b1, b2)) as int == GroupValue(b0, b1, b2) / 0x1000 % 64
  {
    SecondIs(b0, b1, b2);
    SecondDigit(b0 as int, b1 as int, b2 as int);
  }

  lemma ThirdIsDigit(b0: bv8, b1: bv8, b2: bv8)
    ensures Third(Word(b0, b1, b2)) as int == GroupValue(b0, b1, b2) / 0x40 % 64
  {
    ThirdIs(b0, b1, b2);
    ThirdDigit(b0 as int, b1 as int, b2 as int);
  }

  lemma FourthIsDigit(b0: bv8, b1: bv8, b2: bv8)
    ensures Fourth(Word(b0, b1, b2)) as int == GroupValue(b0, b1, b2) % 64
  {
    FourthIs(b0, b1, b2);
    FourthDigit(b0 as int, b1 as int, b2 as int);
  }

  // ------------------------------------------------------------------ characters

  function UrlChar(x: Sextet): char {
    URL_ALPHABET[x as int]
  }

  function StdChar(x: Sextet): char {
    STD_ALPHABET[x as int]
  }

  /** The position of a character in the alphabet. */
  function UrlPosition(c: char): (r: Option<nat>)
    ensures r.Some? ==> r.value < 64
  {
    if 'A' <= c <= 'Z' then Some(c as int - 'A' as int)
    else if 'a' <= c <= 'z' then Some(c as int - 'a' as int + 26)
    else if '0' <= c <= '9' then Some(c as int - '0' as int + 52)
    else if c == '-' then Some(62)
    else if c == '_' then Some(63)
    else None
  }

  function UrlIndex(c: char): Option<Sextet> {
    var p := UrlPosition(c);
    if p.Some? then Some(p.value as Sextet) else None
  }

  lemma PositionAsSextet(n: nat)
    requires n < 64
    ensures (n as Sextet) as int == n
  {
  }

  lemma SextetAsPosition(x: Sextet)
    ensures (x as int) as Sextet == x
  {
  }

  lemma PositionThere(i: nat)
    requires i < 64
    ensures UrlPosition(URL_ALPHABET[i]) == Some(i)
  {
    AlphabetRanges(i);
  }

  lemma PositionBack(c: char)
    ensures UrlPosition(c).Some? ==> URL_ALPHABET[UrlPosition(c).value] == c
  {
    if UrlPosition(c).Some? { AlphabetRanges(UrlPosition(c).value); }
  }

  function UrlText(x: seq<Sextet>): string {
    seq(|x|, i requires 0 <= i < |x| => UrlChar(x[i]))
  }

  function UrlGroup(v: bv32): string {
    [UrlChar(First(v)), UrlChar(Second(v)), UrlChar(Third(v)), UrlChar(Fourth(v))]
  }

  /** The encoder as a function; the loop below computes it. */
  function Encode(b: Bytes): string {
    if |b| == 0 then ""
    else if |b| == 1 then UrlGroup(Word(b[0], 0, 0))[..2]
    else if |b| == 2 then UrlGroup(Word(b[0], b[1], 0))[..3]
    else UrlGroup(Word(b[0], b[1], b[2])) + Encode(b[3..])
  }

  lemma UrlTextJoined(x: seq<Sextet>, y: seq<Sextet>)
    ensures UrlText(x + y) == UrlText(x) + UrlText(y)
  {
  }

  lemma {:induction false} EncodeIsText(b: Bytes)
    ensures Encode(b) == UrlText(Sextets(b))
  {
    if |b| > 2 {
      EncodeIsText(b[3..]);
      var v := Word(b[0], b[1], b[2]);
      UrlTextJoined([First(v), Second(v), Third(v), Fourth(v)], Sextets(b[3..]));
    }
  }

  /** The letter and digit tables are ranges, by looking at every entry. */
  lemma LetterTables(i: nat)
    requires i < 26
    ensures UPPER[i] == ('A' as int + i) as char && LOWER[i] == ('a' as int + i) as char
  {
    match i {
      case 0 => case 1 => case 2 => case 3 => case 4 => case 5 => case 6 => case 7 => case 8 => case 9 =>
      case 10 => case 11 => case 12 => case 13 => case 14 => case 15 => case 16 => case 17 => case 18 => case 19 =>
      case 20 => case 21 => case 22 => case 23 => case 24 => case 25 => case _ =>
    }
  }

  lemma DigitTable(i: nat)
    requires i < 10
    ensures DIGITS[i] == ('0' as int + i) as char
  {
    match i {
      case 0 => case 1 => case 2 => case 3 => case 4 => case 5 => case 6 => case 7 => case 8 => case 9 =>
      case _ =>
    }
  }

  lemma JoinedAt(upper: string, lower: string, digits: string, rest: string, i: nat)
    requires |upper| == |lower| == 26 && |digits| == 10 && |rest| == 2 && i < 64
    ensures (upper + lower + digits + rest)[i] ==
            if i < 26 then upper[i] else if i < 52 then lower[i - 26] else if i < 62 then digits[i - 52] else rest[i - 62]
  {
  }

  lemma AlphabetRanges(i: nat)
    requires i < 64
    ensures URL_ALPHABET[i] == (if i < 26 then ('A' as int + i) as char
                                else if i < 52 then ('a' as int + i - 26) as char
                                else if i < 62 then ('0' as int + i - 52) as char
                                else if i == 62 then '-' else '_')
    ensures STD_ALPHABET[i] == (if i < 62 then URL_ALPHABET[i] else if i == 62 then '+' else '/')
  {
    JoinedAt(UPPER, LOWER, DIGITS, "-_", i);
    JoinedAt(UPPER, LOWER, DIGITS, "+/", i);
    if i < 26 { LetterTables(i); }
    else if i < 52 { LetterTables(i - 26); }
    else if i < 62 { DigitTable(i - 52); }
  }

  /** Digit d of the encoding: the letters and figures in order, then '-' and '_'. */
  function DigitChar(d: int): char {
    if 0 <= d < 26 then ('A' as int + d) as char
    else if 26 <= d < 52 then ('a' as int + d - 26) as char
    else if 52 <= d < 62 then ('0' as int + d - 52) as char
    else if d == 62 then '-' else '_'
  }

  /** The digits of a group's value, as characters. */
  function ValueChars(n: nat): string {
    [DigitChar(n / 0x40000), DigitChar(n / 0x1000 % 64), DigitChar(n / 0x40 % 64), DigitChar(n % 64)]
  }

  lemma CharOf(x: Sextet, d: int)
    requires x as int == d
    ensures UrlChar(x) == DigitChar(d)
  {
    AlphabetRanges(x as int);
  }

  /** The characters of a group, from its value alone. */
  lemma GroupChars(b0: bv8, b1: bv8, b2: bv8)
    ensures UrlGroup(Word(b0, b1, b2)) == ValueChars(GroupValue(b0, b1, b2))
  {
    var v, n := Word(b0, b1, b2), GroupValue(b0, b1, b2);
    assert UrlChar(First(v)) == DigitChar(n / 0x40000) by { FirstIsDigit(b0, b1, b2); CharOf(First(v), n / 0x40000); }
    assert UrlChar(Second(v)) == DigitChar(n / 0x1000 % 64) by { SecondIsDigit(b0, b1, b2); CharOf(Second(v), n / 0x1000 % 64); }
    assert UrlChar(Third(v)) == DigitChar(n / 0x40 % 64) by { ThirdIsDigit(b0, b1, b2); CharOf(Third(v), n / 0x40 % 64); }
    assert UrlChar(Fourth(v)) == DigitChar(n % 64) by { FourthIsDigit(b0, b1, b2); CharOf(Fourth(v), n % 64); }
  }

  /**
   * The encoding group by group, without bit operations: three bytes are the four digits of
   * their big-endian value, and what is left over at the end is filled up with zero bits.
   */
  lemma EncodeByValue(b: Bytes)
    ensures |b| == 1 ==> Encode(b) == ValueChars(GroupValue(b[0], 0, 0))[..2]
    ensures |b| == 2 ==> Encode(b) == ValueChars(GroupValue(b[0], b[1], 0))[..3]
    ensures |b| >= 3 ==> Encode(b) == ValueChars(GroupValue(b[0], b[1], b[2])) + Encode(b[3..])
  {
    if |b| == 1 { GroupChars(b[0], 0, 0); }
    else if |b| == 2 { GroupChars(b[0], b[1], 0); }
    else if |b| >= 3 { GroupChars(b[0], b[1], b[2]); }
  }

  lemma CharThere(x: Sextet)
    ensures UrlIndex(UrlChar(x)) == Some(x)
  {
    PositionThere(x as int);
    SextetAsPosition(x);
  }

  lemma CharBack(c: char)
    ensures UrlIndex(c).Some? ==> UrlChar(UrlIndex(c).value) == c
  {
    PositionBack(c);
    if UrlPosition(c).Some? { PositionAsSextet(UrlPosition(c).value); }
  }

  function Indices(s: string): Option<seq<Sextet>> {
    if s == "" then Some([])
    else
      var first, rest := UrlIndex(s[0]), Indices(s[1..]);
      if first.Some? && rest.Some? then Some([first.value] + rest.value) else None
  }

  lemma {:induction false} TextThere(x: seq<Sextet>)
    ensures Indices(UrlText(x)) == Some(x)
  {
    if x != [] {
      CharThere(x[0]);
      TextThere(x[1..]);
      assert UrlText(x)[1..] == UrlText(x[1..]);
      assert x == [x[0]] + x[1..];
    }
  }

  lemma {:induction false} TextBack(s: string)
    requires Indices(s).Some?
    ensures UrlText(Indices(s).value) == s
  {
    if s != "" {
      CharBack(s[0]);
      TextBack(s[1..]);
      var x := Indices(s).value;
      assert x[1..] == Indices(s[1..]).value;
      assert UrlText(x)[1..] == UrlText(x[1..]);
      assert s == [s[0]] + s[1..];
      assert UrlText(x) == [UrlText(x)[0]] + UrlText(x)[1..];
    }
  }

  function Decode(s: string): Option<Bytes> {
    var x := Indices(s);
    if x.None? then None else Unsextets(x.value)
  }

  /** Decoding undoes encoding for byte strings of every length, and accepts nothing else. */
  lemma DecodeInvertsEncode(s: string, b: Bytes)
    ensures Decode(s) == Some(b) <==> s == Encode(b)
  {
    EncodeIsText(b);
    TextThere(Sextets(b));
    SextetsThere(b);
    if Decode(s) == Some(b) {
      TextBack(s);
      SextetsBack(Indices(s).value);
    }
  }

  /** n bytes become ceil(4n / 3) characters of the alphabet. */
  lemma EncodeLength(b: Bytes)
    ensures |Encode(b)| == (4 * |b| + 2) / 3
    ensures forall c :: c in Encode(b) ==> c in URL_ALPHABET
  {
    EncodeIsText(b);
    SextetsLength(b);
  }

  // ------------------------------------------------------------------ the hand-written encoder

  lemma EncodeSuffix(b: Bytes, i: nat)
    requires i <= |b|
    ensures i + 3 <= |b| ==> Encode(b[i..]) == UrlGroup(Word(b[i], b[i + 1], b[i + 2])) + Encode(b[i + 3..])
    ensures i + 2 == |b| ==> Encode(b[i..]) == UrlGroup(Word(b[i], b[i + 1], 0))[..3]
    ensures i + 1 == |b| ==> Encode(b[i..]) == UrlGroup(Word(b[i], 0, 0))[..2]
    ensures i == |b| ==> Encode(b[i..]) == ""
  {
    if i + 3 <= |b| { assert b[i..][3..] == b[i + 3..]; }
  }

  /** Characters pushed one by one make up their group. */
  lemma Pushed(out: string, v: bv32, rest: string)
    ensures var two := out + [UrlChar(First(v))] + [UrlChar(Second(v))];
            && two == out + UrlGroup(v)[..2]
            && two + [UrlChar(Third(v))] == out + UrlGroup(v)[..3]
            && two + [UrlChar(Third(v))] + [UrlChar(Fourth(v))] + rest == out + (UrlGroup(v) + rest)
  {
  }

  method Base64UrlNoPadding(bytes: Bytes) returns (out: string)
    ensures out == Encode(bytes)
  {
    out := "";
    var i := 0;
    assert bytes[0..] == bytes;
    while i + 3 <= |bytes|
      invariant i <= |bytes|
      invariant out + Encode(bytes[i..]) == Encode(bytes)
    {
      EncodeSuffix(bytes, i);
      var value := Word(bytes[i], bytes[i + 1], bytes[i + 2]);
      Pushed(out, value, Encode(bytes[i + 3..]));
      out := out + [UrlChar(First(value))] + [UrlChar(Second(value))] + [UrlChar(Third(value))] + [UrlChar(Fourth(value))];
      i := i + 3;
    }
    EncodeSuffix(bytes, i);
    var remaining := |bytes| - i;
    if remaining == 1 {
      var value := Word(bytes[i], 0, 0);
      Pushed(out, value, "");
      out := out + [UrlChar(First(value))] + [UrlChar(Second(value))];
    } else if remaining == 2 {
      var value := Word(bytes[i], bytes[i + 1], 0);
      Pushed(out, value, "");
      out := out + [UrlChar(First(value))] + [UrlChar(Second(value))] + [UrlChar(Third(value))];
    }
  }

  // ------------------------------------------------------------------ by way of padded base64

  function StdGroup(v: bv32): string {
    [StdChar(First(v)), StdChar(Second(v)), StdChar(Third(v)), StdChar(Fourth(v))]
  }

  /** Section 4 of RFC 4648: groups of four characters, the last one padded with '='. */
  function Padded(b: Bytes): string {
    if |b| == 0 then ""
    else if |b| == 1 then StdGroup(Word(b[0], 0, 0))[..2] + "=="
    else if |b| == 2 then StdGroup(Word(b[0], b[1], 0))[..3] + "="
    else StdGroup(Word(b[0], b[1], b[2])) + Padded(b[3..])
  }

  function Translate(c: char): char {
    if c == '+' then '-' else if c == '/' then '_' else c
  }

  function Translated(s: string): string {
    seq(|s|, i requires 0 <= i < |s| => Translate(s[i]))
  }

  lemma TranslateChar(x: Sextet)
    ensures Translate(StdChar(x)) == UrlChar(x) && UrlChar(x) != '='
  {
    AlphabetRanges(x as int);
  }

  lemma TranslatedJoined(a: string, b: string)
    ensures Translated(a + b) == Translated(a) + Translated(b)
  {
  }

  function Equals(n: nat): string {
    seq(n, i => '=')
  }

  lemma TranslateGroup(v: bv32)
    ensures Translated(StdGroup(v)) == UrlGroup(v) && '=' !in UrlGroup(v)
  {
    TranslateChar(First(v));
    TranslateChar(Second(v));
    TranslateChar(Third(v));
    TranslateChar(Fourth(v));
  }

  lemma TranslatedCons(v: bv32, padded: string, e: string, n: nat)
    requires Translated(padded) == e + Equals(n) && '=' !in e
    ensures Translated(StdGroup(v) + padded) == (UrlGroup(v) + e) + Equals(n)
    ensures '=' !in UrlGroup(v) + e
  {
    TranslateGroup(v);
    TranslatedJoined(StdGroup(v), padded);
    assert (UrlGroup(v) + e) + Equals(n) == UrlGroup(v) + (e + Equals(n));
  }

  lemma TranslatedEnd(v: bv32, n: nat)
    requires n == 2 || n == 3
    ensures Translated(StdGroup(v)[..n] + Equals(4 - n)) == UrlGroup(v)[..n] + Equals(4 - n)
    ensures '=' !in UrlGroup(v)[..n]
    ensures Equals(2) == "==" && Equals(1) == "="
  {
    TranslateGroup(v);
    assert Translated(StdGroup(v))[..n] == Translated(StdGroup(v)[..n]);
    assert Translated(Equals(4 - n)) == Equals(4 - n);
    TranslatedJoined(StdGroup(v)[..n], Equals(4 - n));
  }

  /** How many '=' signs pad the text of n bytes. */
  function PadLength(n: nat): nat {
    if n % 3 == 0 then 0 else 3 - n % 3
  }

  lemma PadLengthStep(n: nat)
    requires n >= 3
    ensures PadLength(n - 3) == PadLength(n)
  {
  }

  lemma TranslatedOne(b: Bytes)
    requires |b| == 1
    ensures Translated(Padded(b)) == Encode(b) + Equals(2) && '=' !in Encode(b)
  {
    TranslatedEnd(Word(b[0], 0, 0), 2);
  }

  lemma TranslatedTwo(b: Bytes)
    requires |b| == 2
    ensures Translated(Padded(b)) == Encode(b) + Equals(1) && '=' !in Encode(b)
  {
    TranslatedEnd(Word(b[0], b[1], 0), 3);
  }

  lemma GroupInFront(b: Bytes)
    requires |b| >= 3
    ensures Padded(b) == StdGroup(Word(b[0], b[1], b[2])) + Padded(b[3..])
    ensures Encode(b) == UrlGroup(Word(b[0], b[1], b[2])) + Encode(b[3..])
  {
  }

  lemma TranslatedInFront(b: Bytes)
    requires |b| >= 3 && '=' !in Encode(b[3..])
    requires Translated(Padded(b[3..])) == Encode(b[3..]) + Equals(PadLength(|b[3..]|))
    ensures Translated(Padded(b)) == Encode(b) + Equals(PadLength(|b|))
    ensures '=' !in Encode(b)
  {
    var v, padded, e := Word(b[0], b[1], b[2]), Padded(b[3..]), Encode(b[3..]);
    GroupInFront(b);
    PadLengthStep(|b|);
    TranslatedCons(v, padded, e, PadLength(|b|));
  }

  /** Translating the padded form gives the unpadded one, which has no '=', followed by its padding. */
  lemma {:induction false} TranslatedPadding(b: Bytes)
    ensures Translated(Padded(b)) == Encode(b) + Equals(PadLength(|b|))
    ensures '=' !in Encode(b)
  {
    if |b| == 1 {
      TranslatedOne(b);
    } else if |b| == 2 {
      TranslatedTwo(b);
    } else if |b| > 2 {
      TranslatedPadding(b[3..]);
      TranslatedInFront(b);
    }
  }

  lemma LastEquals(e: string, n: nat)
    requires '=' !in e
    ensures var s := e + Equals(n);
            && (s != "" && s[|s| - 1] == '=' <==> n > 0)
            && (n > 0 ==> s[..|s| - 1] == e + Equals(n - 1))
            && (n == 0 ==> s == e)
  {
  }

  /** The key publisher's route: padded base64, then translate in place, then drop the padding. */
  method Base64UrlEncode(bytes: Bytes) returns (encoded: string)
    ensures encoded == Encode(bytes)
  {
    if bytes == [] { return ""; }
    encoded := Padded(bytes);
    for i := 0 to |encoded|
      invariant |encoded| == |Padded(bytes)|
      invariant forall j :: 0 <= j < i ==> encoded[j] == Translate(Padded(bytes)[j])
      invariant forall j :: i <= j < |encoded| ==> encoded[j] == Padded(bytes)[j]
    {
      if encoded[i] == '+' {
        encoded := encoded[i := '-'];
      } else if encoded[i] == '/' {
        encoded := encoded[i := '_'];
      }
    }
    assert encoded == Translated(Padded(bytes));
    TranslatedPadding(bytes);
    ghost var n := PadLength(|bytes|);
    LastEquals(Encode(bytes), n);
    while encoded != "" && encoded[|encoded| - 1] == '='
      invariant encoded == Encode(bytes) + Equals(n)
      invariant encoded != "" && encoded[|encoded| - 1] == '=' <==> n > 0
      decreases n
    {
      LastEquals(Encode(bytes), n);
      encoded := encoded[..|encoded| - 1];
      n := n - 1;
      LastEquals(Encode(bytes), n);
    }
    LastEquals(Encode(bytes), n);
  }
}
