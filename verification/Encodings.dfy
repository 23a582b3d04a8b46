/** Base64 as section 4 of RFC 4648 tells it: the bytes are a number, and its base-64 digits are letters of an alphabet. */
module Rfc4648 {
  import opened Core
  import opened Base64

  const ALPHABET := "ABCDEFGHIJKLMNOPQRSTUVWXYZabcdefghijklmnopqrstuvwxyz0123456789+/"

  /** The first n bytes as one number, the first byte first. */
  function Number(b: Bytes, n: nat): nat
    requires n <= |b|
  {
    if n == 0 then 0 else Number(b, n - 1) * 256 + b[n - 1]
  }

  /** The last `len` base-64 digits of v. */
  function Digits(v: nat, len: nat): (ds: seq<Sextet>)
    ensures |ds| == len
  {
    if len == 0 then [] else Digits(v / 64, len - 1) + [v % 64]
  }

  /** Every digit as its letter. */
  function Letters(abc: string, ds: seq<Sextet>): (s: string)
    requires |abc| == 64
    ensures |s| == |ds|
  {
    seq(|ds|, i requires 0 <= i < |ds| => abc[ds[i]])
  }

  /** Every three bytes are four letters; what is left over is filled up with zero bits, and the letters with padding. */
  function Spelling(abc: string, b: Bytes): string
    requires |abc| == 64
  {
    Letters(abc, DigitsOf(b)) + Padding(b)
  }

  function DigitsOf(b: Bytes): seq<Sextet> {
    Digits(Filled(b), Count(b))
  }

  /** The number of the bytes, filled up with zero bits to whole digits. */
  function Filled(b: Bytes): nat {
    Number(b, |b|) * (if |b| % 3 == 0 then 1 else if |b| % 3 == 1 then 16 else 4)
  }

  function Count(b: Bytes): nat {
    |b| / 3 * 4 + (if |b| % 3 == 0 then 0 else |b| % 3 + 1)
  }

  function Padding(b: Bytes): string {
    if |b| % 3 == 0 then [] else if |b| % 3 == 1 then ['=', '='] else ['=']
  }

  // ----- the digits that the encoder writes -----

  function ByteAt(b: Bytes, i: nat): Byte {
    if i < |b| then b[i] else 0
  }

  /** The i-th six bits of three bytes. */
  function SixBits(x: Byte, y: Byte, z: Byte, i: nat): Sextet
    requires i < 4
  {
    match i
    case 0 => x / 4
    case 1 => x % 4 * 16 + y / 16
    case 2 => y % 16 * 4 + z / 64
    case 3 => z % 64
  }

  function SextetAt(b: Bytes, k: nat, i: nat): Sextet
    requires i < 4
  {
    SixBits(ByteAt(b, 3 * k), ByteAt(b, 3 * k + 1), ByteAt(b, 3 * k + 2), i)
  }

  function Sextets(b: Bytes): (ds: seq<Sextet>)
    ensures |ds| == Count(b)
  {
    seq(Count(b), j requires 0 <= j < Count(b) => SextetAt(b, j / 4, j % 4))
  }

  lemma {:induction false} EncodeLength(b: Bytes, k: nat)
    requires |b| <= 3 * k < |b| + 3
    ensures |Encode(b)| == 4 * k
    decreases k
  {
    if |b| >= 3 {
      EncodeLength(b[3..], k - 1);
    }
  }

  lemma CountAt(b: Bytes, k: nat, i: nat)
    requires 3 * k < |b| && i < 4
    ensures 4 * k + i < Count(b) <==> 3 * k + i <= |b|
  {
  }

  /** The k-th four characters of an encoding. */
  lemma {:induction false} EncodeAt(b: Bytes, k: nat)
    requires 3 * k < |b|
    ensures 4 * k + 4 <= |Encode(b)| && Encode(b)[4 * k..4 * k + 4] == Piece(b, k)
    decreases k
  {
    if k > 0 {
      EncodeAt(b[3..], k - 1);
      PieceBehind(b, k);
      EncodeStep(b);
      Behind(Block(b[0], b[1], b[2]), Encode(b[3..]), 4 * (k - 1));
    } else {
      EncodeFirst(b);
    }
  }

  /** The k-th three bytes encoded, or what is left of them. */
  function Piece(b: Bytes, k: nat): string
    requires 3 * k < |b|
  {
    if |b| == 3 * k + 1 then LastOne(b[3 * k])
    else if |b| == 3 * k + 2 then LastTwo(b[3 * k], b[3 * k + 1])
    else Block(b[3 * k], b[3 * k + 1], b[3 * k + 2])
  }

  lemma PieceBehind(b: Bytes, k: nat)
    requires 0 < k && 3 * k < |b|
    ensures Piece(b, k) == Piece(b[3..], k - 1)
  {
    assert forall i :: 0 <= i < |b| - 3 ==> b[3..][i] == b[i + 3];
  }

  lemma EncodeStep(b: Bytes)
    requires |b| >= 3
    ensures Encode(b) == Block(b[0], b[1], b[2]) + Encode(b[3..])
  {
  }

  lemma EncodeFirst(b: Bytes)
    requires b != []
    ensures 4 <= |Encode(b)| && Encode(b)[..4] == Piece(b, 0)
  {
  }

  lemma Behind(front: string, s: string, p: nat)
    requires |front| == 4 && p + 4 <= |s|
    ensures (front + s)[p + 4..p + 8] == s[p..p + 4]
  {
  }

  /** Every character stands for the six bits there, and padding for none. */
  lemma EncodeWrites(b: Bytes, k: nat, i: nat)
    requires 3 * k < |b| && i < 4
    ensures 4 * k + i < |Encode(b)|
    ensures Encode(b)[4 * k + i] == if 3 * k + i <= |b| then CharOf(SextetAt(b, k, i)) else '='
  {
    var x, y, z := ByteAt(b, 3 * k), ByteAt(b, 3 * k + 1), ByteAt(b, 3 * k + 2);
    EncodeAt(b, k);
    PieceAt(Encode(b), 4 * k, i);
    BlocksWrite(x, y, z, i);
  }

  lemma PieceAt(s: string, p: nat, i: nat)
    requires p + 4 <= |s| && i < 4
    ensures s[p + i] == s[p..p + 4][i]
  {
  }

  lemma BlocksWrite(x: Byte, y: Byte, z: Byte, i: nat)
    requires i < 4
    ensures LastOne(x)[i] == if i <= 1 then CharOf(SixBits(x, 0, 0, i)) else '='
    ensures LastTwo(x, y)[i] == if i <= 2 then CharOf(SixBits(x, y, 0, i)) else '='
    ensures Block(x, y, z)[i] == CharOf(SixBits(x, y, z, i))
  {
  }

  // ----- their value -----

  /** The first n digits as one base-64 number. */
  function Value(ds: seq<Sextet>, n: nat): nat
    requires n <= |ds|
  {
    if n == 0 then 0 else Value(ds, n - 1) * 64 + ds[n - 1]
  }

  /** A number of so many digits has these digits and no others. */
  lemma {:induction false} DigitsOfValue(ds: seq<Sextet>, n: nat)
    requires n <= |ds|
    ensures Digits(Value(ds, n), n) == ds[..n]
  {
    if n > 0 {
      DigitsOfValue(ds, n - 1);
      LastDigit(Value(ds, n), Value(ds, n - 1), ds[n - 1]);
    }
  }

  lemma LastDigit(v: nat, rest: nat, d: nat)
    requires v == rest * 64 + d && d < 64
    ensures v / 64 == rest && v % 64 == d
  {
  }

  /** Two, three or four digits are one, two or three bytes. */
  lemma Regroup(v: nat, x: Byte, y: Byte, z: Byte)
    ensures var (p, q, r, t) := (SixBits(x, y, z, 0), SixBits(x, y, z, 1), SixBits(x, y, z, 2), SixBits(x, y, z, 3));
            && (((v * 64 + p) * 64 + q) * 64 + r) * 64 + t == ((v * 256 + x) * 256 + y) * 256 + z
            && (z == 0 ==> ((v * 64 + p) * 64 + q) * 64 + r == ((v * 256 + x) * 256 + y) * 4)
            && (y == 0 ==> (v * 64 + p) * 64 + q == (v * 256 + x) * 16)
  {
  }

  lemma ValueMore(ds: seq<Sextet>, n: nat)
    requires n <= |ds|
    ensures n + 2 <= |ds| ==> Value(ds, n + 2) == (Value(ds, n) * 64 + ds[n]) * 64 + ds[n + 1]
    ensures n + 3 <= |ds| ==> Value(ds, n + 3) == Value(ds, n + 2) * 64 + ds[n + 2]
    ensures n + 4 <= |ds| ==> Value(ds, n + 4) == Value(ds, n + 3) * 64 + ds[n + 3]
  {
    if n + 2 <= |ds| {
      assert Value(ds, n + 1) == Value(ds, n) * 64 + ds[n];
    }
  }

  lemma NumberMore(b: Bytes, n: nat)
    requires n < |b|
    ensures Number(b, n + 1) == Number(b, n) * 256 + b[n]
    ensures n + 2 <= |b| ==> Number(b, n + 2) == Number(b, n + 1) * 256 + b[n + 1]
    ensures n + 3 <= |b| ==> Number(b, n + 3) == Number(b, n + 2) * 256 + b[n + 2]
  {
  }

  /** The k-th four digits are the k-th three bytes; fewer bytes are followed by zero bits. */
  ghost predicate Regroups(b: Bytes, ds: seq<Sextet>, k: nat) {
    forall i :: 0 <= i < 4 && 4 * k + i < |ds| ==> ds[4 * k + i] == SextetAt(b, k, i)
  }

  lemma {:induction false} ValueOfWhole(b: Bytes, ds: seq<Sextet>, k: nat)
    requires 3 * k <= |b| && 4 * k <= |ds| && forall j :: 0 <= j < k ==> Regroups(b, ds, j)
    ensures Value(ds, 4 * k) == Number(b, 3 * k)
  {
    if k > 0 {
      ValueOfWhole(b, ds, k - 1);
      ValueOfNext(b, ds, k - 1);
    }
  }

  lemma ValueOfNext(b: Bytes, ds: seq<Sextet>, k: nat)
    requires 3 * k < |b| && 4 * k < |ds| && Value(ds, 4 * k) == Number(b, 3 * k) && Regroups(b, ds, k)
    ensures 3 * k + 3 <= |b| && 4 * k + 4 <= |ds| ==> Value(ds, 4 * k + 4) == Number(b, 3 * k + 3)
    ensures |b| == 3 * k + 2 && |ds| == 4 * k + 3 ==> Value(ds, |ds|) == Number(b, |b|) * 4
    ensures |b| == 3 * k + 1 && |ds| == 4 * k + 2 ==> Value(ds, |ds|) == Number(b, |b|) * 16
  {
    var n := 4 * k;
    ValueMore(ds, n);
    NumberMore(b, 3 * k);
    Regroup(Value(ds, n), ByteAt(b, 3 * k), ByteAt(b, 3 * k + 1), ByteAt(b, 3 * k + 2));
    assert n + 0 < |ds| ==> ds[n] == SextetAt(b, k, 0);
    assert n + 1 < |ds| ==> ds[n + 1] == SextetAt(b, k, 1);
    assert n + 2 < |ds| ==> ds[n + 2] == SextetAt(b, k, 2);
    assert n + 3 < |ds| ==> ds[n + 3] == SextetAt(b, k, 3);
  }

  lemma SextetsRegroup(b: Bytes, k: nat)
    ensures Regroups(b, Sextets(b), k)
  {
    forall i | 0 <= i < 4 && 4 * k + i < |Sextets(b)|
      ensures Sextets(b)[4 * k + i] == SextetAt(b, k, i)
    {
      assert (4 * k + i) / 4 == k && (4 * k + i) % 4 == i;
    }
  }

  lemma ValueOfSextets(b: Bytes)
    ensures Value(Sextets(b), Count(b)) == Filled(b)
  {
    var k := |b| / 3;
    forall j
      ensures j >= 0 ==> Regroups(b, Sextets(b), j)
    {
      if j >= 0 {
        SextetsRegroup(b, j);
      }
    }
    ValueOfWhole(b, Sextets(b), k);
    if |b| > 3 * k {
      ValueOfNext(b, Sextets(b), k);
    }
  }

  /** The encoder's digits are the standard's. */
  lemma SextetsAreDigits(b: Bytes)
    ensures Sextets(b) == DigitsOf(b) && Value(DigitsOf(b), Count(b)) == Filled(b)
  {
    ValueOfSextets(b);
    DigitsOfValue(Sextets(b), Count(b));
    assert Sextets(b)[..Count(b)] == Sextets(b);
  }

  /** The codec's own letters for the digits, and padding. */
  lemma EncodeAtAll(b: Bytes, j: nat)
    requires j < |Encode(b)|
    ensures |Encode(b)| == |Sextets(b)| + |Padding(b)|
    ensures Encode(b)[j] == if j < |Sextets(b)| then CharOf(Sextets(b)[j]) else '='
  {
    var k, i := j / 4, j % 4;
    EncodeLengths(b);
    Place(|b|, j);
    SextetsRegroup(b, k);
    CountAt(b, k, i);
    EncodeWrites(b, k, i);
  }

  lemma EncodeLengths(b: Bytes)
    ensures |Encode(b)| == |Sextets(b)| + |Padding(b)| && |Encode(b)| == 4 * ((|b| + 2) / 3)
  {
    Quarters(|b|);
    EncodeLength(b, (|b| + 2) / 3);
  }

  lemma Quarters(n: nat)
    ensures n <= (n + 2) / 3 * 3 < n + 3
    ensures n / 3 * 4 + (if n % 3 == 0 then 0 else 4) == 4 * ((n + 2) / 3)
  {
  }

  lemma Place(n: nat, j: nat)
    requires j < 4 * ((n + 2) / 3)
    ensures 3 * (j / 4) < n && 4 * (j / 4) + j % 4 == j
  {
  }

  // ----- the alphabet -----

  /** The codec's letters stand for the digits 0 to 63 in this order. */
  predicate Spells(abc: string) {
    |abc| == 64 && forall n: Sextet :: CharOf(n) == abc[n]
  }

  const CAPITALS := "ABCDEFGHIJKLMNOPQRSTUVWXYZ"
  const SMALLS := "abcdefghijklmnopqrstuvwxyz"
  const NUMERALS := "0123456789"

  lemma AfterCapitals()
    ensures ALPHABET == CAPITALS + "abcdefghijklmnopqrstuvwxyz0123456789+/"
  {
  }

  lemma AfterSmalls()
    ensures "abcdefghijklmnopqrstuvwxyz0123456789+/" == SMALLS + "0123456789+/"
  {
  }

  lemma AfterNumerals()
    ensures "0123456789+/" == NUMERALS + "+/"
  {
  }

  lemma InParts(whole: string, a: string, b: string, c: string, d: string, rest1: string, rest2: string)
    requires whole == a + rest1 && rest1 == b + rest2 && rest2 == c + d
    ensures whole == a + b + c + d
  {
  }

  lemma AlphabetParts()
    ensures ALPHABET == CAPITALS + SMALLS + NUMERALS + "+/"
  {
    AfterCapitals();
    AfterSmalls();
    AfterNumerals();
    InParts(ALPHABET, CAPITALS, SMALLS, NUMERALS, "+/", "abcdefghijklmnopqrstuvwxyz0123456789+/", "0123456789+/");
  }

  lemma Capital(n: nat)
    requires n < 26
    ensures |CAPITALS| == 26 && CAPITALS[n] as int == 'A' as int + n
  {
  }

  lemma Small(n: nat)
    requires n < 26
    ensures |SMALLS| == 26 && SMALLS[n] as int == 'a' as int + n
  {
  }

  lemma Numeral(n: nat)
    requires n < 10
    ensures |NUMERALS| == 10 && NUMERALS[n] as int == '0' as int + n
  {
  }

  /** The digits in four parts of an alphabet. */
  lemma PartsSpell(capitals: string, smalls: string, numerals: string)
    requires |capitals| == 26 && forall n :: 0 <= n < 26 ==> capitals[n] as int == 'A' as int + n
    requires |smalls| == 26 && forall n :: 0 <= n < 26 ==> smalls[n] as int == 'a' as int + n
    requires |numerals| == 10 && forall n :: 0 <= n < 10 ==> numerals[n] as int == '0' as int + n
    ensures Spells(capitals + smalls + numerals + "+/")
  {
  }

  lemma AlphabetSpells()
    ensures Spells(ALPHABET)
  {
    AlphabetParts();
    forall n | 0 <= n < 26
      ensures CAPITALS[n] as int == 'A' as int + n && SMALLS[n] as int == 'a' as int + n
    {
      Capital(n);
      Small(n);
    }
    forall n | 0 <= n < 10
      ensures NUMERALS[n] as int == '0' as int + n
    {
      Numeral(n);
    }
    PartsSpell(CAPITALS, SMALLS, NUMERALS);
  }

  /** The encoder spells every byte string as the standard says, with this alphabet. */
  lemma EncodeIsSpelling(b: Bytes)
    ensures ALPHABET == "ABCDEFGHIJKLMNOPQRSTUVWXYZabcdefghijklmnopqrstuvwxyz0123456789+/" && |ALPHABET| == 64
    ensures Encode(b) == Spelling(ALPHABET, b)
  {
    AlphabetSpells();
    SextetsAreDigits(b);
    EncodeLengths(b);
    forall j | 0 <= j < |Encode(b)|
      ensures Encode(b)[j] == Spelling(ALPHABET, b)[j]
    {
      EncodeAtAll(b, j);
      SpellingAt(ALPHABET, b, j);
    }
  }

  lemma SpellingAt(abc: string, b: Bytes, j: nat)
    requires |abc| == 64 && j < |DigitsOf(b)| + |Padding(b)|
    ensures Spelling(abc, b)[j] == if j < |DigitsOf(b)| then abc[DigitsOf(b)[j]] else '='
  {
  }

  /** The decoder reads exactly the standard's spellings: a text is some bytes if it is their spelling, and else nothing. */
  lemma DecodeIff(s: string, b: Bytes)
    ensures |ALPHABET| == 64
    ensures Decode(s) == Some(b) <==> s == Spelling(ALPHABET, b)
  {
    EncodeIsSpelling(b);
    DecodeOfEncode(b);
    if Decode(s) == Some(b) {
      EncodeOfDecode(s);
    }
  }

  /** The text is letters that stand at the digits' places in the alphabet, and padding. */
  predicate Reads(abc: string, s: string, ds: seq<Sextet>, padding: string)
    requires |abc| == 64
  {
    |s| == |ds| + |padding| && s[|ds|..] == padding && forall i :: 0 <= i < |ds| ==> s[i] == abc[ds[i]]
  }

  /** A decoded text is read off the alphabet: its letters are digits of the number that the bytes are. */
  lemma DecodedNumber(s: string)
    requires Decode(s).Some?
    ensures |ALPHABET| == 64
    ensures var b := Decode(s).value;
            Reads(ALPHABET, s, DigitsOf(b), Padding(b)) && Value(DigitsOf(b), Count(b)) == Filled(b)
  {
    DecodeIff(s, Decode(s).value);
    SextetsAreDigits(Decode(s).value);
  }
}

/** UTF-8 as section 3 of RFC 3629 tells it: every scalar value has one sequence of one to four bytes. */
module Rfc3629 {
  import opened Core
  import opened Metadatas

  /** The code points that are not surrogates. */
  type Scalar = n: int | 0 <= n < 0xD800 || 0xE000 <= n <= 0x10FFFF

  function Utf8(n: Scalar): (b: Bytes)
    ensures 1 <= |b| <= 4
  {
    if n < 0x80 then [n]
    else if n < 0x800 then [0xC0 + n / 64, 0x80 + n % 64]
    else if n < 0x10000 then [0xE0 + n / 4096, 0x80 + n / 64 % 64, 0x80 + n % 64]
    else [0xF0 + n / 262144, 0x80 + n / 4096 % 64, 0x80 + n / 64 % 64, 0x80 + n % 64]
  }

  function Utf8Text(text: seq<Scalar>): Bytes {
    if text == [] then [] else Utf8(text[0]) + Utf8Text(text[1..])
  }

  /** The number in the payload bits of so many bytes. */
  function Payload(b: Bytes, len: nat): int
    requires 1 <= len <= 4 && len <= |b|
  {
    match len
    case 1 => b[0] as int
    case 2 => (b[0] as int - 0xC0) * 64 + (b[1] as int - 0x80)
    case 3 => ((b[0] as int - 0xE0) * 64 + (b[1] as int - 0x80)) * 64 + (b[2] as int - 0x80)
    case 4 => (((b[0] as int - 0xF0) * 64 + (b[1] as int - 0x80)) * 64 + (b[2] as int - 0x80)) * 64 + (b[3] as int - 0x80)
  }

  /** A well-formed sequence at the front is that of some scalar value. */
  lemma FirstIsScalar(b: Bytes)
    requires b != [] && FirstLength(b) > 0
    ensures var n := Payload(b, FirstLength(b));
            (0 <= n < 0xD800 || 0xE000 <= n <= 0x10FFFF) && Utf8(n) == b[..FirstLength(b)]
  {
    var len := FirstLength(b);
    if len == 2 {
      TwoBytes(b);
    } else if len == 3 {
      ThreeBytes(b);
    } else if len == 4 {
      FourBytes(b);
    }
  }

  lemma TwoBytes(b: Bytes)
    requires b != [] && FirstLength(b) == 2
    ensures var n := Payload(b, 2); 0x80 <= n < 0x800 && Utf8(n) == b[..2]
  {
    var n := Payload(b, 2);
    assert n / 64 == b[0] as int - 0xC0 && n % 64 == b[1] as int - 0x80;
  }

  lemma ThreeBytes(b: Bytes)
    requires b != [] && FirstLength(b) == 3
    ensures var n := Payload(b, 3); (0x800 <= n < 0xD800 || 0xE000 <= n < 0x10000) && Utf8(n) == b[..3]
  {
    var n := Payload(b, 3);
    assert n / 64 == (b[0] as int - 0xE0) * 64 + (b[1] as int - 0x80) && n % 64 == b[2] as int - 0x80;
    assert n / 4096 == b[0] as int - 0xE0 && n / 64 % 64 == b[1] as int - 0x80;
  }

  lemma FourBytes(b: Bytes)
    requires b != [] && FirstLength(b) == 4
    ensures var n := Payload(b, 4); 0x10000 <= n <= 0x10FFFF && Utf8(n) == b[..4]
  {
    var n := Payload(b, 4);
    assert n / 64 == ((b[0] as int - 0xF0) * 64 + (b[1] as int - 0x80)) * 64 + (b[2] as int - 0x80) && n % 64 == b[3] as int - 0x80;
    assert n / 4096 == (b[0] as int - 0xF0) * 64 + (b[1] as int - 0x80) && n / 64 % 64 == b[2] as int - 0x80;
    assert n / 262144 == b[0] as int - 0xF0 && n / 4096 % 64 == b[1] as int - 0x80;
  }

  /** The sequence of a scalar value is well-formed, whatever follows it. */
  lemma ScalarIsFirst(n: Scalar, rest: Bytes)
    ensures FirstLength(Utf8(n) + rest) == |Utf8(n)|
  {
    var b := Utf8(n) + rest;
    assert forall i :: 0 <= i < |Utf8(n)| ==> b[i] == Utf8(n)[i];
  }

  lemma {:induction false} TextIsValid(text: seq<Scalar>)
    ensures ValidUtf8(Utf8Text(text))
  {
    if text != [] {
      TextIsValid(text[1..]);
      ScalarIsFirst(text[0], Utf8Text(text[1..]));
      var b := Utf8Text(text);
      assert b[FirstLength(b)..] == Utf8Text(text[1..]);
    }
  }

  lemma {:induction false} ValidIsText(b: Bytes) returns (text: seq<Scalar>)
    requires ValidUtf8(b)
    ensures Utf8Text(text) == b
    decreases |b|
  {
    if b == [] {
      text := [];
    } else {
      var len := FirstLength(b);
      FirstIsScalar(b);
      var rest := ValidIsText(b[len..]);
      var n: Scalar := Payload(b, len);
      text := [n] + rest;
      assert text[1..] == rest && b == b[..len] + b[len..];
    }
  }

  /** Bytes are valid exactly if they are the encoding of a text. */
  lemma ValidIff(b: Bytes)
    ensures ValidUtf8(b) <==> exists text {:trigger Utf8Text(text)} :: b == Utf8Text(text)
  {
    if ValidUtf8(b) {
      var text := ValidIsText(b);
      assert b == Utf8Text(text);
    }
    if text :| b == Utf8Text(text) {
      TextIsValid(text);
    }
  }
}
