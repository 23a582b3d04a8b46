/** Standard base64 with mandatory canonical padding (section 4 of RFC 4648). */
module Base64 {
  import opened Core

  type Sextet = n: int | 0 <= n < 64

  function CharOf(n: Sextet): char {
    if n < 26 then ('A' as int + n) as char
    else if n < 52 then ('a' as int + n - 26) as char
    else if n < 62 then ('0' as int + n - 52) as char
    else if n == 62 then '+' else '/'
  }

  function SextetOf(c: char): Option<Sextet> {
    if 'A' <= c <= 'Z' then Some(c as int - 'A' as int)
    else if 'a' <= c <= 'z' then Some(c as int - 'a' as int + 26)
    else if '0' <= c <= '9' then Some(c as int - '0' as int + 52)
    else if c == '+' then Some(62)
    else if c == '/' then Some(63)
    else None
  }

  /** Every character of an encoding is one of these. */
  predicate EncodingChar(c: char) {
    SextetOf(c).Some? || c == '='
  }

  lemma CharsMatch(n: Sextet)
    ensures SextetOf(CharOf(n)) == Some(n) && CharOf(n) != '='
  {
  }

  lemma SextetsMatch(c: char)
    requires SextetOf(c).Some?
    ensures CharOf(SextetOf(c).value) == c
  {
  }

  function Encode(b: Bytes): (s: string)
    ensures |s| % 4 == 0 && (s == [] <==> b == [])
  {
    if b == [] then []
    else if |b| == 1 then LastOne(b[0])
    else if |b| == 2 then LastTwo(b[0], b[1])
    else Block(b[0], b[1], b[2]) + Encode(b[3..])
  }

  function LastOne(x: Byte): (s: string)
    ensures |s| == 4
  {
    [CharOf(x / 4), CharOf(x % 4 * 16), '=', '=']
  }

  function LastTwo(x: Byte, y: Byte): (s: string)
    ensures |s| == 4
  {
    [CharOf(x / 4), CharOf(x % 4 * 16 + y / 16), CharOf(y % 16 * 4), '=']
  }

  function Block(x: Byte, y: Byte, z: Byte): (s: string)
    ensures |s| == 4
  {
    [CharOf(x / 4), CharOf(x % 4 * 16 + y / 16), CharOf(y % 16 * 4 + z / 64), CharOf(z % 64)]
  }

  lemma BlockChars(x: Byte, y: Byte, z: Byte)
    ensures forall i :: 0 <= i < 4 ==> SextetOf(Block(x, y, z)[i]).Some?
    ensures forall i :: 0 <= i < 4 ==> EncodingChar(LastOne(x)[i]) && EncodingChar(LastTwo(x, y)[i])
  {
    CharsMatch(x / 4);
    CharsMatch(x % 4 * 16);
    CharsMatch(x % 4 * 16 + y / 16);
    CharsMatch(y % 16 * 4);
    CharsMatch(y % 16 * 4 + z / 64);
    CharsMatch(z % 64);
  }

  lemma {:induction false} EncodeChars(b: Bytes)
    ensures forall c :: c in Encode(b) ==> EncodingChar(c)
  {
    if 0 < |b| < 3 {
      BlockChars(b[0], if |b| > 1 then b[1] else 0, 0);
    } else if b != [] {
      BlockChars(b[0], b[1], b[2]);
      EncodeChars(b[3..]);
    }
  }

  /** Four sextets as three bytes. */
  function Unblock(p: Sextet, q: Sextet, r: Sextet, t: Sextet): (b: Bytes)
    ensures |b| == 3
  {
    [p * 4 + q / 16, q % 16 * 16 + r / 4, r % 4 * 64 + t]
  }

  /** The last four characters, which may be padded; bits that the padding cuts off must be zero. */
  function DecodeLast(s: string): Option<Bytes>
    requires |s| == 4
  {
    var p, q, r, t := SextetOf(s[0]), SextetOf(s[1]), SextetOf(s[2]), SextetOf(s[3]);
    if p.None? || q.None? then None
    else if s[2] == '=' && s[3] == '=' then
      if q.value % 16 == 0 then Some([p.value * 4 + q.value / 16]) else None
    else if r.None? then None
    else if s[3] == '=' then
      if r.value % 4 == 0 then Some([p.value * 4 + q.value / 16, q.value % 16 * 16 + r.value / 4]) else None
    else if t.None? then None
    else Some(Unblock(p.value, q.value, r.value, t.value))
  }

  function Decode(s: string): (r: Option<Bytes>)
    ensures r.Some? ==> (r.value == [] <==> s == [])
  {
    if s == [] then Some([])
    else if |s| < 4 then None
    else if |s| == 4 then DecodeLast(s)
    else
      var p, q, r, t := SextetOf(s[0]), SextetOf(s[1]), SextetOf(s[2]), SextetOf(s[3]);
      if p.None? || q.None? || r.None? || t.None? then None
      else
        var rest := Decode(s[4..]);
        if rest.None? then None else Some(Unblock(p.value, q.value, r.value, t.value) + rest.value)
  }

  /** Cutting 24 bits into bytes and into sextets are inverse. */
  lemma Regroup(p: Sextet, q: Sextet, r: Sextet, t: Sextet)
    ensures var (x, y, z) := (p * 4 + q / 16, q % 16 * 16 + r / 4, r % 4 * 64 + t);
            x / 4 == p && x % 4 * 16 + y / 16 == q && y % 16 * 4 + z / 64 == r && z % 64 == t
    ensures q % 16 == 0 ==> (p * 4 + q / 16) % 4 * 16 == q
    ensures r % 4 == 0 ==> (q % 16 * 16 + r / 4) % 16 * 4 == r
  {
    assert (p * 4 + q / 16) / 4 == p && (p * 4 + q / 16) % 4 == q / 16;
    assert (q % 16 * 16 + r / 4) / 16 == q % 16 && (q % 16 * 16 + r / 4) % 16 == r / 4;
    assert (r % 4 * 64 + t) / 64 == r % 4 && (r % 4 * 64 + t) % 64 == t;
  }

  lemma BlockRoundTrip(x: Byte, y: Byte, z: Byte)
    ensures forall i :: 0 <= i < 4 ==> SextetOf(Block(x, y, z)[i]).Some?
    ensures var s := Block(x, y, z);
            Unblock(SextetOf(s[0]).value, SextetOf(s[1]).value, SextetOf(s[2]).value, SextetOf(s[3]).value) == [x, y, z]
    ensures DecodeLast(Block(x, y, z)) == Some([x, y, z])
  {
    var (p, q, r, t) := (x / 4, x % 4 * 16 + y / 16, y % 16 * 4 + z / 64, z % 64);
    CharsMatch(p);
    CharsMatch(q);
    CharsMatch(r);
    CharsMatch(t);
    Ungroup(x, y, z);
  }

  lemma Ungroup(x: Byte, y: Byte, z: Byte)
    ensures var (p, q, r, t) := (x / 4, x % 4 * 16 + y / 16, y % 16 * 4 + z / 64, z % 64);
            p * 4 + q / 16 == x && q % 16 * 16 + r / 4 == y && r % 4 * 64 + t == z
  {
    var (p, q, r, t) := (x / 4, x % 4 * 16 + y / 16, y % 16 * 4 + z / 64, z % 64);
    assert q / 16 == x % 4 && q % 16 == y / 16;
    assert r / 4 == y % 16 && r % 4 == z / 64;
  }

  lemma UnblockRoundTrip(p: Sextet, q: Sextet, r: Sextet, t: Sextet)
    ensures var b := Unblock(p, q, r, t); Block(b[0], b[1], b[2]) == [CharOf(p), CharOf(q), CharOf(r), CharOf(t)]
  {
    Regroup(p, q, r, t);
    var b := Unblock(p, q, r, t);
    assert b[0] / 4 == p && b[0] % 4 * 16 + b[1] / 16 == q && b[1] % 16 * 4 + b[2] / 64 == r && b[2] % 64 == t;
  }

  lemma TwoBytes(x: Byte, y: Byte)
    ensures DecodeLast(LastTwo(x, y)) == Some([x, y])
  {
    var (p, q, r) := (x / 4, x % 4 * 16 + y / 16, y % 16 * 4);
    CharsMatch(p);
    CharsMatch(q);
    CharsMatch(r);
    assert p * 4 + q / 16 == x && q % 16 * 16 + r / 4 == y && r % 4 == 0;
  }

  lemma OneByte(x: Byte)
    ensures DecodeLast(LastOne(x)) == Some([x])
  {
    CharsMatch(x / 4);
    CharsMatch(x % 4 * 16);
  }

  lemma DecodeStep(x: Byte, y: Byte, z: Byte, rest: string)
    requires |rest| % 4 == 0
    ensures Decode(Block(x, y, z) + rest) == match Decode(rest) case Some(b) => Some([x, y, z] + b) case None => None
  {
    BlockRoundTrip(x, y, z);
    var s := Block(x, y, z) + rest;
    assert s[4..] == rest;
    if rest == [] {
      assert s == Block(x, y, z);
      assert [x, y, z] + [] == [x, y, z];
    } else {
      assert |s| > 4;
    }
  }

  lemma LastRoundTrip(b: Bytes)
    requires 0 < |b| < 3
    ensures Decode(Encode(b)) == Some(b)
  {
    if |b| == 1 {
      OneByte(b[0]);
      assert b == [b[0]] && Encode(b) == LastOne(b[0]);
    } else {
      TwoBytes(b[0], b[1]);
      assert b == [b[0], b[1]] && Encode(b) == LastTwo(b[0], b[1]);
    }
  }

  /** Decoding an encoding gives the bytes back. */
  lemma {:induction false} DecodeOfEncode(b: Bytes)
    ensures Decode(Encode(b)) == Some(b)
  {
    if 0 < |b| < 3 {
      LastRoundTrip(b);
    } else if |b| >= 3 {
      DecodeOfEncode(b[3..]);
      DecodeStep(b[0], b[1], b[2], Encode(b[3..]));
      assert b == [b[0], b[1], b[2]] + b[3..];
    }
  }

  /** Only an encoding decodes: there is one spelling of every byte string. */
  lemma {:induction false} EncodeOfDecode(s: string)
    requires Decode(s).Some?
    ensures Encode(Decode(s).value) == s
  {
    if |s| == 4 {
      LastIsCanonical(s);
    } else if |s| > 4 {
      var block := DecodedBlock(s);
      EncodeOfDecode(s[4..]);
      EncodeOfBlock(block, Decode(s[4..]).value);
      assert s == s[..4] + s[4..];
    }
  }

  /** The first four characters are a block of their own. */
  lemma DecodedBlock(s: string) returns (block: Bytes)
    requires |s| > 4 && Decode(s).Some?
    ensures |block| == 3 && Decode(s[4..]).Some? && Decode(s).value == block + Decode(s[4..]).value
    ensures Block(block[0], block[1], block[2]) == s[..4]
  {
    var p, q, r, t := SextetOf(s[0]).value, SextetOf(s[1]).value, SextetOf(s[2]).value, SextetOf(s[3]).value;
    block := Unblock(p, q, r, t);
    UnblockRoundTrip(p, q, r, t);
    SextetsMatch(s[0]);
    SextetsMatch(s[1]);
    SextetsMatch(s[2]);
    SextetsMatch(s[3]);
    assert s[..4] == [s[0], s[1], s[2], s[3]];
  }

  lemma EncodeOfBlock(block: Bytes, rest: Bytes)
    requires |block| == 3
    ensures Encode(block + rest) == Block(block[0], block[1], block[2]) + Encode(rest)
  {
    assert (block + rest)[3..] == rest;
  }

  lemma OneByteIsCanonical(p: Sextet, q: Sextet)
    requires q % 16 == 0
    ensures LastOne(p * 4 + q / 16) == [CharOf(p), CharOf(q), '=', '=']
  {
    Regroup(p, q, 0, 0);
    assert (p * 4 + q / 16) / 4 == p;
  }

  lemma TwoBytesAreCanonical(p: Sextet, q: Sextet, r: Sextet)
    requires r % 4 == 0
    ensures LastTwo(p * 4 + q / 16, q % 16 * 16 + r / 4) == [CharOf(p), CharOf(q), CharOf(r), '=']
  {
    Regroup(p, q, r, 0);
  }

  lemma LastIsCanonical(s: string)
    requires |s| == 4 && DecodeLast(s).Some?
    ensures Encode(DecodeLast(s).value) == s
  {
    SextetsMatch(s[0]);
    SextetsMatch(s[1]);
    var (p, q) := (SextetOf(s[0]).value, SextetOf(s[1]).value);
    if s[2] == '=' {
      OneByteIsCanonical(p, q);
    } else {
      SextetsMatch(s[2]);
      if s[3] == '=' {
        TwoBytesAreCanonical(p, q, SextetOf(s[2]).value);
      } else {
        FullIsCanonical(s);
      }
    }
  }

  lemma FullIsCanonical(s: string)
    requires |s| == 4 && forall i :: 0 <= i < 4 ==> SextetOf(s[i]).Some?
    ensures Encode(Unblock(SextetOf(s[0]).value, SextetOf(s[1]).value, SextetOf(s[2]).value, SextetOf(s[3]).value)) == s
  {
    var (p, q, r, t) := (SextetOf(s[0]).value, SextetOf(s[1]).value, SextetOf(s[2]).value, SextetOf(s[3]).value);
    UnblockRoundTrip(p, q, r, t);
    SextetsMatch(s[0]);
    SextetsMatch(s[1]);
    SextetsMatch(s[2]);
    SextetsMatch(s[3]);
    var b := Unblock(p, q, r, t);
    assert b[3..] == [] && Encode(b) == Block(b[0], b[1], b[2]) + Encode(b[3..]);
  }
}

/** The Upload-Metadata header: comma-separated pairs of a key and, after a space, a base64 value. */
module Metadatas {
  import opened Core
  import opened Base64

  /** A value is the UTF-8 encoding of a string; a key without a value has none. */
  type Metadata = map<string, Option<Bytes>>

  // ----- strings -----

  /** The characters with the Unicode property White_Space. */
  predicate IsSpace(c: char) {
    var n := c as int;
    || 9 <= n <= 13 || n == 32 || n == 0x85 || n == 0xA0 || n == 0x1680 || 0x2000 <= n <= 0x200A
    || n == 0x2028 || n == 0x2029 || n == 0x202F || n == 0x205F || n == 0x3000
  }

  /** The code points, one by one. */
  lemma SpaceIff(c: char)
    ensures IsSpace(c) <==> c as int in {
      0x09, 0x0A, 0x0B, 0x0C, 0x0D, 0x20, 0x85, 0xA0, 0x1680, 0x2000, 0x2001, 0x2002, 0x2003, 0x2004, 0x2005, 0x2006,
      0x2007, 0x2008, 0x2009, 0x200A, 0x2028, 0x2029, 0x202F, 0x205F, 0x3000}
  {
  }

  function Trim(s: string): (r: string)
    ensures r != [] ==> !IsSpace(r[0]) && !IsSpace(r[|r| - 1])
    ensures forall c :: c in r ==> c in s
    ensures Trimmed(s) ==> r == s
  {
    if s == [] then []
    else if IsSpace(s[0]) then Trim(s[1..])
    else if IsSpace(s[|s| - 1]) then Trim(s[..|s| - 1])
    else s
  }

  predicate Trimmed(s: string) {
    s != [] && !IsSpace(s[0]) && !IsSpace(s[|s| - 1])
  }

  /** The position of the first c. */
  function IndexOf(s: string, c: char): (r: Option<nat>)
    ensures r.None? ==> c !in s
    ensures r.Some? ==> r.value < |s| && s[r.value] == c && c !in s[..r.value]
  {
    if s == [] then None
    else if s[0] == c then Some(0)
    else
      match IndexOf(s[1..], c)
      case None => None
      case Some(i) => assert s[..i + 1] == [s[0]] + s[1..][..i]; Some(i + 1)
  }

  lemma {:induction false} IndexOfFirst(x: string, c: char, y: string)
    requires c !in x
    ensures IndexOf(x + [c] + y, c) == Some(|x|)
  {
    if x != [] {
      assert (x + [c] + y)[1..] == x[1..] + [c] + y;
      IndexOfFirst(x[1..], c, y);
    }
  }

  /** The pieces between commas. */
  function Split(s: string): (r: seq<string>)
    ensures r != [] && forall i :: 0 <= i < |r| ==> ',' !in r[i]
  {
    match IndexOf(s, ',')
    case None => [s]
    case Some(i) => [s[..i]] + Split(s[i + 1..])
  }

  function Join(pieces: seq<string>): string {
    if pieces == [] then []
    else if |pieces| == 1 then pieces[0]
    else pieces[0] + [','] + Join(pieces[1..])
  }

  lemma SplitStep(x: string, rest: string)
    requires ',' !in x
    ensures Split(x + [','] + rest) == [x] + Split(rest)
  {
    var s := x + [','] + rest;
    IndexOfFirst(x, ',', rest);
    assert s[..|x|] == x && s[|x| + 1..] == rest;
  }

  lemma {:induction false} SplitOfJoin(pieces: seq<string>)
    requires pieces != [] && forall i :: 0 <= i < |pieces| ==> ',' !in pieces[i]
    ensures Split(Join(pieces)) == pieces
  {
    if |pieces| > 1 {
      SplitOfJoin(pieces[1..]);
      SplitStep(pieces[0], Join(pieces[1..]));
      assert pieces == [pieces[0]] + pieces[1..];
    } else {
      assert ',' !in pieces[0];
    }
  }

  // ----- UTF-8 -----

  predicate Continues(b: Bytes, i: nat) {
    i < |b| && 0x80 <= b[i] < 0xC0
  }

  /** The length of the well-formed UTF-8 sequence at the front, or 0. */
  function FirstLength(b: Bytes): (n: nat)
    requires b != []
    ensures n <= |b|
  {
    var x := b[0];
    if x < 0x80 then 1
    else if 0xC2 <= x < 0xE0 && Continues(b, 1) then 2
    else if 0xE0 <= x < 0xF0 && Continues(b, 1) && Continues(b, 2)
            && (x == 0xE0 ==> b[1] >= 0xA0) && (x == 0xED ==> b[1] < 0xA0) then 3
    else if 0xF0 <= x < 0xF5 && Continues(b, 1) && Continues(b, 2) && Continues(b, 3)
            && (x == 0xF0 ==> b[1] >= 0x90) && (x == 0xF4 ==> b[1] < 0x90) then 4
    else 0
  }

  predicate ValidUtf8(b: Bytes)
    decreases |b|
  {
    b == [] || (FirstLength(b) > 0 && ValidUtf8(b[FirstLength(b)..]))
  }

  // ----- parsing -----

  datatype Pair = Blank | Pair(key: string, value: Option<Bytes>)

  function ParseValue(text: string): Result<Option<Bytes>> {
    if text == [] then Ok(None)
    else
      match Decode(Trim(text))
      case None => Err(InvalidMetadata)
      case Some(bytes) => if ValidUtf8(bytes) then Ok(Some(bytes)) else Err(InvalidMetadata)
  }

  /** One piece between commas; an empty one is skipped. */
  function ParsePair(piece: string): Result<Pair> {
    var pair := Trim(piece);
    if pair == [] then Ok(Blank)
    else
      var space := IndexOf(pair, ' ');
      var key := Trim(if space.Some? then pair[..space.value] else pair);
      var value := if space.Some? then ParseValue(pair[space.value + 1..]) else Ok(None);
      if key == [] then Err(InvalidMetadata)
      else if value.Err? then Err(InvalidMetadata)
      else Ok(Pair(key, value.value))
  }

  /** The pieces entered into a map one after another; the first bad one is the error. */
  function ParseAll(pieces: seq<string>): Result<Metadata> {
    if pieces == [] then Ok(map[])
    else
      var before := ParseAll(pieces[..|pieces| - 1]);
      var pair := ParsePair(pieces[|pieces| - 1]);
      if before.Err? then before
      else if pair.Err? then Err(InvalidMetadata)
      else if pair.value.Blank? then before
      else Ok(before.value[pair.value.key := pair.value.value])
  }

  lemma {:induction false} ParseStops(pieces: seq<string>, k: nat)
    requires k <= |pieces| && ParseAll(pieces[..k]).Err?
    ensures ParseAll(pieces) == Err(InvalidMetadata)
    decreases |pieces| - k
  {
    if k == |pieces| {
      assert pieces[..k] == pieces;
      ParseError(pieces);
    } else {
      assert pieces[..k + 1][..k] == pieces[..k];
      ParseStops(pieces, k + 1);
    }
  }

  lemma {:induction false} ParseError(pieces: seq<string>)
    ensures ParseAll(pieces).Err? ==> ParseAll(pieces) == Err(InvalidMetadata)
  {
    if pieces != [] {
      ParseError(pieces[..|pieces| - 1]);
    }
  }

  method Parse(header: string) returns (r: Result<Metadata>)
    ensures r == ParseAll(Split(header))
  {
    var pieces := Split(header);
    var entries: Metadata := map[];
    for i := 0 to |pieces|
      invariant ParseAll(pieces[..i]) == Ok(entries)
    {
      assert pieces[..i + 1][..i] == pieces[..i];
      var pair := ParsePair(pieces[i]);
      if pair.Err? {
        ParseStops(pieces, i + 1);
        return Err(InvalidMetadata);
      }
      if pair.value.Pair? {
        entries := entries[pair.value.key := pair.value.value];
      }
    }
    assert pieces[..|pieces|] == pieces;
    return Ok(entries);
  }

  // ----- encoding -----

  function EncodePair(key: string, value: Option<Bytes>): string {
    match value
    case None => key
    case Some(bytes) => key + [' '] + Encode(bytes)
  }

  function Pieces(m: Metadata, order: seq<string>): seq<string>
    requires forall k :: k in order ==> k in m
  {
    seq(|order|, i requires 0 <= i < |order| => EncodePair(order[i], m[order[i]]))
  }

  /** `order` is an order in which the map may be iterated. */
  ghost predicate Iterates(order: seq<string>, m: Metadata) {
    && (forall k :: k in order <==> k in m)
    && (forall i, j :: 0 <= i < j < |order| ==> order[i] != order[j])
  }

  ghost function EncodeAll(m: Metadata, order: seq<string>): string
    requires Iterates(order, m)
  {
    Join(Pieces(m, order))
  }

  // ----- the round trip -----

  /** What the wire format can carry: trimmed keys without comma or space, and no empty value. */
  predicate Encodable(m: Metadata) {
    forall k :: k in m ==> EncodableKey(k) && EncodableValue(m[k])
  }

  predicate EncodableKey(k: string) {
    Trimmed(k) && ',' !in k && ' ' !in k
  }

  predicate EncodableValue(v: Option<Bytes>) {
    v.Some? ==> v.value != [] && ValidUtf8(v.value)
  }

  lemma EncodingHasNo(b: Bytes)
    ensures ',' !in Encode(b) && ' ' !in Encode(b)
    ensures b != [] ==> Trimmed(Encode(b))
  {
    var s := Encode(b);
    EncodeChars(b);
    forall c | EncodingChar(c)
      ensures c != ',' && !IsSpace(c)
    {
    }
  }

  lemma PairRoundTrip(k: string, v: Option<Bytes>)
    requires EncodableKey(k) && EncodableValue(v)
    ensures ParsePair(EncodePair(k, v)) == Ok(Pair(k, v)) && ',' !in EncodePair(k, v)
  {
    if v.Some? {
      var piece, text := EncodePair(k, v), Encode(v.value);
      EncodingHasNo(v.value);
      DecodeOfEncode(v.value);
      assert piece[0] == k[0] && piece[|piece| - 1] == text[|text| - 1];
      assert Trimmed(piece);
      IndexOfFirst(k, ' ', text);
      assert piece[..|k|] == k && piece[|k| + 1..] == text;
    }
  }

  lemma ParseSnoc(pieces: seq<string>, piece: string, k: string, v: Option<Bytes>)
    requires ParseAll(pieces).Ok? && ParsePair(piece) == Ok(Pair(k, v))
    ensures ParseAll(pieces + [piece]) == Ok(ParseAll(pieces).value[k := v])
  {
    assert (pieces + [piece])[..|pieces|] == pieces;
  }

  lemma PiecesSnoc(m: Metadata, before: seq<string>, k: string)
    requires forall j :: j in before + [k] ==> j in m
    ensures k in m && (forall j :: j in before ==> j in m)
    ensures Pieces(m, before + [k]) == Pieces(m, before) + [EncodePair(k, m[k])]
  {
    assert k in before + [k];
  }

  lemma {:induction false} PiecesRoundTrip(m: Metadata, order: seq<string>)
    requires Encodable(m) && forall k :: k in order ==> k in m
    ensures ParseAll(Pieces(m, order)) == Ok(map k | k in order :: m[k])
  {
    if order != [] {
      var before, k := order[..|order| - 1], order[|order| - 1];
      assert order == before + [k];
      PiecesSnoc(m, before, k);
      PiecesRoundTrip(m, before);
      PairRoundTrip(k, m[k]);
      ParseSnoc(Pieces(m, before), EncodePair(k, m[k]), k, m[k]);
      RestrictSnoc(m, before, k);
    }
  }

  lemma RestrictSnoc(m: Metadata, before: seq<string>, k: string)
    requires k in m && forall j :: j in before ==> j in m
    ensures (map j | j in before + [k] :: m[j]) == (map j | j in before :: m[j])[k := m[k]]
  {
  }

  lemma EncodableRoundTrip(m: Metadata, order: seq<string>)
    requires Iterates(order, m) && Encodable(m)
    ensures ParseAll(Split(EncodeAll(m, order))) == Ok(m)
  {
    PiecesRoundTrip(m, order);
    assert (map k | k in order :: m[k]) == m;
    if order == [] {
      assert Split([]) == [[]];
      assert ParsePair([]) == Ok(Blank);
      assert ParseAll([[]]) == Ok(map[]);
    } else {
      var pieces := Pieces(m, order);
      forall i | 0 <= i < |pieces|
        ensures ',' !in pieces[i]
      {
        assert order[i] in order;
        PairRoundTrip(order[i], m[order[i]]);
      }
      SplitOfJoin(pieces);
    }
  }

  lemma ParsedPairIsEncodable(piece: string)
    requires ',' !in piece && ParsePair(piece).Ok? && ParsePair(piece).value.Pair?
    ensures EncodableKey(ParsePair(piece).value.key) && EncodableValue(ParsePair(piece).value.value)
  {
    var pair := Trim(piece);
    var space := IndexOf(pair, ' ');
    var front := if space.Some? then pair[..space.value] else pair;
    assert ' ' !in front && forall c :: c in front ==> c in pair;
    if space.Some? {
      var text := pair[space.value + 1..];
      if text != [] {
        assert text[|text| - 1] == pair[|pair| - 1];
        TrimKeepsSome(text);
      }
    }
  }

  lemma {:induction false} TrimKeepsSome(s: string)
    requires s != [] && !IsSpace(s[|s| - 1])
    ensures Trim(s) != []
  {
    if IsSpace(s[0]) {
      TrimKeepsSome(s[1..]);
    }
  }

  /** Every header that parses gives metadata that the wire format can carry; in particular no value is empty. */
  lemma {:induction false} ParsedIsEncodable(pieces: seq<string>)
    requires (forall i :: 0 <= i < |pieces| ==> ',' !in pieces[i]) && ParseAll(pieces).Ok?
    ensures Encodable(ParseAll(pieces).value)
  {
    if pieces != [] {
      ParsedIsEncodable(pieces[..|pieces| - 1]);
      var last := pieces[|pieces| - 1];
      if ParsePair(last).value.Pair? {
        ParsedPairIsEncodable(last);
      }
    }
  }

  /** Encoding and parsing again gives the same metadata exactly for metadata that the wire format can carry. */
  lemma RoundTripIff(m: Metadata, order: seq<string>)
    requires Iterates(order, m)
    ensures ParseAll(Split(EncodeAll(m, order))) == Ok(m) <==> Encodable(m)
  {
    if Encodable(m) {
      EncodableRoundTrip(m, order);
    } else if ParseAll(Split(EncodeAll(m, order))) == Ok(m) {
      ParsedIsEncodable(Split(EncodeAll(m, order)));
    }
  }

  /** Whatever a header parsed to survives any re-encoding, in whatever order the map is iterated. */
  lemma ParsedRoundTrip(header: string, order: seq<string>)
    requires ParseAll(Split(header)).Ok? && Iterates(order, ParseAll(Split(header)).value)
    ensures ParseAll(Split(EncodeAll(ParseAll(Split(header)).value, order))) == ParseAll(Split(header))
  {
    ParsedIsEncodable(Split(header));
    RoundTripIff(ParseAll(Split(header)).value, order);
  }
}
