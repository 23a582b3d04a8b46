/** Decimal printing and parsing of the u32 indices that storage keys end with. */
module Decimal {
  import opened Core

  predicate IsDigit(c: char) {
    '0' <= c <= '9'
  }

  predicate AllDigits(s: string) {
    forall i :: 0 <= i < |s| ==> IsDigit(s[i])
  }

  function DigitChar(d: int): (c: char)
    requires 0 <= d < 10
    ensures IsDigit(c) && c as int - '0' as int == d
  {
    ('0' as int + d) as char
  }

  /** The decimal digits of n, without leading zeros. */
  function Dec(n: nat): (s: string)
    ensures s != [] && AllDigits(s)
  {
    if n < 10 then [DigitChar(n)] else Dec(n / 10) + [DigitChar(n % 10)]
  }

  function DigitsValue(s: string): (n: nat)
    requires AllDigits(s)
  {
    if s == [] then 0 else DigitsValue(s[..|s| - 1]) * 10 + (s[|s| - 1] as int - '0' as int)
  }

  /** Rust's u32 parser: one optional leading plus sign, then digits, no overflow. */
  function ParseU32(s: string): Option<U32>
  {
    var digits := if s != [] && s[0] == '+' then s[1..] else s;
    if digits != [] && AllDigits(digits) && DigitsValue(digits) < U32_LIMIT
    then Some(DigitsValue(digits)) else None
  }

  lemma {:induction false} DigitsValueOfDec(n: nat)
    ensures DigitsValue(Dec(n)) == n
  {
    if n >= 10 {
      DigitsValueOfDec(n / 10);
      assert Dec(n)[..|Dec(n)| - 1] == Dec(n / 10);
    }
  }

  /** Parsing what was printed gives the index back. */
  lemma ParseOfDec(n: U32)
    ensures ParseU32(Dec(n)) == Some(n)
  {
    DigitsValueOfDec(n);
    assert IsDigit(Dec(n)[0]);
  }

  /** A decimal numeral without leading zeros. */
  predicate Spells(s: string, n: nat) {
    s != [] && AllDigits(s) && (|s| > 1 ==> s[0] != '0') && DigitsValue(s) == n
  }

  lemma {:induction false} DecOfValue(s: string)
    requires s != [] && AllDigits(s) && (|s| > 1 ==> s[0] != '0')
    ensures Dec(DigitsValue(s)) == s
  {
    var front, v := s[..|s| - 1], DigitsValue(s);
    if |s| > 1 {
      DecOfValue(front);
      assert Dec(0)[0] == '0' && front[0] == s[0];
      assert DigitsValue(front) > 0;
      assert v / 10 == DigitsValue(front) && v % 10 == s[|s| - 1] as int - '0' as int;
    } else {
      assert DigitsValue(front) == 0;
    }
  }

  lemma {:induction false} NoLeadingZero(n: nat)
    ensures |Dec(n)| > 1 ==> Dec(n)[0] != '0'
  {
    if n >= 10 {
      NoLeadingZero(n / 10);
    }
  }

  /** A number is printed as its one numeral without leading zeros. */
  lemma DecIff(s: string, n: nat)
    ensures s == Dec(n) <==> Spells(s, n)
  {
    DigitsValueOfDec(n);
    NoLeadingZero(n);
    if Spells(s, n) {
      DecOfValue(s);
    }
  }

  lemma DecInjective(m: nat, n: nat)
    requires Dec(m) == Dec(n)
    ensures m == n
  {
    DigitsValueOfDec(m);
    DigitsValueOfDec(n);
  }
}

/** Searching in strings the way Rust's `rfind`, `contains`, `ends_with` and `strip_prefix` do. */
module Text {
  import opened Core

  predicate MatchAt(s: string, t: string, i: int) {
    0 <= i && i + |t| <= |s| && s[i..i + |t|] == t
  }

  predicate Contains(s: string, t: string) {
    exists i {:trigger MatchAt(s, t, i)} :: 0 <= i <= |s| && MatchAt(s, t, i)
  }

  predicate EndsWith(s: string, t: string) {
    MatchAt(s, t, |s| - |t|)
  }

  predicate StartsWith(s: string, t: string) {
    t <= s
  }

  /** The last match of t in s that starts at or before `from`. */
  function RFindFrom(s: string, t: string, from: int): (r: Option<nat>)
    ensures r.Some? ==> r.value <= from && MatchAt(s, t, r.value)
    ensures r.Some? ==> forall i :: r.value < i <= from ==> !MatchAt(s, t, i)
    ensures r.None? ==> forall i :: 0 <= i <= from ==> !MatchAt(s, t, i)
    decreases from + 1
  {
    if from < 0 then None
    else if MatchAt(s, t, from) then Some(from)
    else RFindFrom(s, t, from - 1)
  }

  function RFind(s: string, t: string): (r: Option<nat>)
    ensures r.Some? ==> MatchAt(s, t, r.value)
    ensures r.Some? ==> forall i :: r.value < i ==> !MatchAt(s, t, i)
    ensures r.None? ==> forall i :: !MatchAt(s, t, i)
  {
    RFindFrom(s, t, |s| - |t|)
  }

  /** The last two characters of a match are those of the pattern. */
  lemma MatchEnds(s: string, t: string)
    requires |t| >= 2
    ensures forall i :: MatchAt(s, t, i) ==> s[i + |t| - 1] == t[|t| - 1] && s[i + |t| - 2] == t[|t| - 2]
  {
    forall i | MatchAt(s, t, i)
      ensures s[i + |t| - 1] == t[|t| - 1] && s[i + |t| - 2] == t[|t| - 2]
    {
      assert s[i..i + |t|][|t| - 1] == s[i + |t| - 1] && s[i..i + |t|][|t| - 2] == s[i + |t| - 2];
    }
  }

  /** A match that no later match follows is what RFind returns. */
  lemma RFindIs(s: string, t: string, p: nat)
    requires MatchAt(s, t, p)
    requires forall i :: p < i ==> !MatchAt(s, t, i)
    ensures RFind(s, t) == Some(p)
  {
    var r := RFind(s, t);
    assert r.Some?;
    assert !(r.value < p) && !(p < r.value);
  }
}

/**
 * The storage keys of an upload. Every backend keeps `{id}`, `{id}.info`, `{id}_part_{n}` and, while
 * reassembling, `{id}_tmp_{n}` in one flat key space, so distinctness of keys is what isolates uploads.
 */
module Names {
  import opened Core
  import opened Decimal
  import opened Text

  const INFO_SUFFIX := ".info"
  const PART_TOKEN := "_part_"
  const TMP_TOKEN := "_tmp_"

  datatype Kind = Data | Info | Part(index: U32) | Tmp(index: U32)

  predicate IdChar(c: char) {
    ('a' <= c <= 'z') || ('A' <= c <= 'Z') || ('0' <= c <= '9') || c in {'-', '_', '.'}
  }

  /** The position of the last token, when everything after it is a nonempty run of digits. */
  function NumberedSuffix(value: string, token: string): (r: Option<nat>)
    ensures r.Some? ==> r.value + |token| < |value|
  {
    match RFind(value, token)
    case None => None
    case Some(p) =>
      var tail := value[p + |token|..];
      if tail != [] && AllDigits(tail) then Some(p) else None
  }

  predicate CollidesWithReservedKey(value: string) {
    || EndsWith(value, INFO_SUFFIX)
    || NumberedSuffix(value, PART_TOKEN).Some?
    || NumberedSuffix(value, TMP_TOKEN).Some?
  }

  predicate ValidId(value: string) {
    && value != [] && |value| <= 128
    && value != "." && value != ".." && !Contains(value, "..")
    && (forall i :: 0 <= i < |value| ==> IdChar(value[i]))
    && !CollidesWithReservedKey(value)
  }

  function Name(id: string, kind: Kind): string {
    match kind
    case Data => id
    case Info => id + INFO_SUFFIX
    case Part(n) => id + PART_TOKEN + Dec(n)
    case Tmp(n) => id + TMP_TOKEN + Dec(n)
  }

  /** Reads a key back into the upload it belongs to and the role it plays there. */
  function ParseName(name: string): (string, Kind) {
    if EndsWith(name, INFO_SUFFIX) then (name[..|name| - |INFO_SUFFIX|], Info)
    else
      match NumberedSuffix(name, PART_TOKEN)
      case Some(p) => (name[..p], Part(ParseU32(name[p + |PART_TOKEN|..]).GetOr(0)))
      case None =>
        match NumberedSuffix(name, TMP_TOKEN)
        case Some(p) => (name[..p], Tmp(ParseU32(name[p + |TMP_TOKEN|..]).GetOr(0)))
        case None => (name, Data)
  }

  /** In `x + token + digits` the token's last match is the one in front of the digits. */
  lemma TokenBeforeDigits(x: string, token: string, digits: string)
    requires token == PART_TOKEN || token == TMP_TOKEN
    requires digits != [] && AllDigits(digits)
    ensures RFind(x + token + digits, token) == Some(|x|)
    ensures NumberedSuffix(x + token + digits, token) == Some(|x|)
  {
    var s := x + token + digits;
    assert s[|x|..|x| + |token|] == token;
    assert s[|x| + |token|..] == digits;
    MatchEnds(s, token);
    assert forall j :: |x| + |token| <= j < |s| ==> IsDigit(s[j]);
    RFindIs(s, token, |x|);
  }

  /** `_tmp_` in front of the digits rules out a numbered `_part_` suffix, and the other way round. */
  lemma OtherToken(x: string, token: string, other: string, digits: string)
    requires (token == PART_TOKEN && other == TMP_TOKEN) || (token == TMP_TOKEN && other == PART_TOKEN)
    requires digits != [] && AllDigits(digits)
    ensures NumberedSuffix(x + token + digits, other) == None
  {
    var s := x + token + digits;
    var mine := |x| + |token| - 1;
    assert s[mine] == '_' && s[mine - 1] == token[|token| - 2];
    assert forall j :: mine < j < |s| ==> IsDigit(s[j]);
    MatchEnds(s, other);
    var p := RFind(s, other);
    if p.Some? && p.value + |other| - 1 < mine {
      assert s[p.value + |other|..][mine - p.value - |other|] == '_';
    }
  }

  lemma DigitTailIsNotInfo(x: string, digits: string)
    requires digits != [] && AllDigits(digits)
    ensures !EndsWith(x + digits, INFO_SUFFIX)
  {
    var s := x + digits;
    assert s[|s| - 1] == digits[|digits| - 1];
    MatchEnds(s, INFO_SUFFIX);
  }

  lemma ParseOfInfo(id: string)
    ensures ParseName(Name(id, Info)) == (id, Info)
  {
    var s := id + INFO_SUFFIX;
    assert s[|s| - |INFO_SUFFIX|..] == INFO_SUFFIX;
    assert s[..|s| - |INFO_SUFFIX|] == id;
  }

  lemma ParseOfPart(id: string, n: U32)
    ensures ParseName(Name(id, Part(n))) == (id, Part(n))
  {
    var s := id + PART_TOKEN + Dec(n);
    DigitTailIsNotInfo(id + PART_TOKEN, Dec(n));
    TokenBeforeDigits(id, PART_TOKEN, Dec(n));
    ParseOfDec(n);
    assert s[|id| + |PART_TOKEN|..] == Dec(n);
    assert s[..|id|] == id;
  }

  lemma ParseOfTmp(id: string, n: U32)
    ensures ParseName(Name(id, Tmp(n))) == (id, Tmp(n))
  {
    var s := id + TMP_TOKEN + Dec(n);
    DigitTailIsNotInfo(id + TMP_TOKEN, Dec(n));
    TokenBeforeDigits(id, TMP_TOKEN, Dec(n));
    OtherToken(id, TMP_TOKEN, PART_TOKEN, Dec(n));
    ParseOfDec(n);
    assert s[|id| + |TMP_TOKEN|..] == Dec(n);
    assert s[..|id|] == id;
  }

  /** Every key of a valid upload ID reads back as exactly that ID and that role. */
  lemma ParseOfName(id: string, kind: Kind)
    requires ValidId(id)
    ensures ParseName(Name(id, kind)) == (id, kind)
  {
    match kind
    case Data => assert !CollidesWithReservedKey(id);
    case Info => ParseOfInfo(id);
    case Part(n) => ParseOfPart(id, n);
    case Tmp(n) => ParseOfTmp(id, n);
  }

  /** Two keys of valid IDs are the same string only for the same ID, role and index. */
  lemma NameInjective(id1: string, kind1: Kind, id2: string, kind2: Kind)
    requires ValidId(id1) && ValidId(id2)
    requires Name(id1, kind1) == Name(id2, kind2)
    ensures id1 == id2 && kind1 == kind2
  {
    ParseOfName(id1, kind1);
    ParseOfName(id2, kind2);
  }

  // ----- which IDs are accepted -----

  ghost predicate Suffixed(value: string, token: string, x: string, digits: string) {
    value == x + token + digits && digits != [] && AllDigits(digits)
  }

  lemma NumberedSuffixIff(value: string, token: string)
    requires token == PART_TOKEN || token == TMP_TOKEN
    ensures NumberedSuffix(value, token).Some? <==> exists x, digits :: Suffixed(value, token, x, digits)
  {
    var r := NumberedSuffix(value, token);
    if r.Some? {
      var x, digits := value[..r.value], value[r.value + |token|..];
      assert value == x + value[r.value..r.value + |token|] + digits;
      assert Suffixed(value, token, x, digits);
    }
    if x, digits :| Suffixed(value, token, x, digits) {
      TokenBeforeDigits(x, token, digits);
    }
  }

  lemma InfoSuffixIff(value: string)
    ensures EndsWith(value, INFO_SUFFIX) <==> exists x :: value == x + INFO_SUFFIX
  {
    if EndsWith(value, INFO_SUFFIX) {
      assert value == value[..|value| - |INFO_SUFFIX|] + INFO_SUFFIX;
    }
    if x :| value == x + INFO_SUFFIX {
      assert value[|value| - |INFO_SUFFIX|..|value| - |INFO_SUFFIX| + |INFO_SUFFIX|] == INFO_SUFFIX;
    }
  }

  /** One to 128 letters, digits, hyphens, underscores and dots, with no two dots together and not a dot alone. */
  predicate WellFormed(value: string) {
    && 1 <= |value| <= 128 && value != ['.']
    && (forall i :: 0 <= i < |value| ==> PlainChar(value[i]) || value[i] == '_' || value[i] == '.')
    && (forall i :: 0 < i < |value| ==> !(value[i - 1] == '.' && value[i] == '.'))
  }

  predicate PlainChar(c: char) {
    'a' <= c <= 'z' || 'A' <= c <= 'Z' || '0' <= c <= '9' || c == '-'
  }

  lemma TwoDotsIff(value: string)
    ensures Contains(value, "..") <==> exists i :: 0 < i < |value| && value[i - 1] == '.' && value[i] == '.'
  {
    if Contains(value, "..") {
      var i :| 0 <= i <= |value| && MatchAt(value, "..", i);
      MatchEnds(value, "..");
      assert value[i + 1 - 1] == '.' && value[i + 1] == '.';
    }
    if i :| 0 < i < |value| && value[i - 1] == '.' && value[i] == '.' {
      assert value[i - 1..i - 1 + 2] == "..";
      assert MatchAt(value, "..", i - 1);
    }
  }

  /** A well-formed ID is refused exactly if it could be read as the key of a record, a part or a temporary. */
  lemma ValidIff(value: string)
    ensures ValidId(value) <==>
            && WellFormed(value)
            && !(exists x :: value == x + ".info")
            && !(exists x, digits :: Suffixed(value, "_part_", x, digits))
            && !(exists x, digits :: Suffixed(value, "_tmp_", x, digits))
  {
    InfoSuffixIff(value);
    NumberedSuffixIff(value, PART_TOKEN);
    NumberedSuffixIff(value, TMP_TOKEN);
    TwoDotsIff(value);
    if value == ".." {
      assert value[1 - 1] == '.' && value[1] == '.';
    }
  }

  /** Every string of letters, digits and hyphens is accepted, and so is every UUID. */
  lemma PlainIsValid(value: string)
    requires 1 <= |value| <= 128 && forall i :: 0 <= i < |value| ==> PlainChar(value[i])
    ensures ValidId(value)
  {
    ValidIff(value);
    forall x
      ensures value != x + ".info"
    {
      assert (x + ".info")[|x|] == '.';
    }
    forall x, digits
      ensures !Suffixed(value, "_part_", x, digits) && !Suffixed(value, "_tmp_", x, digits)
    {
      assert (x + "_part_" + digits)[|x|] == '_' && (x + "_tmp_" + digits)[|x|] == '_';
    }
  }

  /** Where a valid ID stops: the keys of its parts, temporaries and record are not valid IDs. */
  lemma KeysAreNotIds(id: string, n: U32)
    ensures Name(id, Data) == id
    ensures Name(id, Info) == id + ".info" && !ValidId(id + ".info")
    ensures forall s :: Spells(s, n) ==> Name(id, Part(n)) == id + "_part_" + s && !ValidId(id + "_part_" + s)
    ensures forall s :: Spells(s, n) ==> Name(id, Tmp(n)) == id + "_tmp_" + s && !ValidId(id + "_tmp_" + s)
  {
    assert MatchAt(id + ".info", INFO_SUFFIX, |id|);
    forall s | Spells(s, n)
      ensures Name(id, Part(n)) == id + "_part_" + s && !ValidId(id + "_part_" + s)
      ensures Name(id, Tmp(n)) == id + "_tmp_" + s && !ValidId(id + "_tmp_" + s)
    {
      DecIff(s, n);
      ValidIff(id + "_part_" + s);
      ValidIff(id + "_tmp_" + s);
      assert Suffixed(id + "_part_" + s, "_part_", id, s) && Suffixed(id + "_tmp_" + s, "_tmp_", id, s);
    }
  }

  /** What the directory listing of `id` makes of one file name: strip `{id}_part_`, parse the rest. */
  function ListedIndex(id: string, name: string): Option<U32> {
    if StartsWith(name, id + PART_TOKEN) then ParseU32(name[|id + PART_TOKEN|..]) else None
  }

  lemma NameHasNoPlus(id: string, kind: Kind)
    requires ValidId(id)
    ensures '+' !in Name(id, kind)
  {
    forall i | 0 <= i < |id|
      ensures id[i] != '+'
    {
      assert IdChar(id[i]);
    }
    if kind.Part? || kind.Tmp? {
      assert forall i :: 0 <= i < |Dec(kind.index)| ==> IsDigit(Dec(kind.index)[i]);
    }
  }

  /** Among the keys of all valid IDs, the listing of `id` picks exactly the parts of `id`, with their index. */
  lemma ListedIndexOfName(id: string, owner: string, kind: Kind)
    requires ValidId(id) && ValidId(owner)
    ensures ListedIndex(id, Name(owner, kind)).Some? <==> owner == id && kind.Part?
    ensures owner == id && kind.Part? ==> ListedIndex(id, Name(owner, kind)) == Some(kind.index)
  {
    var name := Name(owner, kind);
    var r := ListedIndex(id, name);
    if owner == id && kind.Part? {
      ParseOfDec(kind.index);
      assert name == (id + PART_TOKEN) + Dec(kind.index);
      assert name[|id + PART_TOKEN|..] == Dec(kind.index);
    }
    if r.Some? {
      var rest := name[|id + PART_TOKEN|..];
      assert name == id + PART_TOKEN + rest;
      NameHasNoPlus(owner, kind);
      assert rest != [] && rest[0] == name[|id + PART_TOKEN|];
      assert AllDigits(rest);
      DigitTailIsNotInfo(id + PART_TOKEN, rest);
      TokenBeforeDigits(id, PART_TOKEN, rest);
      ParseOfName(owner, kind);
      assert ParseName(name).0 == id;
      assert ParseName(name).1.Part?;
    }
  }
}
