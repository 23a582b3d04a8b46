/** The Upload-Metadata header as a grammar: which strings it admits and what they mean, apart from the parser's order of work. */
module HeaderGrammar {
  import opened Core
  import opened Rfc3629
  import opened Rfc4648
  import opened Metadatas
  import Base64

  // ----- white space and commas -----

  ghost predicate Blanks(s: string) {
    forall i :: 0 <= i < |s| ==> IsSpace(s[i])
  }

  /** White space in front and behind goes, and nothing else. */
  lemma TrimIs(lead: string, body: string, trail: string)
    requires Blanks(lead) && Blanks(trail) && (body == [] || Trimmed(body))
    ensures Trim(lead + body + trail) == body
  {
    TrimFront(lead, body + trail);
    assert lead + body + trail == lead + (body + trail);
    if body == [] {
      TrimBlanks(trail);
      assert body + trail == trail;
    } else {
      TrimBehind(body, trail);
    }
  }

  lemma {:induction false} TrimFront(lead: string, s: string)
    requires Blanks(lead)
    ensures Trim(lead + s) == Trim(s)
  {
    if lead == [] {
      assert lead + s == s;
    } else {
      TrimFront(lead[1..], s);
      assert (lead + s)[1..] == lead[1..] + s;
    }
  }

  lemma {:induction false} TrimBlanks(s: string)
    requires Blanks(s)
    ensures Trim(s) == []
  {
    if s != [] {
      TrimBlanks(s[1..]);
    }
  }

  lemma {:induction false} TrimBehind(body: string, trail: string)
    requires Blanks(trail) && Trimmed(body)
    ensures Trim(body + trail) == body
  {
    var s := body + trail;
    if trail == [] {
      assert s == body;
    } else {
      var last := |trail| - 1;
      TrimBehind(body, trail[..last]);
      assert s[0] == body[0] && s[|s| - 1] == trail[last] && s[..|s| - 1] == body + trail[..last];
    }
  }

  lemma {:induction false} TrimParts(s: string) returns (lead: string, trail: string)
    ensures s == lead + Trim(s) + trail && Blanks(lead) && Blanks(trail)
    ensures Trim(s) == [] || Trimmed(Trim(s))
    ensures s != [] && !IsSpace(s[|s| - 1]) ==> trail == []
  {
    if s == [] {
      lead, trail := [], [];
    } else if IsSpace(s[0]) {
      var front, rest := TrimParts(s[1..]);
      lead, trail := [s[0]] + front, rest;
      MoreBlanks(s[0], front);
      MoreInFront(s, front, Trim(s), rest);
    } else {
      lead := [];
      trail := TrimEnd(s);
      assert s == lead + Trim(s) + trail;
    }
  }

  lemma MoreInFront(s: string, lead: string, body: string, trail: string)
    requires s != [] && s[1..] == lead + body + trail
    ensures s == ([s[0]] + lead) + body + trail
  {
    assert s == [s[0]] + s[1..];
  }

  lemma MoreBlanks(c: char, s: string)
    requires IsSpace(c) && Blanks(s)
    ensures Blanks([c] + s) && Blanks(s + [c])
  {
  }

  lemma {:induction false} TrimEnd(s: string) returns (trail: string)
    requires s != [] && !IsSpace(s[0])
    ensures s == Trim(s) + trail && Blanks(trail) && Trimmed(Trim(s))
    ensures !IsSpace(s[|s| - 1]) ==> trail == []
  {
    var n := |s| - 1;
    if IsSpace(s[n]) {
      var rest := TrimEnd(s[..n]);
      trail := rest + [s[n]];
      assert s == s[..n] + [s[n]];
      MoreBlanks(s[n], rest);
    } else {
      trail := [];
    }
  }

  /** The pieces are what stands between the commas. */
  lemma {:induction false} JoinOfSplit(s: string)
    ensures Join(Split(s)) == s
  {
    var at := IndexOf(s, ',');
    if at.Some? {
      var first, rest := s[..at.value], s[at.value + 1..];
      JoinOfSplit(rest);
      JoinStep(first, Split(rest));
      assert s == first + [','] + rest;
    }
  }

  lemma JoinStep(first: string, rest: seq<string>)
    requires rest != []
    ensures Join([first] + rest) == first + [','] + Join(rest)
  {
    assert ([first] + rest)[1..] == rest;
  }

  /** Nothing else joins up to the header. */
  lemma SplitIff(header: string, pieces: seq<string>)
    requires pieces != [] && forall i :: 0 <= i < |pieces| ==> ',' !in pieces[i]
    ensures pieces == Split(header) <==> Join(pieces) == header
  {
    SplitOfJoin(pieces);
    JoinOfSplit(header);
  }

  // ----- one piece -----

  /** A key alone. */
  ghost predicate KeyAlone(piece: string, key: string, lead: string, trail: string) {
    piece == lead + key + trail && Blanks(lead) && Blanks(trail)
  }

  /** A key, white space with an ASCII space in it, and the base64 spelling of a text. */
  ghost predicate KeyAndText(piece: string, key: string, text: seq<Scalar>, lead: string, gap: string, trail: string) {
    && |ALPHABET| == 64 && text != []
    && piece == lead + (key + gap + Spelling(ALPHABET, Utf8Text(text))) + trail
    && Blanks(lead) && Blanks(gap) && ' ' in gap && Blanks(trail)
  }

  ghost predicate Key(key: string) {
    Trimmed(key) && ' ' !in key
  }

  ghost predicate Means(piece: string, key: string, value: Option<Bytes>) {
    && Key(key)
    && match value
       case None => exists lead, trail :: KeyAlone(piece, key, lead, trail)
       case Some(b) => exists text, lead, gap, trail :: b == Utf8Text(text) && KeyAndText(piece, key, text, lead, gap, trail)
  }

  lemma KeyAloneParses(piece: string, key: string, lead: string, trail: string)
    requires Key(key) && KeyAlone(piece, key, lead, trail)
    ensures ParsePair(piece) == Ok(Pair(key, None))
  {
    TrimIs(lead, key, trail);
    assert IndexOf(key, ' ').None?;
  }

  lemma TextSpelling(text: seq<Scalar>)
    requires text != []
    ensures |ALPHABET| == 64
    ensures var (b, s) := (Utf8Text(text), Spelling(ALPHABET, Utf8Text(text)));
            b != [] && s == Base64.Encode(b) && Trimmed(s) && ParseValue(s) == Ok(Some(b)) && Base64.Decode(s) == Some(b)
  {
    var b := Utf8Text(text);
    EncodeIsSpelling(b);
    EncodingHasNo(b);
    TextIsValid(text);
    Base64.DecodeOfEncode(b);
  }

  /** The first space is in the gap. */
  lemma FirstSpace(key: string, gap: string, s: string) returns (before: string, behind: string)
    requires ' ' !in key && ' ' in gap && Blanks(gap)
    ensures gap == before + [' '] + behind && Blanks(before) && Blanks(behind)
    ensures var pair := key + gap + s;
            && IndexOf(pair, ' ') == Some(|key + before|)
            && pair[..|key + before|] == key + before && pair[|key + before| + 1..] == behind + s
  {
    var q := IndexOf(gap, ' ').value;
    before, behind := gap[..q], gap[q + 1..];
    var pair := key + gap + s;
    assert pair == (key + before) + [' '] + (behind + s);
    IndexOfFirst(key + before, ' ', behind + s);
  }

  lemma KeyAndTextParses(piece: string, key: string, text: seq<Scalar>, lead: string, gap: string, trail: string)
    requires Key(key) && KeyAndText(piece, key, text, lead, gap, trail)
    ensures ParsePair(piece) == Ok(Pair(key, Some(Utf8Text(text))))
  {
    TextSpelling(text);
    var s := Spelling(ALPHABET, Utf8Text(text));
    var pair := key + gap + s;
    PairOfParts(pair, key, gap, s);
    TrimIs(lead, pair, trail);
    TextIsValid(text);
    ParsePairIs(piece, pair, key, s, Utf8Text(text));
  }

  lemma ParsePairIs(piece: string, pair: string, key: string, s: string, b: Bytes)
    requires Trim(piece) == pair && pair != [] && IndexOf(pair, ' ').Some? && key != []
    requires var p := IndexOf(pair, ' ').value;
             Trim(pair[..p]) == key && Trim(pair[p + 1..]) == s && pair[p + 1..] != []
    requires Base64.Decode(s) == Some(b) && ValidUtf8(b)
    ensures ParsePair(piece) == Ok(Pair(key, Some(b)))
  {
  }

  lemma PairOfParts(pair: string, key: string, gap: string, s: string)
    requires Key(key) && Trimmed(s) && Blanks(gap) && ' ' in gap && pair == key + gap + s
    ensures Trimmed(pair) && IndexOf(pair, ' ').Some?
    ensures var p := IndexOf(pair, ' ').value;
            Trim(pair[..p]) == key && Trim(pair[p + 1..]) == s && pair[p + 1..] != []
  {
    TrimmedAround(key, gap, s);
    var before, behind := FirstSpace(key, gap, s);
    AroundGap(key, before, behind, s);
  }

  lemma AroundGap(key: string, before: string, behind: string, s: string)
    requires Trimmed(key) && Trimmed(s) && Blanks(before) && Blanks(behind)
    ensures Trim(key + before) == key && Trim(behind + s) == s && behind + s != []
  {
    TrimBehind(key, before);
    TrimFront(behind, s);
  }

  lemma TrimmedAround(front: string, between: string, last: string)
    requires Trimmed(front) && Trimmed(last)
    ensures Trimmed(front + between + last)
  {
    var s := front + between + last;
    assert s[0] == front[0] && s[|s| - 1] == last[|last| - 1];
  }

  lemma PartsOfPair(pair: string) returns (gap: string)
    requires Trimmed(pair) && IndexOf(pair, ' ').Some?
    ensures var p := IndexOf(pair, ' ').value;
            && Key(Trim(pair[..p])) && Blanks(gap) && ' ' in gap && pair[p + 1..] != []
            && pair == Trim(pair[..p]) + gap + Trim(pair[p + 1..])
  {
    var p := IndexOf(pair, ' ').value;
    var front, s := pair[..p], pair[p + 1..];
    SpaceInside(pair, p);
    assert front[0] == pair[0] && s[|s| - 1] == pair[|pair| - 1];
    var before := TrimEnd(front);
    var behind, nothing := TrimParts(s);
    gap := before + [' '] + behind;
    MoreBlanks(' ', before);
    assert Blanks(gap) && gap[|before|] == ' ';
    PairGlue(pair, p, Trim(front), before, behind, Trim(s));
  }

  lemma ParsesKeyAlone(piece: string, key: string)
    requires ParsePair(piece) == Ok(Pair(key, None))
    ensures Means(piece, key, None)
  {
    var pair := Trim(piece);
    var lead, trail := TrimParts(piece);
    if IndexOf(pair, ' ').Some? {
      SpaceInside(pair, IndexOf(pair, ' ').value);
    }
    assert key == pair && KeyAlone(piece, key, lead, trail);
  }

  lemma SpaceInside(pair: string, p: nat)
    requires Trimmed(pair) && p < |pair| && pair[p] == ' '
    ensures 0 < p < |pair| - 1
  {
  }

  lemma PairFacts(piece: string, key: string, b: Bytes)
    requires ParsePair(piece) == Ok(Pair(key, Some(b)))
    ensures var pair := Trim(piece);
            && IndexOf(pair, ' ').Some?
            && var p := IndexOf(pair, ' ').value;
               pair[p + 1..] != [] && key == Trim(pair[..p]) && Base64.Decode(Trim(pair[p + 1..])) == Some(b) && ValidUtf8(b)
  {
  }

  lemma ParsesKeyAndText(piece: string, key: string, b: Bytes)
    requires ParsePair(piece) == Ok(Pair(key, Some(b)))
    ensures Means(piece, key, Some(b))
  {
    var pair := Trim(piece);
    var lead, trail := TrimParts(piece);
    PairFacts(piece, key, b);
    var gap := PartsOfPair(pair);
    SpaceMeans(piece, pair, pair[IndexOf(pair, ' ').value + 1..], key, b, lead, gap, trail);
  }

  lemma SpaceMeans(piece: string, pair: string, rest: string, key: string, b: Bytes, lead: string, gap: string, trail: string)
    requires Key(key) && Blanks(gap) && ' ' in gap && Blanks(lead) && Blanks(trail)
    requires piece == lead + pair + trail && pair == key + gap + Trim(rest)
    requires rest != [] && !IsSpace(rest[|rest| - 1]) && Base64.Decode(Trim(rest)) == Some(b) && ValidUtf8(b)
    ensures Means(piece, key, Some(b))
  {
    var text := ValidIsText(b);
    SpelledText(b, text, rest);
    PairMeans(piece, pair, key, text, lead, gap, trail, Trim(rest));
  }

  lemma PairMeans(piece: string, pair: string, key: string, text: seq<Scalar>, lead: string, gap: string, trail: string, s: string)
    requires Key(key) && Blanks(gap) && ' ' in gap && Blanks(lead) && Blanks(trail) && text != []
    requires piece == lead + pair + trail && pair == key + gap + s && Base64.Decode(s) == Some(Utf8Text(text))
    ensures Means(piece, key, Some(Utf8Text(text)))
  {
    DecodeIff(s, Utf8Text(text));
    assert KeyAndText(piece, key, text, lead, gap, trail);
  }

  lemma SpelledText(b: Bytes, text: seq<Scalar>, s: string)
    requires Utf8Text(text) == b && Base64.Decode(Trim(s)) == Some(b) && s != [] && !IsSpace(s[|s| - 1])
    ensures text != []
  {
    TrimKeepsSome(s);
  }

  lemma PairGlue(pair: string, p: nat, key: string, before: string, behind: string, s: string)
    requires p < |pair| && pair[p] == ' ' && pair[..p] == key + before && pair[p + 1..] == behind + s
    ensures pair == key + (before + [' '] + behind) + s
  {
    assert pair == pair[..p] + [' '] + pair[p + 1..];
  }

  /** A piece parses to a pair exactly if it means that pair. */
  lemma PairIff(piece: string, key: string, value: Option<Bytes>)
    ensures ParsePair(piece) == Ok(Pair(key, value)) <==> Means(piece, key, value)
  {
    if ParsePair(piece) == Ok(Pair(key, value)) {
      if value.None? {
        ParsesKeyAlone(piece, key);
      } else {
        ParsesKeyAndText(piece, key, value.value);
      }
    }
    if Means(piece, key, value) {
      if value.None? {
        var lead, trail :| KeyAlone(piece, key, lead, trail);
        KeyAloneParses(piece, key, lead, trail);
      } else {
        var text, lead, gap, trail :| value.value == Utf8Text(text) && KeyAndText(piece, key, text, lead, gap, trail);
        KeyAndTextParses(piece, key, text, lead, gap, trail);
      }
    }
  }

  /** A piece is skipped exactly if it is white space. */
  lemma BlankIff(piece: string)
    ensures ParsePair(piece) == Ok(Blank) <==> Blanks(piece)
  {
    if Blanks(piece) {
      TrimIs(piece, [], []);
      assert piece + [] + [] == piece;
    }
    if ParsePair(piece) == Ok(Blank) {
      var lead, trail := TrimParts(piece);
      assert piece == lead + trail;
    }
  }

  // ----- the whole header -----

  /** The last piece with this key has this value. */
  ghost predicate LastIs(pieces: seq<string>, key: string, value: Option<Bytes>) {
    exists i :: LastAt(pieces, key, value, i)
  }

  ghost predicate LastAt(pieces: seq<string>, key: string, value: Option<Bytes>, i: int) {
    && 0 <= i < |pieces| && Means(pieces[i], key, value)
    && forall j, v :: i < j < |pieces| ==> !Means(pieces[j], key, v)
  }

  ghost predicate Readable(piece: string) {
    Blanks(piece) || exists key, value :: Means(piece, key, value)
  }

  lemma ReadableIff(piece: string)
    ensures ParsePair(piece).Ok? <==> Readable(piece)
    ensures ParsePair(piece).Err? ==> ParsePair(piece) == Err(InvalidMetadata)
  {
    var r := ParsePair(piece);
    BlankIff(piece);
    if r.Ok? && r.value.Pair? {
      PairIff(piece, r.value.key, r.value.value);
    }
    if key, value :| Means(piece, key, value) {
      PairIff(piece, key, value);
    }
  }

  lemma LastSnoc(pieces: seq<string>, piece: string, key: string, value: Option<Bytes>)
    ensures LastIs(pieces + [piece], key, value) <==>
            Means(piece, key, value) || (LastIs(pieces, key, value) && forall v :: !Means(piece, key, v))
  {
    var all, n := pieces + [piece], |pieces|;
    if Means(piece, key, value) {
      assert LastAt(all, key, value, n);
    }
    if i :| LastAt(all, key, value, i) && i < n {
      assert all[n] == piece;
      assert LastAt(pieces, key, value, i) by {
        forall j, v | i < j < n
          ensures !Means(pieces[j], key, v)
        {
          assert all[j] == pieces[j];
        }
      }
    }
    if LastIs(pieces, key, value) && forall v :: !Means(piece, key, v) {
      var i :| LastAt(pieces, key, value, i);
      assert LastAt(all, key, value, i);
    }
  }

  /** The pieces entered one after another leave under every key the value of the last piece that has it. */
  lemma {:induction false} ParseAllIff(pieces: seq<string>)
    ensures ParseAll(pieces).Ok? <==> forall i :: 0 <= i < |pieces| ==> Readable(pieces[i])
    ensures ParseAll(pieces).Err? ==> ParseAll(pieces) == Err(InvalidMetadata)
    ensures ParseAll(pieces).Ok? ==>
              var m := ParseAll(pieces).value;
              forall key, value :: (key in m && m[key] == value) <==> LastIs(pieces, key, value)
  {
    if pieces != [] {
      var n := |pieces| - 1;
      var before, piece := pieces[..n], pieces[n];
      assert pieces == before + [piece];
      ParseAllIff(before);
      ReadableIff(piece);
      if ParseAll(pieces).Ok? {
        var m := ParseAll(pieces).value;
        forall key, value
          ensures (key in m && m[key] == value) <==> LastIs(pieces, key, value)
        {
          EnterPiece(before, piece, key, value);
        }
      }
    }
  }

  lemma EnterPiece(before: seq<string>, piece: string, key: string, value: Option<Bytes>)
    requires ParseAll(before + [piece]).Ok? && ParseAll(before).Ok?
    requires var m := ParseAll(before).value; (key in m && m[key] == value) <==> LastIs(before, key, value)
    ensures var m := ParseAll(before + [piece]).value; (key in m && m[key] == value) <==> LastIs(before + [piece], key, value)
  {
    assert (before + [piece])[..|before|] == before;
    LastSnoc(before, piece, key, value);
    forall v
      ensures Means(piece, key, v) <==> ParsePair(piece) == Ok(Pair(key, v))
    {
      PairIff(piece, key, v);
    }
  }

  /** A header parses exactly if every piece between commas is readable, and then the last piece of a key decides. */
  lemma HeaderIff(header: string, pieces: seq<string>)
    requires pieces != [] && Join(pieces) == header && forall i :: 0 <= i < |pieces| ==> ',' !in pieces[i]
    ensures ParseAll(Split(header)).Ok? <==> forall i :: 0 <= i < |pieces| ==> Readable(pieces[i])
    ensures ParseAll(Split(header)).Err? ==> ParseAll(Split(header)) == Err(InvalidMetadata)
    ensures ParseAll(Split(header)).Ok? ==>
              var m := ParseAll(Split(header)).value;
              forall key, value :: (key in m && m[key] == value) <==> LastIs(pieces, key, value)
  {
    SplitIff(header, pieces);
    ParseAllIff(pieces);
  }
}
