/** Location URLs: how a POST builds them and how a final POST gets the upload IDs back out of them. */
module Locations {
  import opened Core
  import opened Text
  import opened Names
  import opened Metadatas

  function TrimEndSlashes(s: string): (r: string)
    ensures r <= s && (r != [] ==> r[|r| - 1] != '/')
    ensures s != [] && s[|s| - 1] != '/' ==> r == s
  {
    if s != [] && s[|s| - 1] == '/' then TrimEndSlashes(s[..|s| - 1]) else s
  }

  function TrimStartSlashes(s: string): (r: string)
    ensures |r| <= |s| && (s == [] || s[0] != '/' ==> r == s)
  {
    if s != [] && s[0] == '/' then TrimStartSlashes(s[1..]) else s
  }

  function ParseId(s: string): Result<string> {
    if ValidId(s) then Ok(s) else Err(InvalidUploadId)
  }

  /** `origin` is the scheme and host, without a trailing slash. */
  function BuildLocation(origin: string, basePath: string, id: string): string {
    origin + TrimEndSlashes(basePath) + "/" + id
  }

  function LastSegment(path: string): string {
    match RFind(path, "/")
    case Some(p) => path[p + 1..]
    case None => path
  }

  function Fallback(path: string): Result<string> {
    var id := Trim(LastSegment(path));
    if id == [] then Err(InvalidUploadId) else ParseId(id)
  }

  /** What follows the last occurrence of the base path, or else the last path segment. */
  function ExtractFrom(path: string, base: string): Result<string> {
    match RFind(path, base)
    case None => Fallback(path)
    case Some(pos) =>
      var id := AfterBase(path, base, pos);
      if id != [] then ParseId(id) else Fallback(path)
  }

  function AfterBase(path: string, base: string, pos: nat): string
    requires pos + |base| <= |path|
  {
    TrimStartSlashes(path[pos + |base|..])
  }

  function ExtractId(url: string, basePath: string): Result<string> {
    ExtractFrom(Trim(url), TrimEndSlashes(basePath))
  }

  lemma IdHasNoSlash(id: string)
    requires ValidId(id)
    ensures '/' !in id && Trimmed(id)
  {
    assert forall i :: 0 <= i < |id| ==> IdChar(id[i]);
    assert IdChar(id[0]) && IdChar(id[|id| - 1]);
  }

  /** The last slash of `x / id` is the one in front of the ID. */
  lemma LastSlash(x: string, id: string)
    requires '/' !in id
    ensures RFind(x + "/" + id, "/") == Some(|x|) && LastSegment(x + "/" + id) == id
  {
    var s := x + "/" + id;
    assert s[|x|..|x| + 1] == "/";
    forall i | |x| < i
      ensures !MatchAt(s, "/", i)
    {
      if i + 1 <= |s| {
        assert s[i] == id[i - |x| - 1] && s[i..i + 1][0] == s[i];
      }
    }
    RFindIs(s, "/", |x|);
    assert s[|x| + 1..] == id;
  }

  lemma FallbackFinds(x: string, id: string)
    requires ValidId(id)
    ensures Fallback(x + "/" + id) == Ok(id)
  {
    IdHasNoSlash(id);
    LastSlash(x, id);
  }

  lemma MatchBehind(origin: string, x: string, base: string, i: int)
    requires i >= |origin|
    ensures MatchAt(origin + x, base, i) <==> MatchAt(x, base, i - |origin|)
  {
    var s := origin + x;
    if i + |base| <= |s| {
      assert s[i..i + |base|] == x[i - |origin|..i - |origin| + |base|];
    }
  }

  /** What stands in front of the last occurrence does not matter. */
  lemma FindBehind(origin: string, x: string, base: string)
    requires RFind(x, base).Some?
    ensures RFind(origin + x, base) == Some(|origin| + RFind(x, base).value)
  {
    var k := RFind(x, base).value;
    MatchBehind(origin, x, base, |origin| + k);
    forall i: nat | |origin| + k < i
      ensures !MatchAt(origin + x, base, i)
    {
      MatchBehind(origin, x, base, i);
    }
    RFindIs(origin + x, base, |origin| + k);
  }

  lemma UrlTrimmed(front: string, id: string)
    requires ValidId(id) && front != [] && !IsSpace(front[0])
    ensures Trim(front + id) == front + id
  {
    IdHasNoSlash(id);
    var s := front + id;
    assert s[0] == front[0] && s[|s| - 1] == id[|id| - 1];
    assert Trimmed(s);
  }

  // ----- any base path -----

  /** The base path occurs in `base/id` nowhere but at the start, or else also at the very end. */
  predicate Unmistakable(base: string, id: string) {
    var x := base + "/" + id;
    EndsWith(x, base) || forall i :: 0 < i <= |x| ==> !MatchAt(x, base, i)
  }

  /** Where the base path is found, and what is left behind it. */
  lemma BaseFound(base: string, id: string)
    requires base != [] && base[|base| - 1] != '/' && '/' !in id && id != []
    ensures var x := base + "/" + id;
            && RFind(x, base).Some?
            && var k := RFind(x, base).value;
               && k <= |id| + 1 && k != 1 && (k > 0 ==> |id[k - 1..]| < |id|)
               && TrimStartSlashes(x[k + |base|..]) == (if k == 0 then id else id[k - 1..])
               && (Unmistakable(base, id) <==> k == 0 || k == |id| + 1)
  {
    var x := base + "/" + id;
    assert x[0..|base|] == base && MatchAt(x, base, 0);
    var k := RFind(x, base).value;
    if k == 0 {
      assert x[|base|..] == "/" + id;
      SlashTrims(id);
    } else {
      assert x[k + |base|..] == id[k - 1..];
      assert forall c :: c in id[k - 1..] ==> c in id;
    }
    if EndsWith(x, base) {
      assert MatchAt(x, base, |id| + 1);
    }
    if k == |id| + 1 {
      assert x[k..] == base;
    }
  }

  lemma SuffixBehind(origin: string, x: string, p: nat)
    requires p <= |x|
    ensures (origin + x)[|origin| + p..] == x[p..]
  {
  }

  /** What is extracted depends on what is left behind the base path. */
  lemma ExtractBehind(origin: string, x: string, base: string)
    requires RFind(x, base).Some?
    ensures var left := TrimStartSlashes(x[RFind(x, base).value + |base|..]);
            ExtractFrom(origin + x, base) == if left != [] then ParseId(left) else Fallback(origin + x)
  {
    FindBehind(origin, x, base);
    var k := RFind(x, base).value;
    SuffixBehind(origin, x, k + |base|);
    ExtractAt(origin + x, base, |origin| + k, TrimStartSlashes(x[k + |base|..]));
  }

  lemma ExtractAt(path: string, base: string, pos: nat, left: string)
    requires RFind(path, base) == Some(pos) && AfterBase(path, base, pos) == left
    ensures ExtractFrom(path, base) == if left != [] then ParseId(left) else Fallback(path)
  {
  }

  lemma LocationUrl(origin: string, basePath: string, id: string)
    requires ValidId(id) && TrimEndSlashes(basePath) != [] && !IsSpace((origin + TrimEndSlashes(basePath))[0])
    ensures var base := TrimEndSlashes(basePath);
            var s := origin + (base + "/" + id);
            && Fallback(s) == Ok(id)
            && ExtractId(BuildLocation(origin, basePath, id), basePath) == ExtractFrom(s, base)
  {
    var base := TrimEndSlashes(basePath);
    Reassociate(origin, base, id);
    UrlTrimmed(origin + base + "/", id);
    FallbackFinds(origin + base, id);
  }

  lemma Reassociate(origin: string, base: string, id: string)
    ensures origin + base + "/" + id == origin + (base + "/" + id)
    ensures base != [] ==> (origin + base + "/")[0] == (origin + base)[0]
  {
  }

  /** An ID comes back from its Location exactly when the base path cannot be mistaken inside it. */
  lemma LocationIff(origin: string, basePath: string, id: string)
    requires ValidId(id) && TrimEndSlashes(basePath) != [] && !IsSpace((origin + TrimEndSlashes(basePath))[0])
    ensures ExtractId(BuildLocation(origin, basePath, id), basePath) == Ok(id)
        <==> Unmistakable(TrimEndSlashes(basePath), id)
  {
    IdHasNoSlash(id);
    LocationUrl(origin, basePath, id);
    BaseFound(TrimEndSlashes(basePath), id);
    ExtractBehind(origin, TrimEndSlashes(basePath) + "/" + id, TrimEndSlashes(basePath));
  }

  // ----- a base path of one segment -----

  /** Past the start, the base path occurs in `/seg/id` only at the ID, if that begins with the segment. */
  lemma SegmentMatches(seg: string, id: string, i: nat)
    requires '/' !in seg && '/' !in id && 0 < i
    ensures MatchAt("/" + seg + "/" + id, "/" + seg, i) <==> i == |seg| + 1 && seg <= id
  {
    var x, base := "/" + seg + "/" + id, "/" + seg;
    assert x[|seg| + 1] == '/' && x[|seg| + 2..] == id;
    if i + |base| <= |x| {
      assert x[i..i + |base|][0] == x[i] && base[0] == '/';
      if i <= |seg| {
        assert x[i] == seg[i - 1];
      } else if i == |seg| + 1 {
        assert x[i..i + |base|] == "/" + id[..|seg|];
        assert x[i..i + |base|][1..] == id[..|seg|] && base[1..] == seg;
      } else {
        assert x[i] == id[i - |seg| - 2];
      }
    } else if i == |seg| + 1 {
      assert |seg| > |id|;
    }
  }

  lemma SegmentUnmistakable(seg: string, id: string)
    requires '/' !in seg && '/' !in id
    ensures Unmistakable("/" + seg, id) <==> !(seg < id)
  {
    var x, base := "/" + seg + "/" + id, "/" + seg;
    forall i: nat | 0 < i
      ensures MatchAt(x, base, i) <==> i == |seg| + 1 && seg <= id
    {
      SegmentMatches(seg, id, i);
    }
    assert MatchAt(x, base, |seg| + 1) <==> seg <= id;
    assert EndsWith(x, base) <==> MatchAt(x, base, |id| + 1);
    assert seg <= id && |seg| == |id| <==> seg == id;
  }

  /** With a base path of one segment, the ID comes back exactly when the segment is not a proper prefix of it. */
  lemma OneSegmentIff(origin: string, basePath: string, seg: string, id: string)
    requires ValidId(id) && TrimEndSlashes(basePath) == "/" + seg && '/' !in seg
    requires origin != [] ==> !IsSpace(origin[0])
    ensures ExtractId(BuildLocation(origin, basePath, id), basePath) == Ok(id) <==> !(seg < id)
  {
    IdHasNoSlash(id);
    assert origin == [] ==> origin + ("/" + seg) == "/" + seg;
    LocationIff(origin, basePath, id);
    SegmentUnmistakable(seg, id);
  }

  lemma SlashTrims(id: string)
    requires '/' !in id
    ensures TrimStartSlashes("/" + id) == id
  {
    assert ("/" + id)[1..] == id;
  }

  /** With an empty base path, or one of slashes only, the ID always comes back. */
  lemma EmptyBase(origin: string, basePath: string, id: string)
    requires ValidId(id) && TrimEndSlashes(basePath) == [] && (origin != [] ==> !IsSpace(origin[0]))
    ensures ExtractId(BuildLocation(origin, basePath, id), basePath) == Ok(id)
  {
    var s := origin + [] + "/" + id;
    assert BuildLocation(origin, basePath, id) == s;
    UrlTrimmed(origin + [] + "/", id);
    assert s[|s|..|s|] == [];
    RFindIs(s, [], |s|);
    FallbackFinds(origin + [], id);
  }

  // ----- any URL -----

  predicate AllSlashes(s: string) {
    forall i :: 0 <= i < |s| ==> s[i] == '/'
  }

  lemma {:induction false} EndSlashes(front: string, slashes: string)
    requires AllSlashes(slashes) && (front == [] || front[|front| - 1] != '/')
    ensures TrimEndSlashes(front + slashes) == front
  {
    if slashes == [] {
      assert front + slashes == front;
    } else {
      EndSlashes(front, slashes[..|slashes| - 1]);
      assert (front + slashes)[..|front + slashes| - 1] == front + slashes[..|slashes| - 1];
    }
  }

  lemma {:induction false} StartSlashes(slashes: string, rest: string)
    requires AllSlashes(slashes) && (rest == [] || rest[0] != '/')
    ensures TrimStartSlashes(slashes + rest) == rest
  {
    if slashes == [] {
      assert slashes + rest == rest;
    } else {
      StartSlashes(slashes[1..], rest);
      assert (slashes + rest)[1..] == slashes[1..] + rest;
    }
  }

  lemma {:induction false} SlashesInFront(s: string) returns (slashes: string)
    ensures s == slashes + TrimStartSlashes(s) && AllSlashes(slashes)
    ensures TrimStartSlashes(s) != [] ==> TrimStartSlashes(s)[0] != '/'
  {
    slashes := [];
    if s != [] && s[0] == '/' {
      var rest := SlashesInFront(s[1..]);
      slashes := ['/'] + rest;
      assert s == ['/'] + s[1..];
    }
  }

  /** A Location is the origin, the base path without the slashes at its end, a slash and the ID. */
  lemma LocationIs(origin: string, base: string, slashes: string, id: string)
    requires AllSlashes(slashes) && (base == [] || base[|base| - 1] != '/')
    ensures BuildLocation(origin, base + slashes, id) == origin + base + "/" + id
  {
    EndSlashes(base, slashes);
  }

  /** `x` ends where the base path occurs for the last time. */
  ghost predicate LastBase(path: string, base: string, x: string, rest: string) {
    path == x + base + rest && forall i: nat :: |x| < i ==> !MatchAt(path, base, i)
  }

  lemma LastBaseFound(path: string, base: string, x: string, rest: string)
    requires LastBase(path, base, x, rest)
    ensures RFind(path, base) == Some(|x|) && path[|x| + |base|..] == rest
  {
    assert path[|x|..|x| + |base|] == base;
    RFindIs(path, base, |x|);
  }

  lemma BaseOccurs(path: string, base: string) returns (x: string, rest: string)
    requires RFind(path, base).Some?
    ensures LastBase(path, base, x, rest)
  {
    var p := RFind(path, base).value;
    x, rest := path[..p], path[p + |base|..];
    assert path == x + path[p..p + |base|] + rest;
  }

  /** The ID is what follows the last occurrence of the base path, but for slashes. */
  ghost predicate BehindBase(path: string, base: string, id: string) {
    exists x, slashes :: AllSlashes(slashes) && LastBase(path, base, x, slashes + id)
  }

  /** The base path does not occur, or only slashes follow it. */
  ghost predicate NothingBehind(path: string, base: string) {
    (forall i :: !MatchAt(path, base, i)) || exists x, slashes :: AllSlashes(slashes) && LastBase(path, base, x, slashes)
  }

  /** The ID is the last segment, but for white space. */
  ghost predicate LastPart(path: string, id: string) {
    (path == id && '/' !in id) || exists front, segment :: path == front + "/" + segment && '/' !in segment && Trim(segment) == id
  }

  lemma BehindIff(path: string, base: string, id: string)
    requires id != [] && id[0] != '/'
    ensures BehindBase(path, base, id) <==>
            RFind(path, base).Some? && AfterBase(path, base, RFind(path, base).value) == id
  {
    if x, slashes :| AllSlashes(slashes) && LastBase(path, base, x, slashes + id) {
      LastBaseFound(path, base, x, slashes + id);
      StartSlashes(slashes, id);
    }
    if RFind(path, base).Some? && AfterBase(path, base, RFind(path, base).value) == id {
      var x, rest := BaseOccurs(path, base);
      var slashes := SlashesInFront(rest);
      LastBaseFound(path, base, x, rest);
      assert LastBase(path, base, x, slashes + id);
    }
  }

  lemma NothingIff(path: string, base: string)
    ensures NothingBehind(path, base) <==>
            RFind(path, base).None? || AfterBase(path, base, RFind(path, base).value) == []
  {
    if x, slashes :| AllSlashes(slashes) && LastBase(path, base, x, slashes) {
      LastBaseFound(path, base, x, slashes);
      StartSlashes(slashes, []);
      assert slashes + [] == slashes;
    }
    if RFind(path, base).Some? && AfterBase(path, base, RFind(path, base).value) == [] {
      var x, rest := BaseOccurs(path, base);
      var slashes := SlashesInFront(rest);
      LastBaseFound(path, base, x, rest);
      assert rest == slashes;
    }
  }

  lemma SlashAt(s: string, i: nat)
    requires i < |s|
    ensures MatchAt(s, "/", i) <==> s[i] == '/'
  {
    assert s[i..i + 1] == [s[i]];
  }

  lemma NoSlash(path: string)
    requires RFind(path, "/").None?
    ensures '/' !in path && LastSegment(path) == path
  {
    forall i | 0 <= i < |path|
      ensures path[i] != '/'
    {
      SlashAt(path, i);
    }
  }

  lemma LastSegmentParts(path: string) returns (front: string)
    requires RFind(path, "/").Some?
    ensures path == front + "/" + LastSegment(path) && '/' !in LastSegment(path)
  {
    var p := RFind(path, "/").value;
    front := path[..p];
    SlashAt(path, p);
    forall i | p < i < |path|
      ensures path[i] != '/'
    {
      SlashAt(path, i);
    }
    assert path == front + [path[p]] + path[p + 1..];
  }

  lemma LastSegmentIff(path: string, id: string)
    requires path == [] || Trimmed(path)
    ensures LastPart(path, id) <==> Trim(LastSegment(path)) == id
  {
    if RFind(path, "/").None? {
      NoSlash(path);
    } else {
      var front := LastSegmentParts(path);
    }
    if front, segment :| path == front + "/" + segment && '/' !in segment && Trim(segment) == id {
      LastSlash(front, segment);
    }
  }

  /** Which IDs are read from which URLs: the one behind the base path, or else the last segment, if it is valid. */
  lemma ExtractIff(url: string, basePath: string, id: string)
    ensures var (path, base) := (Trim(url), TrimEndSlashes(basePath));
            ExtractId(url, basePath) == Ok(id) <==>
              ValidId(id) && (BehindBase(path, base, id) || (NothingBehind(path, base) && LastPart(path, id)))
    ensures ExtractId(url, basePath).Err? ==> ExtractId(url, basePath) == Err(InvalidUploadId)
  {
    var (path, base) := (Trim(url), TrimEndSlashes(basePath));
    NothingIff(path, base);
    LastSegmentIff(path, id);
    if ValidId(id) {
      IdHasNoSlash(id);
      BehindIff(path, base, id);
    }
  }
}
