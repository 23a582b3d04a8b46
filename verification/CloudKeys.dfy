/** The keys of the cloud stores: listing parts by number, and why assemblies never meet their own temporaries. */
module CloudKeys {
  import opened Core
  import opened Decimal
  import opened Text
  import opened Names
  import opened Listing
  import opened Blobs
  import opened ObjectMaps

  function PartKey(stem: string, index: U32): string {
    stem + PART_TOKEN + Dec(index)
  }

  /** The keys of parts and temporaries are those of the upload's files, behind the bucket's prefix. */
  lemma KeysAreNames(prefix: string, id: string, n: U32)
    ensures PartKey(prefix + id, n) == prefix + Name(id, Part(n))
    ensures TmpKey(prefix + id, n) == prefix + Name(id, Tmp(n))
  {
    assert prefix + id + PART_TOKEN + Dec(n) == prefix + (id + PART_TOKEN + Dec(n));
    assert prefix + id + TMP_TOKEN + Dec(n) == prefix + (id + TMP_TOKEN + Dec(n));
  }

  /** What follows the last underscore, read as a u32, or 0. */
  function PartIndex(key: string): U32 {
    match RFind(key, "_")
    case Some(p) => ParseU32(key[p + 1..]).GetOr(0)
    case None => ParseU32(key).GetOr(0)
  }

  /** Printing a part's index into its key and reading it back gives the index, whatever the prefix and the ID. */
  lemma PartIndexOfKey(stem: string, index: U32)
    ensures PartIndex(PartKey(stem, index)) == index
  {
    var key := PartKey(stem, index);
    var p := |stem| + |PART_TOKEN| - 1;
    assert key[p..p + 1] == "_";
    assert key[p + 1..] == Dec(index);
    forall i | p < i
      ensures !MatchAt(key, "_", i)
    {
      if i + 1 <= |key| {
        assert key[i] == Dec(index)[i - p - 1];
        assert key[i..i + 1][0] == key[i];
        assert IsDigit(key[i]);
      }
    }
    RFindIs(key, "_", p);
    ParseOfDec(index);
  }

  function PartKeys(stem: string, k: nat): (r: seq<string>)
    requires k <= U32_LIMIT
    ensures |r| == k && forall i :: 0 <= i < k ==> r[i] == PartKey(stem, i)
  {
    seq(k, i requires 0 <= i < k => PartKey(stem, i))
  }

  // ----- listing -----

  predicate Distinct(keys: seq<string>) {
    forall i, j :: 0 <= i < j < |keys| ==> keys[i] != keys[j]
  }

  /** What a listing by prefix returns: every key that begins with `{stem}_part_`, once, in whatever order. */
  ghost predicate PrefixListing(listing: seq<string>, objects: Objects, stem: string) {
    Distinct(listing) && forall key :: key in listing <==> key in objects && stem + PART_TOKEN <= key
  }

  /** The numbered keys 0 to k-1 are all that begins that way. */
  ghost predicate OnlyParts(objects: Objects, stem: string, k: nat)
    requires k <= U32_LIMIT
  {
    forall key :: key in objects && stem + PART_TOKEN <= key ==> key in PartKeys(stem, k)
  }

  predicate OrderedByPart(names: seq<string>) {
    forall i, j :: 0 <= i < j < |names| ==> PartIndex(names[i]) <= PartIndex(names[j])
  }

  /** Sorts what the service listed by the number each key ends with. */
  method ListParts(listing: seq<string>) returns (names: seq<string>)
    requires Distinct(listing)
    ensures OrderedByPart(names) && Distinct(names) && |names| == |listing|
    ensures forall key :: key in names <==> key in listing
  {
    var indexed := Numbered(listing);
    var sorted := SortByIndex(indexed);
    SortedNames(listing, sorted);
    names := seq(|sorted|, i requires 0 <= i < |sorted| => sorted[i].name);
    forall key | key in listing
      ensures key in names
    {
      var i :| 0 <= i < |sorted| && sorted[i].name == key;
      assert names[i] == key;
    }
  }

  function Numbered(listing: seq<string>): (r: seq<Indexed>)
    ensures |r| == |listing| && forall i :: 0 <= i < |r| ==> r[i] == Indexed(PartIndex(listing[i]), listing[i])
  {
    seq(|listing|, i requires 0 <= i < |listing| => Indexed(PartIndex(listing[i]), listing[i]))
  }

  lemma SortedNames(listing: seq<string>, sorted: seq<Indexed>)
    requires Distinct(listing) && OrderedByIndex(sorted) && multiset(sorted) == multiset(Numbered(listing))
    ensures |sorted| == |listing|
    ensures forall i :: 0 <= i < |sorted| ==> sorted[i].index == PartIndex(sorted[i].name) && sorted[i].name in listing
    ensures forall i, j :: 0 <= i < j < |sorted| ==> sorted[i].name != sorted[j].name
    ensures forall key :: key in listing ==> exists i :: 0 <= i < |sorted| && sorted[i].name == key
  {
    var r := Numbered(listing);
    assert |multiset(sorted)| == |multiset(r)|;
    forall i | 0 <= i < |sorted|
      ensures sorted[i].index == PartIndex(sorted[i].name) && sorted[i].name in listing
    {
      assert sorted[i] in multiset(r);
      var j :| 0 <= j < |r| && r[j] == sorted[i];
      assert listing[j] in listing;
    }
    forall i, j | 0 <= i < j < |sorted|
      ensures sorted[i].name != sorted[j].name
    {
      if sorted[i].name == sorted[j].name {
        assert sorted[i] == sorted[j];
        TwiceInMultiset(sorted, i, j);
        DistinctOnce(r, sorted[i]);
      }
    }
    forall key | key in listing
      ensures exists i :: 0 <= i < |sorted| && sorted[i].name == key
    {
      var j :| 0 <= j < |listing| && listing[j] == key;
      assert r[j] in multiset(sorted);
      assert r[j] in sorted;
    }
  }

  lemma {:induction false} DistinctOnce(r: seq<Indexed>, e: Indexed)
    requires forall i, j :: 0 <= i < j < |r| ==> r[i] != r[j]
    ensures multiset(r)[e] <= 1
  {
    if r != [] {
      var before, last := r[..|r| - 1], r[|r| - 1];
      DistinctOnce(before, e);
      assert r == before + [last];
      assert last !in before;
    }
  }

  function Numbers(names: seq<string>): (r: seq<U32>)
    ensures |r| == |names| && forall i :: 0 <= i < |r| ==> r[i] == PartIndex(names[i])
  {
    seq(|names|, i requires 0 <= i < |names| => PartIndex(names[i]))
  }

  lemma NumbersOfParts(stem: string, k: nat, names: seq<string>)
    requires k <= U32_LIMIT && forall key :: key in names <==> key in PartKeys(stem, k)
    ensures forall i :: 0 <= i < |names| ==> names[i] == PartKey(stem, Numbers(names)[i])
    ensures forall n :: n in Numbers(names) <==> n in UpTo(k)
  {
    forall i | 0 <= i < |names|
      ensures Numbers(names)[i] < k && names[i] == PartKey(stem, Numbers(names)[i])
    {
      assert names[i] in names;
      IsPart(stem, k, names[i]);
    }
    forall n: U32 | n < k
      ensures n in Numbers(names)
    {
      assert PartKeys(stem, k)[n] in names;
      var i :| 0 <= i < |names| && names[i] == PartKey(stem, n);
      PartIndexOfKey(stem, n);
      assert Numbers(names)[i] == n;
    }
  }

  lemma NumbersAscend(stem: string, names: seq<string>)
    requires OrderedByPart(names) && Distinct(names)
    requires forall i :: 0 <= i < |names| ==> names[i] == PartKey(stem, Numbers(names)[i])
    ensures Ascending(Numbers(names))
  {
    forall i, j | 0 <= i < j < |names|
      ensures Numbers(names)[i] < Numbers(names)[j]
    {
      NumbersApart(stem, names, Numbers(names), i, j);
    }
  }

  lemma NumbersApart(stem: string, names: seq<string>, numbers: seq<U32>, i: nat, j: nat)
    requires i < j < |names| == |numbers| && names[i] != names[j] && numbers[i] <= numbers[j]
    requires names[i] == PartKey(stem, numbers[i]) && names[j] == PartKey(stem, numbers[j])
    ensures numbers[i] < numbers[j]
  {
  }

  /** Distinct keys in the order of their numbers, if they are the first k parts, are those in the order of writing. */
  lemma InOrderOfWriting(stem: string, k: nat, names: seq<string>)
    requires k <= U32_LIMIT && OrderedByPart(names) && Distinct(names)
    requires forall key :: key in names <==> key in PartKeys(stem, k)
    ensures names == PartKeys(stem, k)
  {
    NumbersOfParts(stem, k, names);
    NumbersAscend(stem, names);
    AscendingUnique(Numbers(names), UpTo(k));
    assert |names| == k && forall i :: 0 <= i < k ==> names[i] == PartKey(stem, i);
  }

  lemma IsPart(stem: string, k: nat, name: string)
    requires k <= U32_LIMIT && name in PartKeys(stem, k)
    ensures PartIndex(name) < k && name == PartKey(stem, PartIndex(name))
  {
    var i :| 0 <= i < k && PartKeys(stem, k)[i] == name;
    PartIndexOfKey(stem, i);
  }

  /**
   * The sorted listing of an upload with k parts is those parts in the order of writing exactly when no other key in
   * the store begins like a part of it.
   */
  lemma ListedInOrderIff(objects: Objects, listing: seq<string>, names: seq<string>, stem: string, k: nat)
    requires k <= U32_LIMIT && AllThere(objects, PartKeys(stem, k)) && PrefixListing(listing, objects, stem)
    requires OrderedByPart(names) && Distinct(names) && forall key :: key in names <==> key in listing
    ensures names == PartKeys(stem, k) <==> OnlyParts(objects, stem, k)
  {
    forall key | key in PartKeys(stem, k)
      ensures key in objects && stem + PART_TOKEN <= key
    {
      IsPart(stem, k, key);
      assert key == (stem + PART_TOKEN) + Dec(PartIndex(key));
    }
    if OnlyParts(objects, stem, k) {
      InOrderOfWriting(stem, k, names);
    }
  }

  // ----- whose keys begin like a part -----

  /** No `_part_` begins inside `x_part_digits` behind the one in front of the digits, and none in `x_tmp_digits`. */
  lemma NoPartBehind(x: string, token: string, digits: string, p: nat)
    requires token == PART_TOKEN || token == TMP_TOKEN
    requires digits != [] && AllDigits(digits) && MatchAt(x + token + digits, PART_TOKEN, p)
    ensures p <= |x| && (token == TMP_TOKEN ==> p < |x|)
  {
    var s := x + token + digits;
    assert s[p..p + 6][0] == s[p] && s[p..p + 6][1] == s[p + 1];
    assert forall i :: |x + token| <= i < |s| ==> s[i] == digits[i - |x + token|];
    assert forall i :: |x| <= i < |x + token| ==> s[i] == token[i - |x|];
    assert forall i :: 0 <= i < |digits| ==> IsDigit(digits[i]);
  }

  lemma ForeignBegin(id: string, owner: string, suffix: string)
    requires |id| < |owner| < |id + PART_TOKEN| && id + PART_TOKEN <= owner + suffix
    requires suffix != [] && suffix[0] in {'.', '_'}
    ensures owner == id + "_part"
  {
    var name := owner + suffix;
    assert name[..|id| + 6] == id + PART_TOKEN;
    assert name[|owner|] == suffix[0] && (id + PART_TOKEN)[|owner|] == PART_TOKEN[|owner| - |id|];
    assert owner == (id + PART_TOKEN)[..|owner|];
  }

  lemma NumberedBegins(id: string, owner: string, token: string, digits: string)
    requires token == PART_TOKEN || token == TMP_TOKEN
    requires digits != [] && AllDigits(digits)
    requires |owner| < |id + PART_TOKEN| && id + PART_TOKEN <= owner + token + digits
    ensures (owner == id && token == PART_TOKEN) || owner == id + "_part"
  {
    assert owner + (token + digits) == owner + token + digits;
    assert MatchAt(owner + token + digits, PART_TOKEN, |id|);
    NoPartBehind(owner, token, digits, |id|);
    if |id| < |owner| {
      ForeignBegin(id, owner, token + digits);
    } else {
      assert (id + PART_TOKEN)[..|id|] == id && (owner + token + digits)[..|id|] == owner;
    }
  }

  lemma PrefixOfOwner(id: string, owner: string, suffix: string)
    requires |owner| >= |id + PART_TOKEN|
    ensures id + PART_TOKEN <= owner + suffix <==> id + PART_TOKEN <= owner
  {
    assert (owner + suffix)[..|id + PART_TOKEN|] == owner[..|id + PART_TOKEN|];
  }

  lemma NumberedBeginsIff(id: string, owner: string, token: string, digits: string)
    requires token == PART_TOKEN || token == TMP_TOKEN
    requires digits != [] && AllDigits(digits)
    ensures id + PART_TOKEN <= owner + token + digits <==>
      (owner == id && token == PART_TOKEN) || id + PART_TOKEN <= owner || owner == id + "_part"
  {
    var name := owner + token + digits;
    assert name == owner + (token + digits);
    if |owner| >= |id + PART_TOKEN| {
      PrefixOfOwner(id, owner, token + digits);
    } else if id + PART_TOKEN <= name {
      NumberedBegins(id, owner, token, digits);
    }
  }

  lemma InfoBeginsIff(id: string, owner: string)
    ensures id + PART_TOKEN <= owner + INFO_SUFFIX <==> id + PART_TOKEN <= owner
  {
    if |owner| >= |id + PART_TOKEN| {
      PrefixOfOwner(id, owner, INFO_SUFFIX);
    } else {
      assert (id + PART_TOKEN)[|id| + 5] == '_';
    }
  }

  /**
   * A key begins like a part of `id` exactly if it is a part of `id`, or its owner's ID begins that way, or its owner
   * is called `{id}_part` and the key is one of its parts or temporaries.
   */
  lemma BeginsLikePartIff(id: string, owner: string, kind: Kind)
    ensures id + PART_TOKEN <= Name(owner, kind) <==>
      || (owner == id && kind.Part?)
      || id + PART_TOKEN <= owner
      || (owner == id + "_part" && (kind.Part? || kind.Tmp?))
  {
    match kind
    case Data =>
    case Info => InfoBeginsIff(id, owner);
    case Part(n) => NumberedBeginsIff(id, owner, PART_TOKEN, Dec(n));
    case Tmp(n) => NumberedBeginsIff(id, owner, TMP_TOKEN, Dec(n));
  }

  /** Among uploads whose IDs are equally long, as generated IDs are, a prefix listing returns one upload's parts. */
  lemma EqualLengthIsolates(prefix: string, id: string, owner: string, kind: Kind)
    requires |owner| == |id|
    ensures prefix + id + PART_TOKEN <= prefix + Name(owner, kind) <==> owner == id && kind.Part?
  {
    BeginsLikePartIff(id, owner, kind);
    BehindPrefix(prefix, id + PART_TOKEN, Name(owner, kind));
    assert prefix + id + PART_TOKEN == prefix + (id + PART_TOKEN);
  }

  lemma BehindPrefix(prefix: string, a: string, b: string)
    ensures prefix + a <= prefix + b <==> a <= b
  {
    if |a| <= |b| {
      assert (prefix + b)[..|prefix + a|] == prefix + b[..|a|];
      assert (prefix + a)[|prefix|..] == a && (prefix + b[..|a|])[|prefix|..] == b[..|a|];
    }
  }

  // ----- assemblies and their temporaries -----

  lemma NoTmpSuffix(owner: string, kind: Kind)
    requires ValidId(owner) && (kind.Data? || kind.Part?)
    ensures NumberedSuffix(Name(owner, kind), TMP_TOKEN).None?
  {
    if kind.Part? {
      OtherToken(owner, PART_TOKEN, TMP_TOKEN, Dec(kind.index));
    }
  }

  lemma SameBehind(prefix: string, a: string, b: string)
    requires prefix + a == prefix + b
    ensures a == b
  {
    assert (prefix + a)[|prefix|..] == a && (prefix + b)[|prefix|..] == b;
  }

  /** A key of a valid upload, or one of its parts, is never a temporary object of any upload. */
  lemma TmpKeyBehind(prefix: string, id: string, n: nat)
    ensures TmpKey(prefix + id, n) == prefix + (id + TMP_TOKEN + Dec(n))
  {
  }

  lemma NotATmp(prefix: string, id: string, owner: string, kind: Kind, n: nat)
    requires ValidId(owner) && (kind.Data? || kind.Part?)
    ensures prefix + Name(owner, kind) != TmpKey(prefix + id, n)
  {
    NoTmpSuffix(owner, kind);
    TokenBeforeDigits(id, TMP_TOKEN, Dec(n));
    var tmp := id + TMP_TOKEN + Dec(n);
    TmpKeyBehind(prefix, id, n);
    if prefix + Name(owner, kind) == prefix + tmp {
      SameBehind(prefix, Name(owner, kind), tmp);
    }
  }

  lemma PartIsNoTmp(stem: string, index: U32, n: nat)
    ensures PartKey(stem, index) != TmpKey(stem, n)
  {
    assert PartKey(stem, index)[|stem| + 1] == 'p' && TmpKey(stem, n)[|stem| + 1] == 't';
  }

  lemma PartKeysNoTmp(stem: string, k: nat)
    requires k <= U32_LIMIT
    ensures NoTmpFrom(stem, 0, PartKeys(stem, k))
  {
    forall n: nat
      ensures TmpKey(stem, n) !in PartKeys(stem, k)
    {
      forall i | 0 <= i < k
        ensures PartKeys(stem, k)[i] != TmpKey(stem, n)
      {
        PartIsNoTmp(stem, i, n);
      }
    }
  }

  lemma PartKeysDistinct(stem: string, k: nat)
    requires k <= U32_LIMIT
    ensures forall i, j :: 0 <= i < j < k ==> PartKeys(stem, k)[i] != PartKeys(stem, k)[j]
  {
    forall i, j | 0 <= i < j < k
      ensures PartKeys(stem, k)[i] != PartKeys(stem, k)[j]
    {
      PartIndexOfKey(stem, i);
      PartIndexOfKey(stem, j);
    }
  }

  lemma StemIsShorter(stem: string, k: nat)
    requires k <= U32_LIMIT
    ensures stem !in PartKeys(stem, k) && forall n: nat :: stem != TmpKey(stem, n)
  {
    assert forall i :: 0 <= i < k ==> |PartKeys(stem, k)[i]| > |stem|;
    forall n: nat
      ensures stem != TmpKey(stem, n)
    {
      assert |TmpKey(stem, n)| > |stem|;
    }
  }

  /** Finalising: an upload's part keys and its final key are as the assemblies require. */
  lemma FinalizeKeys(stem: string, k: nat)
    requires k <= U32_LIMIT
    ensures NoTmpFrom(stem, 0, PartKeys(stem, k)) && stem !in PartKeys(stem, k)
    ensures forall n: nat :: stem != TmpKey(stem, n)
    ensures GroupsDisjoint([], PartKeys(stem, k))
  {
    PartKeysNoTmp(stem, k);
    StemIsShorter(stem, k);
    PartKeysDistinct(stem, k);
    DistinctGroups(PartKeys(stem, k));
  }

  function DataKeys(prefix: string, ids: seq<string>): seq<string> {
    seq(|ids|, i requires 0 <= i < |ids| => prefix + ids[i])
  }

  /** Concatenating: the final keys of other valid uploads are as the assemblies require. */
  lemma ConcatenateKeys(prefix: string, id: string, ids: seq<string>)
    requires ValidId(id) && (forall i :: 0 <= i < |ids| ==> ValidId(ids[i]) && ids[i] != id)
    ensures NoTmpFrom(prefix + id, 0, DataKeys(prefix, ids)) && prefix + id !in DataKeys(prefix, ids)
    ensures forall n: nat :: prefix + id != TmpKey(prefix + id, n)
  {
    var keys := DataKeys(prefix, ids);
    forall n: nat
      ensures TmpKey(prefix + id, n) !in keys && prefix + id != TmpKey(prefix + id, n)
    {
      assert |TmpKey(prefix + id, n)| > |prefix + id|;
      forall i | 0 <= i < |ids|
        ensures keys[i] != TmpKey(prefix + id, n)
      {
        NotATmp(prefix, id, ids[i], Data, n);
      }
    }
    forall i | 0 <= i < |ids|
      ensures keys[i] != prefix + id
    {
      assert keys[i][|prefix|..] == ids[i] && (prefix + id)[|prefix|..] == id;
    }
  }
}
