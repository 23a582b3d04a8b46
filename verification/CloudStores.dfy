/**
 * Finalising and concatenating on the three cloud stores: list, sort, assemble, remove. `stem` is the prefix and the
 * upload ID that every key of an upload begins with.
 */
module CloudStores {
  import opened Core
  import opened Decimal
  import opened Names
  import opened CloudKeys
  import opened Blobs
  import opened ObjectMaps
  import opened Azure
  import opened Gcs
  import opened Slots
  import S3

  /** The upload's bytes as its parts hold them. */
  predicate HasParts(objects: Objects, stem: string, k: nat)
    requires k <= U32_LIMIT
  {
    AllThere(objects, PartKeys(stem, k))
  }

  /** The final object holds the parts' bytes in order, the parts are gone, and nothing else of the store is touched. */
  ghost predicate Finalized(before: Objects, after: Objects, stem: string, k: nat)
    requires k <= U32_LIMIT && HasParts(before, stem, k)
  {
    && stem in after && after[stem] == Joined(before, PartKeys(stem, k))
    && (forall key :: key != stem && (forall n: nat :: key != TmpKey(stem, n)) ==>
          (key in after <==> key in before && key !in PartKeys(stem, k)) && (key in after ==> after[key] == before[key]))
  }

  lemma AssembledIsFinalized(before: Objects, after: Objects, stem: string, k: nat, temps: nat)
    requires k <= U32_LIMIT && Assembled(before, after, PartKeys(stem, k), stem, stem, temps)
    ensures Finalized(before, after, stem, k)
  {
    forall key | key in TmpKeys(stem, 0, temps)
      ensures exists n: nat :: key == TmpKey(stem, n)
    {
      TmpKeysMember(stem, 0, temps, key);
    }
  }

  // ----- finalisation -----

  /** The listed keys, each once, in the order of the numbers they end with. */
  predicate InPartOrder(names: seq<string>, listing: seq<string>) {
    && OrderedByPart(names) && Distinct(names) && |names| == |listing|
    && (forall key :: key in names ==> key in listing) && (forall key :: key in listing ==> key in names)
  }

  /** The listed keys, whoever they belong to, are joined into the final object and gone; without any it is empty. */
  ghost predicate Gathered(before: Objects, after: Objects, names: seq<string>, stem: string, temps: nat) {
    if names == [] then after == before[stem := []] else Assembled(before, after, names, stem, stem, temps)
  }

  /** The listed keys are as the assemblies require. */
  lemma ListedKeys(objects: Objects, listing: seq<string>, names: seq<string>, stem: string)
    requires PrefixListing(listing, objects, stem) && InPartOrder(names, listing)
    ensures AllThere(objects, names) && GroupsDisjoint([], names)
    ensures NoTmpFrom(stem, 0, names) && stem !in names && forall n: nat :: stem != TmpKey(stem, n)
  {
    assert forall i :: 0 <= i < |names| ==> names[i] in names;
    DistinctGroups(names);
    StemIsShorter(stem, 0);
    forall n: nat
      ensures TmpKey(stem, n) !in names
    {
      TmpIsNoPart(stem, n);
    }
    assert !(stem + PART_TOKEN <= stem);
  }

  lemma TmpIsNoPart(stem: string, n: nat)
    ensures !(stem + PART_TOKEN <= TmpKey(stem, n))
  {
    assert (stem + PART_TOKEN)[|stem| + 1] == 'p' && TmpKey(stem, n)[|stem| + 1] == 't';
  }

  /** What is gathered is the upload and nothing else exactly when no other key begins like one of its parts. */
  lemma GatheredIff(before: Objects, after: Objects, listing: seq<string>, names: seq<string>, stem: string, k: nat, temps: nat)
    requires k <= U32_LIMIT && HasParts(before, stem, k)
    requires PrefixListing(listing, before, stem) && InPartOrder(names, listing) && Gathered(before, after, names, stem, temps)
    ensures Finalized(before, after, stem, k) <==> OnlyParts(before, stem, k)
  {
    ListedInOrderIff(before, listing, names, stem, k);
    ListedKeys(before, listing, names, stem);
    if OnlyParts(before, stem, k) {
      if names == [] {
        assert Contents(before, []) == [];
      } else {
        AssembledIsFinalized(before, after, stem, k, temps);
      }
    } else {
      var key :| key in before && stem + PART_TOKEN <= key && key !in PartKeys(stem, k);
      assert key in names && names != [] && key !in after;
      forall n: nat
        ensures key != TmpKey(stem, n)
      {
        TmpIsNoPart(stem, n);
      }
    }
  }

  /** On Azure finalisation always succeeds. */
  method FinalizeAzure(upload: AzureUpload, listing: seq<string>) returns (r: Result<()>, ghost names: seq<string>)
    requires PrefixListing(listing, upload.container.blobs, upload.stem) && |listing| < U32_LIMIT
    modifies upload.container
    ensures InPartOrder(names, listing) && r.Ok?
    ensures Gathered(old(upload.container.blobs), upload.container.blobs, names, upload.stem, TempsNeeded(|names|))
  {
    var parts := ListParts(listing);
    names := parts;
    ListedKeys(upload.container.blobs, listing, parts, upload.stem);
    if parts == [] {
      upload.container.blobs := upload.container.blobs[upload.stem := []];
      return Ok(()), names;
    }
    r := upload.CommitMany(upload.stem, parts);
  }

  /** On GCS it succeeds exactly if at most 1024 keys are listed; beyond that their bytes are left in temporaries. */
  method FinalizeGcs(upload: GcsUpload, listing: seq<string>) returns (r: Result<()>, ghost names: seq<string>)
    requires PrefixListing(listing, upload.bucket.blobs, upload.stem) && |listing| <= U64_MAX
    modifies upload.bucket
    ensures InPartOrder(names, listing) && (r.Ok? <==> |listing| <= 1024)
    ensures r.Ok? ==>
      Gathered(old(upload.bucket.blobs), upload.bucket.blobs, names, upload.stem,
               if |names| <= MAX_SOURCES then 0 else GroupCount(|names|))
    ensures r.Err? ==>
      Replaced(old(upload.bucket.blobs), upload.bucket.blobs, names, TmpKeys(upload.stem, 0, GroupCount(|names|)))
  {
    var parts := ListParts(listing);
    names := parts;
    ListedKeys(upload.bucket.blobs, listing, parts, upload.stem);
    if parts == [] {
      upload.bucket.blobs := upload.bucket.blobs[upload.stem := []];
      return Ok(()), names;
    }
    r := upload.ComposeAll(upload.stem, parts);
  }

  /** On S3 it succeeds exactly if what is listed fits 10,000 times 5 MiB; otherwise nothing changes. */
  method FinalizeS3(bucket: S3.Bucket, stem: string, listing: seq<string>) returns (r: Result<()>, ghost names: seq<string>)
    requires PrefixListing(listing, bucket.objects, stem)
    modifies bucket
    ensures InPartOrder(names, listing) && AllThere(old(bucket.objects), names)
    ensures r.Ok? <==> |Joined(old(bucket.objects), names)| <= 52_428_800_000
    ensures r.Ok? ==> Gathered(old(bucket.objects), bucket.objects, names, stem, 0)
    ensures r.Err? ==> bucket.objects == old(bucket.objects)
  {
    var parts := ListParts(listing);
    names := parts;
    ghost var before := bucket.objects;
    ListedKeys(before, listing, parts, stem);
    if parts == [] {
      assert Contents(bucket.objects, []) == [];
      bucket.objects := bucket.objects[stem := []];
      return Ok(()), names;
    }
    r := bucket.Assemble(stem, parts, parts);
    if r.Ok? {
      RemovedIsAssembled(before, bucket.objects, parts, stem, stem);
    }
  }

  // ----- concatenation -----

  /** IDs of other uploads, each of them valid. */
  predicate Others(id: string, partials: seq<UploadInfo>) {
    ValidId(id) && forall i :: 0 <= i < |partials| ==> ValidId(partials[i].id) && partials[i].id != id
  }

  function SourceKeys(prefix: string, partials: seq<UploadInfo>): (r: seq<string>)
    ensures |r| == |partials| && forall i :: 0 <= i < |r| ==> r[i] == prefix + partials[i].id
  {
    seq(|partials|, i requires 0 <= i < |partials| => prefix + partials[i].id)
  }

  lemma SourceKeysApart(prefix: string, id: string, partials: seq<UploadInfo>)
    requires Others(id, partials)
    ensures NoTmpFrom(prefix + id, 0, SourceKeys(prefix, partials)) && prefix + id !in SourceKeys(prefix, partials)
    ensures forall n: nat :: prefix + id != TmpKey(prefix + id, n)
  {
    var ids := seq(|partials|, i requires 0 <= i < |partials| => partials[i].id);
    ConcatenateKeys(prefix, id, ids);
    assert SourceKeys(prefix, partials) == DataKeys(prefix, ids);
  }

  /**
   * On Azure it succeeds exactly when every partial's data blob is there and none is named in two groups of 32. The
   * blobs are then joined in request order, and gone.
   */
  method ConcatenateAzure(upload: AzureUpload, ghost prefix: string, ghost id: string, keys: seq<string>,
                          partials: seq<UploadInfo>, info: UploadInfo)
    returns (r: Result<UploadInfo>)
    requires Others(id, partials) && upload.stem == prefix + id && keys == SourceKeys(prefix, partials)
    requires TempsNeeded(|partials|) < U32_LIMIT
    modifies upload.container
    ensures r.Ok? <==> Joinable(old(upload.container.blobs), keys)
    ensures keys == [] ==> upload.container.blobs == old(upload.container.blobs)
    ensures r.Err? ==> PartlyJoined(old(upload.container.blobs), upload.container.blobs, keys, upload.stem, 0)
    ensures r.Ok? ==> r.value == FinalRecord(info, SizesTotal(partials))
    ensures keys != [] && r.Ok? ==>
      Assembled(old(upload.container.blobs), upload.container.blobs, keys, upload.stem, upload.stem, TempsNeeded(|keys|))
  {
    SourceKeysApart(prefix, id, partials);
    var done := upload.CommitMany(upload.stem, keys);
    if done.Err? {
      return Err(done.error);
    }
    return Ok(FinalRecord(info, SizesTotal(partials)));
  }

  /** On GCS there must moreover be at most 1024 of them. */
  method ConcatenateGcs(upload: GcsUpload, ghost prefix: string, ghost id: string, keys: seq<string>,
                        partials: seq<UploadInfo>, info: UploadInfo)
    returns (r: Result<UploadInfo>)
    requires Others(id, partials) && upload.stem == prefix + id && keys == SourceKeys(prefix, partials)
    requires |partials| <= U64_MAX
    modifies upload.bucket
    ensures r.Ok? <==> Joinable(old(upload.bucket.blobs), keys) && |keys| <= 1024
    ensures keys == [] ==> upload.bucket.blobs == old(upload.bucket.blobs)
    ensures r.Err? ==> PartlyJoined(old(upload.bucket.blobs), upload.bucket.blobs, keys, upload.stem, 0)
    ensures r.Ok? ==> r.value == FinalRecord(info, SizesTotal(partials))
    ensures keys != [] && r.Ok? ==>
      Assembled(old(upload.bucket.blobs), upload.bucket.blobs, keys, upload.stem, upload.stem,
                if |keys| <= MAX_SOURCES then 0 else GroupCount(|keys|))
  {
    SourceKeysApart(prefix, id, partials);
    var done := upload.ComposeAll(upload.stem, keys);
    if done.Err? {
      return Err(done.error);
    }
    return Ok(FinalRecord(info, SizesTotal(partials)));
  }

  /** On S3 they must all be there and fit the limit; they may repeat, because they are removed only at the end. */
  method ConcatenateS3(bucket: S3.Bucket, ghost prefix: string, ghost id: string, stem: string, keys: seq<string>,
                       partials: seq<UploadInfo>, info: UploadInfo)
    returns (r: Result<UploadInfo>)
    requires Others(id, partials) && stem == prefix + id && keys == SourceKeys(prefix, partials)
    modifies bucket
    ensures r.Ok? <==>
      && AllThere(old(bucket.objects), keys)
      && |Joined(old(bucket.objects), keys)| <= 52_428_800_000
    ensures r.Ok? ==> r.value == FinalRecord(info, SizesTotal(partials))
    ensures keys == [] ==> bucket.objects == old(bucket.objects)
    ensures keys != [] && r.Ok? ==> Assembled(old(bucket.objects), bucket.objects, keys, stem, stem, 0)
    ensures r.Err? ==> bucket.objects == old(bucket.objects)
  {
    SourceKeysApart(prefix, id, partials);
    ghost var before := bucket.objects;
    var done := bucket.Assemble(stem, keys, keys);
    if done.Err? {
      return Err(done.error);
    }
    if keys != [] {
      RemovedIsAssembled(before, bucket.objects, keys, stem, stem);
    }
    return Ok(FinalRecord(info, SizesTotal(partials)));
  }

  /**
   * After a concatenation the partials' data objects are gone while their records are still there, complete. So
   * another final POST that names one of them passes the checks on the records and fails on the data, on every store.
   */
  lemma PartialsAreSpent(before: Objects, after: Objects, prefix: string, id: string, partials: seq<UploadInfo>, temps: nat,
                         again: seq<string>, i: nat)
    requires Others(id, partials) && i < |partials| && prefix + partials[i].id in again
    requires Assembled(before, after, SourceKeys(prefix, partials), prefix + id, prefix + id, temps)
    ensures prefix + partials[i].id !in after && !AllThere(after, again) && !Joinable(after, again)
    ensures var record := prefix + Name(partials[i].id, Info);
            (record in after <==> record in before) && (record in before ==> after[record] == before[record])
  {
    SourceKeysApart(prefix, id, partials);
    var key, record := prefix + partials[i].id, prefix + Name(partials[i].id, Info);
    assert SourceKeys(prefix, partials)[i] == key;
    var j :| 0 <= j < |again| && again[j] == key;
    RecordUntouched(prefix, id, partials, i, temps);
  }

  /** A partial's record is none of the keys that a concatenation writes or removes. */
  lemma RecordUntouched(prefix: string, id: string, partials: seq<UploadInfo>, i: nat, temps: nat)
    requires Others(id, partials) && i < |partials|
    ensures var record := prefix + Name(partials[i].id, Info);
            record != prefix + id && record !in SourceKeys(prefix, partials) && record !in TmpKeys(prefix + id, 0, temps)
  {
    var name := Name(partials[i].id, Info);
    var record := prefix + name;
    InfoIsNoData(prefix, partials[i].id, id);
    forall j | 0 <= j < |partials|
      ensures SourceKeys(prefix, partials)[j] != record
    {
      InfoIsNoData(prefix, partials[i].id, partials[j].id);
    }
    if record in TmpKeys(prefix + id, 0, temps) {
      TmpKeysMember(prefix + id, 0, temps, record);
      var n: nat :| record == TmpKey(prefix + id, n);
      InfoIsNoTmp(prefix, partials[i].id, id, n);
    }
  }

  lemma InfoIsNoData(prefix: string, owner: string, id: string)
    requires ValidId(id) && ValidId(owner)
    ensures prefix + Name(owner, Info) != prefix + id
  {
    if prefix + Name(owner, Info) == prefix + id {
      SameBehind(prefix, Name(owner, Info), id);
      NameInjective(owner, Info, id, Data);
    }
  }

  lemma InfoIsNoTmp(prefix: string, owner: string, id: string, n: nat)
    ensures prefix + Name(owner, Info) != TmpKey(prefix + id, n)
  {
    var tmp := id + TMP_TOKEN + Dec(n);
    assert TmpKey(prefix + id, n) == prefix + tmp;
    var name := Name(owner, Info);
    assert name[|name| - 1] == 'o' && tmp[|tmp| - 1] == Dec(n)[|Dec(n)| - 1];
    if prefix + name == prefix + tmp {
      SameBehind(prefix, name, tmp);
    }
  }

  // ----- a whole final POST -----

  /** No key begins like a part of the upload, as is so while an upload is new. */
  ghost predicate NoParts(objects: Objects, stem: string) {
    forall key :: key in objects ==> !(stem + PART_TOKEN <= key)
  }

  /**
   * The rest of the POST refuses a body unless it is empty and the joined length is zero: it would be written at offset
   * zero of an upload that is complete.
   */
  predicate BodyRefused(body: Body, total: U64) {
    !body.NoBody? && !(body == FullBody([]) && total == 0)
  }

  /** These are the bodies that write_chunk does not take at offset zero of the joined upload, whatever else is stored. */
  lemma BodyRefusedIff(s: Slot, info: UploadInfo, total: U64, body: Body)
    requires s.info == Some(FinalRecord(info, total)) && !body.NoBody?
    ensures BodyRefused(body, total) <==> Slots.WriteChunk(s, 0, body).1.Err?
    ensures !BodyRefused(body, total) ==> Slots.WriteChunk(s, 0, body).0 == s.(parts := s.parts[NextIndex(s) := []])
  {
  }

  /**
   * What the rest of the POST makes of the joined object: a refused body leaves it; a refused completion leaves it,
   * beside an empty part if an empty body was written; completion replaces it by an empty object.
   */
  function Outcome(joined: Objects, stem: string, body: Body, total: U64, finishAccepted: bool): Objects {
    if BodyRefused(body, total) then joined
    else if finishAccepted then joined[stem := []]
    else if body.NoBody? then joined
    else joined[PartKey(stem, 0) := []]
  }

  lemma EmptyPartGathered(before: Objects, written: Objects, after: Objects, names: seq<string>, stem: string, temps: nat)
    requires NoParts(before, stem) && written == before[PartKey(stem, 0) := []]
    requires InPartOrder(names, [PartKey(stem, 0)]) && Gathered(written, after, names, stem, temps) && temps == 0
    ensures after == before[stem := []]
  {
    var part := PartKey(stem, 0);
    assert names[0] in names;
    assert names == [part];
    JoinedSingle(written, part);
    assert part == (stem + PART_TOKEN) + Dec(0);
    assert TmpKeys(stem, 0, 0) == [];
  }

  lemma OnePartListed(before: Objects, stem: string)
    requires NoParts(before, stem)
    ensures PrefixListing([], before, stem)
    ensures PrefixListing([PartKey(stem, 0)], before[PartKey(stem, 0) := []], stem)
  {
    assert PartKey(stem, 0) == (stem + PART_TOKEN) + Dec(0);
  }

  method FinishAzure(upload: AzureUpload, total: U64, body: Body, finishAccepted: bool) returns (r: Result<()>)
    requires NoParts(upload.container.blobs, upload.stem)
    modifies upload.container
    ensures r.Ok? <==> !BodyRefused(body, total) && finishAccepted
    ensures upload.container.blobs == Outcome(old(upload.container.blobs), upload.stem, body, total, finishAccepted)
  {
    ghost var before := upload.container.blobs;
    OnePartListed(before, upload.stem);
    var listing: seq<string> := [];
    if !body.NoBody? {
      if BodyRefused(body, total) {
        return Err(Internal);
      }
      upload.container.blobs := upload.container.blobs[PartKey(upload.stem, 0) := []];
      listing := [PartKey(upload.stem, 0)];
    }
    if !finishAccepted {
      return Err(HookRejected);
    }
    ghost var written := upload.container.blobs;
    ghost var names;
    r, names := FinalizeAzure(upload, listing);
    if listing != [] {
      EmptyPartGathered(before, written, upload.container.blobs, names, upload.stem, TempsNeeded(|names|));
    }
  }

  method FinishGcs(upload: GcsUpload, total: U64, body: Body, finishAccepted: bool) returns (r: Result<()>)
    requires NoParts(upload.bucket.blobs, upload.stem)
    modifies upload.bucket
    ensures r.Ok? <==> !BodyRefused(body, total) && finishAccepted
    ensures upload.bucket.blobs == Outcome(old(upload.bucket.blobs), upload.stem, body, total, finishAccepted)
  {
    ghost var before := upload.bucket.blobs;
    OnePartListed(before, upload.stem);
    var listing: seq<string> := [];
    if !body.NoBody? {
      if BodyRefused(body, total) {
        return Err(Internal);
      }
      upload.bucket.blobs := upload.bucket.blobs[PartKey(upload.stem, 0) := []];
      listing := [PartKey(upload.stem, 0)];
    }
    if !finishAccepted {
      return Err(HookRejected);
    }
    ghost var written := upload.bucket.blobs;
    ghost var names;
    r, names := FinalizeGcs(upload, listing);
    if listing != [] {
      EmptyPartGathered(before, written, upload.bucket.blobs, names, upload.stem, 0);
    }
  }

  method FinishS3(bucket: S3.Bucket, stem: string, total: U64, body: Body, finishAccepted: bool) returns (r: Result<()>)
    requires NoParts(bucket.objects, stem)
    modifies bucket
    ensures r.Ok? <==> !BodyRefused(body, total) && finishAccepted
    ensures bucket.objects == Outcome(old(bucket.objects), stem, body, total, finishAccepted)
  {
    ghost var before := bucket.objects;
    OnePartListed(before, stem);
    var listing: seq<string> := [];
    if !body.NoBody? {
      if BodyRefused(body, total) {
        return Err(Internal);
      }
      bucket.objects := bucket.objects[PartKey(stem, 0) := []];
      listing := [PartKey(stem, 0)];
    }
    if !finishAccepted {
      return Err(HookRejected);
    }
    ghost var written := bucket.objects;
    ListedEmpty(written, listing, stem);
    ghost var names;
    r, names := FinalizeS3(bucket, stem, listing);
    if listing != [] {
      EmptyPartGathered(before, written, bucket.objects, names, stem, 0);
    }
  }

  /** Nothing to join, or one empty part: either way no bytes. */
  lemma ListedEmpty(objects: Objects, listing: seq<string>, stem: string)
    requires listing == [] || (listing == [PartKey(stem, 0)] && PartKey(stem, 0) in objects && objects[PartKey(stem, 0)] == [])
    ensures forall names :: InPartOrder(names, listing) && AllThere(objects, names) ==> Joined(objects, names) == []
  {
    forall names | InPartOrder(names, listing) && AllThere(objects, names)
      ensures Joined(objects, names) == []
    {
      if listing == [] {
        assert names == [];
        assert Contents(objects, []) == [];
      } else {
        assert names[0] in names;
        assert names == listing;
        JoinedSingle(objects, PartKey(stem, 0));
      }
    }
  }

  /** The object store once the partials are joined; there is nothing to do for an empty list. */
  ghost predicate JoinedUp(before: Objects, after: Objects, keys: seq<string>, stem: string, temps: nat) {
    if keys == [] then after == before else Assembled(before, after, keys, stem, stem, temps)
  }

  lemma StillNoParts(before: Objects, after: Objects, keys: seq<string>, stem: string, temps: nat)
    requires JoinedUp(before, after, keys, stem, temps) && NoParts(before, stem)
    ensures NoParts(after, stem)
  {
    forall key | key in after
      ensures !(stem + PART_TOKEN <= key)
    {
      if key != stem {
        assert key in before;
      }
    }
  }

  /** None of the partials' bytes are left: not in the final object, and not in their own. */
  ghost predicate AllBytesGone(objects: Objects, keys: seq<string>, stem: string) {
    stem in objects && objects[stem] == [] && forall i :: 0 <= i < |keys| ==> keys[i] !in objects
  }

  lemma CompletedIsEmpty(before: Objects, joined: Objects, keys: seq<string>, stem: string, temps: nat)
    requires JoinedUp(before, joined, keys, stem, temps) && stem !in keys
    ensures AllBytesGone(joined[stem := []], keys, stem)
  {
    assert forall i :: 0 <= i < |keys| ==> keys[i] in keys;
  }

  /**
   * A final POST on Azure succeeds exactly when the partials can be joined, no body is refused and completion is
   * accepted; and then none of the bytes are left anywhere, because completion finds no parts and the partials' own data
   * is gone already. If it fails, the joined object stays, or, where joining failed, the bytes are in temporaries.
   */
  method FinalPostAzure(upload: AzureUpload, ghost prefix: string, ghost id: string, keys: seq<string>,
                        partials: seq<UploadInfo>, info: UploadInfo, body: Body, finishAccepted: bool)
    returns (r: Result<UploadInfo>, ghost joined: Objects)
    requires Others(id, partials) && upload.stem == prefix + id && keys == SourceKeys(prefix, partials)
    requires TempsNeeded(|partials|) < U32_LIMIT && NoParts(upload.container.blobs, upload.stem)
    modifies upload.container
    ensures r.Ok? <==> Joinable(old(upload.container.blobs), keys) && !BodyRefused(body, SizesTotal(partials)) && finishAccepted
    ensures r.Ok? ==> AllBytesGone(upload.container.blobs, keys, upload.stem)
    ensures r.Ok? ==> r.value == FinalRecord(info, SizesTotal(partials))
    ensures Joinable(old(upload.container.blobs), keys) ==>
      && JoinedUp(old(upload.container.blobs), joined, keys, upload.stem, TempsNeeded(|keys|))
      && upload.container.blobs == Outcome(joined, upload.stem, body, SizesTotal(partials), finishAccepted)
    ensures !Joinable(old(upload.container.blobs), keys) ==>
      PartlyJoined(old(upload.container.blobs), upload.container.blobs, keys, upload.stem, 0)
  {
    SourceKeysApart(prefix, id, partials);
    ghost var before := upload.container.blobs;
    r := ConcatenateAzure(upload, prefix, id, keys, partials, info);
    joined := upload.container.blobs;
    if r.Ok? {
      StillNoParts(before, joined, keys, upload.stem, TempsNeeded(|keys|));
      CompletedIsEmpty(before, joined, keys, upload.stem, TempsNeeded(|keys|));
      var done := FinishAzure(upload, SizesTotal(partials), body, finishAccepted);
      if done.Err? {
        r := Err(done.error);
      }
    }
  }

  /** On GCS the partials must moreover be at most 1024. */
  method FinalPostGcs(upload: GcsUpload, ghost prefix: string, ghost id: string, keys: seq<string>,
                      partials: seq<UploadInfo>, info: UploadInfo, body: Body, finishAccepted: bool)
    returns (r: Result<UploadInfo>, ghost joined: Objects)
    requires Others(id, partials) && upload.stem == prefix + id && keys == SourceKeys(prefix, partials)
    requires |partials| <= U64_MAX && NoParts(upload.bucket.blobs, upload.stem)
    modifies upload.bucket
    ensures var fits := Joinable(old(upload.bucket.blobs), keys) && |keys| <= 1024;
            && (r.Ok? <==> fits && !BodyRefused(body, SizesTotal(partials)) && finishAccepted)
            && (r.Ok? ==> AllBytesGone(upload.bucket.blobs, keys, upload.stem))
            && (r.Ok? ==> r.value == FinalRecord(info, SizesTotal(partials)))
            && (fits ==>
                  && JoinedUp(old(upload.bucket.blobs), joined, keys, upload.stem,
                              if |keys| <= MAX_SOURCES then 0 else GroupCount(|keys|))
                  && upload.bucket.blobs == Outcome(joined, upload.stem, body, SizesTotal(partials), finishAccepted))
            && (!fits ==> PartlyJoined(old(upload.bucket.blobs), upload.bucket.blobs, keys, upload.stem, 0))
  {
    SourceKeysApart(prefix, id, partials);
    ghost var before, temps := upload.bucket.blobs, if |keys| <= MAX_SOURCES then 0 else GroupCount(|keys|);
    r := ConcatenateGcs(upload, prefix, id, keys, partials, info);
    joined := upload.bucket.blobs;
    if r.Ok? {
      StillNoParts(before, joined, keys, upload.stem, temps);
      CompletedIsEmpty(before, joined, keys, upload.stem, temps);
      var done := FinishGcs(upload, SizesTotal(partials), body, finishAccepted);
      if done.Err? {
        r := Err(done.error);
      }
    }
  }

  /** On S3 they must fit the limit; if they cannot be joined nothing changes. */
  method FinalPostS3(bucket: S3.Bucket, ghost prefix: string, ghost id: string, stem: string, keys: seq<string>,
                     partials: seq<UploadInfo>, info: UploadInfo, body: Body, finishAccepted: bool)
    returns (r: Result<UploadInfo>, ghost joined: Objects)
    requires Others(id, partials) && stem == prefix + id && keys == SourceKeys(prefix, partials)
    requires NoParts(bucket.objects, stem)
    modifies bucket
    ensures var fits := && AllThere(old(bucket.objects), keys)
                        && |Joined(old(bucket.objects), keys)| <= 52_428_800_000;
            && (r.Ok? <==> fits && !BodyRefused(body, SizesTotal(partials)) && finishAccepted)
            && (r.Ok? ==> AllBytesGone(bucket.objects, keys, stem))
            && (r.Ok? ==> r.value == FinalRecord(info, SizesTotal(partials)))
            && (fits ==>
                  && JoinedUp(old(bucket.objects), joined, keys, stem, 0)
                  && bucket.objects == Outcome(joined, stem, body, SizesTotal(partials), finishAccepted))
            && (!fits ==> bucket.objects == old(bucket.objects))
  {
    SourceKeysApart(prefix, id, partials);
    ghost var before := bucket.objects;
    r := ConcatenateS3(bucket, prefix, id, stem, keys, partials, info);
    joined := bucket.objects;
    if r.Ok? {
      StillNoParts(before, joined, keys, stem, 0);
      CompletedIsEmpty(before, joined, keys, stem, 0);
      var done := FinishS3(bucket, stem, SizesTotal(partials), body, finishAccepted);
      if done.Err? {
        r := Err(done.error);
      }
    }
  }
}
