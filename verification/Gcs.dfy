/** The GCS assembly: one compose request for up to 32 sources, otherwise one round of temporaries and one more request. */
module Gcs {
  import opened Core
  import opened Blobs
  import opened ObjectMaps

  class GcsUpload {
    const bucket: Container
    /** The prefix and the upload ID that every key of the upload begins with. */
    const stem: string

    constructor (bucket: Container, stem: string)
      ensures this.bucket == bucket && this.stem == stem
    {
      this.bucket, this.stem := bucket, stem;
    }

    /** One compose request. The service takes at most 32 sources and removes them when it has joined them. */
    method ComposeChunk(dest: string, sources: seq<string>) returns (r: Result<()>)
      requires dest !in sources
      modifies bucket
      ensures sources == [] ==> r.Ok?
      ensures sources != [] ==> (r.Ok? <==> |sources| <= MAX_SOURCES && AllThere(old(bucket.blobs), sources))
      ensures sources != [] && r.Ok? ==>
        bucket.blobs == old(bucket.blobs)[dest := Joined(old(bucket.blobs), sources)] - KeySet(sources)
      ensures sources == [] || r.Err? ==> bucket.blobs == old(bucket.blobs)
    {
      if sources == [] {
        return Ok(());
      }
      if |sources| > MAX_SOURCES {
        return Err(Internal);
      }
      r := bucket.Commit(dest, sources);
    }

    /**
     * Joins all sources into one object, which succeeds exactly when they are there, no source is wanted by two groups
     * of 32, and they are at most 32 groups of 32.
     */
    method ComposeAll(dest: string, keys: seq<string>) returns (r: Result<()>)
      requires NoTmpFrom(stem, 0, keys) && dest !in keys && (forall n: nat :: dest != TmpKey(stem, n))
      requires |keys| <= U64_MAX
      modifies bucket
      ensures keys == [] ==> bucket.blobs == old(bucket.blobs)
      ensures r.Ok? <==> Joinable(old(bucket.blobs), keys) && |keys| <= 1024
      ensures keys != [] && r.Ok? ==>
        Assembled(old(bucket.blobs), bucket.blobs, keys, dest, stem, if |keys| <= MAX_SOURCES then 0 else GroupCount(|keys|))
      ensures r.Err? ==> PartlyJoined(old(bucket.blobs), bucket.blobs, keys, stem, 0)
      ensures Joinable(old(bucket.blobs), keys) && |keys| > 1024 ==>
        Replaced(old(bucket.blobs), bucket.blobs, keys, TmpKeys(stem, 0, GroupCount(|keys|)))
    {
      if |keys| <= MAX_SOURCES {
        r := ComposeAtOnce(dest, keys);
      } else {
        r := ComposeTwoLevels(dest, keys);
      }
    }

    /** At most 32 sources: one request. */
    method ComposeAtOnce(dest: string, keys: seq<string>) returns (r: Result<()>)
      requires |keys| <= MAX_SOURCES && dest !in keys
      modifies bucket
      ensures keys == [] ==> bucket.blobs == old(bucket.blobs)
      ensures r.Ok? <==> Joinable(old(bucket.blobs), keys)
      ensures keys != [] && r.Ok? ==> Assembled(old(bucket.blobs), bucket.blobs, keys, dest, stem, 0)
      ensures r.Err? ==> PartlyJoined(old(bucket.blobs), bucket.blobs, keys, stem, 0)
    {
      ghost var before := bucket.blobs;
      if keys != [] {
        OneGroup(keys);
      }
      NothingJoined(before, keys, stem, 0);
      r := ComposeChunk(dest, keys);
      if keys != [] && r.Ok? {
        RemovedIsAssembled(before, bucket.blobs, keys, dest, stem);
      }
    }

    /** More than 32 sources: one temporary for every 32 of them, and then the temporaries. */
    method ComposeTwoLevels(dest: string, keys: seq<string>) returns (r: Result<()>)
      requires NoTmpFrom(stem, 0, keys) && dest !in keys && (forall n: nat :: dest != TmpKey(stem, n))
      requires MAX_SOURCES < |keys| <= U64_MAX
      modifies bucket
      ensures r.Ok? <==> Joinable(old(bucket.blobs), keys) && |keys| <= 1024
      ensures r.Ok? ==> Assembled(old(bucket.blobs), bucket.blobs, keys, dest, stem, GroupCount(|keys|))
      ensures r.Err? ==> PartlyJoined(old(bucket.blobs), bucket.blobs, keys, stem, 0)
      ensures Joinable(old(bucket.blobs), keys) && |keys| > 1024 ==>
        Replaced(old(bucket.blobs), bucket.blobs, keys, TmpKeys(stem, 0, GroupCount(|keys|)))
    {
      ghost var before := bucket.blobs;
      var intermediates, _ := bucket.Round(keys, stem, 0, U64_MAX);
      if intermediates.Err? {
        return Err(intermediates.error);
      }
      DestIsNoTmp(stem, 0, GroupCount(|keys|), dest);
      ghost var now := bucket.blobs;
      r := ComposeChunk(dest, intermediates.value);
      if r.Ok? {
        SecondLevel(before, now, bucket.blobs, keys, stem, GroupCount(|keys|), dest);
      } else {
        assert StoppedAt(before, bucket.blobs, keys, stem, 0, keys, intermediates.value);
      }
    }
  }

  lemma SecondLevel(before: Objects, now: Objects, after: Objects, keys: seq<string>, stem: string, count: nat, dest: string)
    requires AllThere(before, keys) && Replaced(before, now, keys, TmpKeys(stem, 0, count))
    requires after == now[dest := Joined(now, TmpKeys(stem, 0, count))] - KeySet(TmpKeys(stem, 0, count))
    requires dest !in TmpKeys(stem, 0, count)
    ensures Assembled(before, after, keys, dest, stem, count)
  {
  }
}
