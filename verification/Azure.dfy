/** The Azure assembly: rounds of joining 32 blobs into a temporary one until at most 32 are left. */
module Azure {
  import opened Core
  import opened Blobs
  import opened ObjectMaps

  /** How many temporaries all rounds together make. */
  function TempsNeeded(n: nat): (t: nat)
    ensures t <= n
  {
    if n <= MAX_SOURCES then 0 else GroupCount(n) + TempsNeeded(GroupCount(n))
  }

  /**
   * After some rounds over `keys`: the blobs in `sources`, the temporaries numbered from `low` to `high`, hold the
   * bytes; the keys and all earlier temporaries are gone; everything else is as before.
   */
  ghost predicate Reduced(before: Objects, now: Objects, keys: seq<string>, stem: string, low: nat, high: nat) {
    && low < high && Joinable(before, keys)
    && AllThere(now, TmpKeys(stem, low, high - low)) && Joined(now, TmpKeys(stem, low, high - low)) == Joined(before, keys)
    && (forall key :: key !in TmpKeys(stem, low, high - low) ==>
          (key in now <==> key in before && key !in keys && key !in TmpKeys(stem, 0, low))
          && (key in now ==> now[key] == before[key]))
  }

  lemma {:induction false} TmpKeysJoin(stem: string, low: nat, high: nat)
    requires low <= high
    ensures TmpKeys(stem, 0, high) == TmpKeys(stem, 0, low) + TmpKeys(stem, low, high - low)
  {
  }

  /** Temporaries are distinct, so no round wants one twice. */
  lemma TmpsAreLater(stem: string, low: nat, high: nat)
    requires low <= high
    ensures NoTmpFrom(stem, high, TmpKeys(stem, low, high - low))
  {
    forall n: nat | high <= n
      ensures TmpKey(stem, n) !in TmpKeys(stem, low, high - low)
    {
      if TmpKey(stem, n) in TmpKeys(stem, low, high - low) {
        TmpKeysMember(stem, low, high - low, TmpKey(stem, n));
        var m: nat :| low <= m < high && TmpKey(stem, n) == TmpKey(stem, m);
        TmpKeyInjective(stem, n, m);
      }
    }
  }

  lemma TmpsDistinct(stem: string, low: nat, i: nat, j: nat)
    requires i < j
    ensures TmpKey(stem, low + i) != TmpKey(stem, low + j)
  {
    if TmpKey(stem, low + i) == TmpKey(stem, low + j) {
      TmpKeyInjective(stem, low + i, low + j);
    }
  }

  lemma TmpsDisjoint(stem: string, low: nat, count: nat)
    ensures GroupsDisjoint([], TmpKeys(stem, low, count))
  {
    var tmps := TmpKeys(stem, low, count);
    forall i, j | 0 <= i < j < |tmps|
      ensures tmps[i] != tmps[j]
    {
      TmpsDistinct(stem, low, i, j);
    }
    DistinctGroups(tmps);
  }

  /** The first round starts from the keys themselves. */
  lemma FirstReduced(before: Objects, now: Objects, keys: seq<string>, stem: string, high: nat)
    requires 0 < high && Joinable(before, keys) && Replaced(before, now, keys, TmpKeys(stem, 0, high))
    ensures Reduced(before, now, keys, stem, 0, high)
  {
    assert TmpKeys(stem, 0, 0) == [];
  }

  /** Each later round starts from the temporaries of the one before. */
  lemma NextReduced(before: Objects, now: Objects, now': Objects, keys: seq<string>, stem: string, low: nat, high: nat, top: nat)
    requires Reduced(before, now, keys, stem, low, high) && high < top && NoTmpFrom(stem, 0, keys)
    requires Replaced(now, now', TmpKeys(stem, low, high - low), TmpKeys(stem, high, top - high))
    ensures Reduced(before, now', keys, stem, high, top)
  {
    TmpKeysJoin(stem, low, high);
    TmpKeysNotIn(stem, 0, high, keys);
    var old_, new_ := TmpKeys(stem, low, high - low), TmpKeys(stem, high, top - high);
    forall key | key !in new_
      ensures (key in now' <==> key in before && key !in keys && key !in TmpKeys(stem, 0, high))
      ensures key in now' ==> now'[key] == before[key]
    {
      assert key in TmpKeys(stem, 0, high) <==> key in TmpKeys(stem, 0, low) || key in old_;
      assert key in now' <==> key in now && key !in old_;
    }
  }

  /** Before any round, or after some. */
  ghost predicate Progress(before: Objects, now: Objects, keys: seq<string>, stem: string,
                           sources: seq<string>, low: nat, counter: nat) {
    && sources != []
    && (counter == 0 ==> sources == keys && now == before)
    && (counter > 0 ==> |keys| > MAX_SOURCES && low < counter && sources == TmpKeys(stem, low, counter - low)
                        && Reduced(before, now, keys, stem, low, counter))
  }

  lemma SourcesUsable(before: Objects, now: Objects, keys: seq<string>, stem: string, sources: seq<string>, low: nat, counter: nat)
    requires Progress(before, now, keys, stem, sources, low, counter) && NoTmpFrom(stem, 0, keys)
    ensures NoTmpFrom(stem, counter, sources)
    ensures counter > 0 ==> Joinable(before, keys) && Joinable(now, sources)
  {
    if counter > 0 {
      TmpsAreLater(stem, low, counter);
      TmpsDisjoint(stem, low, counter - low);
    }
  }

  lemma ProgressFirst(before: Objects, now': Objects, keys: seq<string>, stem: string, count: nat)
    requires |keys| > MAX_SOURCES && count == GroupCount(|keys|) && Joinable(before, keys)
    requires Replaced(before, now', keys, TmpKeys(stem, 0, count))
    ensures Progress(before, now', keys, stem, TmpKeys(stem, 0, count), 0, count)
  {
    FirstReduced(before, now', keys, stem, count);
  }

  lemma ProgressLater(before: Objects, now: Objects, now': Objects, keys: seq<string>, stem: string,
                      low: nat, high: nat, top: nat)
    requires low < high < top && |keys| > MAX_SOURCES && Reduced(before, now, keys, stem, low, high)
    requires NoTmpFrom(stem, 0, keys)
    requires Replaced(now, now', TmpKeys(stem, low, high - low), TmpKeys(stem, high, top - high))
    ensures Progress(before, now', keys, stem, TmpKeys(stem, high, top - high), high, top)
  {
    NextReduced(before, now, now', keys, stem, low, high, top);
  }

  lemma RoundTally(n: nat)
    requires n > MAX_SOURCES
    ensures 0 < GroupCount(n) < n && TempsNeeded(n) == GroupCount(n) + TempsNeeded(GroupCount(n))
  {
  }

  lemma Unstarted(before: Objects, keys: seq<string>, stem: string)
    requires keys != []
    ensures Progress(before, before, keys, stem, keys, 0, 0)
  {
  }

  lemma NoMoreTemps(n: nat)
    requires n <= MAX_SOURCES
    ensures TempsNeeded(n) == 0
  {
  }

  lemma ProgressNext(before: Objects, now: Objects, now': Objects, keys: seq<string>, stem: string,
                     sources: seq<string>, low: nat, counter: nat, top: nat, next: seq<string>)
    requires Progress(before, now, keys, stem, sources, low, counter) && NoTmpFrom(stem, 0, keys)
    requires |sources| > MAX_SOURCES && Joinable(now, sources)
    requires counter < top && next == TmpKeys(stem, counter, top - counter) && |next| == GroupCount(|sources|)
    requires Replaced(now, now', sources, next)
    ensures Progress(before, now', keys, stem, next, counter, top)
  {
    if counter == 0 {
      ProgressFirst(before, now', keys, stem, top);
    } else {
      ProgressLater(before, now, now', keys, stem, low, counter, top);
    }
  }

  /** The last commit, from the keys themselves or from the last temporaries. */
  lemma LastCommit(before: Objects, now: Objects, after: Objects, keys: seq<string>, stem: string,
                   sources: seq<string>, low: nat, counter: nat, dest: string)
    requires Progress(before, now, keys, stem, sources, low, counter) && |sources| <= MAX_SOURCES
    requires AllThere(now, sources) && after == now[dest := Joined(now, sources)] - KeySet(sources)
    requires dest !in sources
    ensures Assembled(before, after, keys, dest, stem, counter)
  {
    if counter == 0 {
      assert TmpKeys(stem, 0, 0) == [];
    } else {
      TmpKeysJoin(stem, low, counter);
      assert forall key :: key in TmpKeys(stem, 0, counter) <==> key in TmpKeys(stem, 0, low) || key in sources;
    }
  }

  class AzureUpload {
    const container: Container
    /** The prefix and the upload ID that every key of the upload begins with. */
    const stem: string

    constructor (container: Container, stem: string)
      ensures this.container == container && this.stem == stem
    {
      this.container, this.stem := container, stem;
    }

    /**
     * Joins many blobs into one. It succeeds exactly when all are there and no blob is wanted by two groups of 32, and
     * then leaves the joined bytes under `dest`, no source and no temporary, and everything else untouched.
     */
    method CommitMany(dest: string, keys: seq<string>) returns (r: Result<()>)
      requires NoTmpFrom(stem, 0, keys) && dest !in keys && forall n: nat :: dest != TmpKey(stem, n)
      requires TempsNeeded(|keys|) < U32_LIMIT
      modifies container
      ensures keys == [] ==> r.Ok? && container.blobs == old(container.blobs)
      ensures r.Ok? <==> Joinable(old(container.blobs), keys)
      ensures r.Err? ==> PartlyJoined(old(container.blobs), container.blobs, keys, stem, 0)
      ensures keys != [] && r.Ok? ==>
        Assembled(old(container.blobs), container.blobs, keys, dest, stem, TempsNeeded(|keys|))
    {
      if keys == [] {
        return Ok(());
      }
      var sources := keys;
      var tmpCounter: nat := 0;
      ghost var before, low: nat := container.blobs, 0;
      Unstarted(before, keys, stem);
      while |sources| > MAX_SOURCES
        invariant tmpCounter + TempsNeeded(|sources|) == TempsNeeded(|keys|)
        invariant Progress(before, container.blobs, keys, stem, sources, low, tmpCounter)
        decreases |sources|
      {
        RoundTally(|sources|);
        ghost var start := tmpCounter;
        r, sources, tmpCounter := NextRound(sources, tmpCounter, before, keys, low);
        if r.Err? {
          return;
        }
        low := start;
      }
      NoMoreTemps(|sources|);
      r := CommitLast(dest, sources, before, keys, low, tmpCounter);
    }

    /** One pass of the loop: join the groups, and go on with the temporaries. */
    method NextRound(sources: seq<string>, tmpCounter: nat, ghost before: Objects, ghost keys: seq<string>, ghost low: nat)
      returns (r: Result<()>, next: seq<string>, counter: nat)
      requires Progress(before, container.blobs, keys, stem, sources, low, tmpCounter) && NoTmpFrom(stem, 0, keys)
      requires |sources| > MAX_SOURCES && tmpCounter + GroupCount(|sources|) < U32_LIMIT
      modifies container
      ensures r.Ok? <==> Joinable(before, keys)
      ensures r.Err? ==> PartlyJoined(before, container.blobs, keys, stem, 0)
      ensures r.Ok? ==>
        && |next| == GroupCount(|sources|) && counter == tmpCounter + |next|
        && Progress(before, container.blobs, keys, stem, next, tmpCounter, counter)
    {
      SourcesUsable(before, container.blobs, keys, stem, sources, low, tmpCounter);
      ghost var now := container.blobs;
      var joined, top := container.Round(sources, stem, tmpCounter, U32_LIMIT - 1);
      if joined.Err? {
        return Err(joined.error), sources, top;
      }
      ProgressNext(before, now, container.blobs, keys, stem, sources, low, tmpCounter, top, joined.value);
      return Ok(()), joined.value, top;
    }

    method CommitLast(dest: string, sources: seq<string>, ghost before: Objects, ghost keys: seq<string>,
                      ghost low: nat, ghost counter: nat)
      returns (r: Result<()>)
      requires Progress(before, container.blobs, keys, stem, sources, low, counter) && NoTmpFrom(stem, 0, keys)
      requires |sources| <= MAX_SOURCES && dest !in keys && forall n: nat :: dest != TmpKey(stem, n)
      modifies container
      ensures r.Ok? <==> Joinable(before, keys)
      ensures r.Err? ==> PartlyJoined(before, container.blobs, keys, stem, 0)
      ensures r.Ok? ==> Assembled(before, container.blobs, keys, dest, stem, counter)
    {
      SourcesUsable(before, container.blobs, keys, stem, sources, low, counter);
      if counter > 0 {
        DestIsNoTmp(stem, low, counter - low, dest);
      } else {
        OneGroup(keys);
      }
      ghost var now := container.blobs;
      r := container.Commit(dest, sources);
      NothingJoined(before, keys, stem, 0);
      if r.Ok? {
        LastCommit(before, now, container.blobs, keys, stem, sources, low, counter, dest);
      }
    }
  }
}
