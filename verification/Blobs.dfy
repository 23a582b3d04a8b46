/** An object store is a map from keys to bytes. */
module ObjectMaps {
  import opened Core
  import opened Seqs

  type Objects = map<string, Bytes>

  predicate AllThere(objects: Objects, keys: seq<string>) {
    forall i :: 0 <= i < |keys| ==> keys[i] in objects
  }

  function Contents(objects: Objects, keys: seq<string>): seq<Bytes>
    requires AllThere(objects, keys)
  {
    seq(|keys|, i requires 0 <= i < |keys| => objects[keys[i]])
  }

  /** The objects' bytes in order, end to end. */
  function Joined(objects: Objects, keys: seq<string>): Bytes
    requires AllThere(objects, keys)
  {
    Flat(Contents(objects, keys))
  }

  function KeySet(keys: seq<string>): set<string> {
    set k | k in keys
  }

  lemma JoinedSame(a: Objects, b: Objects, keys: seq<string>)
    requires AllThere(a, keys) && forall k :: k in keys && k in a ==> k in b && b[k] == a[k]
    ensures AllThere(b, keys) && Joined(b, keys) == Joined(a, keys)
  {
    forall i | 0 <= i < |keys|
      ensures keys[i] in b && b[keys[i]] == a[keys[i]]
    {
      assert keys[i] in keys;
    }
    assert Contents(b, keys) == Contents(a, keys);
  }

  lemma JoinedAppend(objects: Objects, x: seq<string>, y: seq<string>)
    requires AllThere(objects, x) && AllThere(objects, y)
    ensures AllThere(objects, x + y) && Joined(objects, x + y) == Joined(objects, x) + Joined(objects, y)
  {
    assert Contents(objects, x + y) == Contents(objects, x) + Contents(objects, y);
    FlatAppend(Contents(objects, x), Contents(objects, y));
  }

  lemma JoinedNext(objects: Objects, keys: seq<string>, i: nat)
    requires i < |keys| && AllThere(objects, keys[..i]) && keys[i] in objects
    ensures AllThere(objects, keys[..i + 1])
    ensures Joined(objects, keys[..i + 1]) == Joined(objects, keys[..i]) + objects[keys[i]]
  {
    assert keys[..i + 1] == keys[..i] + [keys[i]];
    assert Contents(objects, keys[..i + 1]) == Contents(objects, keys[..i]) + [objects[keys[i]]];
    FlatSnoc(Contents(objects, keys[..i]), objects[keys[i]]);
  }

  lemma JoinedSingle(objects: Objects, key: string)
    requires key in objects
    ensures AllThere(objects, [key]) && Joined(objects, [key]) == objects[key]
  {
    assert Contents(objects, [key]) == [objects[key]];
    FlatSingle(objects[key]);
  }
}

/**
 * Joining many objects through a service that joins at most 32 at a time and removes what it joined. One round replaces
 * every group of 32 objects by a temporary one; Azure repeats rounds, GCS makes at most one.
 */
module Blobs {
  import opened Core
  import opened Decimal
  import opened Names
  import opened ObjectMaps

  const MAX_SOURCES := 32

  /** Adding one in an integer type whose largest value is `cap`. */
  function SaturatingNext(n: nat, cap: nat): nat {
    if n >= cap then cap else n + 1
  }

  function GroupCount(n: nat): nat {
    (n + MAX_SOURCES - 1) / MAX_SOURCES
  }

  /** The first group of up to 32 keys. */
  function FirstGroup(keys: seq<string>): (g: seq<string>)
    requires keys != []
    ensures 1 <= |g| <= MAX_SOURCES && g <= keys
    ensures GroupCount(|keys| - |g|) == GroupCount(|keys|) - 1
  {
    if |keys| <= MAX_SOURCES then keys else keys[..MAX_SOURCES]
  }

  /** No key of a later group occurs in an earlier one, where it would already have been removed. */
  predicate GroupsDisjoint(done: seq<string>, rest: seq<string>)
    decreases |rest|
  {
    rest == [] ||
    (var g := FirstGroup(rest);
     (forall k :: k in g ==> k !in done) && GroupsDisjoint(done + g, rest[|g|..]))
  }

  /** What can be joined group by group: every object is there, and none is wanted by two groups. */
  predicate Joinable(objects: Objects, keys: seq<string>) {
    AllThere(objects, keys) && GroupsDisjoint([], keys)
  }

  /** The temporary object with number n of an upload. */
  function TmpKey(stem: string, n: nat): string {
    stem + TMP_TOKEN + Dec(n)
  }

  lemma TmpKeyInjective(stem: string, m: nat, n: nat)
    requires TmpKey(stem, m) == TmpKey(stem, n)
    ensures m == n
  {
    assert TmpKey(stem, m)[|stem + TMP_TOKEN|..] == Dec(m);
    assert TmpKey(stem, n)[|stem + TMP_TOKEN|..] == Dec(n);
    DecInjective(m, n);
  }

  /** None of the keys is a temporary object with a number from `from` on. */
  ghost predicate NoTmpFrom(stem: string, from: nat, keys: seq<string>) {
    forall n: nat :: from <= n ==> TmpKey(stem, n) !in keys
  }

  function TmpKeys(stem: string, from: nat, count: nat): (r: seq<string>)
    ensures |r| == count && forall i :: 0 <= i < count ==> r[i] == TmpKey(stem, from + i)
  {
    seq(count, i requires 0 <= i < count => TmpKey(stem, from + i))
  }

  lemma TmpKeysMember(stem: string, from: nat, count: nat, key: string)
    requires key in TmpKeys(stem, from, count)
    ensures exists n: nat :: from <= n < from + count && key == TmpKey(stem, n)
  {
    var i :| 0 <= i < count && TmpKeys(stem, from, count)[i] == key;
    assert key == TmpKey(stem, from + i);
  }

  lemma NextTmpIsNew(stem: string, from: nat, count: nat)
    ensures TmpKey(stem, from + count) !in TmpKeys(stem, from, count)
    ensures TmpKeys(stem, from, count + 1) == TmpKeys(stem, from, count) + [TmpKey(stem, from + count)]
  {
    if TmpKey(stem, from + count) in TmpKeys(stem, from, count) {
      TmpKeysMember(stem, from, count, TmpKey(stem, from + count));
      var n: nat :| from <= n < from + count && TmpKey(stem, from + count) == TmpKey(stem, n);
      TmpKeyInjective(stem, from + count, n);
    }
  }

  lemma TmpKeysNotIn(stem: string, from: nat, count: nat, keys: seq<string>)
    requires NoTmpFrom(stem, from, keys)
    ensures forall k :: k in keys ==> k !in TmpKeys(stem, from, count)
  {
    forall k | k in keys
      ensures k !in TmpKeys(stem, from, count)
    {
      if k in TmpKeys(stem, from, count) {
        TmpKeysMember(stem, from, count, k);
      }
    }
  }

  // ----- one round -----

  /**
   * The keys in `done` are gone and the objects in `next` hold their bytes, in order; everything else is as before.
   */
  ghost predicate Replaced(before: Objects, now: Objects, done: seq<string>, next: seq<string>) {
    && AllThere(before, done) && AllThere(now, next) && Joined(now, next) == Joined(before, done)
    && (forall key :: key !in next ==>
          (key in now <==> key in before && key !in done) && (key in now ==> now[key] == before[key]))
  }

  lemma ReplacedStep(before: Objects, now: Objects, now': Objects, done: seq<string>, next: seq<string>,
                     g: seq<string>, tmp: string)
    requires Replaced(before, now, done, next) && tmp !in next && tmp !in g && tmp !in done
    requires (forall k :: k in g ==> k !in next) && AllThere(now, g)
    requires now' == now[tmp := Joined(now, g)] - KeySet(g)
    ensures Replaced(before, now', done + g, next + [tmp])
  {
    GroupThere(before, now, done, next, g);
    JoinedSame(now, before, g);
    JoinedAppend(before, done, g);
    JoinedSame(now, now', next);
    JoinedSingle(now', tmp);
    JoinedAppend(now', next, [tmp]);
    ReplacedFrame(before, now, now', done, next, g, tmp);
  }

  lemma ReplacedFrame(before: Objects, now: Objects, now': Objects, done: seq<string>, next: seq<string>,
                      g: seq<string>, tmp: string)
    requires forall key :: key !in next ==>
      (key in now <==> key in before && key !in done) && (key in now ==> now[key] == before[key])
    requires AllThere(now, g) && now' == now[tmp := Joined(now, g)] - KeySet(g)
    ensures forall key :: key !in next + [tmp] ==>
      (key in now' <==> key in before && key !in done + g) && (key in now' ==> now'[key] == before[key])
  {
    forall key | key !in next + [tmp]
      ensures (key in now' <==> key in before && key !in done + g) && (key in now' ==> now'[key] == before[key])
    {
      assert key !in next && key != tmp;
    }
  }

  /** A group can be joined exactly when its objects were there at first and no earlier group has used them up. */
  lemma GroupThere(before: Objects, now: Objects, done: seq<string>, next: seq<string>, g: seq<string>)
    requires Replaced(before, now, done, next) && forall k :: k in g ==> k !in next
    ensures AllThere(now, g) <==> AllThere(before, g) && forall k :: k in g ==> k !in done
  {
    assert forall i :: 0 <= i < |g| ==> g[i] in g;
  }

  class Container {
    var blobs: Objects

    constructor ()
      ensures blobs == map[]
    {
      blobs := map[];
    }

    /** Joins the sources into one object and removes them; if one is missing nothing changes. */
    method Commit(dest: string, sources: seq<string>) returns (r: Result<()>)
      requires 1 <= |sources| <= MAX_SOURCES && dest !in sources
      modifies this
      ensures r.Ok? <==> AllThere(old(blobs), sources)
      ensures r.Ok? ==> blobs == old(blobs)[dest := Joined(old(blobs), sources)] - KeySet(sources)
      ensures r.Err? ==> blobs == old(blobs)
    {
      var data: Bytes := [];
      for i := 0 to |sources|
        invariant AllThere(blobs, sources[..i]) && data == Joined(blobs, sources[..i])
        invariant blobs == old(blobs)
      {
        if sources[i] !in blobs {
          return Err(NotFound);
        }
        JoinedNext(blobs, sources, i);
        data := data + blobs[sources[i]];
      }
      assert sources[..|sources|] == sources;
      blobs := blobs[dest := data];
      ghost var committed := blobs;
      for i := 0 to |sources|
        invariant blobs == committed - KeySet(sources[..i])
      {
        assert sources[..i + 1] == sources[..i] + [sources[i]];
        blobs := blobs - {sources[i]};
      }
      return Ok(());
    }

    /**
     * Replaces every group of keys by one temporary object. The counter saturates at `cap`, which it does not reach.
     */
    method Round(keys: seq<string>, stem: string, from: nat, cap: nat) returns (r: Result<seq<string>>, counter: nat)
      requires keys != [] && NoTmpFrom(stem, from, keys) && from + GroupCount(|keys|) <= cap
      modifies this
      ensures r.Ok? <==> Joinable(old(blobs), keys)
      ensures r.Ok? ==>
        && r.value == TmpKeys(stem, from, GroupCount(|keys|)) && counter == from + GroupCount(|keys|)
        && Replaced(old(blobs), blobs, keys, r.value)
      ensures r.Err? ==> PartlyJoined(old(blobs), blobs, keys, stem, from)
    {
      var next: seq<string> := [];
      var rest := keys;
      ghost var done: seq<string> := [];
      counter := from;
      while rest != []
        invariant Midway(old(blobs), blobs, keys, stem, from, done, rest, next) && counter == from + |next|
        decreases |rest|
      {
        var g, tmp := FirstGroup(rest), TmpKey(stem, counter);
        var committed := JoinGroup(g, tmp, old(blobs), keys, stem, from, done, rest, next);
        counter := SaturatingNext(counter, cap);
        if committed.Err? {
          assert StoppedAt(old(blobs), blobs, keys, stem, from, done, next);
          return Err(committed.error), counter;
        }
        next := next + [tmp];
        done := done + g;
        rest := rest[|g|..];
      }
      assert done == keys;
      return Ok(next), counter;
    }

    /** Joins the first group of what is left of a round into its temporary object. */
    method JoinGroup(g: seq<string>, tmp: string, ghost before: Objects, ghost keys: seq<string>, ghost stem: string,
                     ghost from: nat, ghost done: seq<string>, ghost rest: seq<string>, ghost next: seq<string>)
      returns (r: Result<()>)
      requires NoTmpFrom(stem, from, keys) && Midway(before, blobs, keys, stem, from, done, rest, next)
      requires rest != [] && g == FirstGroup(rest) && tmp == TmpKey(stem, from + |next|)
      modifies this
      ensures r.Ok? ==> Midway(before, blobs, keys, stem, from, done + g, rest[|g|..], next + [tmp])
      ensures r.Err? ==> !Joinable(before, keys) && blobs == old(blobs)
    {
      GroupKeys(keys, done, rest, g, stem, from, |next|);
      GroupThere(before, blobs, done, next, g);
      ghost var now := blobs;
      r := Commit(tmp, g);
      if r.Ok? {
        ReplacedStep(before, now, blobs, done, next, g, tmp);
      } else {
        GroupMissing(before, done, rest);
      }
    }
  }

  /** The first groups, whose keys are `done`, are joined into the temporaries `next`, and nothing else has changed. */
  ghost predicate StoppedAt(before: Objects, now: Objects, keys: seq<string>, stem: string, from: nat,
                            done: seq<string>, next: seq<string>) {
    done <= keys && next == TmpKeys(stem, from, |next|) && Replaced(before, now, done, next)
  }

  /** Where an assembly that failed has left the bytes: none are lost. */
  ghost predicate PartlyJoined(before: Objects, now: Objects, keys: seq<string>, stem: string, from: nat) {
    exists done, next :: StoppedAt(before, now, keys, stem, from, done, next)
  }

  lemma NothingJoined(before: Objects, keys: seq<string>, stem: string, from: nat)
    ensures PartlyJoined(before, before, keys, stem, from)
  {
    assert TmpKeys(stem, from, 0) == [];
    assert StoppedAt(before, before, keys, stem, from, [], []);
  }

  /** The state of a round: the groups in `done` are joined into `next`, those in `rest` are still to come. */
  ghost predicate Midway(before: Objects, now: Objects, keys: seq<string>, stem: string, from: nat,
                         done: seq<string>, rest: seq<string>, next: seq<string>) {
    && keys == done + rest && next == TmpKeys(stem, from, |next|)
    && |next| + GroupCount(|rest|) == GroupCount(|keys|)
    && Replaced(before, now, done, next)
    && (GroupsDisjoint([], keys) <==> GroupsDisjoint(done, rest))
  }

  /** What a round knows of the names it works with. */
  lemma GroupKeys(keys: seq<string>, done: seq<string>, rest: seq<string>, g: seq<string>, stem: string, from: nat, count: nat)
    requires keys == done + rest && rest != [] && g == FirstGroup(rest) && NoTmpFrom(stem, from, keys)
    ensures keys == (done + g) + rest[|g|..]
    ensures var tmp := TmpKey(stem, from + count);
            && tmp !in TmpKeys(stem, from, count) && tmp !in g && tmp !in done
            && TmpKeys(stem, from, count + 1) == TmpKeys(stem, from, count) + [tmp]
    ensures forall k :: k in g ==> k !in TmpKeys(stem, from, count)
  {
    assert rest == g + rest[|g|..];
    assert forall k :: k in g || k in done ==> k in keys;
    TmpKeysNotIn(stem, from, count, keys);
    NextTmpIsNew(stem, from, count);
  }

  lemma GroupMissing(before: Objects, done: seq<string>, rest: seq<string>)
    requires rest != []
    requires !(AllThere(before, FirstGroup(rest)) && forall k :: k in FirstGroup(rest) ==> k !in done)
    ensures !(AllThere(before, done + rest) && GroupsDisjoint(done, rest))
  {
    var g := FirstGroup(rest);
    if !AllThere(before, g) {
      var i :| 0 <= i < |g| && g[i] !in before;
      assert (done + rest)[|done| + i] == g[i];
    }
  }

  /** Keys that are all different can be joined in any groups. */
  lemma {:induction false} DistinctIsDisjoint(done: seq<string>, rest: seq<string>)
    requires forall i, j :: 0 <= i < j < |done + rest| ==> (done + rest)[i] != (done + rest)[j]
    ensures GroupsDisjoint(done, rest)
    decreases |rest|
  {
    if rest != [] {
      var g := FirstGroup(rest);
      var all := done + rest;
      assert all == (done + g) + rest[|g|..];
      forall k | k in g
        ensures k !in done
      {
        var j :| 0 <= j < |g| && g[j] == k;
        assert all[|done| + j] == k;
        assert forall i :: 0 <= i < |done| ==> all[i] == done[i];
      }
      DistinctIsDisjoint(done + g, rest[|g|..]);
    }
  }

  lemma DistinctGroups(keys: seq<string>)
    requires forall i, j :: 0 <= i < j < |keys| ==> keys[i] != keys[j]
    ensures GroupsDisjoint([], keys)
  {
    assert [] + keys == keys;
    DistinctIsDisjoint([], keys);
  }

  // ----- the whole assembly -----

  /** The final blob holds the bytes; the keys and every temporary are gone; everything else is as before. */
  ghost predicate Assembled(before: Objects, after: Objects, keys: seq<string>, dest: string, stem: string, temps: nat) {
    && AllThere(before, keys) && dest in after && after[dest] == Joined(before, keys)
    && (forall key :: key != dest ==>
          (key in after <==> key in before && key !in keys && key !in TmpKeys(stem, 0, temps))
          && (key in after ==> after[key] == before[key]))
  }

  lemma DestIsNoTmp(stem: string, low: nat, count: nat, dest: string)
    requires forall n: nat :: dest != TmpKey(stem, n)
    ensures dest !in TmpKeys(stem, low, count)
  {
    if dest in TmpKeys(stem, low, count) {
      TmpKeysMember(stem, low, count, dest);
    }
  }

  lemma OneGroup(keys: seq<string>)
    requires 0 < |keys| <= MAX_SOURCES
    ensures GroupsDisjoint([], keys)
  {
    assert keys[|keys|..] == [];
  }

  /** Joined in one request. */
  lemma RemovedIsAssembled(before: Objects, after: Objects, keys: seq<string>, dest: string, stem: string)
    requires AllThere(before, keys) && dest !in keys
    requires after == before[dest := Joined(before, keys)] - KeySet(keys)
    ensures Assembled(before, after, keys, dest, stem, 0)
  {
    assert TmpKeys(stem, 0, 0) == [];
  }

  /** Where no temporary was lying around before, the outcome does not depend on how many temporaries were used. */
  lemma AssembledAlike(before: Objects, after1: Objects, after2: Objects, keys: seq<string>, dest: string, stem: string,
                       temps1: nat, temps2: nat)
    requires Assembled(before, after1, keys, dest, stem, temps1) && Assembled(before, after2, keys, dest, stem, temps2)
    requires forall n: nat :: TmpKey(stem, n) !in before
    ensures after1 == after2
  {
    forall key | key in before
      ensures key !in TmpKeys(stem, 0, temps1) && key !in TmpKeys(stem, 0, temps2)
    {
      if key in TmpKeys(stem, 0, temps1) {
        TmpKeysMember(stem, 0, temps1, key);
      }
      if key in TmpKeys(stem, 0, temps2) {
        TmpKeysMember(stem, 0, temps2, key);
      }
    }
  }
}
