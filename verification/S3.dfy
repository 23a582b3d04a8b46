/**
 * The S3 assembly: any number of source objects, read in pieces of any size, re-cut on the fly into the parts of one
 * multipart upload under the service's limits.
 */
module S3 {
  import opened Core
  import opened Seqs
  import opened ObjectMaps

  const MIN_MULTIPART_PART := 5 * 1024 * 1024
  const MAX_MULTIPART_PARTS := 10_000
  const READ_SIZE := 64 * 1024

  /** All parts but the last have exactly the minimum size; the last is shorter or equal, and empty only if it is alone. */
  predicate WellCut(parts: seq<Bytes>) {
    && parts != []
    && (forall i :: 0 <= i < |parts| - 1 ==> |parts[i]| == MIN_MULTIPART_PART)
    && |parts[|parts| - 1]| <= MIN_MULTIPART_PART
    && (parts[|parts| - 1] == [] ==> |parts| == 1)
  }

  /** How many parts it takes. */
  function PartsNeeded(n: nat): nat {
    if n == 0 then 1 else (n + MIN_MULTIPART_PART - 1) / MIN_MULTIPART_PART
  }

  lemma {:induction false} FullParts(parts: seq<Bytes>)
    requires forall i :: 0 <= i < |parts| ==> |parts[i]| == MIN_MULTIPART_PART
    ensures |Flat(parts)| == |parts| * MIN_MULTIPART_PART
  {
    if parts != [] {
      FullParts(parts[1..]);
    }
  }

  lemma CutLength(parts: seq<Bytes>)
    requires WellCut(parts)
    ensures |Flat(parts)| == (|parts| - 1) * MIN_MULTIPART_PART + |parts[|parts| - 1]|
  {
    var front, last := parts[..|parts| - 1], parts[|parts| - 1];
    assert parts == front + [last];
    FlatSnoc(front, last);
    FullParts(front);
  }

  /** The number of parts of a well-cut upload is determined by its length: at least one, otherwise rounded up. */
  lemma CutCount(parts: seq<Bytes>)
    requires WellCut(parts)
    ensures |parts| == PartsNeeded(|Flat(parts)|)
  {
    CutLength(parts);
  }

  /** There is only one way to cut a byte string. */
  lemma {:induction false} CutUnique(p: seq<Bytes>, q: seq<Bytes>)
    requires WellCut(p) && WellCut(q) && Flat(p) == Flat(q)
    ensures p == q
    decreases |p|
  {
    CutCount(p);
    CutCount(q);
    if |p| == 1 {
      assert p == [p[0]] && q == [q[0]];
      FlatSingle(p[0]);
      FlatSingle(q[0]);
    } else {
      assert Flat(p) == p[0] + Flat(p[1..]) && Flat(q) == q[0] + Flat(q[1..]);
      assert p[0] == Flat(p)[..MIN_MULTIPART_PART] && q[0] == Flat(q)[..MIN_MULTIPART_PART];
      assert Flat(p[1..]) == Flat(p)[MIN_MULTIPART_PART..] && Flat(q[1..]) == Flat(q)[MIN_MULTIPART_PART..];
      CutUnique(p[1..], q[1..]);
      assert p == [p[0]] + p[1..] && q == [q[0]] + q[1..];
    }
  }

  /** The limit on the number of parts is a limit on the number of bytes. */
  lemma LimitInBytes(n: nat)
    ensures PartsNeeded(n) <= 10_000 <==> n <= 52_428_800_000
    ensures MAX_MULTIPART_PARTS == 10_000 && MAX_MULTIPART_PARTS * MIN_MULTIPART_PART == 52_428_800_000
  {
  }

  /** Every source is there and together they fit the service's limits. */
  predicate Assemblable(objects: Objects, keys: seq<string>) {
    AllThere(objects, keys) && |Joined(objects, keys)| <= MAX_MULTIPART_PARTS * MIN_MULTIPART_PART
  }

  datatype CompletedPart = CompletedPart(number: int, bytes: Bytes)

  function PartBytes(completed: seq<CompletedPart>): seq<Bytes> {
    seq(|completed|, i requires 0 <= i < |completed| => completed[i].bytes)
  }

  /** Full parts and a rest that together are the bytes taken in so far. */
  predicate CutSoFar(completed: seq<CompletedPart>, rest: Bytes, taken: Bytes) {
    && (forall i :: 0 <= i < |completed| ==> |completed[i].bytes| == MIN_MULTIPART_PART)
    && Flat(PartBytes(completed)) + rest == taken
  }

  lemma CutLengthSoFar(completed: seq<CompletedPart>, rest: Bytes, taken: Bytes)
    requires CutSoFar(completed, rest, taken)
    ensures |taken| == |completed| * MIN_MULTIPART_PART + |rest|
  {
    FullParts(PartBytes(completed));
  }

  lemma MoreRest(completed: seq<CompletedPart>, rest: Bytes, taken: Bytes, more: Bytes)
    requires CutSoFar(completed, rest, taken)
    ensures CutSoFar(completed, rest + more, taken + more)
  {
    assert (Flat(PartBytes(completed)) + rest) + more == Flat(PartBytes(completed)) + (rest + more);
  }

  lemma PartsSnoc(completed: seq<CompletedPart>, part: CompletedPart)
    ensures Flat(PartBytes(completed + [part])) == Flat(PartBytes(completed)) + part.bytes
  {
    assert PartBytes(completed + [part]) == PartBytes(completed) + [part.bytes];
    FlatSnoc(PartBytes(completed), part.bytes);
  }

  /** A full part cut off the front of the rest. */
  lemma CutOff(completed: seq<CompletedPart>, rest: Bytes, taken: Bytes, part: CompletedPart)
    requires CutSoFar(completed, rest, taken)
    requires |rest| >= MIN_MULTIPART_PART && part.bytes == rest[..MIN_MULTIPART_PART]
    ensures CutSoFar(completed + [part], rest[MIN_MULTIPART_PART..], taken)
  {
    PartsSnoc(completed, part);
    assert rest == part.bytes + rest[MIN_MULTIPART_PART..];
    assert Flat(PartBytes(completed)) + (part.bytes + rest[MIN_MULTIPART_PART..])
        == (Flat(PartBytes(completed)) + part.bytes) + rest[MIN_MULTIPART_PART..];
  }

  lemma ReadMore(taken: Bytes, seen: Bytes, rest: Bytes, n: nat)
    requires n <= |rest|
    ensures (taken + seen) + rest[..n] == taken + (seen + rest[..n])
    ensures seen + rest == (seen + rest[..n]) + rest[n..]
  {
  }

  /** The rest as the last part. */
  lemma CutLast(completed: seq<CompletedPart>, rest: Bytes, taken: Bytes, part: CompletedPart)
    requires CutSoFar(completed, rest, taken) && |rest| <= MIN_MULTIPART_PART && part.bytes == rest
    requires rest == [] ==> completed == []
    ensures WellCut(PartBytes(completed + [part])) && Flat(PartBytes(completed + [part])) == taken
  {
    PartsSnoc(completed, part);
  }

  /** Nothing is left over: the full parts are all. */
  lemma CutEven(completed: seq<CompletedPart>, taken: Bytes)
    requires CutSoFar(completed, [], taken) && completed != []
    ensures WellCut(PartBytes(completed)) && Flat(PartBytes(completed)) == taken
  {
    assert Flat(PartBytes(completed)) + [] == Flat(PartBytes(completed));
  }

  /** One multipart upload in progress. `peak` records the largest size the buffer ever had. */
  class Multipart {
    var completed: seq<CompletedPart>
    var buffer: Bytes
    var partNumber: int
    ghost var peak: nat

    constructor ()
      ensures completed == [] && buffer == [] && partNumber == 1 && peak == 0
    {
      completed, buffer, partNumber, peak := [], [], 1, 0;
    }

    /** Part numbers are assigned in sequence from 1. */
    ghost predicate Numbered()
      reads this
    {
      && partNumber == |completed| + 1 && |completed| <= MAX_MULTIPART_PARTS
      && (forall i :: 0 <= i < |completed| ==> completed[i].number == i + 1)
      && |buffer| <= peak
    }

    /** Everything taken in so far is in full parts or in the buffer. */
    ghost predicate Holds(taken: Bytes)
      reads this
    {
      Numbered() && CutSoFar(completed, buffer, taken)
    }

    method UploadOnePart(bytes: Bytes) returns (ok: bool)
      requires Numbered()
      modifies this`completed, this`partNumber
      ensures Numbered()
      ensures ok <==> |old(completed)| < MAX_MULTIPART_PARTS
      ensures completed == if ok then old(completed) + [CompletedPart(|old(completed)| + 1, bytes)] else old(completed)
    {
      if partNumber > MAX_MULTIPART_PARTS {
        return false;
      }
      completed := completed + [CompletedPart(partNumber, bytes)];
      partNumber := partNumber + 1;
      return true;
    }

    /** Uploads full parts off the front of the buffer, keeping a last exact part back when nothing more will come. */
    method DrainBuffer(moreDataComing: bool, ghost taken: Bytes) returns (ok: bool)
      requires Holds(taken)
      modifies this`completed, this`partNumber, this`buffer
      ensures ok ==> Holds(taken)
      ensures ok ==> |buffer| < MIN_MULTIPART_PART || (|buffer| == MIN_MULTIPART_PART && !moreDataComing)
      ensures !ok ==> |taken| > MAX_MULTIPART_PARTS * MIN_MULTIPART_PART
    {
      while |buffer| >= MIN_MULTIPART_PART
        invariant Holds(taken)
        decreases |buffer|
      {
        if |buffer| == MIN_MULTIPART_PART && !moreDataComing {
          break;
        }
        var part, tail := buffer[..MIN_MULTIPART_PART], buffer[MIN_MULTIPART_PART..];
        CutLengthSoFar(completed, buffer, taken);
        CutOff(completed, buffer, taken, CompletedPart(|completed| + 1, part));
        ok := UploadOnePart(part);
        if !ok {
          return;
        }
        buffer := tail;
      }
      return true;
    }

    /** Appends what one read returned and drains the buffer. */
    method TakeIn(bytes: Bytes, moreDataComing: bool, ghost taken: Bytes) returns (ok: bool)
      requires Holds(taken) && |buffer| < MIN_MULTIPART_PART && |bytes| <= READ_SIZE
      modifies this
      ensures ok ==> Holds(taken + bytes)
      ensures ok ==> |buffer| < MIN_MULTIPART_PART || (|buffer| == MIN_MULTIPART_PART && !moreDataComing)
      ensures !ok ==> |taken + bytes| > MAX_MULTIPART_PARTS * MIN_MULTIPART_PART
      ensures peak <= old(peak) || peak <= MIN_MULTIPART_PART - 1 + READ_SIZE
    {
      MoreRest(completed, buffer, taken, bytes);
      buffer := buffer + bytes;
      peak := if |buffer| > peak then |buffer| else peak;
      ok := DrainBuffer(moreDataComing, taken + bytes);
    }

    /** Streams one source object through the buffer; each read returns some bytes of the rest, or none at its end. */
    method StreamSource(source: Bytes, moreKeysAfter: bool, ghost taken: Bytes) returns (ok: bool)
      requires Holds(taken) && |buffer| < MIN_MULTIPART_PART
      modifies this
      ensures ok ==> Holds(taken + source)
      ensures ok ==> |buffer| < MIN_MULTIPART_PART || (|buffer| == MIN_MULTIPART_PART && !moreKeysAfter)
      ensures !ok ==> |taken| + |source| > MAX_MULTIPART_PARTS * MIN_MULTIPART_PART
      ensures peak <= old(peak) || peak <= MIN_MULTIPART_PART - 1 + READ_SIZE
    {
      var rest := source;
      ghost var seen: Bytes := [];
      var eof := false;
      assert taken + [] == taken;
      while !eof
        invariant source == seen + rest && (eof ==> rest == [])
        invariant Holds(taken + seen)
        invariant |buffer| < MIN_MULTIPART_PART || (|buffer| == MIN_MULTIPART_PART && eof && !moreKeysAfter)
        invariant peak <= old(peak) || peak <= MIN_MULTIPART_PART - 1 + READ_SIZE
        decreases |rest|, !eof
      {
        var n: nat :| n <= |rest| && n <= READ_SIZE && (n == 0 <==> rest == []);
        eof := n == 0;
        ReadMore(taken, seen, rest, n);
        ok := TakeIn(rest[..n], !eof || moreKeysAfter, taken + seen);
        seen := seen + rest[..n];
        if !ok {
          return;
        }
        rest := rest[n..];
      }
      assert seen == source;
      return true;
    }

    /** Streams all sources; a missing one or too many bytes end it. */
    method StreamAll(objects: Objects, keys: seq<string>) returns (r: Result<()>)
      requires keys != [] && completed == [] && buffer == [] && partNumber == 1 && peak == 0
      modifies this
      ensures r.Ok? ==> AllThere(objects, keys) && Holds(Joined(objects, keys)) && |buffer| <= MIN_MULTIPART_PART
      ensures r.Err? && AllThere(objects, keys) ==>
        |Joined(objects, keys)| > MAX_MULTIPART_PARTS * MIN_MULTIPART_PART
      ensures peak <= MIN_MULTIPART_PART - 1 + READ_SIZE
    {
      ghost var taken: Bytes := [];
      for i := 0 to |keys|
        invariant AllThere(objects, keys[..i]) && taken == Joined(objects, keys[..i])
        invariant Holds(taken)
        invariant |buffer| < MIN_MULTIPART_PART || (|buffer| == MIN_MULTIPART_PART && i == |keys|)
        invariant peak <= MIN_MULTIPART_PART - 1 + READ_SIZE
      {
        if keys[i] !in objects {
          return Err(NotFound);
        }
        JoinedNext(objects, keys, i);
        JoinedGrows(objects, keys, i + 1);
        var fine := StreamSource(objects[keys[i]], i + 1 < |keys|, taken);
        taken := taken + objects[keys[i]];
        if !fine {
          return Err(Internal);
        }
      }
      assert keys[..|keys|] == keys;
      return Ok(());
    }

    /** Uploads what is left as the last part, or a single empty part if there were no bytes at all. */
    method FlushRest(ghost total: Bytes) returns (ok: bool)
      requires Holds(total) && |buffer| <= MIN_MULTIPART_PART
      modifies this`completed, this`partNumber, this`buffer
      ensures ok <==> |total| <= MAX_MULTIPART_PARTS * MIN_MULTIPART_PART
      ensures ok ==> Numbered() && WellCut(PartBytes(completed)) && Flat(PartBytes(completed)) == total
    {
      CutLengthSoFar(completed, buffer, total);
      if buffer == [] && completed == [] {
        CutLast(completed, [], total, CompletedPart(1, []));
        ok := UploadOnePart([]);
      } else if buffer != [] {
        var rest := buffer;
        CutLast(completed, rest, total, CompletedPart(|completed| + 1, rest));
        buffer := [];
        ok := UploadOnePart(rest);
      } else {
        CutEven(completed, total);
        ok := true;
      }
    }

    /** Cuts the whole stream into the parts of one multipart upload. */
    method UploadParts(objects: Objects, keys: seq<string>) returns (r: Result<()>)
      requires keys != [] && completed == [] && buffer == [] && partNumber == 1 && peak == 0
      modifies this
      ensures r.Ok? <==> Assemblable(objects, keys)
      ensures r.Ok? ==>
        && Numbered() && WellCut(PartBytes(completed)) && Flat(PartBytes(completed)) == Joined(objects, keys)
      ensures peak <= MIN_MULTIPART_PART - 1 + READ_SIZE
    {
      r := StreamAll(objects, keys);
      if r.Err? {
        return;
      }
      var fine := FlushRest(Joined(objects, keys));
      return if fine then Ok(()) else Err(Internal);
    }
  }

  lemma {:induction false} JoinedGrows(objects: Objects, keys: seq<string>, k: nat)
    requires k <= |keys| && AllThere(objects, keys[..k])
    ensures AllThere(objects, keys) ==> |Joined(objects, keys[..k])| <= |Joined(objects, keys)|
    decreases |keys| - k
  {
    if AllThere(objects, keys) {
      if k < |keys| {
        JoinedNext(objects, keys, k);
        JoinedGrows(objects, keys, k + 1);
      } else {
        assert keys[..k] == keys;
      }
    }
  }

  class Bucket {
    var objects: Objects

    constructor ()
      ensures objects == map[]
    {
      objects := map[];
    }

    /** Assembles the sources into one object and then deletes some keys; a failed upload is aborted and leaves no trace. */
    method Assemble(dest: string, keys: seq<string>, deleteAfterOk: seq<string>) returns (r: Result<()>)
      modifies this
      ensures r.Ok? <==> keys == [] || Assemblable(old(objects), keys)
      ensures keys == [] || r.Err? ==> objects == old(objects)
      ensures keys != [] && r.Ok? ==>
        objects == old(objects)[dest := Joined(old(objects), keys)] - KeySet(deleteAfterOk)
    {
      if keys == [] {
        return Ok(());
      }
      var upload := new Multipart();
      r := upload.UploadParts(objects, keys);
      if r.Err? {
        return;
      }
      objects := objects[dest := Flat(PartBytes(upload.completed))];
      ghost var assembled := objects;
      for i := 0 to |deleteAfterOk|
        invariant objects == assembled - KeySet(deleteAfterOk[..i])
      {
        assert deleteAfterOk[..i + 1] == deleteAfterOk[..i] + [deleteAfterOk[i]];
        objects := objects - {deleteAfterOk[i]};
      }
      assert deleteAfterOk[..|deleteAfterOk|] == deleteAfterOk;
      return Ok(());
    }
  }
}
