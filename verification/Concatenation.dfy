/** Final uploads: what joining partial uploads produces, and what the rest of the POST then does to it. */
module Concatenation {
  import opened Core
  import opened Seqs
  import opened Slots
  import opened Entries
  import opened Protocol
  import opened Refinement
  import opened Worlds
  import opened Reference
  import FileStores

  /** Fetching succeeds exactly when every requested upload is a completed partial, and returns their records in order. */
  lemma {:induction false} FetchIff(w: World, u: Uploads, ids: seq<string>)
    requires Fetchable(w, u, ids)
    ensures FetchPartials(w, ids).Ok? <==> AllUsable(u, ids)
    ensures FetchPartials(w, ids).Ok? ==> forall i :: 0 <= i < |ids| ==> FetchPartials(w, ids).value[i] == u[ids[i]].info
  {
    if ids != [] {
      var before, id := ids[..|ids| - 1], ids[|ids| - 1];
      FetchIff(w, u, before);
      FetchOne(w, u, id);
      assert ids == before + [id];
      assert AllUsable(u, ids) <==> AllUsable(u, before) && UsablePartial(u, id);
    }
  }

  lemma FetchOne(w: World, u: Uploads, id: string)
    requires ShowsRecord(w, u, id)
    ensures UsablePartial(u, id) <==>
      w.Knows(id) && GetInfo(w.Look(id)).Ok? && GetInfo(w.Look(id)).value.isPartial && GetInfo(w.Look(id)).value.IsComplete()
    ensures UsablePartial(u, id) ==> GetInfo(w.Look(id)) == Ok(u[id].info)
  {
  }

  lemma {:induction false} ReadableAll(sources: seq<Result<Bytes>>)
    requires forall i :: 0 <= i < |sources| ==> sources[i].Ok?
    ensures Readable(sources) == |sources|
  {
    if sources != [] {
      ReadableAll(sources[1..]);
    }
  }

  lemma JoinedSnoc(u: Uploads, ids: seq<string>)
    requires ids != [] && AllUsable(u, ids)
    ensures AllUsable(u, ids[..|ids| - 1])
    ensures Joined(u, ids) == Joined(u, ids[..|ids| - 1]) + u[ids[|ids| - 1]].content
  {
    var before := ids[..|ids| - 1];
    assert PartialContents(u, ids) == PartialContents(u, before) + [u[ids[|ids| - 1]].content];
    FlatSnoc(PartialContents(u, before), u[ids[|ids| - 1]].content);
  }

  /** The declared sizes of completed partials add up to the number of their bytes. */
  lemma {:induction false} SizesAddUp(w: World, u: Uploads, ids: seq<string>, partials: seq<UploadInfo>)
    requires Fetchable(w, u, ids) && AllUsable(u, ids) && |partials| == |ids|
    requires forall i :: 0 <= i < |ids| ==> partials[i] == u[ids[i]].info
    ensures SizesSum(partials) == |Joined(u, ids)|
  {
    if ids != [] {
      var id := ids[|ids| - 1];
      SizesAddUp(w, u, ids[..|ids| - 1], partials[..|ids| - 1]);
      JoinedSnoc(u, ids);
      assert UsablePartial(u, id) && Shows(w, u, id);
      ContentLength(w.Look(id));
    }
  }

  lemma ContentLength(st: Store)
    requires StoreInv(st) && Abs(st).Present?
    ensures |Abs(st).content| == Abs(st).info.offset
  {
  }

  predicate AllSealed(w: World, ids: seq<string>) {
    forall i :: 0 <= i < |ids| ==> w.Knows(ids[i]) && IsSealed(w.Look(ids[i]))
  }

  lemma SourcesJoin(u: Uploads, ids: seq<string>, sources: seq<Result<Bytes>>)
    requires AllUsable(u, ids) && |sources| == |ids|
    requires forall i :: 0 <= i < |ids| ==> sources[i] == Ok(u[ids[i]].content)
    ensures Readable(sources) == |ids| && Flat(Values(sources, |ids|)) == Joined(u, ids)
  {
    ReadableAll(sources);
    assert Values(sources, |ids|) == PartialContents(u, ids);
  }

  /** In memory, concatenation of fetched partials succeeds and joins their bytes in request order, repeats included. */
  lemma ConcatenateInMemory(w: World, u: Uploads, id: string, ids: seq<string>)
    requires ShowsRecord(w, u, id) && Fetchable(w, u, ids) && w.MemoryWorld? && id in u && u[id].Present?
    requires FetchPartials(w, ids).Ok?
    ensures AllUsable(u, ids) && w.Knows(id)
    ensures var (st, r) := Protocol.Concatenate(w, id, FetchPartials(w, ids).value);
            r == Ok(()) && st.Memory? && Abs(st) == FinalUpload(u[id].info, Joined(u, ids))
  {
    FetchIff(w, u, ids);
    var partials := FetchPartials(w, ids).value;
    var sources := Entries.Sources(w.entries, partials);
    forall i | 0 <= i < |ids|
      ensures sources[i] == Ok(u[ids[i]].content)
    {
      assert UsablePartial(u, ids[i]) && Shows(w, u, ids[i]);
    }
    SourcesJoin(u, ids, sources);
  }

  lemma JoinIff(s: Slot, u: Uploads, ids: seq<string>, sources: seq<Result<Bytes>>, total: U64)
    requires s.info.Some? && |sources| == |ids| && AllUsable(u, ids)
    requires forall i :: 0 <= i < |ids| ==> sources[i] == Ok(u[ids[i]].content) || sources[i] == Err(Io)
    ensures var (s', r) := Slots.Concatenate(s, sources, total);
            && (r.Err? ==> s' == s.(data := Some(Joined(u, ids[..Readable(sources)]))))
            && (r.Ok? <==> forall i :: 0 <= i < |ids| ==> sources[i].Ok?)
            && (r.Err? ==> r.error == Io)
            && (r.Ok? ==> s' == s.(data := Some(Joined(u, ids)), info := Some(FinalRecord(s.info.value, total))))
  {
    var k := Readable(sources);
    if k == |sources| {
      SourcesJoin(u, ids, sources);
    } else {
      assert Values(sources, k) == PartialContents(u, ids[..k]);
    }
  }

  /** How many partials can be read before the first that has not been sealed. */
  function LeadingSealed(w: World, ids: seq<string>): (k: nat)
    ensures k <= |ids| && (k == |ids| <==> AllSealed(w, ids))
    ensures AllSealed(w, ids[..k])
    ensures k < |ids| ==> !(w.Knows(ids[k]) && IsSealed(w.Look(ids[k])))
  {
    if ids == [] || !(w.Knows(ids[0]) && IsSealed(w.Look(ids[0]))) then 0
    else
      var k := LeadingSealed(w, ids[1..]);
      assert ids[..k + 1] == [ids[0]] + ids[1..][..k];
      assert forall i :: 0 < i < |ids| ==> ids[i] == ids[1..][i - 1];
      k + 1
  }

  lemma {:induction false} LeadingReadable(w: World, ids: seq<string>, sources: seq<Result<Bytes>>)
    requires |sources| == |ids|
    requires forall i :: 0 <= i < |ids| ==> (sources[i].Ok? <==> w.Knows(ids[i]) && IsSealed(w.Look(ids[i])))
    ensures Readable(sources) == LeadingSealed(w, ids)
  {
    if ids != [] {
      LeadingReadable(w, ids[1..], sources[1..]);
    }
  }

  lemma DiskSource(w: World, u: Uploads, id: string)
    requires Shows(w, u, id) && w.DiskWorld? && UsablePartial(u, id)
    ensures w.Knows(id)
    ensures FileStores.Source(w.slots, u[id].info.id) == if IsSealed(w.Look(id)) then Ok(u[id].content) else Err(Io)
  {
  }

  lemma DiskSources(w: World, u: Uploads, ids: seq<string>, partials: seq<UploadInfo>)
    requires Fetchable(w, u, ids) && w.DiskWorld? && AllUsable(u, ids) && |partials| == |ids|
    requires forall i :: 0 <= i < |ids| ==> partials[i] == u[ids[i]].info
    ensures forall i :: 0 <= i < |ids| ==> w.Knows(ids[i])
    ensures forall i :: 0 <= i < |ids| ==>
      FileStores.Sources(w.slots, partials)[i] == if IsSealed(w.Look(ids[i])) then Ok(u[ids[i]].content) else Err(Io)
  {
    forall i | 0 <= i < |ids|
      ensures w.Knows(ids[i])
      ensures FileStores.Sources(w.slots, partials)[i]
           == if IsSealed(w.Look(ids[i])) then Ok(u[ids[i]].content) else Err(Io)
    {
      assert Shows(w, u, ids[i]) && UsablePartial(u, ids[i]);
      DiskSource(w, u, ids[i]);
    }
  }

  /** What fetched partials and their sources amount to on disk. */
  lemma DiskFacts(w: World, u: Uploads, ids: seq<string>)
    requires Fetchable(w, u, ids) && w.DiskWorld? && FetchPartials(w, ids).Ok?
    ensures AllUsable(u, ids)
    ensures var sources := FileStores.Sources(w.slots, FetchPartials(w, ids).value);
            && (forall i :: 0 <= i < |ids| ==> sources[i] == Ok(u[ids[i]].content) || sources[i] == Err(Io))
            && (AllSealed(w, ids) <==> forall i :: 0 <= i < |ids| ==> sources[i].Ok?)
            && Readable(sources) == LeadingSealed(w, ids)
    ensures SizesTotal(FetchPartials(w, ids).value) == |Joined(u, ids)| % (U64_MAX + 1)
  {
    FetchIff(w, u, ids);
    var partials := FetchPartials(w, ids).value;
    DiskSources(w, u, ids, partials);
    SizesAddUp(w, u, ids, partials);
    assert forall i :: 0 <= i < |ids| ==> FileStores.Sources(w.slots, partials)[i].Ok? == IsSealed(w.Look(ids[i]));
    LeadingReadable(w, ids, FileStores.Sources(w.slots, partials));
  }

  /**
   * On disk, concatenation of fetched partials succeeds exactly when each of them has been sealed; it then joins the
   * same bytes and records the same total as the memory store. Otherwise it leaves the data of those before the first
   * unsealed one, and no new record.
   */
  lemma ConcatenateOnDisk(w: World, u: Uploads, id: string, ids: seq<string>)
    requires ShowsRecord(w, u, id) && Fetchable(w, u, ids) && w.DiskWorld? && id in u && u[id].Present?
    requires FetchPartials(w, ids).Ok?
    ensures AllUsable(u, ids) && w.Knows(id)
    ensures var (st, r) := Protocol.Concatenate(w, id, FetchPartials(w, ids).value);
            if AllSealed(w, ids) then
              r == Ok(()) && st == Disk(w.slots[id].(info := Some(FinalUpload(u[id].info, Joined(u, ids)).info),
                                                     data := Some(Joined(u, ids))))
            else
              r == Err(Io) && st == Disk(w.slots[id].(data := Some(Joined(u, ids[..LeadingSealed(w, ids)]))))
  {
    DiskFacts(w, u, ids);
    var partials := FetchPartials(w, ids).value;
    JoinIff(w.slots[id], u, ids, FileStores.Sources(w.slots, partials), SizesTotal(partials));
  }

  /** The recorded length is the real one exactly when it fits a u64. */
  lemma TotalIff(info: UploadInfo, joined: Bytes)
    ensures FinalUpload(info, joined).info.offset == |joined| <==> |joined| <= U64_MAX
  {
  }

  // ----- the rest of the POST -----

  function FinalEntry(info: UploadInfo, joined: Bytes): Store {
    Memory(Some(Entry(FinalUpload(info, joined).info, joined)))
  }

  function FinalSlot(info: UploadInfo, joined: Bytes): Store {
    Disk(Slot(Some(FinalUpload(info, joined).info), Some(joined), map[]))
  }

  /** The body is written over the start of the joined bytes; it must not be longer than they are. */
  predicate BodyOverwrites(cfg: Config, req: PostRequest, joined: Bytes) {
    CarriesBody(cfg, req) && req.body.FullBody? && |req.body.bytes| <= |joined| % (U64_MAX + 1)
  }

  /** What any final POST leaves in memory. */
  function FinalInMemory(cfg: Config, req: PostRequest, info: UploadInfo, joined: Bytes): Upload {
    if !BodyOverwrites(cfg, req, joined) then FinalUpload(info, joined)
    else
      var body := req.body.bytes;
      Present(FinalUpload(info, joined).info.(offset := |body|), body + joined[|body|..])
  }

  /**
   * In memory the joined bytes remain unless a body overwrites them. The POST succeeds if its body, if any, fits and
   * the upload either falls short of its length now or is allowed to complete.
   */
  lemma FinalTailInMemory(cfg: Config, joined: Bytes, info: UploadInfo, req: PostRequest)
    ensures var (st, r) := PostTail(cfg, FinalEntry(info, joined), req);
            && Abs(st) == FinalInMemory(cfg, req, info, joined)
            && (r.Ok? <==>
                && (CarriesBody(cfg, req) ==> BodyOverwrites(cfg, req, joined))
                && ((CarriesBody(cfg, req) && |req.body.bytes| < |joined| % (U64_MAX + 1)) || req.finishAccepted))
  {
  }

  /** An empty body is written as an empty part if the recorded offset is 0. */
  predicate EmptyBodyFits(cfg: Config, req: PostRequest, joined: Bytes) {
    CarriesBody(cfg, req) && req.body == FullBody([]) && |joined| % (U64_MAX + 1) == 0
  }

  /**
   * On disk the completion step that follows finds no parts and replaces the joined data by an empty object. So a final
   * POST keeps the joined bytes exactly when there are none, when the hook refuses completion, or when the POST carries
   * a body that is refused before completion is reached, which is any but an empty one at recorded offset 0.
   */
  lemma FinalTailOnDiskIff(cfg: Config, joined: Bytes, info: UploadInfo, req: PostRequest)
    ensures var (st, r) := PostTail(cfg, FinalSlot(info, joined), req);
            var kept := Abs(st) == FinalUpload(info, joined);
            && (kept <==>
                || joined == [] || !req.finishAccepted
                || (CarriesBody(cfg, req) && !EmptyBodyFits(cfg, req, joined)))
            && (!kept ==> r == Ok(|joined| % (U64_MAX + 1)) && Abs(st) == Present(FinalUpload(info, joined).info, []))
            && (CarriesBody(cfg, req) && !EmptyBodyFits(cfg, req, joined) ==> r.Err? && st == FinalSlot(info, joined))
            && (!CarriesBody(cfg, req) ==> (r.Ok? <==> req.finishAccepted))
  {
    var s := FinalSlot(info, joined).slot;
    NoParts(s);
    if EmptyBodyFits(cfg, req, joined) {
      NextPartAppends(s, []);
      assert s.parts[NextIndex(s) := []] == map[0 := []];
      var s1 := s.(parts := map[0 := []]);
      SameParts(s.(parts := s.parts[NextIndex(s) := []]), s1);
    }
  }

  /** The tail of a final POST leaves a well-formed upload of the joined bytes. */
  predicate TailKeeps(onDisk: bool, cfg: Config, req: PostRequest, joined: Bytes) {
    if !onDisk then BodyOverwrites(cfg, req, joined) ==> req.body.bytes == joined
    else if CarriesBody(cfg, req) then !EmptyBodyFits(cfg, req, joined) || req.finishAccepted
    else joined == [] || !req.finishAccepted
  }

  lemma TailKeepsInMemoryIff(cfg: Config, joined: Bytes, info: UploadInfo, req: PostRequest)
    requires |joined| <= U64_MAX
    ensures var st := PostTail(cfg, FinalEntry(info, joined), req).0;
            StoreInv(st) && Abs(st) == FinalUpload(info, joined) <==> TailKeeps(false, cfg, req, joined)
  {
    FinalTailInMemory(cfg, joined, info, req);
    var st := PostTail(cfg, FinalEntry(info, joined), req).0;
    MemoryKeepsIff(st, FinalUpload(info, joined));
    if BodyOverwrites(cfg, req, joined) {
      OverwrittenIsSameIff(joined, req.body.bytes);
    }
  }

  /** A memory store that has the right record has the right number of bytes if it has the right bytes. */
  lemma MemoryKeepsIff(st: Store, up: Upload)
    requires st.Memory? && up.Present? && |up.content| == up.info.offset
    ensures StoreInv(st) && Abs(st) == up <==> Abs(st) == up
  {
  }

  lemma OverwrittenIsSameIff(joined: Bytes, body: Bytes)
    requires |body| <= |joined|
    ensures body == joined <==> |body| == |joined| && body + joined[|body|..] == joined
  {
    if |body| == |joined| {
      assert body + joined[|body|..] == body;
    }
  }

  lemma TailKeepsOnDiskIff(cfg: Config, joined: Bytes, info: UploadInfo, req: PostRequest)
    requires |joined| <= U64_MAX
    ensures var st := PostTail(cfg, FinalSlot(info, joined), req).0;
            StoreInv(st) && Abs(st) == FinalUpload(info, joined) <==> TailKeeps(true, cfg, req, joined)
  {
    var s := FinalSlot(info, joined).slot;
    NoParts(s);
    FinalTailOnDiskIff(cfg, joined, info, req);
    if EmptyBodyFits(cfg, req, joined) {
      assert joined == [];
      NextPartAppends(s, []);
      assert s.parts[NextIndex(s) := []] == map[0 := []];
      var s1 := s.(parts := map[0 := []]);
      assert 0 in s1.parts && !SlotInv(s1);
      assert PostTail(cfg, Disk(s), req) == Conclude(Disk(s1), req.finishAccepted);
      SameParts(s.(parts := s.parts[NextIndex(s) := []]), s1);
    }
  }

  /**
   * The same over parts that an earlier upload of this ID has left: completion takes them for the upload's own, so they
   * had better be what is joined.
   */
  predicate TailKeepsOver(cfg: Config, req: PostRequest, joined: Bytes, prior: Slot) {
    if prior.parts == map[] then TailKeeps(true, cfg, req, joined)
    else req.finishAccepted && PartBytes(prior) == joined && (CarriesBody(cfg, req) ==> EmptyBodyFits(cfg, req, joined))
  }

  /** The slot after the join, with the parts that were there before. */
  function JoinedSlot(info: UploadInfo, joined: Bytes, prior: Slot): Store {
    Disk(Slot(Some(FinalUpload(info, joined).info), Some(joined), prior.parts))
  }

  lemma OverPartsCompleted(joined: Bytes, info: UploadInfo, prior: Slot)
    requires prior.parts != map[]
    ensures var st := Conclude(JoinedSlot(info, joined, prior), true).0;
            st == Disk(Slot(Some(FinalUpload(info, joined).info), Some(PartBytes(prior)), map[]))
    ensures !SlotInv(JoinedSlot(info, joined, prior).slot)
    ensures Conclude(JoinedSlot(info, joined, prior), false).0 == JoinedSlot(info, joined, prior)
  {
    SameParts(prior, JoinedSlot(info, joined, prior).slot);
  }

  lemma OverPartsWritten(joined: Bytes, info: UploadInfo, prior: Slot)
    requires Growing(prior) && HasRoom(Disk(prior)) && |joined| % (U64_MAX + 1) == 0
    ensures var (st, r) := Protocol.WriteChunk(JoinedSlot(info, joined, prior), 0, FullBody([]));
            && r == Ok(0) && st.Disk? && st.slot.parts != map[] && PartBytes(st.slot) == PartBytes(prior)
            && st == JoinedSlot(info, joined, st.slot)
  {
    var s := JoinedSlot(info, joined, prior).slot;
    SameParts(prior, s);
    NextPartAppends(s, []);
    var written := Protocol.WriteChunk(Disk(s), 0, FullBody([])).0.slot;
    SameParts(s.(parts := s.parts[NextIndex(s) := []]), written);
    assert NextIndex(s) in written.parts;
  }

  lemma TailKeepsOverIff(cfg: Config, joined: Bytes, info: UploadInfo, req: PostRequest, prior: Slot)
    requires |joined| <= U64_MAX && SlotInv(prior) && HasRoom(Disk(prior))
    ensures var st := PostTail(cfg, JoinedSlot(info, joined, prior), req).0;
            StoreInv(st) && Abs(st) == FinalUpload(info, joined) <==> TailKeepsOver(cfg, req, joined, prior)
  {
    if prior.parts == map[] {
      TailKeepsOnDiskIff(cfg, joined, info, req);
    } else if !CarriesBody(cfg, req) {
      OverPartsCompleted(joined, info, prior);
    } else if EmptyBodyFits(cfg, req, joined) {
      EmptyBodyOver(cfg, joined, info, req, prior);
    } else {
      OverPartsCompleted(joined, info, prior);
      BodyRefusedOver(cfg, joined, info, req, prior);
    }
  }

  lemma EmptyBodyOver(cfg: Config, joined: Bytes, info: UploadInfo, req: PostRequest, prior: Slot)
    requires Growing(prior) && HasRoom(Disk(prior)) && EmptyBodyFits(cfg, req, joined)
    ensures var st := PostTail(cfg, JoinedSlot(info, joined, prior), req).0;
            if req.finishAccepted
            then st == Disk(Slot(Some(FinalUpload(info, joined).info), Some(PartBytes(prior)), map[]))
            else !StoreInv(st)
  {
    OverPartsWritten(joined, info, prior);
    var written := Protocol.WriteChunk(JoinedSlot(info, joined, prior), 0, FullBody([])).0.slot;
    OverPartsCompleted(joined, info, written);
  }

  lemma BodyRefusedOver(cfg: Config, joined: Bytes, info: UploadInfo, req: PostRequest, prior: Slot)
    requires CarriesBody(cfg, req) && !EmptyBodyFits(cfg, req, joined)
    ensures PostTail(cfg, JoinedSlot(info, joined, prior), req).0 == JoinedSlot(info, joined, prior)
    ensures PostTail(cfg, JoinedSlot(info, joined, prior), req).1.Err?
  {
  }

  // ----- a whole final POST -----

  /** A final POST, under whatever ID, over uploads that the store has as the reference has them. */
  ghost predicate FinalOver(cfg: Config, w: World, u: Uploads, req: PostRequest, ids: seq<string>) {
    && req.concat == FinalConcat(Ok(ids)) && PostChecks(cfg, req).None?
    && Shows(w, u, req.id) && ShowsAll(w, u, ids) && req.id in u
  }

  /** The new upload is not a partial, so it is no part of itself. */
  lemma NotItsOwnPart(cfg: Config, u: Uploads, req: PostRequest, id: string)
    requires req.concat.FinalConcat? && UsablePartial(Started(cfg, u, req), id)
    ensures id != req.id
  {
  }

  lemma StartFinal(cfg: Config, w: World, u: Uploads, req: PostRequest, ids: seq<string>)
    requires FinalOver(cfg, w, u, req, ids)
    ensures var (w1, u1) := (StartedWorld(cfg, w, req), Started(cfg, u, req));
            && ShowsRecord(w1, u1, req.id) && Fetchable(w1, u1, ids)
            && (w1.DiskWorld? <==> w.DiskWorld?) && w1.Knows(req.id)
            && w1.Look(req.id) == Create(w.Look(req.id), NewInfo(cfg, req))
            && (AllUsable(u1, ids) ==> LeadingSealed(w1, ids) == LeadingSealed(w, ids))
            && Post(cfg, w, req) == PostJoined(cfg, w1, req, ids)
  {
    var created := Create(w.Look(req.id), NewInfo(cfg, req));
    var w1, u1 := StartedWorld(cfg, w, req), Started(cfg, u, req);
    PutShows(w, req.id, created);
    forall i | 0 <= i < |ids|
      ensures ShowsRecord(w1, u1, ids[i])
      ensures UsablePartial(u1, ids[i]) ==> Shows(w1, u1, ids[i]) && SameAt(w, w1, ids[i])
    {
      assert Shows(w, u, ids[i]);
      if ids[i] != req.id {
        PutElsewhere(w, req.id, created, ids[i]);
      }
    }
    if AllUsable(u1, ids) {
      forall i | 0 <= i < |ids|
        ensures SameAt(w, w1, ids[i])
      {
        assert UsablePartial(u1, ids[i]);
      }
      SameLeading(w, w1, ids);
    }
  }

  lemma {:induction false} SameLeading(w: World, w1: World, ids: seq<string>)
    requires forall i :: 0 <= i < |ids| ==> SameAt(w, w1, ids[i])
    ensures LeadingSealed(w1, ids) == LeadingSealed(w, ids)
  {
    if ids != [] {
      assert SameAt(w, w1, ids[0]);
      SameLeading(w, w1, ids[1..]);
    }
  }

  /** If a partial cannot be used, the POST fails and leaves an empty record, over what was there. */
  lemma FinalPostUnusable(cfg: Config, w: World, u: Uploads, req: PostRequest, ids: seq<string>)
    requires FinalOver(cfg, w, u, req, ids) && !AllUsable(Started(cfg, u, req), ids)
    ensures var (w', r) := Post(cfg, w, req);
            w'.Knows(req.id) && r.Err? && w'.Look(req.id) == Create(w.Look(req.id), NewInfo(cfg, req))
  {
    StartFinal(cfg, w, u, req, ids);
    FetchIff(StartedWorld(cfg, w, req), Started(cfg, u, req), ids);
  }

  /**
   * A whole final POST in memory, whatever was there: the partials' bytes in request order, with the body, if there is
   * one that fits, written over their beginning.
   */
  lemma FinalPostMemory(cfg: Config, w: World, u: Uploads, req: PostRequest, ids: seq<string>)
    requires FinalOver(cfg, w, u, req, ids) && w.MemoryWorld? && AllUsable(Started(cfg, u, req), ids)
    ensures var ((w', r), joined) := (Post(cfg, w, req), Joined(Started(cfg, u, req), ids));
            && w'.Knows(req.id)
            && (w'.Look(req.id), r) == PostTail(cfg, FinalEntry(NewInfo(cfg, req), joined), req)
            && Abs(w'.Look(req.id)) == FinalInMemory(cfg, req, NewInfo(cfg, req), joined)
  {
    StartFinal(cfg, w, u, req, ids);
    var w1, u1 := StartedWorld(cfg, w, req), Started(cfg, u, req);
    FetchIff(w1, u1, ids);
    ConcatenateInMemory(w1, u1, req.id, ids);
    var st := FinalEntry(NewInfo(cfg, req), Joined(u1, ids));
    assert Protocol.Concatenate(w1, req.id, FetchPartials(w1, ids).value) == (st, Ok(()));
    FinalTailInMemory(cfg, Joined(u1, ids), NewInfo(cfg, req), req);
    PutShows(w1, req.id, PostTail(cfg, st, req).0);
  }

  /**
   * The same POST on disk fails unless every partial is sealed, and then leaves the data of those before the first
   * unsealed one beside a record of no bytes. Over sealed partials the rest of the POST runs on the joined data and on
   * whatever parts there were before.
   */
  lemma FinalPostDisk(cfg: Config, w: World, u: Uploads, req: PostRequest, ids: seq<string>)
    requires FinalOver(cfg, w, u, req, ids) && w.DiskWorld? && AllUsable(Started(cfg, u, req), ids)
    ensures w.Knows(req.id) && Post(cfg, w, req).0.Knows(req.id)
    ensures var ((w', r), u1, info, prior) := (Post(cfg, w, req), Started(cfg, u, req), NewInfo(cfg, req), w.Look(req.id).slot);
            (w'.Look(req.id), r) ==
              if AllSealed(w, ids) then PostTail(cfg, JoinedSlot(info, Joined(u1, ids), prior), req)
              else (Disk(Slot(Some(info), Some(Joined(u1, ids[..LeadingSealed(w, ids)])), prior.parts)), Err(Io))
  {
    StartFinal(cfg, w, u, req, ids);
    var w1, u1 := StartedWorld(cfg, w, req), Started(cfg, u, req);
    FetchIff(w1, u1, ids);
    ConcatenateOnDisk(w1, u1, req.id, ids);
    var joined := Protocol.Concatenate(w1, req.id, FetchPartials(w1, ids).value);
    PutShows(w1, req.id, joined.0);
    if AllSealed(w, ids) {
      assert joined == (JoinedSlot(NewInfo(cfg, req), Joined(u1, ids), w.slots[req.id]), Ok(()));
      PutShows(w1, req.id, PostTail(cfg, joined.0, req).0);
    }
  }

  /**
   * Under a fresh ID and over sealed partials the joined bytes stay exactly when there are none, when the hook refuses
   * completion, or when the POST carries a body that is refused; otherwise the POST reports success and leaves an upload
   * of that length whose data is empty.
   */
  lemma FreshFinalPostDisk(cfg: Config, w: World, u: Uploads, req: PostRequest, ids: seq<string>)
    requires FinalOver(cfg, w, u, req, ids) && w.DiskWorld? && AllUsable(Started(cfg, u, req), ids)
    requires u[req.id].Absent? && AllSealed(w, ids)
    ensures var (w', r) := Post(cfg, w, req);
            var (info, joined) := (NewInfo(cfg, req), Joined(Started(cfg, u, req), ids));
            var kept := joined == [] || !req.finishAccepted
                        || (CarriesBody(cfg, req) && !EmptyBodyFits(cfg, req, joined));
            && w'.Knows(req.id) && (!kept ==> r.Ok?)
            && Abs(w'.Look(req.id)) ==
               if kept then FinalUpload(info, joined) else Present(FinalUpload(info, joined).info, [])
  {
    FinalPostDisk(cfg, w, u, req, ids);
    FinalTailOnDiskIff(cfg, Joined(Started(cfg, u, req), ids), NewInfo(cfg, req), req);
  }

  // ----- when a final POST leaves the reference upload -----

  /** What a final POST needs, so that it leaves what it is meant to leave. */
  predicate FinalIsKept(cfg: Config, w: World, u: Uploads, req: PostRequest, ids: seq<string>)
    requires w.Knows(req.id)
  {
    var (u1, st) := (Started(cfg, u, req), w.Look(req.id));
    if !AllUsable(u1, ids) then st.Disk? ==> EmptyRecordFits(st.slot, NewInfo(cfg, req))
    else
      var joined := Joined(u1, ids);
      && |joined| <= U64_MAX
      && if st.Memory? then TailKeeps(false, cfg, req, joined)
         else if AllSealed(w, ids) then TailKeepsOver(cfg, req, joined, st.slot)
         else joined == [] && NewInfo(cfg, req).size == Some(0) && st.slot.parts == map[]
  }

  /** An empty record can be put over the slot. */
  predicate EmptyRecordFits(s: Slot, info: UploadInfo) {
    (s.data.None? && PartBytes(s) == []) || (s.data == Some([]) && info.size == Some(0))
  }

  ghost predicate FinalAsReference(cfg: Config, w: World, u: Uploads, req: PostRequest, ids: seq<string>) {
    var w' := Post(cfg, w, req).0;
    w'.Knows(req.id) && ReadsAs(w'.Look(req.id), RefFinal(cfg, u, req, ids))
  }

  ghost predicate ReadsAs(st: Store, upload: Upload) {
    StoreInv(st) && Abs(st) == upload
  }

  /** What a final POST leaves of its upload. */
  lemma FinalLeaves(cfg: Config, w: World, u: Uploads, req: PostRequest, ids: seq<string>) returns (st: Store)
    requires FinalOver(cfg, w, u, req, ids)
    ensures FinalAsReference(cfg, w, u, req, ids) <==> ReadsAs(st, RefFinal(cfg, u, req, ids))
    ensures w.Knows(req.id)
    ensures var (u1, info, found) := (Started(cfg, u, req), NewInfo(cfg, req), w.Look(req.id));
            st == if !AllUsable(u1, ids) then Create(found, info)
                  else if w.MemoryWorld? then PostTail(cfg, FinalEntry(info, Joined(u1, ids)), req).0
                  else if AllSealed(w, ids) then PostTail(cfg, JoinedSlot(info, Joined(u1, ids), found.slot), req).0
                  else Disk(Slot(Some(info), Some(Joined(u1, ids[..LeadingSealed(w, ids)])), found.slot.parts))
  {
    st := Post(cfg, w, req).0.Look(req.id);
    if !AllUsable(Started(cfg, u, req), ids) {
      FinalPostUnusable(cfg, w, u, req, ids);
    } else if w.MemoryWorld? {
      FinalPostMemory(cfg, w, u, req, ids);
    } else {
      FinalPostDisk(cfg, w, u, req, ids);
    }
  }

  lemma UnusableIff(cfg: Config, w: World, u: Uploads, req: PostRequest, ids: seq<string>)
    requires FinalOver(cfg, w, u, req, ids) && !AllUsable(Started(cfg, u, req), ids) && w.Knows(req.id)
    ensures ReadsAs(Create(w.Look(req.id), NewInfo(cfg, req)), RefFinal(cfg, u, req, ids))
       <==> FinalIsKept(cfg, w, u, req, ids)
  {
    PostIsAsAsked(cfg, req);
    if w.DiskWorld? {
      var s := w.slots[req.id];
      CreateOverIff(s, NewInfo(cfg, req));
      SameParts(s, s.(info := Some(NewInfo(cfg, req))));
    }
  }

  lemma UnsealedIff(info: UploadInfo, joined: Bytes, copied: Bytes, parts: map<U32, Bytes>)
    requires info.offset == 0 && info.isFinal && copied <= joined
    ensures var s := Slot(Some(info), Some(copied), parts);
            SlotInv(s) && Abs(Disk(s)) == FinalUpload(info, joined)
            <==> |joined| <= U64_MAX && joined == [] && info.size == Some(0) && parts == map[]
  {
  }

  lemma MemoryFinalIff(cfg: Config, w: World, u: Uploads, req: PostRequest, ids: seq<string>)
    requires FinalOver(cfg, w, u, req, ids) && w.MemoryWorld? && AllUsable(Started(cfg, u, req), ids) && w.Knows(req.id)
    ensures ReadsAs(PostTail(cfg, FinalEntry(NewInfo(cfg, req), Joined(Started(cfg, u, req), ids)), req).0,
                    RefFinal(cfg, u, req, ids))
       <==> FinalIsKept(cfg, w, u, req, ids)
  {
    PostIsAsAsked(cfg, req);
    MemoryTailIff(cfg, Joined(Started(cfg, u, req), ids), NewInfo(cfg, req), req);
  }

  lemma SealedFinalIff(cfg: Config, w: World, u: Uploads, req: PostRequest, ids: seq<string>)
    requires FinalOver(cfg, w, u, req, ids) && w.DiskWorld? && AllUsable(Started(cfg, u, req), ids)
    requires w.Knows(req.id) && HasRoom(w.Look(req.id)) && AllSealed(w, ids)
    ensures ReadsAs(PostTail(cfg, JoinedSlot(NewInfo(cfg, req), Joined(Started(cfg, u, req), ids), w.Look(req.id).slot), req).0,
                    RefFinal(cfg, u, req, ids))
       <==> FinalIsKept(cfg, w, u, req, ids)
  {
    PostIsAsAsked(cfg, req);
    DiskTailIff(cfg, Joined(Started(cfg, u, req), ids), NewInfo(cfg, req), req, w.Look(req.id).slot);
  }

  lemma LeadingJoined(u: Uploads, ids: seq<string>, k: nat)
    requires AllUsable(u, ids) && k <= |ids|
    ensures Joined(u, ids[..k]) <= Joined(u, ids)
  {
    assert PartialContents(u, ids[..k]) == PartialContents(u, ids)[..k];
    FlatIsPrefix(PartialContents(u, ids), k);
  }

  lemma UnsealedFinalIff(cfg: Config, w: World, u: Uploads, req: PostRequest, ids: seq<string>)
    requires FinalOver(cfg, w, u, req, ids) && w.DiskWorld? && AllUsable(Started(cfg, u, req), ids) && !AllSealed(w, ids)
    requires w.Knows(req.id)
    ensures var copied := Joined(Started(cfg, u, req), ids[..LeadingSealed(w, ids)]);
            ReadsAs(Disk(Slot(Some(NewInfo(cfg, req)), Some(copied), w.Look(req.id).slot.parts)), RefFinal(cfg, u, req, ids))
            <==> FinalIsKept(cfg, w, u, req, ids)
  {
    PostIsAsAsked(cfg, req);
    var (u1, k) := (Started(cfg, u, req), LeadingSealed(w, ids));
    LeadingJoined(u1, ids, k);
    UnsealedIff(NewInfo(cfg, req), Joined(u1, ids), Joined(u1, ids[..k]), w.Look(req.id).slot.parts);
  }

  /** A final POST, under whatever ID and on either store, leaves the reference upload exactly when this holds. */
  lemma FinalOverIff(cfg: Config, w: World, u: Uploads, req: PostRequest, ids: seq<string>)
    requires FinalOver(cfg, w, u, req, ids) && HasRoom(w.Look(req.id))
    ensures FinalAsReference(cfg, w, u, req, ids) <==> FinalIsKept(cfg, w, u, req, ids)
  {
    var st := FinalLeaves(cfg, w, u, req, ids);
    if !AllUsable(Started(cfg, u, req), ids) {
      UnusableIff(cfg, w, u, req, ids);
    } else if w.MemoryWorld? {
      MemoryFinalIff(cfg, w, u, req, ids);
    } else if AllSealed(w, ids) {
      SealedFinalIff(cfg, w, u, req, ids);
    } else {
      UnsealedFinalIff(cfg, w, u, req, ids);
    }
  }

  lemma MemoryTailIff(cfg: Config, joined: Bytes, info: UploadInfo, req: PostRequest)
    ensures var st := PostTail(cfg, FinalEntry(info, joined), req).0;
            StoreInv(st) && Abs(st) == FinalUpload(info, joined)
            <==> |joined| <= U64_MAX && TailKeeps(false, cfg, req, joined)
  {
    if |joined| <= U64_MAX {
      TailKeepsInMemoryIff(cfg, joined, info, req);
    } else {
      TooLongIsNoUpload(PostTail(cfg, FinalEntry(info, joined), req).0, info, joined);
    }
  }

  lemma DiskTailIff(cfg: Config, joined: Bytes, info: UploadInfo, req: PostRequest, prior: Slot)
    requires SlotInv(prior) && HasRoom(Disk(prior))
    ensures var st := PostTail(cfg, JoinedSlot(info, joined, prior), req).0;
            StoreInv(st) && Abs(st) == FinalUpload(info, joined)
            <==> |joined| <= U64_MAX && TailKeepsOver(cfg, req, joined, prior)
  {
    if |joined| <= U64_MAX {
      TailKeepsOverIff(cfg, joined, info, req, prior);
    } else {
      TooLongIsNoUpload(PostTail(cfg, JoinedSlot(info, joined, prior), req).0, info, joined);
    }
  }

  /** A record cannot stand for more bytes than a u64 counts. */
  lemma TooLongIsNoUpload(st: Store, info: UploadInfo, joined: Bytes)
    requires |joined| > U64_MAX
    ensures !(StoreInv(st) && Abs(st) == FinalUpload(info, joined))
  {
    if StoreInv(st) && Abs(st) == FinalUpload(info, joined) {
      ContentLength(st);
    }
  }
}
