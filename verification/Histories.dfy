/** What an upload is, told from the requests alone: who created it, what length it was given, and what was accepted. */
module Histories {
  import opened Core
  import opened Seqs
  import opened Protocol
  import opened Refinement
  import opened Worlds
  import opened Reference
  import opened Concatenation
  import opened Runs
  import opened Lengths
  import opened Answers

  // ----- who created it -----

  /** The POST that last created the upload, unless a DELETE has removed it since. `all` are the valid IDs. */
  ghost function Creator(cfg: Config, all: iset<string>, reqs: seq<Request>, id: string): Option<PostRequest> {
    if reqs == [] then None
    else
      var before, last := Creator(cfg, all, reqs[..|reqs| - 1], id), reqs[|reqs| - 1];
      if last.Id() != id || id !in all then before
      else
        match last
        case DoPost(p) => if PostInOrder(cfg, p) then Some(p) else before
        case DoDelete(d) =>
          if d.versionOk && cfg.termination && d.terminateHook != Some(false) && d.lockGranted then None else before
        case _ => before
  }

  /** When the upload expires, if ever. */
  function Expiry(cfg: Config, creator: PostRequest): Option<int> {
    match cfg.expirationTtl case Some(ttl) => Some(creator.now + ttl) case None => None
  }

  /** What a record keeps from the POST that created it. */
  predicate CreatedBy(cfg: Config, info: UploadInfo, creator: PostRequest) {
    && info.id == creator.id && info.expiresAt == Expiry(cfg, creator)
    && info.isPartial == (creator.concat == PartialConcat) && info.isFinal == creator.concat.FinalConcat?
    && (creator.concat.FinalConcat? && creator.concat.ids.Ok? ==> info.partialUploads == creator.concat.ids.value)
  }

  /** The store has the upload exactly if it was created and not deleted, and its record is its creator's. */
  ghost predicate HasCreators(cfg: Config, w: World, all: iset<string>, id: string, creator: Option<PostRequest>) {
    && (w.Knows(id) <==> id in all) && (RecordAt(w, id).Some? <==> creator.Some?)
    && (creator.Some? ==> CreatedBy(cfg, RecordAt(w, id).value, creator.value))
  }

  lemma ChunkKeepsCreator(st: Store, body: Body)
    requires GetInfo(st).Ok?
    ensures var (before, after) := (GetInfo(st).value, GetInfo(Protocol.WriteChunk(st, 0, body).0));
            after.Ok? && after.value.(offset := before.offset) == before
  {
  }

  lemma ConcludeKeepsRecord(st: Store, finishAccepted: bool)
    requires GetInfo(st).Ok?
    ensures GetInfo(Conclude(st, finishAccepted).0) == GetInfo(st)
  {
  }

  lemma TailKeepsCreator(cfg: Config, st: Store, req: PostRequest)
    requires GetInfo(st).Ok?
    ensures var (before, after) := (GetInfo(st).value, GetInfo(PostTail(cfg, st, req).0));
            after.Ok? && after.value.(offset := before.offset) == before
  {
    if CarriesBody(cfg, req) {
      ChunkKeepsCreator(st, req.body);
      ConcludeKeepsRecord(Protocol.WriteChunk(st, 0, req.body).0, req.finishAccepted);
    } else {
      ConcludeKeepsRecord(st, req.finishAccepted);
    }
  }

  lemma JoinKeepsCreator(w: World, id: string, partials: seq<UploadInfo>)
    requires w.Knows(id) && GetInfo(w.Look(id)).Ok? && GetInfo(w.Look(id)).value.isFinal
    ensures var (before, after) := (GetInfo(w.Look(id)).value, GetInfo(Protocol.Concatenate(w, id, partials).0));
            after.Ok? && after.value.(offset := before.offset, size := before.size) == before
  {
  }

  lemma PostedBy(cfg: Config, w: World, p: PostRequest)
    requires w.Knows(p.id) && PostInOrder(cfg, p)
    ensures var w' := Post(cfg, w, p).0;
            w'.Knows(p.id) && RecordAt(w', p.id).Some? && CreatedBy(cfg, RecordAt(w', p.id).value, p)
  {
    PostIsAsAsked(cfg, p);
    if !p.concat.FinalConcat? {
      PostLeaves(cfg, w, p);
    } else {
      var w1 := StartedWorld(cfg, w, p);
      PutShows(w, p.id, Create(w.Look(p.id), NewInfo(cfg, p)));
      RecordIsInfo(w1, p.id);
      assert Post(cfg, w, p) == PostJoined(cfg, w1, p, p.concat.ids.value);
      JoinedBy(cfg, w1, p, p.concat.ids.value);
    }
  }

  lemma JoinStaysInStore(w: World, id: string, partials: seq<UploadInfo>)
    requires w.Knows(id)
    ensures Protocol.Concatenate(w, id, partials).0.Disk? <==> w.DiskWorld?
  {
  }

  lemma TailStaysInStore(cfg: Config, st: Store, req: PostRequest)
    ensures PostTail(cfg, st, req).0.Disk? <==> st.Disk?
  {
  }

  lemma JoinedBy(cfg: Config, w1: World, p: PostRequest, ids: seq<string>)
    requires w1.Knows(p.id) && GetInfo(w1.Look(p.id)) == Ok(NewInfo(cfg, p)) && p.concat == FinalConcat(Ok(ids))
    ensures var w' := PostJoined(cfg, w1, p, ids).0;
            w'.Knows(p.id) && RecordAt(w', p.id).Some? && CreatedBy(cfg, RecordAt(w', p.id).value, p)
  {
    PostIsAsAsked(cfg, p);
    RecordIsInfo(w1, p.id);
    if FetchPartials(w1, ids).Ok? {
      var joined := Protocol.Concatenate(w1, p.id, FetchPartials(w1, ids).value);
      JoinStaysInStore(w1, p.id, FetchPartials(w1, ids).value);
      TailStaysInStore(cfg, joined.0, p);
      JoinKeepsCreator(w1, p.id, FetchPartials(w1, ids).value);
      PutRecord(w1, p.id, joined.0);
      if joined.1.Ok? {
        TailKeepsCreator(cfg, joined.0, p);
        PutRecord(w1, p.id, PostTail(cfg, joined.0, p).0);
      }
    }
  }

  lemma PutRecord(w: World, id: string, st: Store)
    requires w.Knows(id) && (w.DiskWorld? <==> st.Disk?) && GetInfo(st).Ok?
    ensures w.Put(id, st).Knows(id) && RecordAt(w.Put(id, st), id) == Some(GetInfo(st).value)
  {
    PutShows(w, id, st);
    RecordIsInfo(w.Put(id, st), id);
  }

  lemma PatchedStillBy(cfg: Config, w: World, p: PatchRequest, creator: Option<PostRequest>)
    requires w.Knows(p.id) && (RecordAt(w, p.id).Some? <==> creator.Some?)
    requires creator.Some? ==> CreatedBy(cfg, RecordAt(w, p.id).value, creator.value)
    ensures var w' := Patch(cfg, w, p).0;
            && w'.Knows(p.id) && (RecordAt(w', p.id).Some? <==> creator.Some?)
            && (creator.Some? ==> CreatedBy(cfg, RecordAt(w', p.id).value, creator.value))
  {
    if PatchFinds(w, p) {
      RecordIsInfo(w, p.id);
      PatchIsLater(cfg, w.Look(p.id), p);
      PutRecord(w, p.id, PatchLocked(cfg, w.Look(p.id), p).0);
    } else {
      PatchNotAdmitted(cfg, w, p);
      var w' := Patch(cfg, w, p).0;
      assert SameAt(w, w', p.id);
      RecordIsInfo(w, p.id);
      RecordIsInfo(w', p.id);
    }
  }

  lemma SameRecord(w: World, w': World, id: string)
    requires SameAt(w, w', id)
    ensures RecordAt(w', id) == RecordAt(w, id)
  {
    if w.Knows(id) {
      RecordIsInfo(w, id);
      RecordIsInfo(w', id);
    }
  }

  lemma CreatorStep(cfg: Config, w: World, all: iset<string>, reqs: seq<Request>, id: string)
    requires reqs != [] && HasCreators(cfg, w, all, id, Creator(cfg, all, reqs[..|reqs| - 1], id))
    ensures HasCreators(cfg, Step(cfg, w, reqs[|reqs| - 1]).0, all, id, Creator(cfg, all, reqs, id))
  {
    var last := reqs[|reqs| - 1];
    var creator := Creator(cfg, all, reqs[..|reqs| - 1], id);
    if last.Id() != id {
      StepElsewhere(cfg, w, last, id);
      SameRecord(w, Step(cfg, w, last).0, id);
    } else {
      match last
      case DoPost(p) =>
        if PostInOrder(cfg, p) && w.Knows(id) {
          PostedBy(cfg, w, p);
        } else {
          PostTurnedAway(cfg, w, p);
          SameRecord(w, Post(cfg, w, p).0, id);
        }
      case DoPatch(p) =>
        if w.Knows(id) {
          PatchedStillBy(cfg, w, p, creator);
        } else {
          PatchNotAdmitted(cfg, w, p);
          SameRecord(w, Patch(cfg, w, p).0, id);
        }
      case DoDelete(d) =>
        DeleteAnswersIff(cfg, w, d);
        DeleteLeaves(cfg, w, d);
        if Delete(cfg, w, d).1.Err? {
          SameRecord(w, Delete(cfg, w, d).0, id);
        }
      case _ =>
    }
  }

  /**
   * After any run whatever from an empty store, an upload is there exactly if some POST created it and no DELETE came
   * after, and its record has the expiry and the part in concatenations that this POST gave it.
   */
  lemma {:induction false} RecordIsCreators(cfg: Config, all: iset<string>, w0: World, reqs: seq<Request>, id: string)
    requires w0 == EmptyDisk(all) || w0 == EmptyMemory(all)
    ensures HasCreators(cfg, Run(cfg, w0, reqs), all, id, Creator(cfg, all, reqs, id))
  {
    if reqs != [] {
      RecordIsCreators(cfg, all, w0, reqs[..|reqs| - 1], id);
      CreatorStep(cfg, Run(cfg, w0, reqs[..|reqs| - 1]), all, reqs, id);
    }
  }

  /** The upload's time is up: the moment is more than the server's time to live after the POST that created it. */
  predicate TimeIsUp(cfg: Config, creator: PostRequest, now: int) {
    cfg.expirationTtl.Some? && now - creator.now > cfg.expirationTtl.value
  }

  /**
   * After any run, GET, HEAD and PATCH answer Gone exactly when they are admitted and the upload's time is up; without a
   * time to live no upload ever expires.
   */
  lemma GoneIff(cfg: Config, all: iset<string>, w0: World, reqs: seq<Request>, id: string, get: GetRequest,
                head: HeadRequest, patch: PatchRequest)
    requires w0 == EmptyDisk(all) || w0 == EmptyMemory(all)
    requires get.id == id && head.id == id && patch.id == id
    ensures var (w, creator) := (Run(cfg, w0, reqs), Creator(cfg, all, reqs, id));
            && (Get(cfg, w, get) == Err(Gone) <==>
                  cfg.enableDownload && get.lockGranted && id in all && creator.Some? && TimeIsUp(cfg, creator.value, get.now))
            && (Head(w, head) == Err(Gone) <==>
                  head.versionOk && id in all && creator.Some? && TimeIsUp(cfg, creator.value, head.now))
            && (Patch(cfg, w, patch).1 == Err(Gone) <==>
                  && PatchFinds(w, patch) && creator.Some? && !creator.value.concat.FinalConcat?
                  && RecordAt(w, id).value.offset == patch.offset.value && TimeIsUp(cfg, creator.value, patch.now))
  {
    RecordIsCreators(cfg, all, w0, reqs, id);
    var w := Run(cfg, w0, reqs);
    GetAnswersIff(cfg, w, get);
    HeadAnswersIff(w, head);
    PatchGoneIff(cfg, w, patch);
  }

  lemma PatchGoneIff(cfg: Config, w: World, req: PatchRequest)
    ensures Patch(cfg, w, req).1 == Err(Gone) <==>
      && PatchFinds(w, req) && !RecordAt(w, req.id).value.isFinal && RecordAt(w, req.id).value.offset == req.offset.value
      && Expired(RecordAt(w, req.id).value, req.now)
  {
    PatchNotAdmitted(cfg, w, req);
    if PatchFinds(w, req) {
      PatchTurnedAway(cfg, w, req);
    }
  }

  // ----- what length it was given -----

  /** A PATCH that gives an upload without a length the length that its POST has put off. */
  predicate GivesLength(cfg: Config, creator: PostRequest, accepted: nat, p: PatchRequest) {
    && p.versionOk && p.contentTypeOk && p.lockGranted && p.offset == Some(accepted)
    && !creator.concat.FinalConcat? && creator.defer && !TimeIsUp(cfg, creator, p.now)
    && p.length.Length? && (cfg.maxSize > 0 ==> p.length.n <= cfg.maxSize)
  }

  /** The length declared by the POST that created the upload, or else by a later PATCH at its offset. */
  ghost function GivenLength(cfg: Config, all: iset<string>, reqs: seq<Request>, id: string): Option<U64> {
    if reqs == [] then None
    else
      var before, last := reqs[..|reqs| - 1], reqs[|reqs| - 1];
      var (length, creator) := (GivenLength(cfg, all, before, id), Creator(cfg, all, before, id));
      if last.Id() != id || id !in all then length
      else
        match last
        case DoPost(p) =>
          if !PostInOrder(cfg, p) then length
          else (match p.length case Length(n) => Some(n) case _ => None)
        case DoPatch(p) =>
          if length.None? && creator.Some?
             && GivesLength(cfg, creator.value, |Flat(Chunks(cfg, NoUploads(all), before, id))|, p)
          then Some(p.length.n) else length
        case _ => length
  }

  /** The reference has the upload as its requests have made it. */
  ghost predicate TellsHistory(cfg: Config, all: iset<string>, reqs: seq<Request>, id: string) {
    var (u, creator) := (RefRun(cfg, NoUploads(all), reqs), Creator(cfg, all, reqs, id));
    && (id in u <==> id in all) && (creator.Some? ==> id in all)
    && (id in u ==>
          && (u[id].Present? <==> creator.Some?)
          && (creator.Some? ==> RecordTells(cfg, u[id], creator.value, GivenLength(cfg, all, reqs, id))))
  }

  predicate RecordTells(cfg: Config, up: Upload, creator: PostRequest, length: Option<U64>)
    requires up.Present?
  {
    && CreatedBy(cfg, up.info, creator)
    && (!creator.concat.FinalConcat? ==>
          && up.info.size == length && up.info.offset == |up.content|
          && (length.None? ==> up.info.sizeIsDeferred == creator.defer))
  }

  lemma PatchTells(cfg: Config, up: Upload, creator: PostRequest, length: Option<U64>, p: PatchRequest)
    requires up.Present? && RecordTells(cfg, up, creator, length) && p.offset.Some? && p.versionOk && p.contentTypeOk && p.lockGranted
    ensures var up' := RefPatch(cfg, up, p);
            && up'.Present?
            && RecordTells(cfg, up', creator,
                           if length.None? && GivesLength(cfg, creator, |up.content|, p) then Some(p.length.n) else length)
  {
  }

  lemma PostTells(cfg: Config, u: Uploads, p: PostRequest)
    requires p.id in u && PostInOrder(cfg, p)
    ensures var up := RefStep(cfg, u, DoPost(p))[p.id];
            up.Present? && RecordTells(cfg, up, p, match p.length case Length(n) => Some(n) case _ => None)
  {
  }

  lemma HistoryStep(cfg: Config, all: iset<string>, reqs: seq<Request>, id: string)
    requires reqs != [] && TellsHistory(cfg, all, reqs[..|reqs| - 1], id)
    ensures TellsHistory(cfg, all, reqs, id)
  {
    var last := reqs[|reqs| - 1];
    if last.Id() == id && id in all && last.DoPost? {
      PostHistory(cfg, all, reqs, last.post);
    } else if last.Id() == id && id in all && last.DoPatch? {
      PatchHistory(cfg, all, reqs, last.patch);
    } else {
      OtherHistory(cfg, all, reqs, id);
    }
  }

  lemma PostHistory(cfg: Config, all: iset<string>, reqs: seq<Request>, p: PostRequest)
    requires reqs != [] && reqs[|reqs| - 1] == DoPost(p) && p.id in all
    requires TellsHistory(cfg, all, reqs[..|reqs| - 1], p.id)
    ensures TellsHistory(cfg, all, reqs, p.id)
  {
    if PostInOrder(cfg, p) {
      PostTells(cfg, RefRun(cfg, NoUploads(all), reqs[..|reqs| - 1]), p);
    }
  }

  lemma OtherHistory(cfg: Config, all: iset<string>, reqs: seq<Request>, id: string)
    requires reqs != [] && TellsHistory(cfg, all, reqs[..|reqs| - 1], id)
    requires var last := reqs[|reqs| - 1]; last.Id() != id || id !in all || (!last.DoPost? && !last.DoPatch?)
    ensures TellsHistory(cfg, all, reqs, id)
  {
  }

  lemma PatchHistory(cfg: Config, all: iset<string>, reqs: seq<Request>, p: PatchRequest)
    requires reqs != [] && reqs[|reqs| - 1] == DoPatch(p) && p.id in all
    requires TellsHistory(cfg, all, reqs[..|reqs| - 1], p.id)
    ensures TellsHistory(cfg, all, reqs, p.id)
  {
    var before := reqs[..|reqs| - 1];
    var u := RefRun(cfg, NoUploads(all), before);
    if p.versionOk && p.contentTypeOk && p.offset.Some? && p.lockGranted && u[p.id].Present? {
      ContentIsChunks(cfg, all, before, p.id);
      PatchTells(cfg, u[p.id], Creator(cfg, all, before, p.id).value, GivenLength(cfg, all, before, p.id), p);
    }
  }

  lemma {:induction false} HistoryTold(cfg: Config, all: iset<string>, reqs: seq<Request>, id: string)
    ensures TellsHistory(cfg, all, reqs, id)
  {
    if reqs != [] {
      HistoryTold(cfg, all, reqs[..|reqs| - 1], id);
      HistoryStep(cfg, all, reqs, id);
    }
  }

  /**
   * An upload can be joined exactly when the POST that created it asked for a partial, and the accepted chunks have the
   * length that this POST or a later PATCH declared.
   */
  lemma UsablePartialIff(cfg: Config, all: iset<string>, reqs: seq<Request>, id: string)
    ensures var creator := Creator(cfg, all, reqs, id);
            UsablePartial(RefRun(cfg, NoUploads(all), reqs), id) <==>
              && creator.Some? && creator.value.concat == PartialConcat
              && GivenLength(cfg, all, reqs, id) == Some(|Flat(Chunks(cfg, NoUploads(all), reqs, id))|)
  {
    HistoryTold(cfg, all, reqs, id);
    ContentIsChunks(cfg, all, reqs, id);
  }

  /** So a server that has kept these uploads fetches partials exactly when each of them is such an upload. */
  lemma FetchedAfterRun(cfg: Config, all: iset<string>, w0: World, reqs: seq<Request>, scope: iset<string>, ids: seq<string>)
    requires w0 == EmptyDisk(all) || w0 == EmptyMemory(all)
    requires BenignRun(cfg, w0, NoUploads(all), reqs, scope) && forall i :: 0 <= i < |ids| ==> ids[i] in scope
    ensures FetchPartials(Run(cfg, w0, reqs), ids).Ok? <==>
      forall i :: 0 <= i < |ids| ==>
        var creator := Creator(cfg, all, reqs, ids[i]);
        && creator.Some? && creator.value.concat == PartialConcat
        && GivenLength(cfg, all, reqs, ids[i]) == Some(|Flat(Chunks(cfg, NoUploads(all), reqs, ids[i]))|)
  {
    forall id
      ensures Shows(w0, NoUploads(all), id)
    {
      EmptyShows(all, id);
    }
    RunRefines(cfg, w0, NoUploads(all), reqs, scope);
    var (w, u) := (Run(cfg, w0, reqs), RefRun(cfg, NoUploads(all), reqs));
    forall i | 0 <= i < |ids|
      ensures ShowsRecord(w, u, ids[i]) && Shows(w, u, ids[i])
      ensures UsablePartial(u, ids[i]) <==>
        var creator := Creator(cfg, all, reqs, ids[i]);
        && creator.Some? && creator.value.concat == PartialConcat
        && GivenLength(cfg, all, reqs, ids[i]) == Some(|Flat(Chunks(cfg, NoUploads(all), reqs, ids[i]))|)
    {
      assert ids[i] in scope;
      UsablePartialIff(cfg, all, reqs, ids[i]);
    }
    FetchIff(w, u, ids);
  }

  // ----- answers and chunks -----

  /**
   * A PATCH answered with success adds exactly its body to the accepted chunks; otherwise one is added only if nothing
   * but completion was refused. The answer is the number of bytes then.
   */
  lemma AnsweredChunk(cfg: Config, w: World, u: Uploads, p: PatchRequest, chunks: seq<Bytes>)
    requires Shows(w, u, p.id) && p.id in u && (u[p.id].Present? ==> u[p.id].content == Flat(chunks))
    ensures var (r, after) := (Patch(cfg, w, p).1, ChunksAfter(cfg, u, DoPatch(p), chunks));
            && (r.Ok? ==> after == chunks + [p.body.GetBytes()] && r.value == |Flat(after)|)
            && (r.Err? ==> after == (if r == Err(HookRejected) then chunks + [p.body.GetBytes()] else chunks))
  {
    PatchAnswersIff(cfg, w, p);
    PatchNotAdmitted(cfg, w, p);
    RecordIsInfo(w, p.id);
    FlatSnoc(chunks, p.body.GetBytes());
    if PatchFinds(w, p) {
      PatchTurnedAway(cfg, w, p);
      HookOnlyIfAccepted(cfg, w, p);
    }
  }

  /** Only the completion of an accepted chunk is up to the hook. */
  lemma HookOnlyIfAccepted(cfg: Config, w: World, p: PatchRequest)
    requires PatchFinds(w, p)
    ensures Patch(cfg, w, p).1 == Err(HookRejected) <==>
      && RefAccepts(cfg, RecordAt(w, p.id).value, p) && !p.finishAccepted
      && LengthInEffect(RecordAt(w, p.id).value, p) == Some(p.offset.value + |p.body.bytes|)
  {
    RecordIsInfo(w, p.id);
    if RefAccepts(cfg, RecordAt(w, p.id).value, p) {
      PatchAnswersIff(cfg, w, p);
      PatchRefusedBecause(cfg, w, p);
    } else {
      UnacceptedHook(cfg, w.Look(p.id), p);
    }
  }

  lemma UnacceptedHook(cfg: Config, st: Store, p: PatchRequest)
    requires p.offset.Some? && GetInfo(st).Ok? && !RefAccepts(cfg, GetInfo(st).value, p)
    ensures PatchLocked(cfg, st, p).1 != Err(HookRejected)
  {
    PatchIsAsRuled(cfg, GetInfo(st).value, p);
    PatchStops(cfg, st, p);
    DeclaredRecord(cfg, st, p);
    if GetInfo(st).value.offset == p.offset.value {
      ChunkErrors(Declared(cfg, st, p), p);
    }
  }
}
