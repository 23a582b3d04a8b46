/** Whole runs of requests over many uploads, on both stores and on the reference side by side. */
module Runs {
  import opened Core
  import opened Seqs
  import opened Slots
  import opened Protocol
  import opened Refinement
  import opened Worlds
  import opened Reference
  import opened Concatenation

  // ----- what a store survives -----

  /** The request is none of those that the store does not survive: `BenignIff` says that this is exact. */
  predicate Benign(cfg: Config, w: World, u: Uploads, req: Request) {
    match req
    case DoPost(p) =>
      PostChecks(cfg, p).None? && w.Knows(p.id) ==>
        && HasRoom(w.Look(p.id))
        && if p.concat.FinalConcat? then FinalIsKept(cfg, w, u, p, p.concat.ids.value)
           else PostIsKept(cfg, w.Look(p.id), p)
    case DoPatch(p) =>
      PatchPrelude(w, p).None? ==> HasRoom(w.Look(p.id)) && !ReopensSealed(cfg, w.Look(p.id), p)
    case _ => true
  }

  /** The uploads whose contents a request puts into another. */
  function Partials(req: Request): seq<string> {
    if req.DoPost? && req.post.concat.FinalConcat? && req.post.concat.ids.Ok? then req.post.concat.ids.value else []
  }

  /** What is asked of a request that goes to one of the given uploads; all other requests are free. */
  ghost predicate BenignWithin(cfg: Config, w: World, u: Uploads, req: Request, ids: iset<string>) {
    req.Id() in ids ==> Benign(cfg, w, u, req) && forall i :: 0 <= i < |Partials(req)| ==> Partials(req)[i] in ids
  }

  ghost predicate BenignRun(cfg: Config, w: World, u: Uploads, reqs: seq<Request>, ids: iset<string>) {
    reqs == [] ||
    (var before := reqs[..|reqs| - 1];
     && BenignRun(cfg, w, u, before, ids)
     && BenignWithin(cfg, Run(cfg, w, before), RefRun(cfg, u, before), reqs[|reqs| - 1], ids))
  }

  // ----- one step -----

  lemma RefPatchKeepsId(cfg: Config, u: Upload, req: PatchRequest)
    requires req.offset.Some?
    ensures var u' := RefPatch(cfg, u, req);
            (u'.Present? <==> u.Present?) && (u.Present? ==> u'.info.id == u.info.id)
  {
  }

  lemma PutIsShownIff(w: World, u: Uploads, id: string, st: Store, up: Upload)
    requires w.Knows(id) && (w.DiskWorld? <==> st.Disk?) && (up.Present? ==> up.info.id == id)
    ensures Shows(w.Put(id, st), u[id := up], id) <==> StoreInv(st) && Abs(st) == up
  {
    PutShows(w, id, st);
  }

  lemma PatchedWorld(cfg: Config, w: World, u: Uploads, p: PatchRequest)
    requires w.Knows(p.id) && PatchPrelude(w, p).None? && p.id in u
    ensures Step(cfg, w, DoPatch(p)).0 == w.Put(p.id, PatchLocked(cfg, w.Look(p.id), p).0)
    ensures RefStep(cfg, u, DoPatch(p)) == u[p.id := RefPatch(cfg, u[p.id], p)]
  {
  }

  lemma UnpatchedWorld(cfg: Config, w: World, u: Uploads, p: PatchRequest)
    requires PatchPrelude(w, p).Some? && (w.Knows(p.id) <==> p.id in u)
    ensures Step(cfg, w, DoPatch(p)).0 == w && RefStep(cfg, u, DoPatch(p)) == u
  {
  }

  lemma PatchPutIff(cfg: Config, w: World, u: Uploads, p: PatchRequest)
    requires Shows(w, u, p.id) && w.Knows(p.id) && HasRoom(w.Look(p.id)) && p.offset.Some?
    ensures var st := PatchLocked(cfg, w.Look(p.id), p).0;
            Shows(w.Put(p.id, st), u[p.id := RefPatch(cfg, u[p.id], p)], p.id) <==> !ReopensSealed(cfg, w.Look(p.id), p)
  {
    PatchIff(cfg, w.Look(p.id), p);
    RefPatchKeepsId(cfg, u[p.id], p);
    PutIsShownIff(w, u, p.id, PatchLocked(cfg, w.Look(p.id), p).0, RefPatch(cfg, u[p.id], p));
  }

  lemma PatchShowsIff(cfg: Config, w: World, u: Uploads, p: PatchRequest)
    requires Shows(w, u, p.id) && (w.Knows(p.id) ==> HasRoom(w.Look(p.id)))
    ensures Shows(Step(cfg, w, DoPatch(p)).0, RefStep(cfg, u, DoPatch(p)), p.id)
        <==> (PatchPrelude(w, p).None? ==> !ReopensSealed(cfg, w.Look(p.id), p))
  {
    if PatchPrelude(w, p).None? {
      PatchedWorld(cfg, w, u, p);
      PatchPutIff(cfg, w, u, p);
    } else {
      UnpatchedWorld(cfg, w, u, p);
    }
  }

  lemma PostedWorld(cfg: Config, w: World, u: Uploads, p: PostRequest)
    requires w.Knows(p.id) && p.id in u && PostChecks(cfg, p).None? && !p.concat.FinalConcat?
    ensures Step(cfg, w, DoPost(p)).0 == w.Put(p.id, PostTail(cfg, Create(w.Look(p.id), NewInfo(cfg, p)), p).0)
    ensures RefStep(cfg, u, DoPost(p)) == u[p.id := RefPost(cfg, p)]
  {
  }

  lemma UnpostedWorld(cfg: Config, w: World, u: Uploads, p: PostRequest)
    requires (PostChecks(cfg, p).Some? || !w.Knows(p.id)) && (w.Knows(p.id) <==> p.id in u)
    ensures Step(cfg, w, DoPost(p)).0 == w && RefStep(cfg, u, DoPost(p)) == u
  {
  }

  lemma PostStaysInStore(cfg: Config, st: Store, p: PostRequest)
    ensures PostTail(cfg, Create(st, NewInfo(cfg, p)), p).0.Disk? <==> st.Disk?
  {
  }

  lemma PostPutIff(cfg: Config, w: World, u: Uploads, p: PostRequest)
    requires w.Knows(p.id) && StoreInv(w.Look(p.id)) && HasRoom(w.Look(p.id))
    ensures var st := PostTail(cfg, Create(w.Look(p.id), NewInfo(cfg, p)), p).0;
            Shows(w.Put(p.id, st), u[p.id := RefPost(cfg, p)], p.id) <==> PostIsKept(cfg, w.Look(p.id), p)
  {
    var before, up := w.Look(p.id), RefPost(cfg, p);
    var st := PostTail(cfg, Create(before, NewInfo(cfg, p)), p).0;
    PostStaysInStore(cfg, before, p);
    PostOverIff(cfg, before, p);
    RefPostHasId(cfg, p);
    assert PostAsReference(cfg, before, p) <==> StoreInv(st) && Abs(st) == up;
    PutIsShownIff(w, u, p.id, st, up);
  }

  lemma PostShowsIff(cfg: Config, w: World, u: Uploads, p: PostRequest)
    requires Shows(w, u, p.id) && (w.Knows(p.id) ==> HasRoom(w.Look(p.id))) && !p.concat.FinalConcat?
    ensures Shows(Step(cfg, w, DoPost(p)).0, RefStep(cfg, u, DoPost(p)), p.id)
        <==> (PostChecks(cfg, p).None? && w.Knows(p.id) ==> PostIsKept(cfg, w.Look(p.id), p))
  {
    if PostChecks(cfg, p).None? && w.Knows(p.id) {
      PostedWorld(cfg, w, u, p);
      PostPutIff(cfg, w, u, p);
    } else {
      UnpostedWorld(cfg, w, u, p);
    }
  }

  lemma RefPostHasId(cfg: Config, p: PostRequest)
    ensures RefPost(cfg, p).Present? && RefPost(cfg, p).info.id == p.id
  {
  }

  lemma FinalShowsIff(cfg: Config, w: World, u: Uploads, p: PostRequest)
    requires Shows(w, u, p.id) && (w.Knows(p.id) ==> HasRoom(w.Look(p.id)))
    requires ShowsAll(w, u, Partials(DoPost(p))) && p.concat.FinalConcat?
    ensures Shows(Step(cfg, w, DoPost(p)).0, RefStep(cfg, u, DoPost(p)), p.id)
        <==> (PostChecks(cfg, p).None? && w.Knows(p.id) ==> FinalIsKept(cfg, w, u, p, p.concat.ids.value))
  {
    if PostChecks(cfg, p).None? && w.Knows(p.id) {
      FinalOverIff(cfg, w, u, p, p.concat.ids.value);
      RefFinalKeepsId(cfg, u, p, p.concat.ids.value);
    } else {
      UnpostedWorld(cfg, w, u, p);
    }
  }

  lemma RefFinalKeepsId(cfg: Config, u: Uploads, req: PostRequest, ids: seq<string>)
    ensures var up := RefFinal(cfg, u, req, ids); up.Present? && up.info.id == req.id
  {
  }

  lemma DeleteShows(cfg: Config, w: World, u: Uploads, d: DeleteRequest)
    requires Shows(w, u, d.id)
    ensures Shows(Step(cfg, w, DoDelete(d)).0, RefStep(cfg, u, DoDelete(d)), d.id)
  {
    if w.Knows(d.id) {
      PutShows(w, d.id, Remove(w.Look(d.id)));
    }
  }

  lemma ElsewhereShows(cfg: Config, w: World, u: Uploads, req: Request, id: string)
    requires Shows(w, u, id) && req.Id() != id
    ensures Shows(Step(cfg, w, req).0, RefStep(cfg, u, req), id)
  {
    StepElsewhere(cfg, w, req, id);
  }

  /** A request leaves its upload as the reference has it exactly when it is benign. */
  lemma BenignIff(cfg: Config, w: World, u: Uploads, req: Request)
    requires Shows(w, u, req.Id()) && ShowsAll(w, u, Partials(req))
    requires w.Knows(req.Id()) ==> HasRoom(w.Look(req.Id()))
    ensures Benign(cfg, w, u, req) <==> Shows(Step(cfg, w, req).0, RefStep(cfg, u, req), req.Id())
  {
    match req
    case DoPost(p) =>
      if p.concat.FinalConcat? {
        FinalShowsIff(cfg, w, u, p);
      } else {
        PostShowsIff(cfg, w, u, p);
      }
    case DoPatch(p) => PatchShowsIff(cfg, w, u, p);
    case DoDelete(d) => DeleteShows(cfg, w, u, d);
    case DoGet(_) =>
    case DoHead(_) =>
  }

  /** Without room for another part a benign request is refused before it comes to the upload. */
  lemma BenignShows(cfg: Config, w: World, u: Uploads, req: Request)
    requires Shows(w, u, req.Id()) && ShowsAll(w, u, Partials(req)) && Benign(cfg, w, u, req)
    ensures Shows(Step(cfg, w, req).0, RefStep(cfg, u, req), req.Id())
  {
    if w.Knows(req.Id()) && !HasRoom(w.Look(req.Id())) {
      match req
      case DoPatch(p) => UnpatchedWorld(cfg, w, u, p);
      case DoDelete(d) => DeleteShows(cfg, w, u, d);
      case _ =>
    } else {
      BenignIff(cfg, w, u, req);
    }
  }

  /** One request keeps each of the given uploads as the reference has it, whatever upload the request goes to. */
  lemma StepRefines(cfg: Config, w: World, u: Uploads, req: Request, ids: iset<string>, id: string)
    requires Represents(w, u, ids) && id in ids && BenignWithin(cfg, w, u, req, ids)
    ensures Shows(Step(cfg, w, req).0, RefStep(cfg, u, req), id)
  {
    assert Shows(w, u, id);
    if req.Id() != id {
      ElsewhereShows(cfg, w, u, req, id);
    } else {
      forall i | 0 <= i < |Partials(req)|
        ensures Shows(w, u, Partials(req)[i])
      {
        assert Partials(req)[i] in ids;
      }
      BenignShows(cfg, w, u, req);
    }
  }

  // ----- whole runs -----

  /**
   * Take any set of uploads, one or many. After any run whose requests to these uploads are benign, and whatever is
   * requested of all others, each of them is well formed and exactly the reference upload.
   */
  lemma {:induction false} RunRefines(cfg: Config, w: World, u: Uploads, reqs: seq<Request>, ids: iset<string>)
    requires Represents(w, u, ids) && BenignRun(cfg, w, u, reqs, ids)
    ensures Represents(Run(cfg, w, reqs), RefRun(cfg, u, reqs), ids)
  {
    if reqs != [] {
      var before := reqs[..|reqs| - 1];
      RunRefines(cfg, w, u, before, ids);
      forall id | id in ids
        ensures Shows(Run(cfg, w, reqs), RefRun(cfg, u, reqs), id)
      {
        StepRefines(cfg, Run(cfg, w, before), RefRun(cfg, u, before), reqs[|reqs| - 1], ids, id);
      }
    }
  }

  /** For a single upload: only the requests that go to it matter. */
  lemma UploadRefines(cfg: Config, w: World, u: Uploads, reqs: seq<Request>, id: string)
    requires Shows(w, u, id) && BenignRun(cfg, w, u, reqs, iset{id})
    ensures Shows(Run(cfg, w, reqs), RefRun(cfg, u, reqs), id)
  {
    RunRefines(cfg, w, u, reqs, iset{id});
  }

  // ----- the memory store survives what the part store survives -----

  /** A final POST without a body; with one the two stores part ways. */
  predicate BareFinal(cfg: Config, req: Request) {
    req.DoPost? && req.post.concat.FinalConcat? ==> !CarriesBody(cfg, req.post)
  }

  lemma BenignOnMemory(cfg: Config, d: World, m: World, u: Uploads, req: Request)
    requires Shows(d, u, req.Id()) && Shows(m, u, req.Id()) && d.DiskWorld? && m.MemoryWorld?
    requires Benign(cfg, d, u, req) && BareFinal(cfg, req)
    ensures Benign(cfg, m, u, req)
  {
  }

  lemma {:induction false} BenignRunOnMemory(cfg: Config, d: World, m: World, u: Uploads, reqs: seq<Request>, ids: iset<string>)
    requires Represents(d, u, ids) && Represents(m, u, ids) && d.DiskWorld? && m.MemoryWorld?
    requires BenignRun(cfg, d, u, reqs, ids)
    requires forall i :: 0 <= i < |reqs| && reqs[i].Id() in ids ==> BareFinal(cfg, reqs[i])
    ensures BenignRun(cfg, m, u, reqs, ids)
  {
    if reqs != [] {
      var before, last := reqs[..|reqs| - 1], reqs[|reqs| - 1];
      BenignRunOnMemory(cfg, d, m, u, before, ids);
      RunRefines(cfg, d, u, before, ids);
      RunRefines(cfg, m, u, before, ids);
      RunStays(cfg, d, before);
      RunStays(cfg, m, before);
      if last.Id() in ids {
        BenignOnMemory(cfg, Run(cfg, d, before), Run(cfg, m, before), RefRun(cfg, u, before), last);
      }
    }
  }

  /** The run that starts from nothing. `all` are the valid IDs and `ids` the uploads we ask about. */
  ghost predicate BenignFromEmpty(cfg: Config, all: iset<string>, reqs: seq<Request>, ids: iset<string>) {
    && BenignRun(cfg, EmptyDisk(all), NoUploads(all), reqs, ids)
    && (forall i :: 0 <= i < |reqs| && reqs[i].Id() in ids ==> BareFinal(cfg, reqs[i]))
  }

  /** A run that the part store survives leaves both stores with the same uploads. */
  lemma StoresAgree(cfg: Config, all: iset<string>, reqs: seq<Request>, ids: iset<string>)
    requires BenignFromEmpty(cfg, all, reqs, ids)
    ensures Represents(Run(cfg, EmptyDisk(all), reqs), RefRun(cfg, NoUploads(all), reqs), ids)
    ensures Represents(Run(cfg, EmptyMemory(all), reqs), RefRun(cfg, NoUploads(all), reqs), ids)
  {
    forall id
      ensures Shows(EmptyDisk(all), NoUploads(all), id)
      ensures Shows(EmptyMemory(all), NoUploads(all), id)
    {
      EmptyShows(all, id);
    }
    BenignRunOnMemory(cfg, EmptyDisk(all), EmptyMemory(all), NoUploads(all), reqs, ids);
    RunRefines(cfg, EmptyDisk(all), NoUploads(all), reqs, ids);
    RunRefines(cfg, EmptyMemory(all), NoUploads(all), reqs, ids);
  }

  // ----- downloads -----

  /**
   * A download from the part store returns every accepted chunk in order and nothing else, and the memory store
   * returns the same. The part store lets an upload be downloaded exactly when it is complete, unexpired and sealed.
   */
  lemma DownloadIsContent(cfg: Config, d: World, m: World, u: Uploads, g: GetRequest)
    requires Shows(d, u, g.id) && Shows(m, u, g.id) && d.DiskWorld? && m.MemoryWorld?
    ensures Get(cfg, d, g).Ok? ==>
      && Get(cfg, m, g) == Get(cfg, d, g) && g.id in u && u[g.id].Present?
      && Get(cfg, d, g).value == u[g.id].content && |u[g.id].content| == u[g.id].info.offset
    ensures Get(cfg, d, g).Ok? <==>
      && cfg.enableDownload && g.lockGranted && g.id in u && u[g.id].Present?
      && !u[g.id].info.ExpiredAt(g.now) && IsSealed(d.Look(g.id))
    ensures Get(cfg, d, g).Err? ==>
      Get(cfg, m, g) == Get(cfg, d, g) || (Get(cfg, d, g) == Err(UploadNotReadyForDownload) && !IsSealed(d.Look(g.id)))
  {
  }

  /**
   * After any run that is benign for the upload, a download that succeeds returns its accepted chunks end to end, from
   * either store.
   */
  lemma DownloadAfterRun(cfg: Config, all: iset<string>, reqs: seq<Request>, ids: iset<string>, g: GetRequest)
    requires BenignFromEmpty(cfg, all, reqs, ids) && g.id in ids
    requires Get(cfg, Run(cfg, EmptyDisk(all), reqs), g).Ok?
    ensures var accepted := Chunks(cfg, NoUploads(all), reqs, g.id);
            && Get(cfg, Run(cfg, EmptyDisk(all), reqs), g) == Ok(Flat(accepted))
            && Get(cfg, Run(cfg, EmptyMemory(all), reqs), g) == Ok(Flat(accepted))
  {
    StoresAgree(cfg, all, reqs, ids);
    RunStays(cfg, EmptyDisk(all), reqs);
    RunStays(cfg, EmptyMemory(all), reqs);
    DownloadIsContent(cfg, Run(cfg, EmptyDisk(all), reqs), Run(cfg, EmptyMemory(all), reqs),
                      RefRun(cfg, NoUploads(all), reqs), g);
    ContentIsChunks(cfg, all, reqs, g.id);
  }

  /** HEAD on either store reports how many bytes the reference holds, as long as the upload is there and unexpired. */
  lemma HeadShowsLength(w: World, u: Uploads, req: HeadRequest)
    requires Shows(w, u, req.id)
    ensures Head(w, req).Ok? <==>
      req.versionOk && req.id in u && u[req.id].Present? && !u[req.id].info.ExpiredAt(req.now)
    ensures Head(w, req).Ok? ==> Head(w, req).value == (|u[req.id].content|, u[req.id].info.size)
  {
  }

  /** As long as nobody deletes or recreates it, an upload's stored bytes only grow at their end. */
  lemma BytesOnlyGrow(cfg: Config, w: World, u: Uploads, reqs: seq<Request>, id: string)
    requires Shows(w, u, id) && id in u && u[id].Present? && BenignRun(cfg, w, u, reqs, iset{id})
    requires forall i :: 0 <= i < |reqs| ==> reqs[i].Id() == id ==> !reqs[i].DoPost? && !reqs[i].DoDelete?
    ensures var w' := Run(cfg, w, reqs);
            && w.Knows(id) && w'.Knows(id) && Abs(w'.Look(id)).Present?
            && Abs(w.Look(id)).content <= Abs(w'.Look(id)).content
  {
    UploadRefines(cfg, w, u, reqs, id);
    ReferenceGrows(cfg, u, reqs, id);
  }

  lemma {:induction false} ReferenceGrows(cfg: Config, u: Uploads, reqs: seq<Request>, id: string)
    requires id in u && u[id].Present?
    requires forall i :: 0 <= i < |reqs| ==> reqs[i].Id() == id ==> !reqs[i].DoPost? && !reqs[i].DoDelete?
    ensures var u' := RefRun(cfg, u, reqs); id in u' && u'[id].Present? && u[id].content <= u'[id].content
  {
    if reqs != [] {
      ReferenceGrows(cfg, u, reqs[..|reqs| - 1], id);
    }
  }

  // ----- both stores answer alike -----

  lemma ChunksAnswerAlike(st1: Store, st2: Store, offset: U64, body: Body)
    requires GetInfo(st1) == GetInfo(st2) && GetInfo(st1).Ok? && GetInfo(st1).value.offset == offset
    ensures var ((st1', r1), (st2', r2)) := (Protocol.WriteChunk(st1, offset, body), Protocol.WriteChunk(st2, offset, body));
            r1 == r2 && GetInfo(st1') == GetInfo(st2')
  {
  }

  lemma WritesAnswerAlike(st1: Store, st2: Store, offset: U64, body: Body, finishAccepted: bool)
    requires GetInfo(st1) == GetInfo(st2) && GetInfo(st1).Ok? && GetInfo(st1).value.offset == offset
    ensures WriteThenConclude(st1, offset, body, finishAccepted).1 == WriteThenConclude(st2, offset, body, finishAccepted).1
  {
    ChunksAnswerAlike(st1, st2, offset, body);
  }

  /** In any state, two stores with the same record give the same answer to a PATCH. */
  lemma PatchesAnswerAlike(cfg: Config, st1: Store, st2: Store, req: PatchRequest)
    requires GetInfo(st1) == GetInfo(st2) && req.offset.Some?
    ensures PatchLocked(cfg, st1, req).1 == PatchLocked(cfg, st2, req).1
  {
    if GetInfo(st1).Ok? {
      PatchStops(cfg, st1, req);
      PatchStops(cfg, st2, req);
      DeclaredRecord(cfg, st1, req);
      DeclaredRecord(cfg, st2, req);
      if GetInfo(st1).value.offset == req.offset.value {
        WritesAnswerAlike(Declared(cfg, st1, req), Declared(cfg, st2, req), req.offset.value, req.body, req.finishAccepted);
      }
    }
  }

  lemma PostsAnswerAlike(cfg: Config, st1: Store, st2: Store, req: PostRequest)
    ensures PostTail(cfg, Create(st1, NewInfo(cfg, req)), req).1 == PostTail(cfg, Create(st2, NewInfo(cfg, req)), req).1
  {
    WritesAnswerAlike(Create(st1, NewInfo(cfg, req)), Create(st2, NewInfo(cfg, req)), 0, req.body, req.finishAccepted);
  }

  lemma {:induction false} FetchAlike(d: World, m: World, ids: seq<string>)
    requires forall i :: 0 <= i < |ids| ==>
      (d.Knows(ids[i]) <==> m.Knows(ids[i])) && (d.Knows(ids[i]) ==> GetInfo(d.Look(ids[i])) == GetInfo(m.Look(ids[i])))
    ensures FetchPartials(d, ids) == FetchPartials(m, ids)
  {
    if ids != [] {
      FetchAlike(d, m, ids[..|ids| - 1]);
    }
  }

  /** Fetching stops at the same partial with the same error. */
  lemma UnusableAlike(cfg: Config, d: World, m: World, u: Uploads, p: PostRequest, ids: seq<string>)
    requires FinalOver(cfg, d, u, p, ids) && FinalOver(cfg, m, u, p, ids) && !AllUsable(Started(cfg, u, p), ids)
    ensures Post(cfg, d, p).1 == Post(cfg, m, p).1
  {
    StartFinal(cfg, d, u, p, ids);
    StartFinal(cfg, m, u, p, ids);
    var (d1, m1, u1) := (StartedWorld(cfg, d, p), StartedWorld(cfg, m, p), Started(cfg, u, p));
    FetchIff(d1, u1, ids);
    forall i | 0 <= i < |ids|
      ensures (d1.Knows(ids[i]) <==> m1.Knows(ids[i])) && (d1.Knows(ids[i]) ==> GetInfo(d1.Look(ids[i])) == GetInfo(m1.Look(ids[i])))
    {
      assert ShowsRecord(d1, u1, ids[i]) && ShowsRecord(m1, u1, ids[i]);
    }
    FetchAlike(d1, m1, ids);
  }

  /** After the join the part store compares offsets and the memory store does not. */
  lemma TailsAnswerAlikeIff(cfg: Config, joined: Bytes, info: UploadInfo, p: PostRequest, prior: Slot)
    ensures PostTail(cfg, JoinedSlot(info, joined, prior), p).1 == PostTail(cfg, FinalEntry(info, joined), p).1
        <==> (CarriesBody(cfg, p) ==> |joined| % (U64_MAX + 1) == 0)
  {
  }

  lemma TailFailsLikeIo(cfg: Config, joined: Bytes, info: UploadInfo, p: PostRequest)
    ensures PostTail(cfg, FinalEntry(info, joined), p).1 == Err(Io) <==> CarriesBody(cfg, p) && p.body.BrokenBody?
  {
  }

  /** A final POST whose answer depends on the store: unsealed partials, or a body for an upload that is not empty. */
  predicate FinalAnswersDiffer(cfg: Config, d: World, u: Uploads, p: PostRequest, ids: seq<string>) {
    var u1 := Started(cfg, u, p);
    && AllUsable(u1, ids)
    && if AllSealed(d, ids) then CarriesBody(cfg, p) && |Joined(u1, ids)| % (U64_MAX + 1) != 0
       else !(CarriesBody(cfg, p) && p.body.BrokenBody?)
  }

  lemma FinalAnswersIff(cfg: Config, d: World, m: World, u: Uploads, p: PostRequest, ids: seq<string>)
    requires FinalOver(cfg, d, u, p, ids) && FinalOver(cfg, m, u, p, ids) && d.DiskWorld? && m.MemoryWorld?
    ensures Post(cfg, d, p).1 == Post(cfg, m, p).1 <==> !FinalAnswersDiffer(cfg, d, u, p, ids)
  {
    if !AllUsable(Started(cfg, u, p), ids) {
      UnusableAlike(cfg, d, m, u, p, ids);
    } else {
      var joined := Joined(Started(cfg, u, p), ids);
      FinalPostDisk(cfg, d, u, p, ids);
      FinalPostMemory(cfg, m, u, p, ids);
      TailsAnswerAlikeIff(cfg, joined, NewInfo(cfg, p), p, d.Look(p.id).slot);
      TailFailsLikeIo(cfg, joined, NewInfo(cfg, p), p);
    }
  }

  /** A download of an upload that is complete but, because the completion hook refused, not yet assembled. */
  predicate DownloadTooEarly(cfg: Config, d: World, u: Uploads, g: GetRequest) {
    && cfg.enableDownload && g.lockGranted && g.id in u && u[g.id].Present?
    && !u[g.id].info.ExpiredAt(g.now) && u[g.id].info.IsComplete()
    && d.Knows(g.id) && !IsSealed(d.Look(g.id))
  }

  /** The requests that the part store answers differently from the memory store. */
  predicate AnswersDiffer(cfg: Config, d: World, u: Uploads, req: Request) {
    match req
    case DoGet(g) => DownloadTooEarly(cfg, d, u, g)
    case DoPost(p) =>
      && p.concat.FinalConcat? && PostChecks(cfg, p).None? && p.id in u
      && FinalAnswersDiffer(cfg, d, u, p, p.concat.ids.value)
    case _ => false
  }

  lemma UpdatesAnswerAlike(cfg: Config, d: World, m: World, u: Uploads, req: Request)
    requires Shows(d, u, req.Id()) && Shows(m, u, req.Id()) && !req.DoGet?
    requires req.DoPost? ==> !req.post.concat.FinalConcat?
    ensures Step(cfg, d, req).1 == Step(cfg, m, req).1
  {
    if req.Id() in u {
      var st1, st2 := d.Look(req.Id()), m.Look(req.Id());
      assert GetInfo(st1) == GetInfo(st2);
      match req
      case DoPatch(p) =>
        if p.offset.Some? {
          PatchesAnswerAlike(cfg, st1, st2, p);
        }
      case DoPost(p) => PostsAnswerAlike(cfg, st1, st2, p);
      case _ =>
    }
  }

  /** Whatever the request, both stores give the same answer, success or error, except exactly in these cases. */
  lemma AnswersAgreeIff(cfg: Config, d: World, m: World, u: Uploads, req: Request)
    requires Shows(d, u, req.Id()) && Shows(m, u, req.Id()) && d.DiskWorld? && m.MemoryWorld?
    requires ShowsAll(d, u, Partials(req)) && ShowsAll(m, u, Partials(req))
    ensures Step(cfg, d, req).1 == Step(cfg, m, req).1 <==> !AnswersDiffer(cfg, d, u, req)
  {
    if req.DoGet? {
      DownloadIsContent(cfg, d, m, u, req.get);
    } else if req.DoPost? && req.post.concat.FinalConcat? {
      if PostChecks(cfg, req.post).None? && req.post.id in u {
        FinalAnswersIff(cfg, d, m, u, req.post, req.post.concat.ids.value);
      }
    } else {
      UpdatesAnswerAlike(cfg, d, m, u, req);
    }
  }
}
