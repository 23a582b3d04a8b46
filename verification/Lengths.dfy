/** What the handlers never take back, and the length obligations of the protocol, on either store in whatever state. */
module Lengths {
  import opened Core
  import opened Protocol
  import opened Refinement
  import opened Worlds

  // ----- what is never taken back -----

  /** From one record of an upload to a later one. */
  predicate Later(cfg: Config, a: UploadInfo, b: UploadInfo) {
    && a.offset <= b.offset
    && (a.size.Some? ==> b.size == a.size)
    && (a.size.None? && b.size.Some? && cfg.maxSize > 0 ==> b.size.value <= cfg.maxSize)
    && b.(size := a.size, offset := a.offset, sizeIsDeferred := a.sizeIsDeferred) == a
  }

  /** PATCH never moves the offset back, never changes a length once set, and touches no other field. */
  lemma PatchIsLater(cfg: Config, st: Store, req: PatchRequest)
    requires req.offset.Some? && GetInfo(st).Ok?
    ensures var after := GetInfo(PatchLocked(cfg, st, req).0);
            after.Ok? && Later(cfg, GetInfo(st).value, after.value)
  {
    PatchRecord(cfg, st, req);
  }

  predicate KeepsUpload(req: Request, id: string) {
    req.Id() == id ==> !req.DoPost? && !req.DoDelete?
  }

  lemma StepIsLater(cfg: Config, w: World, req: Request, id: string)
    requires w.Knows(id) && GetInfo(w.Look(id)).Ok? && KeepsUpload(req, id)
    ensures var w' := Step(cfg, w, req).0;
            && w'.Knows(id) && GetInfo(w'.Look(id)).Ok?
            && Later(cfg, GetInfo(w.Look(id)).value, GetInfo(w'.Look(id)).value)
  {
    if req.Id() != id {
      StepElsewhere(cfg, w, req, id);
    } else if req.DoPatch? && PatchPrelude(w, req.patch).None? {
      PatchIsLater(cfg, w.Look(id), req.patch);
      PutShows(w, id, PatchLocked(cfg, w.Look(id), req.patch).0);
    }
  }

  /** As long as nobody deletes or recreates it, an upload's offset and length are never taken back by any run. */
  lemma {:induction false} RunIsLater(cfg: Config, w: World, reqs: seq<Request>, id: string)
    requires w.Knows(id) && GetInfo(w.Look(id)).Ok?
    requires forall i :: 0 <= i < |reqs| ==> KeepsUpload(reqs[i], id)
    ensures var w' := Run(cfg, w, reqs);
            && w'.Knows(id) && GetInfo(w'.Look(id)).Ok?
            && Later(cfg, GetInfo(w.Look(id)).value, GetInfo(w'.Look(id)).value)
  {
    if reqs != [] {
      var before, last := reqs[..|reqs| - 1], reqs[|reqs| - 1];
      RunIsLater(cfg, w, before, id);
      StepIsLater(cfg, Run(cfg, w, before), last, id);
    }
  }

  // ----- the length obligations -----

  /** The length obligations on one record. */
  predicate LengthOk(cfg: Config, info: UploadInfo) {
    && (info.size.Some? ==> info.offset <= info.size.value && (cfg.maxSize > 0 ==> info.size.value <= cfg.maxSize))
    && (info.size.None? ==> info.sizeIsDeferred)
  }

  /** The request declares a length that the upload has already outgrown. */
  predicate DeclaresTooShort(cfg: Config, info: UploadInfo, req: PatchRequest)
    requires req.offset.Some?
  {
    && TakesChunks(info, req) && LengthInOrder(cfg, info, req)
    && info.size.None? && info.sizeIsDeferred && req.length.Length? && req.length.n < info.offset
  }

  /** PATCH keeps the length obligations exactly when it does not declare a length below the current offset. */
  lemma LengthKeptIff(cfg: Config, st: Store, req: PatchRequest)
    requires req.offset.Some? && GetInfo(st).Ok? && LengthOk(cfg, GetInfo(st).value)
    ensures var after := GetInfo(PatchLocked(cfg, st, req).0);
            after.Ok? && (LengthOk(cfg, after.value) <==> !DeclaresTooShort(cfg, GetInfo(st).value, req))
  {
    PatchRecord(cfg, st, req);
  }

  /** An upload that has outgrown its declared length stays as it is for ever: every PATCH fails and changes nothing. */
  lemma OutgrownIsStuck(cfg: Config, st: Store, req: PatchRequest)
    requires req.offset.Some? && GetInfo(st).Ok?
    requires var info := GetInfo(st).value; info.size.Some? && info.size.value < info.offset
    ensures PatchLocked(cfg, st, req).0 == st && PatchLocked(cfg, st, req).1.Err?
    ensures GetLocked(st, req.now).Err?
  {
    PatchStops(cfg, st, req);
    DeclaredRecord(cfg, st, req);
  }

  predicate PresentLengthOk(cfg: Config, w: World, id: string)
    requires w.Knows(id)
  {
    GetInfo(w.Look(id)).Ok? ==> LengthOk(cfg, GetInfo(w.Look(id)).value)
  }

  /** The length that a final POST gives its upload, if joining succeeds: the partials' total. */
  function JoinedTotal(cfg: Config, w: World, req: PostRequest): Option<U64>
    requires w.Knows(req.id) && req.concat.FinalConcat? && req.concat.ids.Ok?
  {
    var w1 := StartedWorld(cfg, w, req);
    PutShows(w, req.id, Create(w.Look(req.id), NewInfo(cfg, req)));
    TotalIn(w1, req.id, req.concat.ids.value)
  }

  function TotalIn(w: World, id: string, ids: seq<string>): Option<U64>
    requires w.Knows(id)
  {
    match FetchPartials(w, ids)
    case Err(_) => None
    case Ok(partials) =>
      var (st, r) := Concatenate(w, id, partials);
      if r.Ok? && GetInfo(st).Ok? then GetInfo(st).value.size else None
  }

  /** If joining succeeds the total is within the limit; if it fails there is a length, declared or promised. */
  predicate FinalIsHonest(cfg: Config, w: World, req: PostRequest)
    requires w.Knows(req.id) && req.concat.FinalConcat? && req.concat.ids.Ok?
  {
    match JoinedTotal(cfg, w, req)
    case Some(total) => cfg.maxSize > 0 ==> total <= cfg.maxSize
    case None => req.length.Length? || req.defer
  }

  /** The rest of a POST leaves the length as it is and the offset within it. */
  lemma TailKeepsLength(cfg: Config, st: Store, req: PostRequest)
    requires GetInfo(st).Ok?
    ensures var (before, after) := (GetInfo(st).value, GetInfo(PostTail(cfg, st, req).0));
            && after.Ok? && after.value.size == before.size && after.value.sizeIsDeferred == before.sizeIsDeferred
            && (after.value.offset == before.offset
                || (before.size.Some? ==> after.value.offset <= before.size.value))
  {
  }

  lemma ConcatenatedRecord(w: World, id: string, partials: seq<UploadInfo>)
    requires w.Knows(id) && GetInfo(w.Look(id)).Ok?
    ensures var (st, r) := Concatenate(w, id, partials);
            && GetInfo(st).Ok?
            && (if r.Ok? then GetInfo(st).value.size == Some(GetInfo(st).value.offset)
                else GetInfo(st) == GetInfo(w.Look(id)))
  {
  }

  /** A final POST, in any state, keeps the length obligations exactly when it is honest. */
  lemma FinalLengthKeptIff(cfg: Config, w: World, req: PostRequest)
    requires w.Knows(req.id) && req.concat.FinalConcat? && PostChecks(cfg, req).None?
    ensures var w' := Post(cfg, w, req).0;
            && w'.Knows(req.id) && GetInfo(w'.Look(req.id)).Ok?
            && (LengthOk(cfg, GetInfo(w'.Look(req.id)).value) <==> FinalIsHonest(cfg, w, req))
  {
    var ids, w1 := req.concat.ids.value, StartedWorld(cfg, w, req);
    PutShows(w, req.id, Create(w.Look(req.id), NewInfo(cfg, req)));
    assert Post(cfg, w, req) == PostJoined(cfg, w1, req, ids);
    JoinedLength(cfg, w1, req, ids);
    assert JoinedTotal(cfg, w, req) == TotalIn(w1, req.id, ids);
  }

  lemma JoinedLength(cfg: Config, w1: World, req: PostRequest, ids: seq<string>)
    requires w1.Knows(req.id) && GetInfo(w1.Look(req.id)) == Ok(NewInfo(cfg, req)) && PostChecks(cfg, req).None?
    ensures var w' := PostJoined(cfg, w1, req, ids).0;
            && w'.Knows(req.id) && GetInfo(w'.Look(req.id)).Ok?
            && (LengthOk(cfg, GetInfo(w'.Look(req.id)).value) <==>
                  match TotalIn(w1, req.id, ids)
                  case Some(total) => cfg.maxSize > 0 ==> total <= cfg.maxSize
                  case None => req.length.Length? || req.defer)
  {
    if FetchPartials(w1, ids).Ok? {
      var joined := Concatenate(w1, req.id, FetchPartials(w1, ids).value);
      ConcatenatedRecord(w1, req.id, FetchPartials(w1, ids).value);
      PutShows(w1, req.id, joined.0);
      if joined.1.Ok? {
        TailKeepsLengthOk(cfg, joined.0, req);
        PutShows(w1, req.id, PostTail(cfg, joined.0, req).0);
      }
    }
  }

  lemma TailKeepsLengthOk(cfg: Config, st: Store, req: PostRequest)
    requires GetInfo(st).Ok? && GetInfo(st).value.size == Some(GetInfo(st).value.offset)
    ensures var (before, after) := (GetInfo(st).value, GetInfo(PostTail(cfg, st, req).0));
            && after.Ok? && (LengthOk(cfg, after.value) <==> (cfg.maxSize > 0 ==> before.offset <= cfg.maxSize))
    ensures PostTail(cfg, st, req).0.Disk? <==> st.Disk?
  {
    TailKeepsLength(cfg, st, req);
  }

  /** A request to upload `id` is honest if it declares no length too short and joins none too long. */
  predicate HonestLength(cfg: Config, w: World, req: Request, id: string) {
    req.Id() == id && w.Knows(id) ==>
      match req
      case DoPatch(p) =>
        p.offset.Some? && GetInfo(w.Look(id)).Ok? ==> !DeclaresTooShort(cfg, GetInfo(w.Look(id)).value, p)
      case DoPost(p) =>
        PostChecks(cfg, p).None? && p.concat.FinalConcat? ==> FinalIsHonest(cfg, w, p)
      case _ => true
  }

  predicate HonestRun(cfg: Config, w: World, reqs: seq<Request>, id: string) {
    reqs == [] ||
    (HonestRun(cfg, w, reqs[..|reqs| - 1], id) && HonestLength(cfg, Run(cfg, w, reqs[..|reqs| - 1]), reqs[|reqs| - 1], id))
  }

  lemma PostLengthOk(cfg: Config, st: Store, req: PostRequest)
    requires PostChecks(cfg, req).None? && !req.concat.FinalConcat?
    ensures var after := GetInfo(PostTail(cfg, Create(st, NewInfo(cfg, req)), req).0);
            after.Ok? && LengthOk(cfg, after.value)
  {
    WriteRecord(Create(st, NewInfo(cfg, req)), 0, req.body, req.finishAccepted);
  }

  lemma HonestStep(cfg: Config, w: World, req: Request, id: string)
    requires w.Knows(id) && PresentLengthOk(cfg, w, id) && HonestLength(cfg, w, req, id)
    ensures Step(cfg, w, req).0.Knows(id) && PresentLengthOk(cfg, Step(cfg, w, req).0, id)
  {
    if req.Id() != id {
      StepElsewhere(cfg, w, req, id);
    } else {
      match req
      case DoPatch(p) =>
        if PatchPrelude(w, p).None? {
          PutShows(w, id, PatchLocked(cfg, w.Look(id), p).0);
          if GetInfo(w.Look(id)).Ok? {
            LengthKeptIff(cfg, w.Look(id), p);
          }
        }
      case DoPost(p) =>
        if PostChecks(cfg, p).None? && p.concat.FinalConcat? {
          FinalLengthKeptIff(cfg, w, p);
        } else if PostChecks(cfg, p).None? {
          PutShows(w, id, PostTail(cfg, Create(w.Look(id), NewInfo(cfg, p)), p).0);
          PostLengthOk(cfg, w.Look(id), p);
        }
      case DoDelete(d) =>
        PutShows(w, id, Remove(w.Look(id)));
      case _ =>
    }
  }

  /**
   * As long as the requests to an upload are honest, it keeps within its length and the server's limit, whatever is
   * requested of all others.
   */
  lemma {:induction false} LengthsStayOk(cfg: Config, w: World, reqs: seq<Request>, id: string)
    requires w.Knows(id) && PresentLengthOk(cfg, w, id) && HonestRun(cfg, w, reqs, id)
    ensures Run(cfg, w, reqs).Knows(id) && PresentLengthOk(cfg, Run(cfg, w, reqs), id)
  {
    if reqs != [] {
      var before := reqs[..|reqs| - 1];
      LengthsStayOk(cfg, w, before, id);
      HonestStep(cfg, Run(cfg, w, before), reqs[|reqs| - 1], id);
    }
  }
}
