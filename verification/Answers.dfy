/** What every request is answered and when it changes anything, in whatever state either store is. */
module Answers {
  import opened Core
  import opened Slots
  import opened Protocol
  import opened Refinement
  import opened Worlds
  import opened Steps
  import Entries

  /** The record a store has of an upload. */
  function RecordAt(w: World, id: string): Option<UploadInfo> {
    match w
    case DiskWorld(slots) => if id in slots then slots[id].info else None
    case MemoryWorld(ids, entries) => if id in ids && id in entries then Some(entries[id].info) else None
  }

  lemma RecordIsInfo(w: World, id: string)
    requires w.Knows(id)
    ensures GetInfo(w.Look(id)) == match RecordAt(w, id) case Some(info) => Ok(info) case None => Err(NotFound)
  {
  }

  /** The same uploads, and nothing about any of them has changed. */
  ghost predicate Unchanged(w: World, w': World) {
    forall id :: SameAt(w, w', id)
  }

  // ----- PATCH -----

  /** The checks before the lock, and the lock. */
  predicate PatchAdmitted(w: World, req: PatchRequest) {
    req.versionOk && req.contentTypeOk && req.offset.Some? && w.Knows(req.id) && req.lockGranted
  }

  predicate PatchFinds(w: World, req: PatchRequest) {
    PatchAdmitted(w, req) && RecordAt(w, req.id).Some?
  }

  /** PATCH succeeds exactly if it is admitted, the upload exists, its rules are kept, and completion is not refused. */
  lemma PatchAnswersIff(cfg: Config, w: World, req: PatchRequest)
    ensures var r := Patch(cfg, w, req).1;
            && (r.Ok? <==>
                && PatchFinds(w, req) && RefAccepts(cfg, RecordAt(w, req.id).value, req)
                && (LengthInEffect(RecordAt(w, req.id).value, req) == Some(req.offset.value + |req.body.bytes|)
                    ==> req.finishAccepted))
            && (r.Ok? ==> r.value == req.offset.value + |req.body.bytes|)
  {
    if PatchAdmitted(w, req) {
      RecordIsInfo(w, req.id);
      if RecordAt(w, req.id).Some? {
        PatchSucceedsIff(cfg, w.Look(req.id), req);
      }
    }
  }

  /** What a PATCH that is not admitted, or finds no upload, is answered; it changes nothing. */
  lemma PatchNotAdmitted(cfg: Config, w: World, req: PatchRequest)
    ensures var r := Patch(cfg, w, req).1;
            && (r == Err(MissingTusResumable) <==> !req.versionOk)
            && (r == Err(WrongContentType) <==> req.versionOk && !req.contentTypeOk)
            && (r == Err(MissingUploadOffset) <==> req.versionOk && req.contentTypeOk && req.offset.None?)
            && (r == Err(InvalidUploadId) <==>
                  req.versionOk && req.contentTypeOk && req.offset.Some? && !w.Knows(req.id))
            && (r == Err(LockTimeout) <==>
                  req.versionOk && req.contentTypeOk && req.offset.Some? && w.Knows(req.id) && !req.lockGranted)
            && (r == Err(NotFound) <==> PatchAdmitted(w, req) && RecordAt(w, req.id).None?)
    ensures !PatchFinds(w, req) ==> Unchanged(w, Patch(cfg, w, req).0)
  {
    if PatchAdmitted(w, req) {
      RecordIsInfo(w, req.id);
      if RecordAt(w, req.id).Some? {
        LockedErrors(cfg, w.Look(req.id), req);
      } else {
        SamePut(w, req.id);
      }
    }
  }

  lemma SamePut(w: World, id: string)
    requires w.Knows(id)
    ensures Unchanged(w, w.Put(id, w.Look(id)))
  {
    forall other
      ensures SameAt(w, w.Put(id, w.Look(id)), other)
    {
      if other == id {
        PutShows(w, id, w.Look(id));
      } else {
        PutElsewhere(w, id, w.Look(id), other);
      }
    }
  }

  /** Under the lock none of the errors of the checks before it can come up. */
  lemma LockedErrors(cfg: Config, st: Store, req: PatchRequest)
    requires req.offset.Some? && GetInfo(st).Ok?
    ensures var r := PatchLocked(cfg, st, req).1;
            r.Err? ==>
              && !r.error.MissingTusResumable? && !r.error.WrongContentType? && !r.error.MissingUploadOffset?
              && !r.error.InvalidUploadId? && !r.error.LockTimeout? && !r.error.NotFound?
  {
    PatchStops(cfg, st, req);
    DeclaredRecord(cfg, st, req);
    if GetInfo(st).value.offset == req.offset.value {
      ChunkErrors(Declared(cfg, st, req), req);
    }
  }

  predicate Expired(info: UploadInfo, now: int) {
    info.expiresAt.Some? && info.expiresAt.value < now
  }

  /** The upload does not take the chunk: it is final, or elsewhere, or expired. Nothing changes. */
  lemma PatchTurnedAway(cfg: Config, w: World, req: PatchRequest)
    requires PatchFinds(w, req)
    ensures var (w', r) := Patch(cfg, w, req);
            var info := RecordAt(w, req.id).value;
            && (r == Err(PatchOnFinalUpload) <==> info.isFinal)
            && (r.Err? && r.error.OffsetMismatch? <==> !info.isFinal && info.offset != req.offset.value)
            && (r.Err? && r.error.OffsetMismatch? ==> r.error == OffsetMismatch(info.offset, req.offset.value))
            && (r == Err(Gone) <==> !info.isFinal && info.offset == req.offset.value && Expired(info, req.now))
            && (!TakesChunks(info, req) ==> Unchanged(w, w'))
  {
    RecordIsInfo(w, req.id);
    var st := w.Look(req.id);
    if TakesChunks(RecordAt(w, req.id).value, req) {
      TakenErrors(cfg, st, req);
    } else {
      PatchStops(cfg, st, req);
      SamePut(w, req.id);
    }
  }

  lemma TakenErrors(cfg: Config, st: Store, req: PatchRequest)
    requires req.offset.Some? && GetInfo(st).Ok? && TakesChunks(GetInfo(st).value, req)
    ensures var r := PatchLocked(cfg, st, req).1;
            r.Err? ==> !r.error.PatchOnFinalUpload? && !r.error.Gone? && !r.error.OffsetMismatch?
  {
    PatchStops(cfg, st, req);
    DeclaredRecord(cfg, st, req);
    ChunkErrors(Declared(cfg, st, req), req);
  }

  /** How a write at the stored offset, with what follows it, can fail. */
  lemma ChunkErrors(st: Store, req: PatchRequest)
    requires req.offset.Some? && GetInfo(st).Ok? && GetInfo(st).value.offset == req.offset.value
    ensures var (info, r) := (GetInfo(st).value, WriteThenConclude(st, req.offset.value, req.body, req.finishAccepted).1);
            r.Err? ==>
              if !req.body.FullBody? then r.error == Io
              else var end := req.offset.value + |req.body.bytes|;
                   if end > U64_MAX then r.error == Internal
                   else if info.size.Some? && end > info.size.value then r.error == ExceedsUploadLength(info.size.value, end)
                   else r.error == HookRejected && info.size == Some(end) && !req.finishAccepted
  {
  }

  /** What a length or a checksum that is not in order is answered with. */
  lemma HeaderErrors(cfg: Config, info: UploadInfo, req: PatchRequest)
    ensures LengthToDeclare(cfg, info, req.length).Err? <==> !LengthInOrder(cfg, info, req)
    ensures var r := LengthToDeclare(cfg, info, req.length);
            r.Err? ==> r.error == (if req.length.BadLength? then InvalidMetadata else EntityTooLarge(cfg.maxSize))
    ensures ChecksumInOrder(cfg, req) && req.body.FullBody? ==> Payload(cfg, req.checksum, req.body) == Ok(req.body)
    ensures var r := Payload(cfg, req.checksum, req.body);
            r.Err? ==> r.error == BodyError(cfg, req)
  {
  }

  /** The answer to a checksum that is not in order, or to a body that is not there or breaks off. */
  function BodyError(cfg: Config, req: PatchRequest): TusError {
    if !req.checksum.NoChecksum? && !cfg.checksum then ExtensionNotEnabled
    else if req.checksum.BadChecksum? then req.checksum.error
    else if req.body.NoBody? then Internal
    else if req.body.BrokenBody? then Io
    else ChecksumMismatch
  }

  /** The answer of a PATCH, refused at one of its stages, to an upload that takes chunks. */
  function PatchError(cfg: Config, info: UploadInfo, req: PatchRequest): TusError
    requires req.offset.Some? && req.offset.value == info.offset
  {
    if !LengthInOrder(cfg, info, req) then (if req.length.BadLength? then InvalidMetadata else EntityTooLarge(cfg.maxSize))
    else if !(ChecksumInOrder(cfg, req) && req.body.FullBody?) then BodyError(cfg, req)
    else
      var (end, length) := (info.offset + |req.body.bytes|, LengthInEffect(info, req));
      if end > U64_MAX then Internal
      else if length.Some? && length.value < end then ExceedsUploadLength(length.value, end)
      else HookRejected
  }

  /** A refused PATCH to an upload that takes chunks is answered with the first thing that speaks against it, on either store. */
  lemma PatchRefusedBecause(cfg: Config, w: World, req: PatchRequest)
    requires PatchFinds(w, req) && TakesChunks(RecordAt(w, req.id).value, req)
    ensures var (info, r) := (RecordAt(w, req.id).value, Patch(cfg, w, req).1);
            r.Err? ==> r.error == PatchError(cfg, info, req)
  {
    RecordIsInfo(w, req.id);
    LockedRefusedBecause(cfg, w.Look(req.id), req);
  }

  lemma LockedRefusedBecause(cfg: Config, st: Store, req: PatchRequest)
    requires req.offset.Some? && GetInfo(st).Ok? && TakesChunks(GetInfo(st).value, req)
    ensures var r := PatchLocked(cfg, st, req).1; r.Err? ==> r.error == PatchError(cfg, GetInfo(st).value, req)
  {
    var info := GetInfo(st).value;
    PatchStops(cfg, st, req);
    PatchIsAsRuled(cfg, info, req);
    HeaderErrors(cfg, info, req);
    if LengthInOrder(cfg, info, req) {
      DeclaredRecord(cfg, st, req);
      ChunkErrors(Declared(cfg, st, req), req);
      DeclaredLength(cfg, st, req);
    }
  }

  lemma DeclaredLength(cfg: Config, st: Store, req: PatchRequest)
    requires GetInfo(st).Ok? && LengthInOrder(cfg, GetInfo(st).value, req)
    ensures GetInfo(Declared(cfg, st, req)).Ok?
    ensures GetInfo(Declared(cfg, st, req)).value.size == LengthInEffect(GetInfo(st).value, req)
    ensures GetInfo(Declared(cfg, st, req)).value.offset == GetInfo(st).value.offset
  {
    DeclaredRecord(cfg, st, req);
  }

  /** The chunk fills the upload, and completion is accepted. */
  predicate Completes(info: UploadInfo, req: PatchRequest)
    requires req.offset.Some?
  {
    req.body.FullBody? && LengthInEffect(info, req) == Some(req.offset.value + |req.body.bytes|) && req.finishAccepted
  }

  /** What a PATCH leaves of an upload's files, whatever was there, and whatever it answers. */
  lemma PatchLeavesOnDisk(cfg: Config, w: World, req: PatchRequest)
    requires w.DiskWorld? && PatchFinds(w, req)
    ensures var (s, info) := (w.slots[req.id], RecordAt(w, req.id).value);
            var record := RefDeclare(cfg, info, req.length);
            var w' := Patch(cfg, w, req).0;
            && w'.DiskWorld? && req.id in w'.slots
            && w'.slots[req.id] ==
               if !TakesChunks(info, req) then s
               else if !RefAccepts(cfg, info, req) then s.(info := Some(record))
               else
                 var written := Slot(Some(record.(offset := req.offset.value + |req.body.bytes|)), s.data,
                                     s.parts[NextIndex(s) := req.body.bytes]);
                 if Completes(info, req) then Slot(written.info, Some(PartBytes(written)), map[]) else written
  {
    RecordIsInfo(w, req.id);
    LockedLeavesOnDisk(cfg, w.slots[req.id], req);
  }

  lemma LockedLeavesOnDisk(cfg: Config, s: Slot, req: PatchRequest)
    requires req.offset.Some? && s.info.Some?
    ensures var info := s.info.value;
            var record := RefDeclare(cfg, info, req.length);
            PatchLocked(cfg, Disk(s), req).0 == Disk(
               if !TakesChunks(info, req) then s
               else if !RefAccepts(cfg, info, req) then s.(info := Some(record))
               else
                 var written := Slot(Some(record.(offset := req.offset.value + |req.body.bytes|)), s.data,
                                     s.parts[NextIndex(s) := req.body.bytes]);
                 if Completes(info, req) then Slot(written.info, Some(PartBytes(written)), map[]) else written)
  {
    var info := s.info.value;
    PatchStops(cfg, Disk(s), req);
    PatchIsAsRuled(cfg, info, req);
    HeaderErrors(cfg, info, req);
    assert Declared(cfg, Disk(s), req) == Disk(s.(info := Some(RefDeclare(cfg, info, req.length))));
  }

  /** In memory there is nothing to seal: the chunk is written at the offset, and that is all. */
  lemma PatchLeavesInMemory(cfg: Config, w: World, req: PatchRequest)
    requires w.MemoryWorld? && PatchFinds(w, req)
    ensures var (e, w') := (w.entries[req.id], Patch(cfg, w, req).0);
            var record := RefDeclare(cfg, e.info, req.length);
            && w'.MemoryWorld? && req.id in w'.entries
            && w'.entries[req.id] ==
               if !TakesChunks(e.info, req) then e
               else if !RefAccepts(cfg, e.info, req) then e.(info := record)
               else Entries.Entry(record.(offset := req.offset.value + |req.body.bytes|),
                                  Entries.Overwrite(e.data, req.offset.value, req.body.bytes))
  {
    var e := w.entries[req.id];
    PatchStops(cfg, w.Look(req.id), req);
    PatchIsAsRuled(cfg, e.info, req);
    HeaderErrors(cfg, e.info, req);
    assert Declared(cfg, w.Look(req.id), req) == Memory(Some(e.(info := RefDeclare(cfg, e.info, req.length))));
  }

  // ----- GET and HEAD -----

  /** HEAD answers offset and length of an upload that is there and has not expired. */
  lemma HeadAnswersIff(w: World, req: HeadRequest)
    ensures var r := Head(w, req);
            && (r == Err(MissingTusResumable) <==> !req.versionOk)
            && (r == Err(InvalidUploadId) <==> req.versionOk && !w.Knows(req.id))
            && (r == Err(NotFound) <==> req.versionOk && w.Knows(req.id) && RecordAt(w, req.id).None?)
            && (r == Err(Gone) <==> req.versionOk && RecordAt(w, req.id).Some? && Expired(RecordAt(w, req.id).value, req.now))
            && (r.Ok? <==> req.versionOk && RecordAt(w, req.id).Some? && !Expired(RecordAt(w, req.id).value, req.now))
            && (r.Ok? ==> r.value == (RecordAt(w, req.id).value.offset, RecordAt(w, req.id).value.size))
  {
    if w.Knows(req.id) {
      RecordIsInfo(w, req.id);
    }
  }

  predicate GetAdmitted(cfg: Config, w: World, req: GetRequest) {
    cfg.enableDownload && w.Knows(req.id) && req.lockGranted
  }

  /** GET answers the stored bytes of a complete upload that has not expired. */
  lemma GetAnswersIff(cfg: Config, w: World, req: GetRequest)
    ensures var r := Get(cfg, w, req);
            && (r == Err(MethodNotAllowed) <==> !cfg.enableDownload)
            && (r == Err(InvalidUploadId) <==> cfg.enableDownload && !w.Knows(req.id))
            && (r == Err(LockTimeout) <==> cfg.enableDownload && w.Knows(req.id) && !req.lockGranted)
            && (r == Err(NotFound) <==> GetAdmitted(cfg, w, req) && RecordAt(w, req.id).None?)
            && (r == Err(Gone) <==>
                  GetAdmitted(cfg, w, req) && RecordAt(w, req.id).Some? && Expired(RecordAt(w, req.id).value, req.now))
            && (r.Ok? <==>
                  && GetAdmitted(cfg, w, req) && RecordAt(w, req.id).Some? && !Expired(RecordAt(w, req.id).value, req.now)
                  && RecordAt(w, req.id).value.size == Some(RecordAt(w, req.id).value.offset)
                  && (w.DiskWorld? ==> w.slots[req.id].data.Some?))
            && (r.Err? && GetAdmitted(cfg, w, req) ==> r.error in {NotFound, Gone, UploadNotReadyForDownload})
            && (r.Ok? ==> Abs(w.Look(req.id)).Present? && r.value == Abs(w.Look(req.id)).content)
  {
    if w.Knows(req.id) {
      RecordIsInfo(w, req.id);
    }
  }

  // ----- DELETE -----

  predicate DeleteAllowed(cfg: Config, w: World, req: DeleteRequest) {
    req.versionOk && cfg.termination && w.Knows(req.id)
  }

  /** DELETE succeeds exactly if it is allowed, no hook objects, the lock is granted and there is an upload. */
  lemma DeleteAnswersIff(cfg: Config, w: World, req: DeleteRequest)
    ensures var r := Delete(cfg, w, req).1;
            && (r.Ok? <==>
                  DeleteAllowed(cfg, w, req) && req.terminateHook != Some(false) && req.lockGranted && RecordAt(w, req.id).Some?)
            && (r == Err(MissingTusResumable) <==> !req.versionOk)
            && (r == Err(ExtensionNotEnabled) <==> req.versionOk && !cfg.termination)
            && (r == Err(InvalidUploadId) <==> req.versionOk && cfg.termination && !w.Knows(req.id))
            && (r == Err(NotFound) <==>
                  DeleteAllowed(cfg, w, req) && RecordAt(w, req.id).None? && (req.terminateHook.Some? || req.lockGranted))
            && (r == Err(HookRejected) <==>
                  DeleteAllowed(cfg, w, req) && RecordAt(w, req.id).Some? && req.terminateHook == Some(false))
            && (r == Err(LockTimeout) <==>
                  && DeleteAllowed(cfg, w, req) && !req.lockGranted && req.terminateHook != Some(false)
                  && (req.terminateHook.Some? ==> RecordAt(w, req.id).Some?))
  {
    if w.Knows(req.id) {
      RecordIsInfo(w, req.id);
    }
  }

  /** A DELETE that succeeds leaves nothing of its upload, and all others as they are; one that fails changes nothing. */
  lemma DeleteLeaves(cfg: Config, w: World, req: DeleteRequest)
    ensures var (w', r) := Delete(cfg, w, req);
            && (r.Err? ==> Unchanged(w, w'))
            && (r.Ok? ==>
                  && w'.Knows(req.id) && RecordAt(w', req.id).None?
                  && w'.Look(req.id) == (if w.DiskWorld? then Disk(Slot(None, None, map[])) else Memory(None))
                  && forall id :: id != req.id ==> SameAt(w, w', id))
  {
    if w.Knows(req.id) {
      RecordIsInfo(w, req.id);
      PutShows(w, req.id, Remove(w.Look(req.id)));
      forall id | id != req.id
        ensures SameAt(w, w.Put(req.id, Remove(w.Look(req.id))), id)
      {
        PutElsewhere(w, req.id, Remove(w.Look(req.id)), id);
      }
    }
  }

  /** After a DELETE that succeeded, every request to the upload that passes its own checks is answered NotFound. */
  lemma GoneForGood(cfg: Config, w: World, req: DeleteRequest, head: HeadRequest, get: GetRequest, patch: PatchRequest,
                    again: DeleteRequest)
    requires Delete(cfg, w, req).1.Ok?
    requires head.id == req.id && get.id == req.id && patch.id == req.id && again.id == req.id
    ensures var w' := Delete(cfg, w, req).0;
            && (head.versionOk ==> Head(w', head) == Err(NotFound))
            && (GetAdmitted(cfg, w', get) ==> Get(cfg, w', get) == Err(NotFound))
            && (PatchAdmitted(w', patch) ==> Patch(cfg, w', patch).1 == Err(NotFound))
            && (DeleteAllowed(cfg, w', again) && again.lockGranted ==> Delete(cfg, w', again).1 == Err(NotFound))
  {
    var w' := Delete(cfg, w, req).0;
    DeleteLeaves(cfg, w, req);
    HeadAnswersIff(w', head);
    GetAnswersIff(cfg, w', get);
    PatchNotAdmitted(cfg, w', patch);
    DeleteAnswersIff(cfg, w', again);
  }

  // ----- POST -----

  /** What a POST that is not in order is answered with. */
  function PostError(cfg: Config, req: PostRequest): TusError {
    if !req.versionOk then MissingTusResumable
    else if !cfg.creation || (req.concat.FinalConcat? && !cfg.concatenation) then ExtensionNotEnabled
    else if req.length.BadLength? then InvalidMetadata
    else if req.length.NoLength? && !req.defer && !req.concat.FinalConcat? then MissingUploadLength
    else if req.defer && !cfg.creationDeferLength then ExtensionNotEnabled
    else if req.length.Length? && 0 < cfg.maxSize < req.length.n then EntityTooLarge(cfg.maxSize)
    else if !req.metadataOk then InvalidMetadata
    else
      match req.concat
      case FinalConcat(Err(e)) => e
      case _ => HookRejected
  }

  /** A POST, final or not, that is not in order or names no valid ID is refused and changes nothing. */
  lemma PostTurnedAway(cfg: Config, w: World, req: PostRequest)
    requires !PostInOrder(cfg, req) || !w.Knows(req.id)
    ensures Post(cfg, w, req).1 == Err(if PostInOrder(cfg, req) then InvalidUploadId else PostError(cfg, req))
    ensures Unchanged(w, Post(cfg, w, req).0)
  {
    PostIsAsAsked(cfg, req);
  }

  /** A POST in order that fails has created its upload; it fails for its body, or because completion is refused. */
  lemma PostFailsBecause(cfg: Config, w: World, req: PostRequest)
    requires !req.concat.FinalConcat? && PostInOrder(cfg, req) && w.Knows(req.id)
    ensures var r := Post(cfg, w, req).1;
            r.Err? ==> r.error == UploadError(cfg, req)
  {
    PostIsAsAsked(cfg, req);
  }

  function UploadError(cfg: Config, req: PostRequest): TusError {
    if !CarriesBody(cfg, req) then HookRejected
    else if req.body.BrokenBody? then Io
    else if |req.body.bytes| > U64_MAX then Internal
    else if req.length.Length? && |req.body.bytes| > req.length.n then ExceedsUploadLength(req.length.n, |req.body.bytes|)
    else HookRejected
  }

  /** POST succeeds exactly if it is in order, its body, if any, fits, and completion is not refused. */
  lemma PostAnswersIff(cfg: Config, w: World, req: PostRequest)
    requires !req.concat.FinalConcat?
    ensures var r := Post(cfg, w, req).1;
            && (r.Ok? <==>
                  && PostInOrder(cfg, req) && w.Knows(req.id) && (CarriesBody(cfg, req) ==> PostBringsBody(cfg, req))
                  && (req.length == Length(if PostBringsBody(cfg, req) then |req.body.bytes| else 0) ==> req.finishAccepted))
            && (r.Ok? ==> r.value == if PostBringsBody(cfg, req) then |req.body.bytes| else 0)
  {
    PostIsAsAsked(cfg, req);
    if PostInOrder(cfg, req) && w.Knows(req.id) {
      PostSucceedsIff(cfg, w.Look(req.id), req);
    }
  }

  /** Whatever is answered, a POST in order leaves the record it asks for, and one that is not changes nothing. */
  lemma PostLeaves(cfg: Config, w: World, req: PostRequest)
    requires !req.concat.FinalConcat?
    ensures var w' := Post(cfg, w, req).0;
            if PostInOrder(cfg, req) && w.Knows(req.id)
            then w'.Knows(req.id) && RecordAt(w', req.id)
                 == Some(RefRecord(cfg, req).(offset := if PostBringsBody(cfg, req) then |req.body.bytes| else 0))
            else Unchanged(w, w')
  {
    PostIsAsAsked(cfg, req);
    if PostInOrder(cfg, req) && w.Knows(req.id) {
      var created := Create(w.Look(req.id), NewInfo(cfg, req));
      var st := PostTail(cfg, created, req).0;
      WriteRecord(created, 0, req.body, req.finishAccepted);
      PutShows(w, req.id, st);
      RecordIsInfo(w.Put(req.id, st), req.id);
    }
  }

  /** HEAD right after a POST reports the length it asked for and the bytes it brought. */
  lemma HeadAfterPost(cfg: Config, w: World, req: PostRequest, head: HeadRequest)
    requires !req.concat.FinalConcat? && PostInOrder(cfg, req) && w.Knows(req.id)
    requires head.id == req.id && head.versionOk
    ensures var r := Head(Post(cfg, w, req).0, head);
            && (r.Ok? <==> (cfg.expirationTtl.Some? ==> head.now <= req.now + cfg.expirationTtl.value))
            && (r.Ok? ==>
                  && r.value.0 == (if PostBringsBody(cfg, req) then |req.body.bytes| else 0)
                  && (req.length.Length? ==> r.value.1 == Some(req.length.n))
                  && (req.length.NoLength? ==> r.value.1 == None))
            && (r.Err? ==> r.error == Gone)
  {
    PostLeaves(cfg, w, req);
    HeadAnswersIff(Post(cfg, w, req).0, head);
  }

  // ----- final POST -----

  /** Why an ID cannot be used as a partial, if it cannot. */
  function PartialError(w: World, id: string): Option<TusError> {
    if !w.Knows(id) then Some(InvalidUploadId)
    else
      match RecordAt(w, id)
      case None => Some(NotFound)
      case Some(info) =>
        if !info.isPartial then Some(NotPartialUpload)
        else if info.size != Some(info.offset) then Some(PartialUploadIncomplete)
        else None
  }

  /** The error of the first ID that cannot be used. */
  function FirstError(w: World, ids: seq<string>): Option<TusError> {
    if ids == [] then None
    else if PartialError(w, ids[0]).Some? then PartialError(w, ids[0])
    else FirstError(w, ids[1..])
  }

  lemma {:induction false} FirstErrorSnoc(w: World, ids: seq<string>, id: string)
    ensures FirstError(w, ids + [id]) == if FirstError(w, ids).Some? then FirstError(w, ids) else PartialError(w, id)
  {
    if ids == [] {
      assert ids + [id] == [id] && [id][1..] == [];
    } else {
      assert (ids + [id])[1..] == ids[1..] + [id];
      FirstErrorSnoc(w, ids[1..], id);
    }
  }

  /** Partials are fetched unless one cannot be used, and then the first such one is the error. */
  lemma {:induction false} FetchAnswers(w: World, ids: seq<string>)
    ensures var r := FetchPartials(w, ids);
            match FirstError(w, ids)
            case Some(e) => r == Err(e)
            case None => r.Ok? && forall i :: 0 <= i < |ids| ==> RecordAt(w, ids[i]) == Some(r.value[i])
  {
    if ids != [] {
      var before, id := ids[..|ids| - 1], ids[|ids| - 1];
      assert ids == before + [id];
      FetchAnswers(w, before);
      FirstErrorSnoc(w, before, id);
      FetchNext(w, before, id);
    }
  }

  lemma FetchNext(w: World, before: seq<string>, id: string)
    ensures var (r, r') := (FetchPartials(w, before), FetchPartials(w, before + [id]));
            if r.Err? then r' == r
            else if PartialError(w, id).Some? then r' == Err(PartialError(w, id).value)
            else RecordAt(w, id).Some? && r' == Ok(r.value + [RecordAt(w, id).value])
  {
    assert (before + [id])[..|before|] == before;
    if w.Knows(id) {
      RecordIsInfo(w, id);
    }
  }

  /** A final POST over partials of which one cannot be used fails for the first such one, and leaves an empty upload. */
  lemma FinalPostRefused(cfg: Config, w: World, req: PostRequest, ids: seq<string>)
    requires PostInOrder(cfg, req) && w.Knows(req.id) && req.concat == FinalConcat(Ok(ids))
    ensures var started := w.Put(req.id, Create(w.Look(req.id), RefRecord(cfg, req)));
            FirstError(started, ids).Some? ==> Post(cfg, w, req) == (started, Err(FirstError(started, ids).value))
  {
    PostIsAsAsked(cfg, req);
    FetchAnswers(w.Put(req.id, Create(w.Look(req.id), RefRecord(cfg, req))), ids);
  }

  // ----- the interleaved tasks are the handlers -----

  /** A task that has its lock does to its upload, and answers, what the handler does. */
  lemma JobIsHandler(cfg: Config, w: World, req: Request, job: Job)
    requires w.DiskWorld?
    requires match job
             case PatchJob(p) => req == DoPatch(p) && PatchAdmitted(w, p)
             case GetJob(g) => req == DoGet(g) && GetAdmitted(cfg, w, g)
             case DeleteJob(d) =>
               && req == DoDelete(d) && DeleteAllowed(cfg, w, d) && d.terminateHook != Some(false) && d.lockGranted
    ensures var (w', answer) := Step(cfg, w, req);
            && job.Admitted() && job.Id() in w.slots && w'.DiskWorld? && job.Id() in w'.slots
            && (w'.slots[job.Id()], answer) == BigStep(cfg, job, w.slots[job.Id()])
            && forall id :: id != job.Id() ==> SameAt(w, w', id)
  {
    forall id | id != job.Id()
      ensures SameAt(w, Step(cfg, w, req).0, id)
    {
      StepElsewhere(cfg, w, req, id);
    }
  }
}
