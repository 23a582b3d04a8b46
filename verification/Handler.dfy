/** The request handlers as they run: sequences of store operations with early returns between the writes. */
module Handlers {
  import opened Core
  import opened Names
  import opened FileStores
  import opened MemoryStores
  import opened Entries
  import opened Protocol

  datatype Backend = OnDisk(fs: FileStore) | InMemory(ms: MemoryStore)
  {
    ghost function Repr(): set<object> {
      match this case OnDisk(fs) => {fs.dir} case InMemory(ms) => {ms}
    }
  }

  class TusHandler {
    const cfg: Config
    const backend: Backend

    constructor (cfg: Config, backend: Backend)
      ensures this.cfg == cfg && this.backend == backend
    {
      this.cfg := cfg;
      this.backend := backend;
    }

    ghost predicate Valid()
      reads backend.Repr()
    {
      match backend
      case OnDisk(fs) => fs.Valid()
      case InMemory(ms) => forall id :: id in ms.state ==> ms.state[id].info.id == id
    }

    /** The contents of the store behind the handler. */
    ghost function World(): World
      reads backend.Repr()
    {
      match backend
      case OnDisk(fs) => DiskWorld(fs.dir.slots)
      case InMemory(ms) => MemoryWorld((iset id: string | ValidId(id)), ms.state)
    }

    lemma KnowsValidIds(id: string)
      requires Valid()
      ensures World().Knows(id) <==> ValidId(id)
    {
      if backend.OnDisk? {
        backend.fs.dir.SlotsOfValidIds(id);
      }
    }

    /** Every stored record carries the ID it is stored under. */
    lemma RecordIds(id: string)
      requires Valid() && World().Knows(id)
      ensures var info := Protocol.GetInfo(World().Look(id)); info.Ok? ==> info.value.id == id
    {
    }

    /** Partials that were fetched successfully are uploads other than one that is not partial. */
    lemma {:induction false} FetchedAreOthers(id: string, ids: seq<string>)
      requires Valid() && World().Knows(id)
      requires var info := Protocol.GetInfo(World().Look(id)); info.Ok? && !info.value.isPartial
      ensures var r := FetchPartials(World(), ids);
              r.Ok? ==> forall i :: 0 <= i < |r.value| ==> r.value[i].id != id
    {
      if ids != [] && FetchPartials(World(), ids).Ok? {
        FetchedAreOthers(id, ids[..|ids| - 1]);
        RecordIds(ids[|ids| - 1]);
      }
    }

    // ----- the operations of the data store, whichever it is -----

    method GetInfo(id: string) returns (r: Result<UploadInfo>)
      requires Valid() && World().Knows(id)
      ensures r == Protocol.GetInfo(World().Look(id))
    {
      match backend
      case OnDisk(fs) =>
        var found := fs.GetUpload(id);
        if found.Err? {
          return Err(found.error);
        }
        r := fs.ReadInfo(id);
      case InMemory(ms) =>
        r := ms.GetInfo(id);
    }

    method CreateUpload(info: UploadInfo)
      requires Valid() && World().Knows(info.id)
      modifies backend.Repr()
      ensures Valid()
      ensures World() == old(World()).Put(info.id, Protocol.Create(old(World()).Look(info.id), info))
    {
      match backend
      case OnDisk(fs) => var _ := fs.CreateUpload(info);
      case InMemory(ms) => ms.CreateUpload(info);
    }

    method WriteChunk(id: string, offset: U64, body: Body) returns (r: Result<nat>)
      requires Valid() && World().Knows(id)
      modifies backend.Repr()
      ensures Valid()
      ensures World() == old(World()).Put(id, Protocol.WriteChunk(old(World()).Look(id), offset, body).0)
      ensures r == Protocol.WriteChunk(old(World()).Look(id), offset, body).1
    {
      match backend
      case OnDisk(fs) => r := fs.WriteChunk(id, offset, body);
      case InMemory(ms) => r := ms.WriteChunk(id, offset, body);
    }

    method DeclareLength(id: string, n: U64) returns (r: Result<()>)
      requires Valid() && World().Knows(id)
      modifies backend.Repr()
      ensures Valid()
      ensures World() == old(World()).Put(id, Protocol.DeclareLength(old(World()).Look(id), n).0)
      ensures r == Protocol.DeclareLength(old(World()).Look(id), n).1
    {
      match backend
      case OnDisk(fs) => r := fs.DeclareLength(id, n);
      case InMemory(ms) => r := ms.DeclareLength(id, n);
    }

    method Finalize(id: string)
      requires Valid() && World().Knows(id)
      modifies backend.Repr()
      ensures Valid()
      ensures World() == old(World()).Put(id, Protocol.Finalize(old(World()).Look(id)))
    {
      match backend
      case OnDisk(fs) => fs.Finalize(id);
      case InMemory(ms) => assert Update(ms.state, id, Lookup(ms.state, id)) == ms.state;
    }

    method Remove(id: string)
      requires Valid() && World().Knows(id)
      modifies backend.Repr()
      ensures Valid()
      ensures World() == old(World()).Put(id, Protocol.Remove(old(World()).Look(id)))
    {
      match backend
      case OnDisk(fs) => fs.Delete(id);
      case InMemory(ms) => var _ := ms.Delete(id);
    }

    method ReadContent(id: string) returns (r: Result<Bytes>)
      requires Valid() && World().Knows(id)
      ensures r == Protocol.ReadContent(World().Look(id))
    {
      match backend
      case OnDisk(fs) => r := fs.ReadContent(id);
      case InMemory(ms) => r := ms.ReadContent(id);
    }

    method JoinPartials(id: string, partials: seq<UploadInfo>) returns (r: Result<()>)
      requires Valid() && World().Knows(id)
      requires forall i :: 0 <= i < |partials| ==> partials[i].id != id
      modifies backend.Repr()
      ensures Valid()
      ensures World() == old(World()).Put(id, Protocol.Concatenate(old(World()), id, partials).0)
      ensures r == Protocol.Concatenate(old(World()), id, partials).1
    {
      match backend
      case OnDisk(fs) => r := fs.Concatenate(id, partials);
      case InMemory(ms) => r := ms.Concatenate(id, partials);
    }

    // ----- the handlers -----

    /** Seals a complete upload, as both PATCH and POST do after their write. */
    method FinishIfComplete(id: string, finishAccepted: bool) returns (r: Result<U64>)
      requires Valid() && World().Knows(id)
      modifies backend.Repr()
      ensures Valid()
      ensures World() == old(World()).Put(id, Conclude(old(World()).Look(id), finishAccepted).0)
      ensures r == Conclude(old(World()).Look(id), finishAccepted).1
    {
      PutLook(World(), id);
      var read := GetInfo(id);
      if read.Err? {
        return Err(read.error);
      }
      var info := read.value;
      if info.IsComplete() {
        if !finishAccepted {
          return Err(HookRejected);
        }
        Finalize(id);
      }
      return Ok(info.offset);
    }

    /** Declares the length of an upload created without one, if the request carries it. */
    method DeclareFromHeader(info: UploadInfo, length: LengthHeader, id: string) returns (r: Result<()>)
      requires Valid() && World().Knows(id)
      modifies backend.Repr()
      ensures Valid()
      ensures match LengthToDeclare(cfg, info, length)
              case Err(e) => r == Err(e) && World() == old(World())
              case Ok(None) => r == Ok(()) && World() == old(World())
              case Ok(Some(n)) =>
                && r == Protocol.DeclareLength(old(World()).Look(id), n).1
                && World() == old(World()).Put(id, Protocol.DeclareLength(old(World()).Look(id), n).0)
    {
      if info.sizeIsDeferred && info.size.None? {
        if length.BadLength? {
          return Err(InvalidMetadata);
        }
        if length.Length? {
          if cfg.maxSize > 0 && length.n > cfg.maxSize {
            return Err(EntityTooLarge(cfg.maxSize));
          }
          r := DeclareLength(id, length.n);
          return;
        }
      }
      return Ok(());
    }

    /** Writes the chunk and seals the upload if that completes it. */
    method WriteAndFinish(id: string, offset: U64, body: Body, finishAccepted: bool) returns (r: Result<U64>)
      requires Valid() && World().Knows(id)
      modifies backend.Repr()
      ensures Valid()
      ensures World() == old(World()).Put(id, WriteThenConclude(old(World()).Look(id), offset, body, finishAccepted).0)
      ensures r == WriteThenConclude(old(World()).Look(id), offset, body, finishAccepted).1
    {
      ghost var w := World();
      var written := WriteChunk(id, offset, body);
      ghost var st := Protocol.WriteChunk(w.Look(id), offset, body).0;
      PutTwice(w, id, st, st);
      if written.Err? {
        return Err(written.error);
      }
      PutTwice(w, id, st, Conclude(st, finishAccepted).0);
      r := FinishIfComplete(id, finishAccepted);
    }

    /** PATCH from the moment the lock is held. */
    method PatchWhileLocked(req: PatchRequest) returns (r: Result<U64>)
      requires Valid() && World().Knows(req.id) && req.offset.Some?
      modifies backend.Repr()
      ensures Valid()
      ensures World() == old(World()).Put(req.id, PatchLocked(cfg, old(World()).Look(req.id), req).0)
      ensures r == PatchLocked(cfg, old(World()).Look(req.id), req).1
    {
      ghost var w := World();
      PutLook(w, req.id);
      var read := GetInfo(req.id);
      if read.Err? {
        return Err(read.error);
      }
      var info := read.value;
      if info.isFinal {
        return Err(PatchOnFinalUpload);
      }
      if info.offset != req.offset.value {
        return Err(OffsetMismatch(info.offset, req.offset.value));
      }
      if info.ExpiredAt(req.now) {
        return Err(Gone);
      }
      var declared := DeclareFromHeader(info, req.length, req.id);
      if declared.Err? {
        return Err(declared.error);
      }
      ghost var st := World().Look(req.id);
      assert World() == w.Put(req.id, st);
      var payload := Payload(cfg, req.checksum, req.body);
      if payload.Err? {
        return Err(payload.error);
      }
      PutTwice(w, req.id, st, WriteThenConclude(st, req.offset.value, payload.value, req.finishAccepted).0);
      r := WriteAndFinish(req.id, req.offset.value, payload.value, req.finishAccepted);
    }

    method Patch(req: PatchRequest) returns (r: Result<U64>)
      requires Valid()
      modifies backend.Repr()
      ensures Valid()
      ensures (World(), r) == Protocol.Patch(cfg, old(World()), req)
    {
      if !req.versionOk {
        return Err(MissingTusResumable);
      }
      if !req.contentTypeOk {
        return Err(WrongContentType);
      }
      if req.offset.None? {
        return Err(MissingUploadOffset);
      }
      KnowsValidIds(req.id);
      if !ValidId(req.id) {
        return Err(InvalidUploadId);
      }
      if !req.lockGranted {
        return Err(LockTimeout);
      }
      r := PatchWhileLocked(req);
    }

    method Get(req: GetRequest) returns (r: Result<Bytes>)
      requires Valid()
      ensures r == Protocol.Get(cfg, World(), req)
    {
      if !cfg.enableDownload {
        return Err(MethodNotAllowed);
      }
      KnowsValidIds(req.id);
      if !ValidId(req.id) {
        return Err(InvalidUploadId);
      }
      if !req.lockGranted {
        return Err(LockTimeout);
      }
      var read := GetInfo(req.id);
      if read.Err? {
        return Err(read.error);
      }
      if read.value.ExpiredAt(req.now) {
        return Err(Gone);
      }
      if !read.value.IsComplete() {
        return Err(UploadNotReadyForDownload);
      }
      r := ReadContent(req.id);
    }

    method Head(req: HeadRequest) returns (r: Result<(U64, Option<U64>)>)
      requires Valid()
      ensures r == Protocol.Head(World(), req)
    {
      if !req.versionOk {
        return Err(MissingTusResumable);
      }
      KnowsValidIds(req.id);
      if !ValidId(req.id) {
        return Err(InvalidUploadId);
      }
      var read := GetInfo(req.id);
      if read.Err? {
        return Err(read.error);
      }
      if read.value.ExpiredAt(req.now) {
        return Err(Gone);
      }
      return Ok((read.value.offset, read.value.size));
    }

    method Delete(req: DeleteRequest) returns (r: Result<()>)
      requires Valid()
      modifies backend.Repr()
      ensures Valid()
      ensures (World(), r) == Protocol.Delete(cfg, old(World()), req)
    {
      if !req.versionOk {
        return Err(MissingTusResumable);
      }
      if !cfg.termination {
        return Err(ExtensionNotEnabled);
      }
      KnowsValidIds(req.id);
      if !ValidId(req.id) {
        return Err(InvalidUploadId);
      }
      if req.terminateHook.Some? {
        var seen := GetInfo(req.id);
        if seen.Err? {
          return Err(NotFound);
        }
        if !req.terminateHook.value {
          return Err(HookRejected);
        }
      }
      if !req.lockGranted {
        return Err(LockTimeout);
      }
      var found := GetInfo(req.id);
      if found.Err? {
        return Err(NotFound);
      }
      Remove(req.id);
      return Ok(());
    }

    /** The records of the partials, in request order. */
    method FetchPartialInfos(ids: seq<string>) returns (r: Result<seq<UploadInfo>>)
      requires Valid()
      ensures r == FetchPartials(World(), ids)
    {
      var infos: seq<UploadInfo> := [];
      for i := 0 to |ids|
        invariant FetchPartials(World(), ids[..i]) == Ok(infos)
      {
        assert ids[..i + 1][..i] == ids[..i];
        FetchStops(World(), ids, i + 1);
        KnowsValidIds(ids[i]);
        if !ValidId(ids[i]) {
          return Err(InvalidUploadId);
        }
        var read := GetInfo(ids[i]);
        if read.Err? {
          return Err(read.error);
        }
        if !read.value.isPartial {
          return Err(NotPartialUpload);
        }
        if !read.value.IsComplete() {
          return Err(PartialUploadIncomplete);
        }
        infos := infos + [read.value];
      }
      assert ids[..|ids|] == ids;
      return Ok(infos);
    }

    /** POST once the upload exists: the body, if it comes with one, and completion. */
    method FinishPost(req: PostRequest) returns (r: Result<U64>)
      requires Valid() && World().Knows(req.id)
      modifies backend.Repr()
      ensures Valid()
      ensures World() == old(World()).Put(req.id, PostTail(cfg, old(World()).Look(req.id), req).0)
      ensures r == PostTail(cfg, old(World()).Look(req.id), req).1
    {
      if cfg.creationWithUpload && req.octetStream && !req.body.NoBody? {
        r := WriteAndFinish(req.id, 0, req.body, req.finishAccepted);
      } else {
        r := FinishIfComplete(req.id, req.finishAccepted);
      }
    }

    /** POST of a final upload, once its record exists. */
    method PostFinal(req: PostRequest, ids: seq<string>) returns (r: Result<U64>)
      requires Valid() && World().Knows(req.id)
      requires var info := Protocol.GetInfo(World().Look(req.id)); info.Ok? && !info.value.isPartial
      modifies backend.Repr()
      ensures Valid()
      ensures (World(), r) == PostJoined(cfg, old(World()), req, ids)
    {
      ghost var w := World();
      var fetched := FetchPartialInfos(ids);
      if fetched.Err? {
        return Err(fetched.error);
      }
      FetchedAreOthers(req.id, ids);
      var joined := JoinPartials(req.id, fetched.value);
      ghost var st := Protocol.Concatenate(w, req.id, fetched.value).0;
      PutTwice(w, req.id, st, st);
      if joined.Err? {
        return Err(joined.error);
      }
      PutTwice(w, req.id, st, PostTail(cfg, st, req).0);
      r := FinishPost(req);
    }

    method Post(req: PostRequest) returns (r: Result<U64>)
      requires Valid()
      modifies backend.Repr()
      ensures Valid()
      ensures (World(), r) == Protocol.Post(cfg, old(World()), req)
    {
      ghost var w := World();
      KnowsValidIds(req.id);
      var refusal := PostChecks(cfg, req);
      if refusal.Some? {
        return Err(refusal.value);
      }
      if !ValidId(req.id) {
        return Err(InvalidUploadId);
      }
      var info := NewInfo(cfg, req);
      ghost var created := Protocol.Create(w.Look(req.id), info);
      CreateUpload(info);
      PutTwice(w, req.id, created, created);
      if req.concat.FinalConcat? {
        r := PostFinal(req, info.partialUploads);
      } else {
        PutTwice(w, req.id, created, PostTail(cfg, created, req).0);
        r := FinishPost(req);
      }
    }

    /** Routes a request to its handler. */
    method Handle(req: Request) returns (r: Response)
      requires Valid()
      modifies backend.Repr()
      ensures Valid()
      ensures (World(), r) == Step(cfg, old(World()), req)
    {
      match req
      case DoPost(post) => var x := Post(post); r := Offset(x);
      case DoPatch(patch) => var x := Patch(patch); r := Offset(x);
      case DoGet(get) => var x := Get(get); r := Download(x);
      case DoHead(head) => var x := Head(head); r := Status(x);
      case DoDelete(del) => var x := Delete(del); r := Deleted(x);
    }
  }

  /** Writing back what is there changes nothing, and only the last write to an upload counts. */
  lemma PutLook(w: World, id: string)
    requires w.Knows(id)
    ensures w.Put(id, w.Look(id)) == w
  {
  }

  lemma PutTwice(w: World, id: string, st: Store, st': Store)
    requires w.Knows(id) && (w.DiskWorld? <==> st.Disk?) && (w.DiskWorld? <==> st'.Disk?)
    ensures w.Put(id, st).Knows(id) && w.Put(id, st).Look(id) == st
    ensures w.Put(id, st).Put(id, st') == w.Put(id, st')
  {
    if w.DiskWorld? {
      assert w.slots[id := st.slot][id := st'.slot] == w.slots[id := st'.slot];
    } else {
      assert Update(Update(w.entries, id, st.entry), id, st'.entry) == Update(w.entries, id, st'.entry);
    }
  }

  /** An error among the first partials is the result for the whole list. */
  lemma {:induction false} FetchStops(w: World, ids: seq<string>, k: nat)
    requires k <= |ids|
    ensures FetchPartials(w, ids[..k]).Err? ==> FetchPartials(w, ids) == FetchPartials(w, ids[..k])
    decreases |ids| - k
  {
    if k < |ids| {
      FetchStops(w, ids, k + 1);
      assert ids[..k + 1][..k] == ids[..k];
    } else {
      assert ids[..k] == ids;
    }
  }
}
