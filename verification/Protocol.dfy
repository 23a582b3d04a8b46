/**
 * The request handlers as functions. A `Store` is one upload as one of the two stores keeps it; a `World` is a whole
 * store. Each handler maps the state before to the state after and a response, in the order in which the code reads,
 * checks and writes.
 */
module Protocol {
  import opened Core
  import opened Slots
  import opened Entries
  import FileStores

  datatype Algorithm = Sha1 | Sha256 | Md5

  datatype Config = Config(
    creation: bool,
    creationWithUpload: bool,
    creationDeferLength: bool,
    expirationTtl: Option<nat>,
    checksum: bool,
    termination: bool,
    concatenation: bool,
    maxSize: U64,
    enableDownload: bool,
    digest: (Algorithm, Bytes) -> Bytes)

  datatype LengthHeader = NoLength | BadLength | Length(n: U64)

  /** What can be wrong with a checksum header: its form or base64, or the algorithm it names. */
  type ChecksumHeaderError = e: TusError | e == InvalidMetadata || e == UnsupportedChecksumAlgorithm witness InvalidMetadata

  /** The Upload-Checksum header: absent, not printable, not parseable, or parsed. */
  datatype ChecksumHeader =
    NoChecksum | UnprintableChecksum | BadChecksum(error: ChecksumHeaderError) | Checksum(alg: Algorithm, expected: Bytes)

  /** The Upload-Concat header; a final one carries the partial IDs parsed from its URLs. */
  datatype ConcatHeader = NoConcat | PartialConcat | FinalConcat(ids: Result<seq<string>>)

  datatype PatchRequest = PatchRequest(
    id: string,
    versionOk: bool,
    contentTypeOk: bool,
    offset: Option<U64>,
    length: LengthHeader,
    checksum: ChecksumHeader,
    body: Body,
    now: int,
    lockGranted: bool,
    finishAccepted: bool)

  datatype PostRequest = PostRequest(
    id: string,
    versionOk: bool,
    concat: ConcatHeader,
    length: LengthHeader,
    defer: bool,
    metadataOk: bool,
    octetStream: bool,
    body: Body,
    now: int,
    createAccepted: bool,
    finishAccepted: bool)

  datatype GetRequest = GetRequest(id: string, now: int, lockGranted: bool)

  datatype HeadRequest = HeadRequest(id: string, versionOk: bool, now: int)

  /** `terminateHook` is the verdict of the pre-terminate hook, when one is configured. */
  datatype DeleteRequest = DeleteRequest(id: string, versionOk: bool, terminateHook: Option<bool>, lockGranted: bool)

  datatype Store = Disk(slot: Slot) | Memory(entry: Option<Entry>)

  /** `slots` has a slot for every valid ID; `ids` is the set of valid IDs. */
  datatype World = DiskWorld(slots: imap<string, Slot>) | MemoryWorld(ids: iset<string>, entries: map<string, Entry>)
  {
    predicate Knows(id: string) {
      if DiskWorld? then id in slots else id in ids
    }

    function Look(id: string): Store
      requires Knows(id)
    {
      if DiskWorld? then Disk(slots[id]) else Memory(Lookup(entries, id))
    }

    function Put(id: string, st: Store): World
      requires DiskWorld? <==> st.Disk?
    {
      if DiskWorld? then DiskWorld(slots[id := st.slot]) else MemoryWorld(ids, Update(entries, id, st.entry))
    }
  }

  // ----- the store operations, dispatched on the store -----

  function GetInfo(st: Store): Result<UploadInfo> {
    match st
    case Disk(s) => (match s.info case Some(info) => Ok(info) case None => Err(NotFound))
    case Memory(e) => (match e case Some(entry) => Ok(entry.info) case None => Err(NotFound))
  }

  function Create(st: Store, info: UploadInfo): Store {
    match st
    case Disk(s) => Disk(s.(info := Some(info)))
    case Memory(_) => Memory(Some(Entry(info, [])))
  }

  function WriteChunk(st: Store, offset: U64, body: Body): (Store, Result<nat>) {
    match st
    case Disk(s) => var (s', r) := Slots.WriteChunk(s, offset, body); (Disk(s'), r)
    case Memory(e) => var (e', r) := Entries.WriteChunk(e, offset, body); (Memory(e'), r)
  }

  function DeclareLength(st: Store, n: U64): (Store, Result<()>) {
    match st
    case Disk(s) => var (s', r) := Slots.DeclareLength(s, n); (Disk(s'), r)
    case Memory(e) => var (e', r) := Entries.DeclareLength(e, n); (Memory(e'), r)
  }

  function Finalize(st: Store): Store {
    match st
    case Disk(s) => Disk(Slots.Finalize(s))
    case Memory(_) => st
  }

  function Remove(st: Store): Store {
    match st
    case Disk(_) => Disk(EMPTY_SLOT)
    case Memory(_) => Memory(None)
  }

  function ReadContent(st: Store): Result<Bytes> {
    match st
    case Disk(s) => Slots.ReadContent(s)
    case Memory(e) => Entries.ReadContent(e)
  }

  // ----- PATCH -----

  function PatchPrelude(w: World, req: PatchRequest): Option<TusError> {
    if !req.versionOk then Some(MissingTusResumable)
    else if !req.contentTypeOk then Some(WrongContentType)
    else if req.offset.None? then Some(MissingUploadOffset)
    else if !w.Knows(req.id) then Some(InvalidUploadId)
    else if !req.lockGranted then Some(LockTimeout)
    else None
  }

  /** The checks on the stored record before anything is written. */
  function Refusal(info: UploadInfo, offset: U64, now: int): Option<TusError> {
    if info.isFinal then Some(PatchOnFinalUpload)
    else if info.offset != offset then Some(OffsetMismatch(info.offset, offset))
    else if info.ExpiredAt(now) then Some(Gone)
    else None
  }

  /** The length that the request declares for an upload created without one. */
  function LengthToDeclare(cfg: Config, info: UploadInfo, length: LengthHeader): Result<Option<U64>> {
    if !(info.sizeIsDeferred && info.size.None?) then Ok(None)
    else
      match length
      case NoLength => Ok(None)
      case BadLength => Err(InvalidMetadata)
      case Length(n) => if cfg.maxSize > 0 && n > cfg.maxSize then Err(EntityTooLarge(cfg.maxSize)) else Ok(Some(n))
  }

  /** The body to write, once the checksum header has been dealt with. */
  function Payload(cfg: Config, checksum: ChecksumHeader, body: Body): Result<Body> {
    if !checksum.NoChecksum? && !cfg.checksum then Err(ExtensionNotEnabled)
    else if checksum.BadChecksum? then Err(checksum.error)
    else if body.NoBody? then Err(Internal)
    else if checksum.Checksum? then
      if body.BrokenBody? then Err(Io)
      else if cfg.digest(checksum.alg, body.bytes) == checksum.expected then Ok(body) else Err(ChecksumMismatch)
    else Ok(body)
  }

  /** After a write: report the new offset, and seal the upload if it is complete and the hook agrees. */
  function Conclude(st: Store, finishAccepted: bool): (Store, Result<U64>) {
    match GetInfo(st)
    case Err(e) => (st, Err(e))
    case Ok(info) =>
      if !info.IsComplete() then (st, Ok(info.offset))
      else if !finishAccepted then (st, Err(HookRejected))
      else (Finalize(st), Ok(info.offset))
  }

  function WriteThenConclude(st: Store, offset: U64, body: Body, finishAccepted: bool): (Store, Result<U64>) {
    var (st', written) := WriteChunk(st, offset, body);
    match written
    case Err(e) => (st', Err(e))
    case Ok(_) => Conclude(st', finishAccepted)
  }

  /** The PATCH handler from the moment it holds the lock. */
  function PatchLocked(cfg: Config, st: Store, req: PatchRequest): (Store, Result<U64>)
    requires req.offset.Some?
  {
    match GetInfo(st)
    case Err(e) => (st, Err(e))
    case Ok(info) =>
      match Refusal(info, req.offset.value, req.now)
      case Some(e) => (st, Err(e))
      case None =>
        match LengthToDeclare(cfg, info, req.length)
        case Err(e) => (st, Err(e))
        case Ok(declared) =>
          var st1 := if declared.Some? then DeclareLength(st, declared.value).0 else st;
          match Payload(cfg, req.checksum, req.body)
          case Err(e) => (st1, Err(e))
          case Ok(body) => WriteThenConclude(st1, req.offset.value, body, req.finishAccepted)
  }

  function Patch(cfg: Config, w: World, req: PatchRequest): (World, Result<U64>) {
    match PatchPrelude(w, req)
    case Some(e) => (w, Err(e))
    case None =>
      var (st, r) := PatchLocked(cfg, w.Look(req.id), req);
      (w.Put(req.id, st), r)
  }

  // ----- GET, HEAD, DELETE -----

  function GetLocked(st: Store, now: int): Result<Bytes> {
    match GetInfo(st)
    case Err(e) => Err(e)
    case Ok(info) =>
      if info.ExpiredAt(now) then Err(Gone)
      else if !info.IsComplete() then Err(UploadNotReadyForDownload)
      else ReadContent(st)
  }

  /** What HEAD reports: the offset and, once known, the length. It takes no lock. */
  function HeadUnlocked(st: Store, now: int): Result<(U64, Option<U64>)> {
    match GetInfo(st)
    case Err(e) => Err(e)
    case Ok(info) => if info.ExpiredAt(now) then Err(Gone) else Ok((info.offset, info.size))
  }

  function Head(w: World, req: HeadRequest): Result<(U64, Option<U64>)> {
    if !req.versionOk then Err(MissingTusResumable)
    else if !w.Knows(req.id) then Err(InvalidUploadId)
    else HeadUnlocked(w.Look(req.id), req.now)
  }

  function Get(cfg: Config, w: World, req: GetRequest): Result<Bytes> {
    if !cfg.enableDownload then Err(MethodNotAllowed)
    else if !w.Knows(req.id) then Err(InvalidUploadId)
    else if !req.lockGranted then Err(LockTimeout)
    else GetLocked(w.Look(req.id), req.now)
  }

  function Delete(cfg: Config, w: World, req: DeleteRequest): (World, Result<()>) {
    if !req.versionOk then (w, Err(MissingTusResumable))
    else if !cfg.termination then (w, Err(ExtensionNotEnabled))
    else if !w.Knows(req.id) then (w, Err(InvalidUploadId))
    else if req.terminateHook.Some? && GetInfo(w.Look(req.id)).Err? then (w, Err(NotFound))
    else if req.terminateHook == Some(false) then (w, Err(HookRejected))
    else if !req.lockGranted then (w, Err(LockTimeout))
    else DeleteLocked(w, req.id)
  }

  function DeleteLocked(w: World, id: string): (World, Result<()>)
    requires w.Knows(id)
  {
    if GetInfo(w.Look(id)).Err? then (w, Err(NotFound)) else (w.Put(id, Remove(w.Look(id))), Ok(()))
  }

  // ----- POST -----

  /** The checks a POST makes on the request alone. */
  function PostChecks(cfg: Config, req: PostRequest): Option<TusError> {
    if !req.versionOk then Some(MissingTusResumable)
    else if !cfg.creation then Some(ExtensionNotEnabled)
    else if req.concat.FinalConcat? && !cfg.concatenation then Some(ExtensionNotEnabled)
    else if req.length.BadLength? then Some(InvalidMetadata)
    else if req.length.NoLength? && !req.defer && !req.concat.FinalConcat? then Some(MissingUploadLength)
    else if req.defer && !cfg.creationDeferLength then Some(ExtensionNotEnabled)
    else if req.length.Length? && cfg.maxSize > 0 && req.length.n > cfg.maxSize then Some(EntityTooLarge(cfg.maxSize))
    else if !req.metadataOk then Some(InvalidMetadata)
    else if req.concat.FinalConcat? && req.concat.ids.Err? then Some(req.concat.ids.error)
    else if !req.createAccepted then Some(HookRejected)
    else None
  }

  /** The record a POST creates. */
  function NewInfo(cfg: Config, req: PostRequest): UploadInfo {
    UploadInfo(
      req.id,
      if req.length.Length? then Some(req.length.n) else None,
      0,
      req.defer,
      if cfg.expirationTtl.Some? then Some(req.now + cfg.expirationTtl.value) else None,
      req.concat.PartialConcat?,
      req.concat.FinalConcat?,
      if req.concat.FinalConcat? && req.concat.ids.Ok? then req.concat.ids.value else [])
  }

  /** The rest of POST once the upload exists: creation-with-upload, then completion. */
  function PostTail(cfg: Config, st: Store, req: PostRequest): (Store, Result<U64>) {
    if cfg.creationWithUpload && req.octetStream && !req.body.NoBody? then
      WriteThenConclude(st, 0, req.body, req.finishAccepted)
    else Conclude(st, req.finishAccepted)
  }

  /** Records of the partials in request order; the first unusable one is the error. */
  function FetchPartials(w: World, ids: seq<string>): (r: Result<seq<UploadInfo>>)
    ensures r.Ok? ==> |r.value| == |ids|
  {
    if ids == [] then Ok([])
    else
      var before := FetchPartials(w, ids[..|ids| - 1]);
      var id := ids[|ids| - 1];
      if before.Err? then before
      else if !w.Knows(id) then Err(InvalidUploadId)
      else
        match GetInfo(w.Look(id))
        case Err(e) => Err(e)
        case Ok(info) =>
          if !info.isPartial then Err(NotPartialUpload)
          else if !info.IsComplete() then Err(PartialUploadIncomplete)
          else Ok(before.value + [info])
  }

  function Concatenate(w: World, id: string, partials: seq<UploadInfo>): (Store, Result<()>)
    requires w.Knows(id)
  {
    match w
    case DiskWorld(slots) =>
      var (s, r) := Slots.Concatenate(slots[id], FileStores.Sources(slots, partials), SizesTotal(partials));
      (Disk(s), r)
    case MemoryWorld(_, entries) =>
      var (e, r) := Entries.Concatenate(Lookup(entries, id), Entries.Sources(entries, partials));
      (Memory(e), r)
  }

  /** POST of a final upload, once its record exists: fetch the partials, join them, finish. */
  function PostJoined(cfg: Config, w: World, req: PostRequest, ids: seq<string>): (World, Result<U64>)
    requires w.Knows(req.id)
  {
    match FetchPartials(w, ids)
    case Err(e) => (w, Err(e))
    case Ok(partials) =>
      var (joined, done) := Concatenate(w, req.id, partials);
      if done.Err? then (w.Put(req.id, joined), Err(done.error))
      else
        var (st, r) := PostTail(cfg, joined, req);
        (w.Put(req.id, st), r)
  }

  function Post(cfg: Config, w: World, req: PostRequest): (World, Result<U64>) {
    match PostChecks(cfg, req)
    case Some(e) => (w, Err(e))
    case None =>
      if !w.Knows(req.id) then (w, Err(InvalidUploadId))
      else
        var created := Create(w.Look(req.id), NewInfo(cfg, req));
        if req.concat.FinalConcat? then
          PostJoined(cfg, w.Put(req.id, created), req, NewInfo(cfg, req).partialUploads)
        else
          var (st, r) := PostTail(cfg, created, req);
          (w.Put(req.id, st), r)
  }

  // ----- any request -----

  datatype Request =
    | DoPost(post: PostRequest)
    | DoPatch(patch: PatchRequest)
    | DoGet(get: GetRequest)
    | DoHead(head: HeadRequest)
    | DoDelete(del: DeleteRequest)
  {
    function Id(): string {
      match this
      case DoPost(p) => p.id
      case DoPatch(p) => p.id
      case DoGet(g) => g.id
      case DoHead(h) => h.id
      case DoDelete(d) => d.id
    }
  }

  datatype Response =
    | Offset(offset: Result<U64>)
    | Download(content: Result<Bytes>)
    | Status(status: Result<(U64, Option<U64>)>)
    | Deleted(done: Result<()>)

  function Step(cfg: Config, w: World, req: Request): (World, Response) {
    match req
    case DoPost(p) => var (w', r) := Post(cfg, w, p); (w', Offset(r))
    case DoPatch(p) => var (w', r) := Patch(cfg, w, p); (w', Offset(r))
    case DoGet(g) => (w, Download(Get(cfg, w, g)))
    case DoHead(h) => (w, Status(Head(w, h)))
    case DoDelete(d) => var (w', r) := Delete(cfg, w, d); (w', Deleted(r))
  }
}
