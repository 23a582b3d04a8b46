/** The whole server as it is meant to be: one append-only byte string per upload, and what each request does to it. */
module Reference {
  import opened Core
  import opened Seqs
  import opened Slots
  import opened Protocol
  import opened Refinement
  import opened Worlds

  type Uploads = imap<string, Upload>

  // ----- final uploads -----

  /** A completed upload created as a partial. */
  predicate UsablePartial(u: Uploads, id: string) {
    id in u && u[id].Present? && u[id].info.isPartial && u[id].info.IsComplete()
  }

  predicate AllUsable(u: Uploads, ids: seq<string>) {
    forall i :: 0 <= i < |ids| ==> UsablePartial(u, ids[i])
  }

  function PartialContents(u: Uploads, ids: seq<string>): seq<Bytes>
    requires AllUsable(u, ids)
  {
    seq(|ids|, i requires 0 <= i < |ids| => u[ids[i]].content)
  }

  /** The bytes a final upload is meant to hold. */
  function Joined(u: Uploads, ids: seq<string>): Bytes
    requires AllUsable(u, ids)
  {
    Flat(PartialContents(u, ids))
  }

  /** A final upload of the given bytes; its recorded length wraps at 64 bits. */
  function FinalUpload(info: UploadInfo, joined: Bytes): Upload {
    Present(FinalRecord(info, |joined| % (U64_MAX + 1)), joined)
  }

  /** The reference once a POST has created its record. */
  function Started(cfg: Config, u: Uploads, req: PostRequest): Uploads {
    u[req.id := Present(RefRecord(cfg, req), [])]
  }

  /** A final POST creates its record in any case; the bytes come with it if every partial can be used. */
  function RefFinal(cfg: Config, u: Uploads, req: PostRequest, ids: seq<string>): Upload {
    var u1 := Started(cfg, u, req);
    if AllUsable(u1, ids) then FinalUpload(RefRecord(cfg, req), Joined(u1, ids)) else Present(RefRecord(cfg, req), [])
  }

  // ----- one request, and runs -----

  /** What a request does to the reference: at most one upload changes. */
  function RefStep(cfg: Config, u: Uploads, req: Request): Uploads {
    if req.Id() !in u then u
    else
      match req
      case DoGet(_) => u
      case DoHead(_) => u
      case DoPost(p) =>
        if !PostInOrder(cfg, p) then u
        else if p.concat.FinalConcat? then u[p.id := RefFinal(cfg, u, p, p.concat.ids.value)]
        else u[p.id := RefPost(cfg, p)]
      case DoPatch(p) =>
        if p.versionOk && p.contentTypeOk && p.offset.Some? && p.lockGranted then u[p.id := RefPatch(cfg, u[p.id], p)] else u
      case DoDelete(d) =>
        if d.versionOk && cfg.termination && d.terminateHook != Some(false) && d.lockGranted then u[d.id := Absent] else u
  }

  function RefRun(cfg: Config, u: Uploads, reqs: seq<Request>): Uploads {
    if reqs == [] then u else RefStep(cfg, RefRun(cfg, u, reqs[..|reqs| - 1]), reqs[|reqs| - 1])
  }

  ghost function NoUploads(ids: iset<string>): Uploads {
    imap id | id in ids :: Absent
  }

  // ----- the accepted chunks -----

  /** The chunks of one upload after one more request: begun anew by a POST, added to by an accepted PATCH. */
  function ChunksAfter(cfg: Config, u: Uploads, req: Request, chunks: seq<Bytes>): seq<Bytes>
    requires req.Id() in u
  {
    match req
    case DoPost(p) =>
      if !PostInOrder(cfg, p) then chunks
      else if p.concat.FinalConcat? then
        var u1 := Started(cfg, u, p);
        if AllUsable(u1, p.concat.ids.value) then PartialContents(u1, p.concat.ids.value) else []
      else if PostBringsBody(cfg, p) then [p.body.bytes] else []
    case DoPatch(p) =>
      if p.versionOk && p.contentTypeOk && p.offset.Some? && p.lockGranted && u[p.id].Present?
         && RefAccepts(cfg, u[p.id].info, p)
      then chunks + [p.body.bytes] else chunks
    case _ => chunks
  }

  /** The chunks accepted for an upload since it was last created, in the order of their requests. */
  function Chunks(cfg: Config, u: Uploads, reqs: seq<Request>, id: string): seq<Bytes> {
    if reqs == [] then []
    else
      var before, last := reqs[..|reqs| - 1], reqs[|reqs| - 1];
      var chunks := Chunks(cfg, u, before, id);
      if last.Id() != id || id !in RefRun(cfg, u, before) then chunks
      else ChunksAfter(cfg, RefRun(cfg, u, before), last, chunks)
  }

  lemma StepAppends(cfg: Config, u: Uploads, req: Request, chunks: seq<Bytes>)
    requires req.Id() in u && (u[req.Id()].Present? ==> u[req.Id()].content == Flat(chunks))
    ensures var after := RefStep(cfg, u, req)[req.Id()];
            after.Present? ==> after.content == Flat(ChunksAfter(cfg, u, req, chunks))
  {
    match req
    case DoPatch(p) => FlatSnoc(chunks, p.body.GetBytes());
    case DoPost(p) => FlatSingle(p.body.GetBytes());
    case _ =>
  }

  /** After any run the reference holds, of every upload, exactly its accepted chunks, end to end. */
  lemma {:induction false} ContentIsChunks(cfg: Config, ids: iset<string>, reqs: seq<Request>, id: string)
    ensures var u := RefRun(cfg, NoUploads(ids), reqs);
            id in u && u[id].Present? ==> u[id].content == Flat(Chunks(cfg, NoUploads(ids), reqs, id))
  {
    if reqs != [] {
      var before, last := reqs[..|reqs| - 1], reqs[|reqs| - 1];
      ContentIsChunks(cfg, ids, before, id);
      var u := RefRun(cfg, NoUploads(ids), before);
      if last.Id() == id && id in u {
        StepAppends(cfg, u, last, Chunks(cfg, NoUploads(ids), before, id));
      }
    }
  }

  // ----- a store and the reference -----

  /** The store has the upload exactly as the reference has it, well formed and filed under its own ID. */
  ghost predicate Shows(w: World, u: Uploads, id: string) {
    && (w.Knows(id) <==> id in u)
    && (id in u ==>
          && StoreInv(w.Look(id)) && Abs(w.Look(id)) == u[id]
          && (u[id].Present? ==> u[id].info.id == id))
  }

  /** The store has the record of the upload as the reference has it; nothing is said about the bytes. */
  ghost predicate ShowsRecord(w: World, u: Uploads, id: string) {
    && (w.Knows(id) <==> id in u)
    && (id in u ==> GetInfo(w.Look(id)) == if u[id].Present? then Ok(u[id].info) else Err(NotFound))
  }

  /** The store has all these records as the reference has them, and the usable partials among them altogether. */
  ghost predicate Fetchable(w: World, u: Uploads, ids: seq<string>) {
    forall i :: 0 <= i < |ids| ==>
      ShowsRecord(w, u, ids[i]) && (UsablePartial(u, ids[i]) ==> Shows(w, u, ids[i]))
  }

  ghost predicate ShowsAll(w: World, u: Uploads, ids: seq<string>) {
    forall i :: 0 <= i < |ids| ==> Shows(w, u, ids[i])
  }

  /** The same for a whole set of uploads; nothing is said about any other. */
  ghost predicate Represents(w: World, u: Uploads, ids: iset<string>) {
    forall id :: id in ids ==> Shows(w, u, id)
  }

  lemma EmptyShows(ids: iset<string>, id: string)
    ensures Shows(EmptyDisk(ids), NoUploads(ids), id)
    ensures Shows(EmptyMemory(ids), NoUploads(ids), id)
  {
  }
}
