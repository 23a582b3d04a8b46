/** Runs of requests over a whole store, and the independence of its uploads. */
module Worlds {
  import opened Protocol
  import Slots

  function Run(cfg: Config, w: World, reqs: seq<Request>): World {
    if reqs == [] then w else Step(cfg, Run(cfg, w, reqs[..|reqs| - 1]), reqs[|reqs| - 1]).0
  }

  /** Nothing is stored yet. */
  ghost function EmptyDisk(ids: iset<string>): World {
    DiskWorld(imap id | id in ids :: Slots.EMPTY_SLOT)
  }

  ghost function EmptyMemory(ids: iset<string>): World {
    MemoryWorld(ids, map[])
  }

  lemma PutShows(w: World, id: string, st: Store)
    requires w.Knows(id) && (w.DiskWorld? <==> st.Disk?)
    ensures w.Put(id, st).Knows(id) && w.Put(id, st).Look(id) == st
    ensures w.Put(id, st).DiskWorld? <==> w.DiskWorld?
  {
  }

  lemma PutElsewhere(w: World, id: string, st: Store, other: string)
    requires w.Knows(id) && (w.DiskWorld? <==> st.Disk?) && other != id
    ensures w.Put(id, st).Knows(other) <==> w.Knows(other)
    ensures w.Knows(other) ==> w.Put(id, st).Look(other) == w.Look(other)
  {
  }

  /** The store once a final POST has created its record. */
  function StartedWorld(cfg: Config, w: World, req: PostRequest): World
    requires w.Knows(req.id)
  {
    w.Put(req.id, Create(w.Look(req.id), NewInfo(cfg, req)))
  }

  /** Same uploads, and the same contents of one of them. */
  predicate SameAt(w: World, w': World, id: string) {
    (w'.Knows(id) <==> w.Knows(id)) && (w.Knows(id) ==> w'.Look(id) == w.Look(id))
  }

  lemma PatchElsewhere(cfg: Config, w: World, req: PatchRequest, id: string)
    requires req.id != id
    ensures SameAt(w, Patch(cfg, w, req).0, id)
  {
    if PatchPrelude(w, req).None? {
      PutElsewhere(w, req.id, PatchLocked(cfg, w.Look(req.id), req).0, id);
    }
  }

  lemma PostElsewhere(cfg: Config, w: World, req: PostRequest, id: string)
    requires req.id != id
    ensures SameAt(w, Post(cfg, w, req).0, id)
  {
    if PostChecks(cfg, req).None? && w.Knows(req.id) {
      var created := Create(w.Look(req.id), NewInfo(cfg, req));
      var w1 := w.Put(req.id, created);
      PutShows(w, req.id, created);
      PutElsewhere(w, req.id, created, id);
      if req.concat.FinalConcat? {
        JoinedElsewhere(cfg, w1, req, NewInfo(cfg, req).partialUploads, id);
      } else {
        PutElsewhere(w, req.id, PostTail(cfg, created, req).0, id);
      }
    }
  }

  lemma JoinedElsewhere(cfg: Config, w: World, req: PostRequest, ids: seq<string>, id: string)
    requires req.id != id && w.Knows(req.id)
    ensures SameAt(w, PostJoined(cfg, w, req, ids).0, id)
  {
    if FetchPartials(w, ids).Ok? {
      var joined := Protocol.Concatenate(w, req.id, FetchPartials(w, ids).value);
      PutElsewhere(w, req.id, joined.0, id);
      PutElsewhere(w, req.id, PostTail(cfg, joined.0, req).0, id);
    }
  }

  lemma DeleteElsewhere(cfg: Config, w: World, req: DeleteRequest, id: string)
    requires req.id != id
    ensures SameAt(w, Delete(cfg, w, req).0, id)
  {
    if w.Knows(req.id) {
      PutElsewhere(w, req.id, Remove(w.Look(req.id)), id);
    }
  }

  /** A request to one upload leaves every other as it is. */
  lemma StepElsewhere(cfg: Config, w: World, req: Request, id: string)
    requires req.Id() != id
    ensures SameAt(w, Step(cfg, w, req).0, id)
  {
    match req
    case DoPatch(p) => PatchElsewhere(cfg, w, p, id);
    case DoPost(p) => PostElsewhere(cfg, w, p, id);
    case DoDelete(d) => DeleteElsewhere(cfg, w, d, id);
    case _ =>
  }

  lemma StepStays(cfg: Config, w: World, req: Request)
    ensures Step(cfg, w, req).0.DiskWorld? <==> w.DiskWorld?
  {
  }

  lemma {:induction false} RunStays(cfg: Config, w: World, reqs: seq<Request>)
    ensures Run(cfg, w, reqs).DiskWorld? <==> w.DiskWorld?
  {
    if reqs != [] {
      RunStays(cfg, w, reqs[..|reqs| - 1]);
      StepStays(cfg, Run(cfg, w, reqs[..|reqs| - 1]), reqs[|reqs| - 1]);
    }
  }
}
