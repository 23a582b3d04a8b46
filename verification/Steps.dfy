/**
 * The handlers that work under the lock, cut into steps that each touch one file of the part store. A step reads or
 * writes what is on disk at that moment; everything else a handler knows is in its program counter. Writing a file is
 * not one step: it is emptied first, and its bytes arrive one by one. An emptied or half-written record cannot be read,
 * so it counts as no record.
 */
module Steps {
  import opened Core
  import opened Seqs
  import opened Slots
  import opened Protocol

  datatype Job = PatchJob(patch: PatchRequest) | GetJob(get: GetRequest) | DeleteJob(del: DeleteRequest)
  {
    function Id(): string {
      match this
      case PatchJob(p) => p.id
      case GetJob(g) => g.id
      case DeleteJob(d) => d.id
    }

    /** The request passed the checks that come before the lock. */
    predicate Admitted() {
      PatchJob? ==> patch.offset.Some?
    }
  }

  datatype Pc =
    | Begin
    | Opened                                              // the record exists
    | Gated(info: UploadInfo)                             // the record was read and nothing speaks against the request
    | Declaring(record: UploadInfo)                       // about to write the declared length
    | Redeclaring(record: UploadInfo)                     // the record is emptied and being written
    | LengthKnown                                         // nothing (more) to declare
    | Verified                                            // the body matches its checksum
    | Planned(record: UploadInfo)                         // write_chunk read the record and checked the bounds
    | Counted(record: UploadInfo, index: U32)             // the parts were counted
    | Filling(record: UploadInfo, index: U32, rest: Bytes)   // the new part lacks the rest
    | Stored(record: UploadInfo)                          // the new part is on disk
    | Rewriting(record: UploadInfo)                       // the record is emptied and being written
    | Recorded                                            // the record carries the new offset
    | Finishing(offset: U64)                              // complete, and the hook agrees
    | Listed(parts: seq<U32>, offset: U64)                // the parts were listed
    | Copying(parts: seq<U32>, k: nat, offset: U64)       // k parts are in the final object
    | Appending(parts: seq<U32>, k: nat, rest: Bytes, offset: U64)   // and part k but for the rest
    | Removing(parts: seq<U32>, k: nat, reply: Response)  // k parts are gone
    | DataGone
    | InfoGone
    | Finished(answer: Response)
  {
    predicate Completing() {
      Finishing? || Listed? || Copying? || Appending? || Removing?
    }
  }

  function Phase(pc: Pc): nat {
    match pc
    case Begin => 19
    case Opened => 18
    case Gated(_) => 17
    case Declaring(_) => 16
    case Redeclaring(_) => 15
    case LengthKnown => 14
    case Verified => 13
    case Planned(_) => 12
    case Counted(_, _) => 11
    case Filling(_, _, _) => 10
    case Stored(_) => 9
    case Rewriting(_) => 8
    case Recorded => 7
    case Finishing(_) => 6
    case Listed(_, _) => 5
    case DataGone => 4
    case InfoGone => 3
    case Copying(_, _, _) => 2
    case Appending(_, _, _, _) => 2
    case Removing(_, _, _) => 1
    case Finished(_) => 0
  }

  /** Parts left to copy, counted twice, or to remove. */
  function Left(pc: Pc): nat {
    match pc
    case Copying(parts, k, _) => if k <= |parts| then 2 * (|parts| - k) + 1 else 0
    case Appending(parts, k, _, _) => if k <= |parts| then 2 * (|parts| - k) else 0
    case Removing(parts, k, _) => if k <= |parts| then |parts| - k else 0
    case _ => 0
  }

  /** Bytes left to write. */
  function Rest(pc: Pc): nat {
    match pc
    case Filling(_, _, rest) => |rest|
    case Appending(_, _, rest, _) => |rest|
    case _ => 0
  }

  predicate Before(pc': Pc, pc: Pc) {
    || Phase(pc') < Phase(pc)
    || (Phase(pc') == Phase(pc) && Left(pc') < Left(pc))
    || (Phase(pc') == Phase(pc) && Left(pc') == Left(pc) && Rest(pc') < Rest(pc))
  }

  function Failed(job: Job, e: TusError): Pc {
    Finished(match job case PatchJob(_) => Offset(Err(e)) case GetJob(_) => Download(Err(e)) case DeleteJob(_) => Deleted(Err(e)))
  }

  function AfterRecord(cfg: Config, req: PatchRequest, info: UploadInfo): Pc
    requires req.offset.Some?
  {
    var refusal, length := Refusal(info, req.offset.value, req.now), LengthToDeclare(cfg, info, req.length);
    if refusal.Some? then Finished(Offset(Err(refusal.value)))
    else if length.Err? then Finished(Offset(Err(length.error)))
    else if length.value.Some? then Gated(info)
    else LengthKnown
  }

  /** One step of a PATCH. */
  function PatchStep(cfg: Config, req: PatchRequest, s: Slot, pc: Pc): (r: (Slot, Pc))
    requires req.offset.Some? && !pc.Finished?
    ensures Before(r.1, pc)
  {
    var job := PatchJob(req);
    if pc.Completing() then SealStep(s, pc) else
    match pc
    case Begin => (s, if s.info.None? then Failed(job, NotFound) else Opened)
    case Opened => (s, if s.info.None? then Failed(job, NotFound) else AfterRecord(cfg, req, s.info.value))
    case Gated(info) =>
      if s.info.None? then (s, Failed(job, Io))
      else if s.info.value.size.Some? then (s, Failed(job, UploadLengthAlreadySet))
      else
        var length := LengthToDeclare(cfg, info, req.length);
        if length.Ok? && length.value.Some?
        then (s, Declaring(s.info.value.(size := length.value, sizeIsDeferred := false)))
        else (s, LengthKnown)
    case Declaring(record) => (s.(info := None), Redeclaring(record))
    case Redeclaring(record) => (s.(info := Some(record)), LengthKnown)
    case LengthKnown =>
      var payload := Payload(cfg, req.checksum, req.body);
      (s, if payload.Err? then Failed(job, payload.error) else Verified)
    case Verified =>
      var plan := PlanChunk(s, req.offset.value, req.body);
      (s, if plan.Err? then Failed(job, plan.error) else Planned(plan.value))
    case Planned(record) => (s, Counted(record, NextIndex(s)))
    case Counted(record, index) => (s.(parts := s.parts[index := []]), Filling(record, index, req.body.GetBytes()))
    case Filling(record, index, rest) =>
      if rest == [] then (s, Stored(record))
      else if index !in s.parts then (s, Failed(job, Io))
      else (s.(parts := s.parts[index := s.parts[index] + [rest[0]]]), Filling(record, index, rest[1..]))
    case Stored(record) => (s.(info := None), Rewriting(record))
    case Rewriting(record) => (s.(info := Some(record)), Recorded)
    case Recorded =>
      (s, if s.info.None? then Failed(job, Io)
          else if !s.info.value.IsComplete() then Finished(Offset(Ok(s.info.value.offset)))
          else if !req.finishAccepted then Failed(job, HookRejected)
          else Finishing(s.info.value.offset))
    case _ => (s, Failed(job, Internal))
  }

  /** One step of completing an upload. */
  function SealStep(s: Slot, pc: Pc): (r: (Slot, Pc))
    requires !pc.Finished?
    ensures Before(r.1, pc)
  {
    match pc
    case Finishing(offset) => (s, Listed(PartIndices(s), offset))
    case Listed(parts, offset) => (s.(data := Some([])), Copying(parts, 0, offset))
    case Copying(parts, k, offset) =>
      if k >= |parts| then (s, Removing(parts, 0, Offset(Ok(offset))))
      else if parts[k] !in s.parts then (s, Finished(Offset(Err(Io))))
      else (s, Appending(parts, k, s.parts[parts[k]], offset))
    case Appending(parts, k, rest, offset) =>
      if k >= |parts| || s.data.None? then (s, Finished(Offset(Err(Io))))
      else if rest == [] then (s, Copying(parts, k + 1, offset))
      else (s.(data := Some(s.data.value + [rest[0]])), Appending(parts, k, rest[1..], offset))
    case Removing(parts, k, reply) => RemoveStep(s, parts, k, reply)
    case _ => (s, Finished(Offset(Err(Internal))))
  }

  function RemoveStep(s: Slot, parts: seq<U32>, k: nat, reply: Response): (r: (Slot, Pc))
    ensures Before(r.1, Removing(parts, k, reply))
  {
    if k >= |parts| then (s, Finished(reply)) else (s.(parts := s.parts - {parts[k]}), Removing(parts, k + 1, reply))
  }

  /** One step of a DELETE: the final object, the record, then part after part. */
  function DeleteStep(s: Slot, pc: Pc): (r: (Slot, Pc))
    requires !pc.Finished?
    ensures Before(r.1, pc)
  {
    match pc
    case Begin => (s, if s.info.None? then Finished(Deleted(Err(NotFound))) else Opened)
    case Opened => (s.(data := None), DataGone)
    case DataGone => (s.(info := None), InfoGone)
    case InfoGone => (s, Removing(PartIndices(s), 0, Deleted(Ok(()))))
    case Removing(parts, k, reply) => RemoveStep(s, parts, k, reply)
    case _ => (s, Finished(Deleted(Err(Internal))))
  }

  /** One step of a GET; it only reads. */
  function GetStep(req: GetRequest, s: Slot, pc: Pc): (r: (Slot, Pc))
    requires !pc.Finished?
    ensures Before(r.1, pc)
  {
    match pc
    case Begin => (s, if s.info.None? then Finished(Download(Err(NotFound))) else Opened)
    case Opened =>
      (s, if s.info.None? then Finished(Download(Err(NotFound)))
          else if s.info.value.ExpiredAt(req.now) then Finished(Download(Err(Gone)))
          else if !s.info.value.IsComplete() then Finished(Download(Err(UploadNotReadyForDownload)))
          else Verified)
    case Verified => (s, Finished(Download(Slots.ReadContent(s))))
    case _ => (s, Finished(Download(Err(Internal))))
  }

  function LocalStep(cfg: Config, job: Job, s: Slot, pc: Pc): (r: (Slot, Pc))
    requires job.Admitted() && !pc.Finished?
    ensures Before(r.1, pc)
  {
    match job
    case PatchJob(p) => PatchStep(cfg, p, s, pc)
    case GetJob(g) => GetStep(g, s, pc)
    case DeleteJob(_) => DeleteStep(s, pc)
  }

  /** What becomes of the upload, and what is answered, if the handler runs on undisturbed. */
  function RunToEnd(cfg: Config, job: Job, s: Slot, pc: Pc): (Slot, Response)
    requires job.Admitted()
    decreases Phase(pc), Left(pc), Rest(pc)
  {
    if pc.Finished? then (s, pc.answer)
    else
      var (s', pc') := LocalStep(cfg, job, s, pc);
      RunToEnd(cfg, job, s', pc')
  }

  /** The whole handler as one operation. */
  function BigStep(cfg: Config, job: Job, s: Slot): (Slot, Response)
    requires job.Admitted()
  {
    match job
    case PatchJob(p) => var (st, r) := PatchLocked(cfg, Disk(s), p); (st.slot, Offset(r))
    case GetJob(g) => (s, Download(GetLocked(Disk(s), g.now)))
    case DeleteJob(_) =>
      if s.info.None? then (s, Deleted(Err(NotFound))) else (EMPTY_SLOT, Deleted(Ok(())))
  }

  lemma StepTo(cfg: Config, job: Job, s: Slot, pc: Pc, s': Slot, pc': Pc)
    requires job.Admitted() && !pc.Finished? && LocalStep(cfg, job, s, pc) == (s', pc')
    ensures RunToEnd(cfg, job, s, pc) == RunToEnd(cfg, job, s', pc')
  {
  }

  lemma {:induction false} RemovingEnds(cfg: Config, job: Job, parts: map<U32, Bytes>, s: Slot, q: seq<U32>, k: nat, reply: Response)
    requires job.Admitted() && !job.GetJob? && k <= |q| && s.parts == Without(parts, q[..k])
    ensures RunToEnd(cfg, job, s, Removing(q, k, reply)) == (s.(parts := Without(parts, q)), reply)
    decreases |q| - k
  {
    if k < |q| {
      WithoutNext(parts, q, k);
      RemovingEnds(cfg, job, parts, s.(parts := s.parts - {q[k]}), q, k + 1, reply);
    } else {
      assert q[..k] == q;
    }
  }

  lemma {:induction false} AppendingEnds(cfg: Config, req: PatchRequest, s: Slot, q: seq<U32>, k: nat, rest: Bytes, offset: U64)
    requires req.offset.Some? && k < |q| && s.data.Some?
    ensures RunToEnd(cfg, PatchJob(req), s, Appending(q, k, rest, offset))
         == RunToEnd(cfg, PatchJob(req), s.(data := Some(s.data.value + rest)), Copying(q, k + 1, offset))
    decreases |rest|
  {
    var job := PatchJob(req);
    if rest == [] {
      assert s.data.value + rest == s.data.value;
      assert s.(data := Some(s.data.value + rest)) == s;
      StepTo(cfg, job, s, Appending(q, k, rest, offset), s, Copying(q, k + 1, offset));
    } else {
      var s' := s.(data := Some(s.data.value + [rest[0]]));
      assert s'.data.value + rest[1..] == s.data.value + rest;
      StepTo(cfg, job, s, Appending(q, k, rest, offset), s', Appending(q, k, rest[1..], offset));
      AppendingEnds(cfg, req, s', q, k, rest[1..], offset);
    }
  }

  lemma {:induction false} CopyingEnds(cfg: Config, req: PatchRequest, s: Slot, q: seq<U32>, k: nat, offset: U64)
    requires req.offset.Some? && k <= |q| && (forall i :: i in q ==> i in s.parts)
    requires s.data == Some(Flat(Pick(s.parts, q)[..k]))
    ensures RunToEnd(cfg, PatchJob(req), s, Copying(q, k, offset))
         == (s.(data := Some(Flat(Pick(s.parts, q))), parts := Without(s.parts, q)), Offset(Ok(offset)))
    decreases |q| - k
  {
    PickNext(s.parts, q, k);
    if k < |q| {
      assert q[k] in q;
      var rest := s.parts[q[k]];
      StepTo(cfg, PatchJob(req), s, Copying(q, k, offset), s, Appending(q, k, rest, offset));
      AppendingEnds(cfg, req, s, q, k, rest, offset);
      CopyingEnds(cfg, req, s.(data := Some(s.data.value + rest)), q, k + 1, offset);
    } else {
      assert q[..0] == [];
      WithoutAll(s);
      RemovingEnds(cfg, PatchJob(req), s.parts, s, q, 0, Offset(Ok(offset)));
    }
  }

  /** From the moment the record carries the new offset, the rest of a PATCH is its completion. */
  lemma RecordedEnds(cfg: Config, req: PatchRequest, s: Slot)
    requires req.offset.Some? && s.info.Some?
    ensures var (st, r) := Conclude(Disk(s), req.finishAccepted);
            RunToEnd(cfg, PatchJob(req), s, Recorded) == (st.slot, Offset(r))
  {
    if s.info.value.IsComplete() && req.finishAccepted {
      var s1 := s.(data := Some([]));
      assert PartIndices(s1) == PartIndices(s);
      CopyingEnds(cfg, req, s1, PartIndices(s), 0, s.info.value.offset);
      WithoutAll(s);
      var offset := s.info.value.offset;
      StepTo(cfg, PatchJob(req), s, Recorded, s, Finishing(offset));
      StepTo(cfg, PatchJob(req), s, Finishing(offset), s, Listed(PartIndices(s), offset));
      StepTo(cfg, PatchJob(req), s, Listed(PartIndices(s), offset), s1, Copying(PartIndices(s), 0, offset));
    }
  }

  lemma {:induction false} FillingEnds(cfg: Config, req: PatchRequest, s: Slot, record: UploadInfo, index: U32, rest: Bytes)
    requires req.offset.Some? && index in s.parts
    ensures RunToEnd(cfg, PatchJob(req), s, Filling(record, index, rest))
         == RunToEnd(cfg, PatchJob(req), s.(parts := s.parts[index := s.parts[index] + rest]), Stored(record))
    decreases |rest|
  {
    var job := PatchJob(req);
    if rest == [] {
      assert s.parts[index] + rest == s.parts[index];
      assert s.parts[index := s.parts[index] + rest] == s.parts;
      StepTo(cfg, job, s, Filling(record, index, rest), s, Stored(record));
    } else {
      var s' := s.(parts := s.parts[index := s.parts[index] + [rest[0]]]);
      assert s'.parts[index] + rest[1..] == s.parts[index] + rest;
      assert s'.parts[index := s'.parts[index] + rest[1..]] == s.parts[index := s.parts[index] + rest];
      StepTo(cfg, job, s, Filling(record, index, rest), s', Filling(record, index, rest[1..]));
      FillingEnds(cfg, req, s', record, index, rest[1..]);
    }
  }

  lemma PartWritten(cfg: Config, req: PatchRequest, s: Slot, record: UploadInfo, index: U32)
    requires req.offset.Some?
    ensures RunToEnd(cfg, PatchJob(req), s, Counted(record, index))
         == RunToEnd(cfg, PatchJob(req), s.(parts := s.parts[index := req.body.GetBytes()]), Stored(record))
  {
    var bytes := req.body.GetBytes();
    var s' := s.(parts := s.parts[index := []]);
    StepTo(cfg, PatchJob(req), s, Counted(record, index), s', Filling(record, index, bytes));
    FillingEnds(cfg, req, s', record, index, bytes);
    FilledFromEmpty(s.parts, index, bytes);
  }

  lemma FilledFromEmpty(parts: map<U32, Bytes>, index: U32, bytes: Bytes)
    ensures var emptied := parts[index := []];
            emptied[index := emptied[index] + bytes] == parts[index := bytes]
  {
    assert [] + bytes == bytes;
  }

  lemma RecordWritten(cfg: Config, req: PatchRequest, s: Slot, record: UploadInfo)
    requires req.offset.Some?
    ensures RunToEnd(cfg, PatchJob(req), s, Stored(record))
         == RunToEnd(cfg, PatchJob(req), s.(info := Some(record)), Recorded)
  {
    StepTo(cfg, PatchJob(req), s, Stored(record), s.(info := None), Rewriting(record));
    StepTo(cfg, PatchJob(req), s.(info := None), Rewriting(record), s.(info := Some(record)), Recorded);
  }

  lemma VerifiedEnds(cfg: Config, req: PatchRequest, s: Slot)
    requires req.offset.Some? && s.info.Some?
    ensures var (st, r) := WriteThenConclude(Disk(s), req.offset.value, req.body, req.finishAccepted);
            RunToEnd(cfg, PatchJob(req), s, Verified) == (st.slot, Offset(r))
  {
    var plan := PlanChunk(s, req.offset.value, req.body);
    if plan.Ok? {
      var job := PatchJob(req);
      var s1 := s.(parts := s.parts[NextIndex(s) := req.body.bytes]);
      var s2 := s1.(info := Some(plan.value));
      StepTo(cfg, job, s, Verified, s, Planned(plan.value));
      StepTo(cfg, job, s, Planned(plan.value), s, Counted(plan.value, NextIndex(s)));
      PartWritten(cfg, req, s, plan.value, NextIndex(s));
      RecordWritten(cfg, req, s1, plan.value);
      RecordedEnds(cfg, req, s2);
    }
  }

  lemma LengthKnownEnds(cfg: Config, req: PatchRequest, s: Slot)
    requires req.offset.Some? && s.info.Some?
    ensures var payload := Payload(cfg, req.checksum, req.body);
            var (st, r) := WriteThenConclude(Disk(s), req.offset.value, req.body, req.finishAccepted);
            RunToEnd(cfg, PatchJob(req), s, LengthKnown) ==
               (if payload.Err? then (s, Offset(Err(payload.error))) else (st.slot, Offset(r)))
  {
    VerifiedEnds(cfg, req, s);
  }

  lemma DeclaringEnds(cfg: Config, req: PatchRequest, s: Slot, info: UploadInfo, record: UploadInfo)
    requires req.offset.Some? && s.info == Some(info) && info.size.None?
    requires var length := LengthToDeclare(cfg, info, req.length);
             length.Ok? && length.value.Some? && record == info.(size := length.value, sizeIsDeferred := false)
    ensures RunToEnd(cfg, PatchJob(req), s, Gated(info))
         == RunToEnd(cfg, PatchJob(req), s.(info := Some(record)), LengthKnown)
  {
    var job := PatchJob(req);
    StepTo(cfg, job, s, Gated(info), s, Declaring(record));
    StepTo(cfg, job, s, Declaring(record), s.(info := None), Redeclaring(record));
    StepTo(cfg, job, s.(info := None), Redeclaring(record), s.(info := Some(record)), LengthKnown);
  }

  lemma PatchEnds(cfg: Config, req: PatchRequest, s: Slot)
    requires req.offset.Some?
    ensures RunToEnd(cfg, PatchJob(req), s, Begin) == BigStep(cfg, PatchJob(req), s)
  {
    if s.info.Some? {
      var job, info := PatchJob(req), s.info.value;
      StepTo(cfg, job, s, Begin, s, Opened);
      StepTo(cfg, job, s, Opened, s, AfterRecord(cfg, req, info));
      if Refusal(info, req.offset.value, req.now).None? && LengthToDeclare(cfg, info, req.length).Ok? {
        var declared := LengthToDeclare(cfg, info, req.length).value;
        if declared.Some? {
          var record := info.(size := Some(declared.value), sizeIsDeferred := false);
          DeclaringEnds(cfg, req, s, info, record);
          LengthKnownEnds(cfg, req, s.(info := Some(record)));
        } else {
          LengthKnownEnds(cfg, req, s);
        }
      }
    }
  }

  lemma DeleteEnds(cfg: Config, del: DeleteRequest, s: Slot)
    ensures RunToEnd(cfg, DeleteJob(del), s, Begin) == BigStep(cfg, DeleteJob(del), s)
  {
    if s.info.Some? {
      var job := DeleteJob(del);
      var s1 := s.(data := None);
      var s2 := s1.(info := None);
      StepTo(cfg, job, s, Begin, s, Opened);
      StepTo(cfg, job, s, Opened, s1, DataGone);
      StepTo(cfg, job, s1, DataGone, s2, InfoGone);
      InfoGoneEnds(cfg, del, s2);
    }
  }

  lemma InfoGoneEnds(cfg: Config, del: DeleteRequest, s: Slot)
    ensures RunToEnd(cfg, DeleteJob(del), s, InfoGone) == (s.(parts := map[]), Deleted(Ok(())))
  {
    var (job, q, reply) := (DeleteJob(del), PartIndices(s), Deleted(Ok(())));
    StepTo(cfg, job, s, InfoGone, s, Removing(q, 0, reply));
    WithoutAll(s);
    assert q[..0] == [];
    RemovingEnds(cfg, job, s.parts, s, q, 0, reply);
  }

  /** Run undisturbed, the steps of each handler amount to the handler. */
  lemma StepsAmountToHandler(cfg: Config, job: Job, s: Slot)
    requires job.Admitted()
    ensures RunToEnd(cfg, job, s, Begin) == BigStep(cfg, job, s)
  {
    match job
    case PatchJob(p) => PatchEnds(cfg, p, s);
    case DeleteJob(d) => DeleteEnds(cfg, d, s);
    case GetJob(g) =>
      if s.info.Some? {
        assert LocalStep(cfg, job, s, Begin) == (s, Opened);
        var next := LocalStep(cfg, job, s, Opened);
        if next.1.Verified? {
          assert LocalStep(cfg, job, s, Verified) == (s, Finished(Download(Slots.ReadContent(s))));
        }
      }
  }
}
