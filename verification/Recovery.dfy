/**
 * Crash points. Between any two file accesses of any interleaving, the bytes that an upload's record vouches for can be
 * read back, from the parts in index order or from the final object: parts are stored before the record counts them,
 * and removed only after the final object holds them all. The record itself is rewritten in place, so while that lasts the
 * bytes are there but nothing says how many.
 */
module Recovery {
  import opened Core
  import opened Seqs
  import opened Slots
  import opened Protocol
  import opened Refinement
  import opened Steps
  import opened Interleaving
  import opened Concurrency

  /**
   * What a recovery reads, given how many bytes there should be: the final object if it is that long, and otherwise as
   * many bytes of the parts.
   */
  function RecoveredAt(s: Slot, offset: nat): Bytes {
    if s.data.Some? && |s.data.value| == offset then s.data.value
    else PartBytes(s)[..if offset <= |PartBytes(s)| then offset else |PartBytes(s)|]
  }

  /** The same from what is on disk alone: the record says how many bytes there should be. */
  function Recovered(s: Slot): Bytes {
    RecoveredAt(s, if s.info.Some? then s.info.value.offset else 0)
  }

  /** The PATCH meets a well-formed upload and is not one of those that reopen a sealed one. */
  predicate Clean(cfg: Config, start: Slot, req: PatchRequest) {
    && SlotInv(start) && HasRoom(Disk(start)) && req.offset.Some?
    && !ReopensSealed(cfg, Disk(start), req)
  }

  predicate Accepts(cfg: Config, start: Slot, req: PatchRequest)
    requires req.offset.Some?
  {
    start.info.Some? && RefAccepts(cfg, start.info.value, req)
  }

  /** The upload's bytes; none if there is no upload. */
  function Content(s: Slot): Bytes {
    match Abs(Disk(s))
    case Present(_, content) => content
    case Absent => []
  }

  /** The slot with some bytes in the new part. */
  function WithPart(start: Slot, bytes: Bytes): Slot {
    start.(parts := start.parts[NextIndex(start) := bytes])
  }

  function AllParts(start: Slot, req: PatchRequest): map<U32, Bytes> {
    WithPart(start, req.body.GetBytes()).parts
  }

  function NewRecord(cfg: Config, start: Slot, req: PatchRequest): UploadInfo
    requires req.offset.Some? && Accepts(cfg, start, req)
  {
    var info := RefDeclare(cfg, start.info.value, req.length);
    info.(offset := info.offset + |req.body.bytes|)
  }

  predicate Cleared(cfg: Config, start: Slot, req: PatchRequest)
    requires req.offset.Some?
  {
    && start.info.Some? && Refusal(start.info.value, req.offset.value, req.now).None?
    && LengthToDeclare(cfg, start.info.value, req.length).Ok?
  }

  /** The new part and the new record are on disk; k parts and the beginning of the next are in the final object. */
  predicate Copied(cfg: Config, req: PatchRequest, start: Slot, s: Slot, q: seq<U32>, k: nat, rest: Bytes)
    requires req.offset.Some?
  {
    && Accepts(cfg, start, req) && s.parts == AllParts(start, req) && s.info == Some(NewRecord(cfg, start, req))
    && q == PartIndices(s) && k <= |q| && s.data.Some?
    && s.data.value + rest == Flat(Pick(s.parts, q)[..k])
  }

  predicate HasDeclared(cfg: Config, start: Slot, s: Slot, req: PatchRequest) {
    start.info.Some? && s.info == Some(RefDeclare(cfg, start.info.value, req.length))
  }

  predicate Untorn(cfg: Config, start: Slot, s: Slot, req: PatchRequest)
    requires req.offset.Some?
  {
    s.parts == start.parts && s.data == start.data && HasDeclared(cfg, start, s, req) && Cleared(cfg, start, req)
  }

  /** The new part is on disk, whole or in part. */
  predicate Parted(cfg: Config, req: PatchRequest, start: Slot, s: Slot, bytes: Bytes)
    requires req.offset.Some?
  {
    Accepts(cfg, start, req) && s.parts == WithPart(start, bytes).parts && s.data == start.data
  }

  /** Where a PATCH can be before it records its chunk, and what is on disk then. */
  predicate MidWrite(cfg: Config, req: PatchRequest, start: Slot, s: Slot, pc: Pc)
    requires req.offset.Some?
  {
    match pc
    case Begin => s == start
    case Opened => s == start
    case Gated(info) => s == start && Cleared(cfg, start, req) && info == start.info.value
    case Declaring(record) =>
      s == start && Cleared(cfg, start, req) && record == RefDeclare(cfg, start.info.value, req.length)
    case Redeclaring(record) =>
      && s == start.(info := None) && Cleared(cfg, start, req)
      && record == RefDeclare(cfg, start.info.value, req.length)
    case LengthKnown => Untorn(cfg, start, s, req)
    case Verified => Untorn(cfg, start, s, req) && Payload(cfg, req.checksum, req.body).Ok?
    case Planned(record) => Untorn(cfg, start, s, req) && Accepts(cfg, start, req) && record == NewRecord(cfg, start, req)
    case Counted(record, index) =>
      && Untorn(cfg, start, s, req) && Accepts(cfg, start, req) && record == NewRecord(cfg, start, req)
      && index == NextIndex(start)
    case Filling(record, index, rest) =>
      && index == NextIndex(start) && index in s.parts && s.parts[index] + rest == req.body.GetBytes()
      && Parted(cfg, req, start, s, s.parts[index]) && HasDeclared(cfg, start, s, req) && record == NewRecord(cfg, start, req)
    case Stored(record) =>
      && Parted(cfg, req, start, s, req.body.GetBytes()) && HasDeclared(cfg, start, s, req)
      && record == NewRecord(cfg, start, req)
    case Rewriting(record) =>
      Parted(cfg, req, start, s, req.body.GetBytes()) && s.info.None? && record == NewRecord(cfg, start, req)
    case _ => false
  }

  predicate WithRecord(cfg: Config, req: PatchRequest, start: Slot, s: Slot)
    requires req.offset.Some?
  {
    Parted(cfg, req, start, s, req.body.GetBytes()) && s.info == Some(NewRecord(cfg, start, req))
  }

  predicate Assembled(cfg: Config, req: PatchRequest, start: Slot, s: Slot)
    requires req.offset.Some?
  {
    && Accepts(cfg, start, req) && s.info == Some(NewRecord(cfg, start, req))
    && s.data == Some(PartBytes(WithPart(start, req.body.GetBytes())))
  }

  /** Where it can be from then on. */
  predicate MidSeal(cfg: Config, req: PatchRequest, start: Slot, s: Slot, pc: Pc)
    requires req.offset.Some?
  {
    match pc
    case Recorded => WithRecord(cfg, req, start, s)
    case Finishing(_) => WithRecord(cfg, req, start, s)
    case Listed(q, _) => WithRecord(cfg, req, start, s) && q == PartIndices(s)
    case Copying(q, k, _) => Copied(cfg, req, start, s, q, k, [])
    case Appending(q, k, rest, _) => k < |q| && Copied(cfg, req, start, s, q, k + 1, rest)
    case Removing(_, _, _) => Assembled(cfg, req, start, s)
    case Finished(_) =>
      || (s.parts == start.parts && s.data == start.data && SeenOffset(s) == SeenOffset(start))
      || WithRecord(cfg, req, start, s) || Assembled(cfg, req, start, s)
    case _ => false
  }

  predicate Mid(cfg: Config, req: PatchRequest, start: Slot, s: Slot, pc: Pc)
    requires req.offset.Some?
  {
    MidWrite(cfg, req, start, s, pc) || MidSeal(cfg, req, start, s, pc)
  }

  // ----- the steps keep it -----

  lemma CopyNext(cfg: Config, req: PatchRequest, start: Slot, s: Slot, q: seq<U32>, k: nat)
    requires req.offset.Some? && Copied(cfg, req, start, s, q, k, []) && k < |q|
    ensures q[k] in s.parts && Copied(cfg, req, start, s, q, k + 1, s.parts[q[k]])
  {
    PickNext(s.parts, q, k);
    assert q[k] in q;
    assert s.data.value + [] == s.data.value;
  }

  lemma AppendNext(cfg: Config, req: PatchRequest, start: Slot, s: Slot, q: seq<U32>, k: nat, rest: Bytes)
    requires req.offset.Some? && Copied(cfg, req, start, s, q, k, rest) && rest != []
    ensures Copied(cfg, req, start, s.(data := Some(s.data.value + [rest[0]])), q, k, rest[1..])
  {
    assert (s.data.value + [rest[0]]) + rest[1..] == s.data.value + rest;
    SameParts(s, s.(data := Some(s.data.value + [rest[0]])));
  }

  lemma CopyDone(cfg: Config, req: PatchRequest, start: Slot, s: Slot, q: seq<U32>)
    requires req.offset.Some? && Copied(cfg, req, start, s, q, |q|, [])
    ensures Assembled(cfg, req, start, s)
  {
    PickNext(s.parts, q, |q|);
    SameParts(s, WithPart(start, req.body.GetBytes()));
    assert s.data.value + [] == s.data.value;
  }

  lemma CopyBegins(cfg: Config, req: PatchRequest, start: Slot, s: Slot)
    requires req.offset.Some? && WithRecord(cfg, req, start, s)
    ensures Copied(cfg, req, start, s.(data := Some([])), PartIndices(s), 0, [])
  {
    SameParts(s, s.(data := Some([])));
  }

  /** What the step that looks for the next part to copy does. */
  lemma CopyingGoesOn(s: Slot, q: seq<U32>, k: nat, offset: U64)
    ensures k < |q| && q[k] in s.parts ==>
      SealStep(s, Copying(q, k, offset)) == (s, Appending(q, k, s.parts[q[k]], offset))
    ensures k >= |q| ==> SealStep(s, Copying(q, k, offset)) == (s, Removing(q, 0, Offset(Ok(offset))))
  {
  }

  lemma CopyingStep(cfg: Config, req: PatchRequest, start: Slot, s: Slot, q: seq<U32>, k: nat, offset: U64)
    requires req.offset.Some? && Copied(cfg, req, start, s, q, k, [])
    ensures var r := SealStep(s, Copying(q, k, offset)); MidSeal(cfg, req, start, r.0, r.1)
  {
    CopyingGoesOn(s, q, k, offset);
    if k < |q| {
      CopyNext(cfg, req, start, s, q, k);
      assert MidSeal(cfg, req, start, s, Appending(q, k, s.parts[q[k]], offset));
    } else {
      CopyDone(cfg, req, start, s, q);
      assert MidSeal(cfg, req, start, s, Removing(q, 0, Offset(Ok(offset))));
    }
  }

  lemma AppendingStep(cfg: Config, req: PatchRequest, start: Slot, s: Slot, q: seq<U32>, k: nat, rest: Bytes, offset: U64)
    requires req.offset.Some? && k < |q| && Copied(cfg, req, start, s, q, k + 1, rest)
    ensures var r := SealStep(s, Appending(q, k, rest, offset)); MidSeal(cfg, req, start, r.0, r.1)
  {
    if rest != [] {
      AppendNext(cfg, req, start, s, q, k + 1, rest);
    }
  }

  lemma RemovingStep(cfg: Config, req: PatchRequest, start: Slot, s: Slot, q: seq<U32>, k: nat, reply: Response)
    requires req.offset.Some? && Assembled(cfg, req, start, s)
    ensures var r := SealStep(s, Removing(q, k, reply)); MidSeal(cfg, req, start, r.0, r.1)
  {
  }

  lemma SealMidStep(cfg: Config, req: PatchRequest, start: Slot, s: Slot, pc: Pc)
    requires req.offset.Some? && pc.Completing() && MidSeal(cfg, req, start, s, pc)
    ensures var r := SealStep(s, pc); MidSeal(cfg, req, start, r.0, r.1)
  {
    match pc
    case Finishing(offset) => assert SealStep(s, pc) == (s, Listed(PartIndices(s), offset));
    case Listed(q, offset) =>
      CopyBegins(cfg, req, start, s);
      assert SealStep(s, pc) == (s.(data := Some([])), Copying(q, 0, offset));
    case Copying(q, k, offset) => CopyingStep(cfg, req, start, s, q, k, offset);
    case Appending(q, k, rest, offset) => AppendingStep(cfg, req, start, s, q, k, rest, offset);
    case Removing(q, k, reply) => RemovingStep(cfg, req, start, s, q, k, reply);
  }

  lemma FillNext(cfg: Config, req: PatchRequest, start: Slot, s: Slot, record: UploadInfo, index: U32, rest: Bytes)
    requires req.offset.Some? && MidWrite(cfg, req, start, s, Filling(record, index, rest)) && rest != []
    ensures var s' := s.(parts := s.parts[index := s.parts[index] + [rest[0]]]);
            MidWrite(cfg, req, start, s', Filling(record, index, rest[1..]))
  {
    var bytes := s.parts[index] + [rest[0]];
    assert bytes + rest[1..] == s.parts[index] + rest;
    assert s.parts[index := bytes] == start.parts[index := bytes];
  }

  lemma FillDone(cfg: Config, req: PatchRequest, start: Slot, s: Slot, record: UploadInfo, index: U32)
    requires req.offset.Some? && MidWrite(cfg, req, start, s, Filling(record, index, []))
    ensures MidWrite(cfg, req, start, s, Stored(record))
  {
    assert s.parts[index] + [] == s.parts[index];
  }

  lemma RecordMidStep(cfg: Config, req: PatchRequest, start: Slot, s: Slot, pc: Pc)
    requires req.offset.Some? && (Untouched(pc) || pc.Redeclaring?) && MidWrite(cfg, req, start, s, pc)
    ensures var r := PatchStep(cfg, req, s, pc); Mid(cfg, req, start, r.0, r.1)
  {
  }

  lemma PlanMidStep(cfg: Config, req: PatchRequest, start: Slot, s: Slot, pc: Pc)
    requires req.offset.Some? && (pc.LengthKnown? || pc.Verified? || pc.Planned?) && MidWrite(cfg, req, start, s, pc)
    ensures var r := PatchStep(cfg, req, s, pc); Mid(cfg, req, start, r.0, r.1)
  {
    if pc.LengthKnown? || pc.Verified? {
      GateMidStep(cfg, req, start, s, pc);
    } else {
      SameParts(s, start);
    }
  }

  lemma GateMidStep(cfg: Config, req: PatchRequest, start: Slot, s: Slot, pc: Pc)
    requires req.offset.Some? && (pc.LengthKnown? || pc.Verified?) && MidWrite(cfg, req, start, s, pc)
    ensures var r := PatchStep(cfg, req, s, pc); Mid(cfg, req, start, r.0, r.1)
  {
  }

  lemma FillMidStep(cfg: Config, req: PatchRequest, start: Slot, s: Slot, record: UploadInfo, index: U32, rest: Bytes)
    requires req.offset.Some? && MidWrite(cfg, req, start, s, Filling(record, index, rest))
    ensures var r := PatchStep(cfg, req, s, Filling(record, index, rest)); Mid(cfg, req, start, r.0, r.1)
  {
    if rest == [] {
      FillDone(cfg, req, start, s, record, index);
      assert PatchStep(cfg, req, s, Filling(record, index, rest)) == (s, Stored(record));
    } else {
      FillNext(cfg, req, start, s, record, index, rest);
    }
  }

  lemma ChunkMidStep(cfg: Config, req: PatchRequest, start: Slot, s: Slot, pc: Pc)
    requires req.offset.Some? && (pc.Counted? || pc.Stored? || pc.Rewriting?) && MidWrite(cfg, req, start, s, pc)
    ensures var r := PatchStep(cfg, req, s, pc); Mid(cfg, req, start, r.0, r.1)
  {
    assert [] + req.body.GetBytes() == req.body.GetBytes();
  }

  lemma RecordedMidStep(cfg: Config, req: PatchRequest, start: Slot, s: Slot)
    requires req.offset.Some? && WithRecord(cfg, req, start, s)
    ensures var r := PatchStep(cfg, req, s, Recorded); Mid(cfg, req, start, r.0, r.1)
  {
  }

  lemma WriteMidStep(cfg: Config, req: PatchRequest, start: Slot, s: Slot, pc: Pc)
    requires req.offset.Some? && !pc.Finished? && MidWrite(cfg, req, start, s, pc)
    ensures var r := PatchStep(cfg, req, s, pc); Mid(cfg, req, start, r.0, r.1)
  {
    if Untouched(pc) || pc.Redeclaring? {
      RecordMidStep(cfg, req, start, s, pc);
    } else if pc.LengthKnown? || pc.Verified? || pc.Planned? {
      PlanMidStep(cfg, req, start, s, pc);
    } else if pc.Filling? {
      FillMidStep(cfg, req, start, s, pc.record, pc.index, pc.rest);
    } else {
      ChunkMidStep(cfg, req, start, s, pc);
    }
  }

  lemma MidStep(cfg: Config, req: PatchRequest, start: Slot, s: Slot, pc: Pc)
    requires req.offset.Some? && !pc.Finished? && Mid(cfg, req, start, s, pc)
    ensures var r := LocalStep(cfg, PatchJob(req), s, pc); Mid(cfg, req, start, r.0, r.1)
  {
    if MidWrite(cfg, req, start, s, pc) {
      WriteMidStep(cfg, req, start, s, pc);
    } else if pc.Recorded? {
      RecordedMidStep(cfg, req, start, s);
    } else {
      SealMidStep(cfg, req, start, s, pc);
      assert PatchStep(cfg, req, s, pc) == SealStep(s, pc);
    }
  }

  // ----- what can be read back -----

  lemma PartAppended(cfg: Config, req: PatchRequest, start: Slot, bytes: Bytes)
    requires Clean(cfg, start, req) && Accepts(cfg, start, req)
    ensures PartBytes(WithPart(start, bytes)) == Content(start) + bytes
    ensures start.data.Some? ==> start.data.value == [] && Content(start) == [] && req.body.bytes == []
  {
    if Sealed(start) {
      SealedAcceptsOnlyEmpty(cfg, start, req);
      NoParts(start);
    }
    NextPartAppends(start, bytes);
  }

  lemma StartRecovered(start: Slot)
    requires SlotInv(start) && start.info.Some?
    ensures |Content(start)| == start.info.value.offset && RecoveredAt(start, |Content(start)|) == Content(start)
  {
  }

  lemma SameRecovered(s: Slot, s': Slot, n: nat)
    requires s.parts == s'.parts && s.data == s'.data
    ensures RecoveredAt(s, n) == RecoveredAt(s', n)
  {
    SameParts(s, s');
  }

  /** A part that is not counted yet, whole or in part, does not disturb the bytes that are. */
  lemma PartedRecovered(cfg: Config, req: PatchRequest, start: Slot, s: Slot, bytes: Bytes)
    requires Clean(cfg, start, req) && Parted(cfg, req, start, s, bytes)
    ensures RecoveredAt(s, |Content(start)|) == Content(start)
    ensures bytes == req.body.bytes ==> RecoveredAt(s, |Content(start)| + |bytes|) == Content(start) + bytes
  {
    PartAppended(cfg, req, start, bytes);
    SameParts(s, WithPart(start, bytes));
  }

  /** A half-copied final object is told from a whole one by its length. */
  lemma CopiedRecovered(cfg: Config, req: PatchRequest, start: Slot, s: Slot, q: seq<U32>, k: nat, rest: Bytes)
    requires Clean(cfg, start, req) && Copied(cfg, req, start, s, q, k, rest)
    ensures RecoveredAt(s, |Content(start) + req.body.bytes|) == Content(start) + req.body.bytes
  {
    PartAppended(cfg, req, start, req.body.bytes);
    SameParts(s, WithPart(start, req.body.bytes));
    FlatIsPrefix(Pick(s.parts, q), k);
    assert s.data.value <= Flat(Pick(s.parts, q)[..k]);
    assert s.data.value <= PartBytes(s);
  }

  lemma AssembledRecovered(cfg: Config, req: PatchRequest, start: Slot, s: Slot)
    requires Clean(cfg, start, req) && Assembled(cfg, req, start, s)
    ensures RecoveredAt(s, |Content(start) + req.body.bytes|) == Content(start) + req.body.bytes
  {
    PartAppended(cfg, req, start, req.body.bytes);
  }

  /** The old bytes can be read back, and the record stands for them or is being written. */
  predicate HoldsOld(start: Slot, s: Slot, torn: bool) {
    && RecoveredAt(s, |Content(start)|) == Content(start)
    && (if torn then s.info.None? && start.info.Some? else SeenOffset(s) == SeenOffset(start))
  }

  /** The old and the new bytes can be read back, and the record stands for them. */
  predicate HoldsNew(cfg: Config, start: Slot, s: Slot, req: PatchRequest)
    requires req.offset.Some?
  {
    && Accepts(cfg, start, req) && SeenOffset(s) == Some(NewRecord(cfg, start, req).offset)
    && RecoveredAt(s, |Content(start) + req.body.bytes|) == Content(start) + req.body.bytes
  }

  lemma MidWriteRecoverable(cfg: Config, req: PatchRequest, start: Slot, s: Slot, pc: Pc)
    requires Clean(cfg, start, req) && MidWrite(cfg, req, start, s, pc)
    ensures HoldsOld(start, s, Torn(pc))
  {
    if pc.Filling? || pc.Stored? || pc.Rewriting? {
      PartHoldsOld(cfg, req, start, s, pc);
    } else {
      SameHoldsOld(cfg, req, start, s, pc);
    }
  }

  lemma PartHoldsOld(cfg: Config, req: PatchRequest, start: Slot, s: Slot, pc: Pc)
    requires Clean(cfg, start, req) && MidWrite(cfg, req, start, s, pc) && (pc.Filling? || pc.Stored? || pc.Rewriting?)
    ensures HoldsOld(start, s, Torn(pc))
  {
    PartedRecovered(cfg, req, start, s, if pc.Filling? then s.parts[pc.index] else req.body.GetBytes());
  }

  lemma SameHoldsOld(cfg: Config, req: PatchRequest, start: Slot, s: Slot, pc: Pc)
    requires Clean(cfg, start, req) && MidWrite(cfg, req, start, s, pc) && !pc.Filling? && !pc.Stored? && !pc.Rewriting?
    ensures HoldsOld(start, s, Torn(pc))
  {
    NotWrittenYet(cfg, req, start, s, pc);
    WellFormedRecovered(start);
    SameRecovered(s, start, |Content(start)|);
  }

  lemma NotWrittenYet(cfg: Config, req: PatchRequest, start: Slot, s: Slot, pc: Pc)
    requires req.offset.Some? && MidWrite(cfg, req, start, s, pc) && !pc.Filling? && !pc.Stored? && !pc.Rewriting?
    ensures s.parts == start.parts && s.data == start.data
    ensures if Torn(pc) then s.info.None? && start.info.Some? else SeenOffset(s) == SeenOffset(start)
  {
  }

  lemma MidSealRecoverable(cfg: Config, req: PatchRequest, start: Slot, s: Slot, pc: Pc)
    requires Clean(cfg, start, req) && MidSeal(cfg, req, start, s, pc)
    ensures HoldsOld(start, s, false) || HoldsNew(cfg, start, s, req)
  {
    if pc.Copying? || pc.Appending? {
      MidCopyRecoverable(cfg, req, start, s, pc);
    } else if WithRecord(cfg, req, start, s) {
      PartedRecovered(cfg, req, start, s, req.body.bytes);
    } else if Assembled(cfg, req, start, s) {
      AssembledRecovered(cfg, req, start, s);
    } else {
      SameRecovered(s, start, |Content(start)|);
    }
  }

  lemma MidCopyRecoverable(cfg: Config, req: PatchRequest, start: Slot, s: Slot, pc: Pc)
    requires Clean(cfg, start, req) && MidSeal(cfg, req, start, s, pc) && (pc.Copying? || pc.Appending?)
    ensures HoldsOld(start, s, false) || HoldsNew(cfg, start, s, req)
  {
    if pc.Copying? {
      CopiedRecovered(cfg, req, start, s, pc.parts, pc.k, []);
    } else {
      CopiedRecovered(cfg, req, start, s, pc.parts, pc.k + 1, pc.rest);
    }
  }

  /**
   * At every point of a PATCH the old bytes, or the old and the new, can be read back, and the record says which; only
   * while the record itself is being written there is none to say so.
   */
  lemma MidRecoverable(cfg: Config, req: PatchRequest, start: Slot, s: Slot, pc: Pc)
    requires Clean(cfg, start, req) && Mid(cfg, req, start, s, pc)
    ensures HoldsOld(start, s, Torn(pc)) || (!Torn(pc) && HoldsNew(cfg, start, s, req))
  {
    if MidWrite(cfg, req, start, s, pc) {
      MidWriteRecoverable(cfg, req, start, s, pc);
    } else {
      MidSealRecoverable(cfg, req, start, s, pc);
    }
  }

  // ----- DELETE -----

  /** Where a DELETE can be, and what is on disk then. */
  predicate MidDelete(start: Slot, s: Slot, pc: Pc) {
    match pc
    case Begin => s == start
    case Opened => s == start && start.info.Some?
    case DataGone => s == start.(data := None) && start.info.Some?
    case InfoGone => s.data.None? && s.info.None? && start.info.Some?
    case Removing(_, _, _) => s.data.None? && s.info.None? && start.info.Some?
    case Finished(_) => if start.info.None? then s == start else s.data.None? && s.info.None?
    case _ => false
  }

  /** A DELETE has removed the data and not yet the record, which goes on vouching for it. */
  predicate Gutted(start: Slot, pc: Pc) {
    pc.DataGone? && start.data.Some? && start.data.value != []
  }

  // ----- any task -----

  /** A PATCH has room for its part and is not one of those that reopen a sealed upload; other tasks are always clean. */
  predicate CleanJob(cfg: Config, job: Job, s: Slot) {
    job.PatchJob? ==> job.patch.offset.Some? && HasRoom(Disk(s)) && !ReopensSealed(cfg, Disk(s), job.patch)
  }

  predicate MidJob(cfg: Config, job: Job, start: Slot, s: Slot, pc: Pc) {
    && SlotInv(start) && CleanJob(cfg, job, start)
    && match job
       case PatchJob(req) => Mid(cfg, req, start, s, pc)
       case GetJob(_) => s == start && !pc.DataGone?
       case DeleteJob(_) => MidDelete(start, s, pc)
  }

  lemma MidJobStep(cfg: Config, job: Job, start: Slot, s: Slot, pc: Pc)
    requires job.Admitted() && !pc.Finished? && MidJob(cfg, job, start, s, pc)
    ensures MidJob(cfg, job, start, LocalStep(cfg, job, s, pc).0, LocalStep(cfg, job, s, pc).1)
  {
    match job
    case PatchJob(req) => MidStep(cfg, req, start, s, pc);
    case DeleteJob(_) => MidDeleteStep(start, s, pc);
    case GetJob(get) => GetChangesNothing(get, s, pc);
  }

  lemma MidDeleteStep(start: Slot, s: Slot, pc: Pc)
    requires !pc.Finished? && MidDelete(start, s, pc)
    ensures var (s', pc') := DeleteStep(s, pc); MidDelete(start, s', pc')
  {
  }

  lemma GetChangesNothing(get: GetRequest, s: Slot, pc: Pc)
    requires !pc.Finished? && !pc.DataGone?
    ensures var (s', pc') := GetStep(get, s, pc); s' == s && !pc'.DataGone?
  {
  }

  lemma CleanJobEnds(cfg: Config, job: Job, start: Slot)
    requires SlotInv(start) && CleanJob(cfg, job, start) && job.Admitted()
    ensures SlotInv(BigStep(cfg, job, start).0)
  {
    match job
    case PatchJob(req) => CleanPatchEnds(cfg, req, start);
    case DeleteJob(_) =>
    case GetJob(_) =>
  }

  lemma CleanPatchEnds(cfg: Config, req: PatchRequest, start: Slot)
    requires Clean(cfg, start, req)
    ensures SlotInv(BigStep(cfg, PatchJob(req), start).0)
  {
    PatchIff(cfg, Disk(start), req);
  }

  /** The upload holds the bytes of the given state, and its record, if it can be trusted, stands for them. */
  predicate Holds(past: Slot, s: Slot, trusted: bool) {
    && RecoveredAt(s, |Content(past)|) == Content(past)
    && (trusted ==> SeenOffset(s) == SeenOffset(past) && Recovered(s) == Content(past))
  }

  predicate Trusted(start: Slot, pc: Pc) {
    !Torn(pc) && !Gutted(start, pc)
  }

  lemma OldHolds(start: Slot, s: Slot, torn: bool)
    requires SlotInv(start) && HoldsOld(start, s, torn)
    ensures Holds(start, s, !torn)
  {
    if start.info.None? {
      NoParts(start);
    }
  }

  lemma PatchHolds(cfg: Config, req: PatchRequest, start: Slot, s: Slot, pc: Pc)
    requires Clean(cfg, start, req) && Mid(cfg, req, start, s, pc)
    ensures Holds(start, s, !Torn(pc)) || Holds(BigStep(cfg, PatchJob(req), start).0, s, !Torn(pc))
  {
    MidRecoverable(cfg, req, start, s, pc);
    if HoldsOld(start, s, Torn(pc)) {
      OldHolds(start, s, Torn(pc));
    } else {
      GoalContent(cfg, req, start);
    }
  }

  lemma NothingHolds(s: Slot)
    requires s.data.None?
    ensures Holds(EMPTY_SLOT, s, s.info.None?)
  {
    NoParts(EMPTY_SLOT);
  }

  /**
   * At every point of a DELETE the upload can be recovered as it was, or as gone, unless the record vouches for data
   * that has been removed.
   */
  lemma DeleteHolds(cfg: Config, del: DeleteRequest, start: Slot, s: Slot, pc: Pc)
    requires SlotInv(start) && MidDelete(start, s, pc)
    ensures Holds(start, s, !Gutted(start, pc)) || Holds(BigStep(cfg, DeleteJob(del), start).0, s, !Gutted(start, pc))
  {
    WellFormedRecovered(start);
    if pc.DataGone? && start.data.Some? {
      NothingHolds(s);
      NoParts(s);
    } else if s != start {
      NothingHolds(s);
    }
  }

  /** In that one case neither can be: the record promises bytes that are nowhere. */
  lemma GuttedIsLost(start: Slot, s: Slot, pc: Pc)
    requires SlotInv(start) && MidDelete(start, s, pc) && Gutted(start, pc)
    ensures SeenOffset(s) == SeenOffset(start) && SeenOffset(s).Some? && Recovered(s) != Content(start)
    ensures !Holds(start, s, true) && !Holds(EMPTY_SLOT, s, true)
  {
    NoParts(s);
  }

  lemma JobHolds(cfg: Config, job: Job, start: Slot, s: Slot, pc: Pc)
    requires job.Admitted() && MidJob(cfg, job, start, s, pc)
    ensures Holds(start, s, Trusted(start, pc)) || Holds(BigStep(cfg, job, start).0, s, Trusted(start, pc))
  {
    match job
    case PatchJob(req) => PatchHolds(cfg, req, start, s, pc);
    case DeleteJob(del) => DeleteHolds(cfg, del, start, s, pc);
    case GetJob(_) => WellFormedRecovered(start);
  }

  // ----- one upload in the interleaved system -----

  /**
   * The upload is well formed at first, and every PATCH that gets its lock is clean at that moment. Nothing is asked of
   * other uploads, nor of any other request to this one.
   */
  ghost predicate CleanSchedule(cfg: Config, jobs: seq<Job>, slots0: imap<string, Slot>, schedule: seq<Action>, id: string)
    requires WellPosed(jobs, slots0) && id in slots0
  {
    if schedule == [] then SlotInv(slots0[id])
    else
      var before, a := schedule[..|schedule| - 1], schedule[|schedule| - 1];
      var sys := After(cfg, jobs, slots0, before);
      && CleanSchedule(cfg, jobs, slots0, before, id)
      && (Enabled(jobs, slots0, sys, a) && a.Acquire? && jobs[a.t].Id() == id ==> CleanJob(cfg, jobs[a.t], sys.slots[id]))
  }

  ghost predicate CleanInv(cfg: Config, jobs: seq<Job>, slots0: imap<string, Slot>, sys: Sys, id: string)
    requires Shaped(jobs, slots0, sys) && id in slots0
  {
    && (Idle(jobs, sys, id) ==> SlotInv(sys.slots[id]))
    && (forall t :: IsRunning(sys, t) && jobs[t].Id() == id ==>
          MidJob(cfg, jobs[t], sys.states[t].start, sys.slots[id], sys.states[t].pc))
  }

  lemma CleanElsewhere(cfg: Config, jobs: seq<Job>, slots0: imap<string, Slot>, sys: Sys, sys': Sys, t: nat, id: string)
    requires Shaped(jobs, slots0, sys) && Shaped(jobs, slots0, sys') && t < |jobs| && id in slots0
    requires CleanInv(cfg, jobs, slots0, sys, id) && OnlyTask(jobs, sys, sys', t) && jobs[t].Id() != id
    ensures CleanInv(cfg, jobs, slots0, sys', id)
  {
    forall t' | IsRunning(sys', t') && jobs[t'].Id() == id
      ensures MidJob(cfg, jobs[t'], sys'.states[t'].start, sys'.slots[id], sys'.states[t'].pc)
    {
      assert IsRunning(sys, t');
    }
    if Idle(jobs, sys', id) {
      OtherIdle(jobs, sys, sys', t, id);
    }
  }

  /** Of the upload's own task it is enough to know what it does itself: it is alone. */
  lemma CleanHere(cfg: Config, jobs: seq<Job>, slots0: imap<string, Slot>, sys: Sys, sys': Sys, t: nat)
    requires Shaped(jobs, slots0, sys) && Shaped(jobs, slots0, sys') && t < |jobs|
    requires OnlyTask(jobs, sys, sys', t) && Alone(jobs, sys, t)
    requires if IsRunning(sys', t)
             then MidJob(cfg, jobs[t], sys'.states[t].start, sys'.slots[jobs[t].Id()], sys'.states[t].pc)
             else SlotInv(sys'.slots[jobs[t].Id()])
    ensures CleanInv(cfg, jobs, slots0, sys', jobs[t].Id())
  {
    forall t' | IsRunning(sys', t') && jobs[t'].Id() == jobs[t].Id()
      ensures t' == t
    {
      if t' != t {
        assert IsRunning(sys, t');
      }
    }
  }

  lemma CleanAcquire(cfg: Config, jobs: seq<Job>, slots0: imap<string, Slot>, sys: Sys, t: nat)
    requires Shaped(jobs, slots0, sys) && Exclusive(jobs, sys) && Enabled(jobs, slots0, sys, Acquire(t))
    requires CleanInv(cfg, jobs, slots0, sys, jobs[t].Id()) && CleanJob(cfg, jobs[t], sys.slots[jobs[t].Id()])
    ensures CleanInv(cfg, jobs, slots0, Next(cfg, jobs, slots0, sys, Acquire(t)), jobs[t].Id())
  {
    assert Idle(jobs, sys, jobs[t].Id());
    NextOnlyTask(cfg, jobs, slots0, sys, Acquire(t));
    CleanHere(cfg, jobs, slots0, sys, Next(cfg, jobs, slots0, sys, Acquire(t)), t);
  }

  lemma CleanAdvance(cfg: Config, jobs: seq<Job>, slots0: imap<string, Slot>, sys: Sys, t: nat)
    requires Shaped(jobs, slots0, sys) && Exclusive(jobs, sys) && Enabled(jobs, slots0, sys, Advance(t))
    requires CleanInv(cfg, jobs, slots0, sys, jobs[t].Id())
    ensures CleanInv(cfg, jobs, slots0, Next(cfg, jobs, slots0, sys, Advance(t)), jobs[t].Id())
  {
    assert IsRunning(sys, t);
    MidJobStep(cfg, jobs[t], sys.states[t].start, sys.slots[jobs[t].Id()], sys.states[t].pc);
    NextOnlyTask(cfg, jobs, slots0, sys, Advance(t));
    CleanHere(cfg, jobs, slots0, sys, Next(cfg, jobs, slots0, sys, Advance(t)), t);
  }

  lemma CleanRelease(cfg: Config, jobs: seq<Job>, slots0: imap<string, Slot>, sys: Sys, t: nat, freed: bool)
    requires Shaped(jobs, slots0, sys) && Inv(cfg, jobs, slots0, sys) && History(cfg, jobs, slots0, sys)
    requires Enabled(jobs, slots0, sys, Release(t, freed)) && CleanInv(cfg, jobs, slots0, sys, jobs[t].Id())
    ensures CleanInv(cfg, jobs, slots0, Next(cfg, jobs, slots0, sys, Release(t, freed)), jobs[t].Id())
  {
    assert IsRunning(sys, t) && OnCourse(cfg, jobs, slots0, sys, t) && HistoryOf(cfg, jobs, slots0, sys, t);
    CleanJobEnds(cfg, jobs[t], sys.states[t].start);
    NextOnlyTask(cfg, jobs, slots0, sys, Release(t, freed));
    CleanHere(cfg, jobs, slots0, sys, Next(cfg, jobs, slots0, sys, Release(t, freed)), t);
  }

  lemma CleanTimeOut(cfg: Config, jobs: seq<Job>, slots0: imap<string, Slot>, sys: Sys, t: nat, id: string)
    requires Shaped(jobs, slots0, sys) && Enabled(jobs, slots0, sys, TimeOut(t)) && id in slots0
    requires CleanInv(cfg, jobs, slots0, sys, id)
    ensures CleanInv(cfg, jobs, slots0, Next(cfg, jobs, slots0, sys, TimeOut(t)), id)
  {
    var sys' := Next(cfg, jobs, slots0, sys, TimeOut(t));
    assert forall t' :: IsRunning(sys', t') <==> IsRunning(sys, t');
    assert Idle(jobs, sys', id) ==> Idle(jobs, sys, id);
  }

  lemma CleanTask(cfg: Config, jobs: seq<Job>, slots0: imap<string, Slot>, sys: Sys, a: Action, id: string)
    requires Shaped(jobs, slots0, sys) && Inv(cfg, jobs, slots0, sys) && History(cfg, jobs, slots0, sys)
    requires Enabled(jobs, slots0, sys, a) && id in slots0 && CleanInv(cfg, jobs, slots0, sys, id)
    requires a.Acquire? && jobs[a.t].Id() == id ==> CleanJob(cfg, jobs[a.t], sys.slots[id])
    ensures CleanInv(cfg, jobs, slots0, Next(cfg, jobs, slots0, sys, a), id)
  {
    if a.TimeOut? {
      CleanTimeOut(cfg, jobs, slots0, sys, a.t, id);
    } else if jobs[a.t].Id() != id {
      NextOnlyTask(cfg, jobs, slots0, sys, a);
      CleanElsewhere(cfg, jobs, slots0, sys, Next(cfg, jobs, slots0, sys, a), a.t, id);
    } else {
      match a
      case Acquire(t) => CleanAcquire(cfg, jobs, slots0, sys, t);
      case Advance(t) => CleanAdvance(cfg, jobs, slots0, sys, t);
      case Release(t, freed) => CleanRelease(cfg, jobs, slots0, sys, t, freed);
    }
  }

  lemma {:induction false} AlwaysClean(cfg: Config, jobs: seq<Job>, slots0: imap<string, Slot>, schedule: seq<Action>, id: string)
    requires WellPosed(jobs, slots0) && id in slots0 && CleanSchedule(cfg, jobs, slots0, schedule, id)
    ensures CleanInv(cfg, jobs, slots0, After(cfg, jobs, slots0, schedule), id)
  {
    if schedule != [] {
      var before, a := schedule[..|schedule| - 1], schedule[|schedule| - 1];
      AlwaysClean(cfg, jobs, slots0, before, id);
      AlwaysInv(cfg, jobs, slots0, before);
      AlwaysHistory(cfg, jobs, slots0, before);
      var sys := After(cfg, jobs, slots0, before);
      if Enabled(jobs, slots0, sys, a) {
        CleanTask(cfg, jobs, slots0, sys, a, id);
      }
    }
  }

  /** The upload's bytes after the n-th prefix of the serial run can be read back. */
  ghost predicate BytesAt(cfg: Config, jobs: seq<Job>, slots0: imap<string, Slot>, sys: Sys, id: string, n: int)
    requires Shaped(jobs, slots0, sys) && id in slots0
  {
    && 0 <= n <= |sys.log| && Recent(jobs, sys, id, n)
    && var past := SerialAt(cfg, jobs, slots0, sys, id, n);
       RecoveredAt(sys.slots[id], |Content(past)|) == Content(past)
  }

  /** What is on disk, record and bytes, amounts to that prefix. */
  ghost predicate RecoverableAt(cfg: Config, jobs: seq<Job>, slots0: imap<string, Slot>, sys: Sys, id: string, n: int)
    requires Shaped(jobs, slots0, sys) && id in slots0
  {
    && SeesOffset(cfg, jobs, slots0, sys, id, n)
    && Recovered(sys.slots[id]) == Content(SerialAt(cfg, jobs, slots0, sys, id, n))
  }

  lemma GoalContent(cfg: Config, req: PatchRequest, start: Slot)
    requires Clean(cfg, start, req) && Accepts(cfg, start, req)
    ensures var s := BigStep(cfg, PatchJob(req), start).0;
            && SeenOffset(s) == Some(NewRecord(cfg, start, req).offset)
            && Content(s) == Content(start) + req.body.bytes && |Content(s)| == NewRecord(cfg, start, req).offset
  {
    PatchIff(cfg, Disk(start), req);
    GoalShows(cfg, req, start, PatchLocked(cfg, Disk(start), req).0);
  }

  lemma GoalShows(cfg: Config, req: PatchRequest, start: Slot, st: Store)
    requires Clean(cfg, start, req) && Accepts(cfg, start, req)
    requires st.Disk? && Abs(st) == RefPatch(cfg, Abs(Disk(start)), req)
    ensures SeenOffset(st.slot) == Some(NewRecord(cfg, start, req).offset)
    ensures Content(st.slot) == Content(start) + req.body.bytes
    ensures |Content(st.slot)| == NewRecord(cfg, start, req).offset
  {
    RefOfAccepted(cfg, req, start);
    PresentShows(st);
    StartRecovered(start);
  }

  lemma RefOfAccepted(cfg: Config, req: PatchRequest, start: Slot)
    requires req.offset.Some? && Accepts(cfg, start, req)
    ensures RefPatch(cfg, Abs(Disk(start)), req) == Present(NewRecord(cfg, start, req), Content(start) + req.body.bytes)
  {
  }

  lemma PresentShows(st: Store)
    requires st.Disk? && Abs(st).Present?
    ensures SeenOffset(st.slot) == Some(Abs(st).info.offset) && Content(st.slot) == Abs(st).content
  {
  }

  /** A well-formed upload that nobody works on can be recovered from its record. */
  lemma WellFormedRecovered(s: Slot)
    requires SlotInv(s)
    ensures Recovered(s) == Content(s) && RecoveredAt(s, |Content(s)|) == Content(s)
  {
    if s.info.Some? {
      StartRecovered(s);
    } else {
      NoParts(s);
    }
  }

  lemma RunningRecoverable(cfg: Config, jobs: seq<Job>, slots0: imap<string, Slot>, sys: Sys, t: nat) returns (n: nat)
    requires Shaped(jobs, slots0, sys) && IsRunning(sys, t) && OnCourse(cfg, jobs, slots0, sys, t)
    requires History(cfg, jobs, slots0, sys)
    requires MidJob(cfg, jobs[t], sys.states[t].start, sys.slots[jobs[t].Id()], sys.states[t].pc)
    ensures BytesAt(cfg, jobs, slots0, sys, jobs[t].Id(), n)
    ensures Trusted(sys.states[t].start, sys.states[t].pc) ==> RecoverableAt(cfg, jobs, slots0, sys, jobs[t].Id(), n)
  {
    assert HistoryOf(cfg, jobs, slots0, sys, t);
    RecentInFlight(cfg, jobs, slots0, sys, t);
    var (start, s, pc) := (sys.states[t].start, sys.slots[jobs[t].Id()], sys.states[t].pc);
    JobHolds(cfg, jobs[t], start, s, pc);
    n := if Holds(start, s, Trusted(start, pc)) then sys.states[t].at else |sys.log|;
    PrefixesInFlight(cfg, jobs, slots0, sys, t, n);
  }

  /** A task is at work on the upload and its record cannot be read, or vouches for data that a DELETE has removed. */
  ghost predicate Untrusted(jobs: seq<Job>, sys: Sys, id: string, t: nat)
    requires |sys.states| == |jobs|
  {
    IsRunning(sys, t) && jobs[t].Id() == id && !Trusted(sys.states[t].start, sys.states[t].pc)
  }

  lemma IdleRecoverable(cfg: Config, jobs: seq<Job>, slots0: imap<string, Slot>, sys: Sys, id: string)
    requires Shaped(jobs, slots0, sys) && History(cfg, jobs, slots0, sys) && id in slots0
    requires sys.slots[id] == sys.serial[id] && SlotInv(sys.slots[id])
    ensures BytesAt(cfg, jobs, slots0, sys, id, |sys.log|) && RecoverableAt(cfg, jobs, slots0, sys, id, |sys.log|)
  {
    assert sys.log[..|sys.log|] == sys.log;
    RecentWhenIdle(cfg, jobs, slots0, sys, id);
    WellFormedRecovered(sys.slots[id]);
  }

  lemma SystemRecoverable(cfg: Config, jobs: seq<Job>, slots0: imap<string, Slot>, schedule: seq<Action>, id: string)
    returns (n: nat)
    requires WellPosed(jobs, slots0) && id in slots0 && CleanSchedule(cfg, jobs, slots0, schedule, id)
    ensures var sys := After(cfg, jobs, slots0, schedule);
            && BytesAt(cfg, jobs, slots0, sys, id, n)
            && ((exists t: nat :: Untrusted(jobs, sys, id, t)) || RecoverableAt(cfg, jobs, slots0, sys, id, n))
  {
    AlwaysInv(cfg, jobs, slots0, schedule);
    AlwaysHistory(cfg, jobs, slots0, schedule);
    AlwaysClean(cfg, jobs, slots0, schedule, id);
    var sys := After(cfg, jobs, slots0, schedule);
    if Idle(jobs, sys, id) {
      n := |sys.log|;
      IdleRecoverable(cfg, jobs, slots0, sys, id);
    } else {
      var t: nat :| IsRunning(sys, t) && jobs[t].Id() == id;
      n := RunningRecoverable(cfg, jobs, slots0, sys, t);
      if !Trusted(sys.states[t].start, sys.states[t].pc) {
        assert Untrusted(jobs, sys, id, t);
      }
    }
  }

  lemma GuttedTask(cfg: Config, job: Job, start: Slot, s: Slot, pc: Pc)
    requires MidJob(cfg, job, start, s, pc) && Gutted(start, pc) && job.Admitted()
    ensures job.DeleteJob? && MidDelete(start, s, pc) && BigStep(cfg, job, start).0 == EMPTY_SLOT
  {
  }

  /** While an upload is gutted, what is on disk is like no recent prefix of the serial run. */
  lemma GuttedIsNew(cfg: Config, jobs: seq<Job>, slots0: imap<string, Slot>, sys: Sys, t: nat, n: int)
    requires Shaped(jobs, slots0, sys) && Exclusive(jobs, sys) && History(cfg, jobs, slots0, sys)
    requires IsRunning(sys, t) && OnCourse(cfg, jobs, slots0, sys, t) && Gutted(sys.states[t].start, sys.states[t].pc)
    requires MidJob(cfg, jobs[t], sys.states[t].start, sys.slots[jobs[t].Id()], sys.states[t].pc)
    ensures !RecoverableAt(cfg, jobs, slots0, sys, jobs[t].Id(), n)
  {
    var (id, start, at) := (jobs[t].Id(), sys.states[t].start, sys.states[t].at);
    assert HistoryOf(cfg, jobs, slots0, sys, t);
    GuttedTask(cfg, jobs[t], start, sys.slots[id], sys.states[t].pc);
    GuttedIsLost(start, sys.slots[id], sys.states[t].pc);
    if SeesOffset(cfg, jobs, slots0, sys, id, n) {
      if n <= at {
        RecentIsStart(cfg, jobs, slots0, sys, t, n);
      } else {
        PrefixesInFlight(cfg, jobs, slots0, sys, t, n);
      }
    }
  }

  /**
   * At every moment of every schedule that is clean for an upload, its bytes after some prefix of the serial run that
   * includes every answered request can be read back from what is on disk.
   */
  lemma AlwaysRecoverable(cfg: Config, jobs: seq<Job>, slots0: imap<string, Slot>, schedule: seq<Action>, id: string)
    requires WellPosed(jobs, slots0) && id in slots0 && CleanSchedule(cfg, jobs, slots0, schedule, id)
    ensures exists n :: BytesAt(cfg, jobs, slots0, After(cfg, jobs, slots0, schedule), id, n)
  {
    var n := SystemRecoverable(cfg, jobs, slots0, schedule, id);
  }

  /**
   * What is on disk, read by itself, amounts to such a prefix exactly when the record is not being written just then,
   * and no DELETE has removed the data while the record is still there.
   */
  lemma RecoveredFromDiskIff(cfg: Config, jobs: seq<Job>, slots0: imap<string, Slot>, schedule: seq<Action>, id: string)
    requires WellPosed(jobs, slots0) && id in slots0 && CleanSchedule(cfg, jobs, slots0, schedule, id)
    ensures var sys := After(cfg, jobs, slots0, schedule);
            (exists n :: RecoverableAt(cfg, jobs, slots0, sys, id, n)) <==> !exists t: nat :: Untrusted(jobs, sys, id, t)
  {
    var m := SystemRecoverable(cfg, jobs, slots0, schedule, id);
    var sys := After(cfg, jobs, slots0, schedule);
    if t: nat :| Untrusted(jobs, sys, id, t) {
      forall n
        ensures !RecoverableAt(cfg, jobs, slots0, sys, id, n)
      {
        UntrustedIsNew(cfg, jobs, slots0, schedule, t, n);
      }
    }
  }

  lemma UntrustedIsNew(cfg: Config, jobs: seq<Job>, slots0: imap<string, Slot>, schedule: seq<Action>, t: nat, n: int)
    requires WellPosed(jobs, slots0) && t < |jobs| && CleanSchedule(cfg, jobs, slots0, schedule, jobs[t].Id())
    requires Untrusted(jobs, After(cfg, jobs, slots0, schedule), jobs[t].Id(), t)
    ensures !RecoverableAt(cfg, jobs, slots0, After(cfg, jobs, slots0, schedule), jobs[t].Id(), n)
  {
    var sys := After(cfg, jobs, slots0, schedule);
    AlwaysInv(cfg, jobs, slots0, schedule);
    AlwaysHistory(cfg, jobs, slots0, schedule);
    AlwaysClean(cfg, jobs, slots0, schedule, jobs[t].Id());
    if Torn(sys.states[t].pc) {
      if 0 <= n <= |sys.log| {
        UnsettledIsNew(cfg, jobs, slots0, sys, t, n);
      }
    } else {
      GuttedIsNew(cfg, jobs, slots0, sys, t, n);
    }
  }
}
