/**
 * Both stores implement one thing: a byte string per upload that only grows at its end, with an optional declared
 * length. `Upload` is that thing; `Ref...` says how requests change it without mentioning parts, files or buffers.
 */
module Refinement {
  import opened Core
  import opened Seqs
  import opened Listing
  import opened Slots
  import opened Entries
  import opened Protocol

  datatype Upload = Absent | Present(info: UploadInfo, content: Bytes)

  // ----- the representation invariant of the part store -----

  predicate Contiguous(s: Slot) {
    forall i :: 0 <= i < |PartIndices(s)| ==> PartIndices(s)[i] == i
  }

  /** Chunks are still arriving, or the upload is complete but not yet assembled. */
  predicate Growing(s: Slot) {
    s.info.Some? && s.data.None? && Contiguous(s) && |PartBytes(s)| == s.info.value.offset
  }

  predicate Sealed(s: Slot) {
    && s.info.Some? && s.data.Some? && s.parts == map[]
    && s.info.value.IsComplete() && |s.data.value| == s.info.value.offset
  }

  predicate SlotInv(s: Slot) {
    s == EMPTY_SLOT || Growing(s) || Sealed(s)
  }

  predicate StoreInv(st: Store) {
    match st
    case Disk(s) => SlotInv(s)
    case Memory(e) => e.Some? ==> |e.value.data| == e.value.info.offset
  }

  function Abs(st: Store): Upload {
    match st
    case Disk(s) =>
      if s.info.None? then Absent
      else Present(s.info.value, if s.data.Some? then s.data.value else PartBytes(s))
    case Memory(e) => if e.None? then Absent else Present(e.value.info, e.value.data)
  }

  // ----- the reference -----

  /** An upload still waiting for its length is told one, if it is within the server's limit. */
  function RefDeclare(cfg: Config, info: UploadInfo, length: LengthHeader): UploadInfo {
    if info.size.None? && info.sizeIsDeferred && length.Length? && (cfg.maxSize > 0 ==> length.n <= cfg.maxSize)
    then info.(size := Some(length.n), sizeIsDeferred := false) else info
  }

  predicate Fits(info: UploadInfo, n: nat) {
    info.offset + n <= U64_MAX && (info.size.Some? ==> info.offset + n <= info.size.value)
  }

  /** The upload takes chunks at this offset and at this time. */
  predicate TakesChunks(info: UploadInfo, req: PatchRequest)
    requires req.offset.Some?
  {
    && !info.isFinal && req.offset.value == info.offset
    && (info.expiresAt.Some? ==> req.now <= info.expiresAt.value)
  }

  /** An upload still waiting for its length may be told one within the server's limit, or none. */
  predicate LengthInOrder(cfg: Config, info: UploadInfo, req: PatchRequest) {
    info.size.None? && info.sizeIsDeferred ==>
      !req.length.BadLength? && (req.length.Length? && cfg.maxSize > 0 ==> req.length.n <= cfg.maxSize)
  }

  predicate ChecksumInOrder(cfg: Config, req: PatchRequest) {
    && (!req.checksum.NoChecksum? ==> cfg.checksum && !req.checksum.BadChecksum?)
    && (req.checksum.Checksum? ==>
          req.body.FullBody? && cfg.digest(req.checksum.alg, req.body.bytes) == req.checksum.expected)
  }

  /** The length the chunk must keep within, if there is one: the known one, or the one this request declares. */
  function LengthInEffect(info: UploadInfo, req: PatchRequest): Option<U64> {
    if info.size.None? && info.sizeIsDeferred && req.length.Length? then Some(req.length.n) else info.size
  }

  /** A PATCH adds exactly its body, exactly when nothing speaks against it. */
  predicate RefAccepts(cfg: Config, info: UploadInfo, req: PatchRequest)
    requires req.offset.Some?
  {
    && TakesChunks(info, req) && LengthInOrder(cfg, info, req) && ChecksumInOrder(cfg, req) && req.body.FullBody?
    && (var end := req.offset.value + |req.body.bytes|;
        end <= U64_MAX && (LengthInEffect(info, req).Some? ==> end <= LengthInEffect(info, req).value))
  }

  function RefPatch(cfg: Config, u: Upload, req: PatchRequest): Upload
    requires req.offset.Some?
  {
    if u.Absent? || !TakesChunks(u.info, req) then u
    else
      var info := RefDeclare(cfg, u.info, req.length);
      if RefAccepts(cfg, u.info, req)
      then Present(info.(offset := info.offset + |req.body.bytes|), u.content + req.body.bytes)
      else Present(info, u.content)
  }

  /** The checks of the handler are these rules. */
  lemma PatchIsAsRuled(cfg: Config, info: UploadInfo, req: PatchRequest)
    requires req.offset.Some?
    ensures Refusal(info, req.offset.value, req.now).None? <==> TakesChunks(info, req)
    ensures LengthToDeclare(cfg, info, req.length).Ok? <==> LengthInOrder(cfg, info, req)
    ensures RefDeclare(cfg, info, req.length)
         == match LengthToDeclare(cfg, info, req.length)
            case Ok(Some(n)) => info.(size := Some(n), sizeIsDeferred := false)
            case _ => info
    ensures Payload(cfg, req.checksum, req.body).Ok? && req.body.FullBody? <==> ChecksumInOrder(cfg, req) && req.body.FullBody?
    ensures RefAccepts(cfg, info, req) <==>
      && Refusal(info, req.offset.value, req.now).None? && LengthToDeclare(cfg, info, req.length).Ok?
      && Payload(cfg, req.checksum, req.body).Ok? && req.body.FullBody?
      && Fits(RefDeclare(cfg, info, req.length), |req.body.bytes|)
  {
  }

  /** A POST that the server accepts, by the request's own headers. */
  predicate PostInOrder(cfg: Config, req: PostRequest) {
    && req.versionOk && cfg.creation && req.metadataOk && req.createAccepted
    && (req.concat.FinalConcat? ==> cfg.concatenation && req.concat.ids.Ok?)
    && !req.length.BadLength? && (req.length.NoLength? ==> req.defer || req.concat.FinalConcat?)
    && (req.defer ==> cfg.creationDeferLength)
    && (req.length.Length? && cfg.maxSize > 0 ==> req.length.n <= cfg.maxSize)
  }

  /** The upload that a POST asks for: its length or the promise of one, its expiry, and its part in a concatenation. */
  function RefRecord(cfg: Config, req: PostRequest): UploadInfo {
    UploadInfo(
      id := req.id,
      size := (match req.length case Length(n) => Some(n) case _ => None),
      offset := 0,
      sizeIsDeferred := req.defer,
      expiresAt := (match cfg.expirationTtl case Some(ttl) => Some(req.now + ttl) case None => None),
      isPartial := req.concat == PartialConcat,
      isFinal := req.concat.FinalConcat?,
      partialUploads := (match req.concat case FinalConcat(Ok(ids)) => ids case _ => []))
  }

  predicate PostBringsBody(cfg: Config, req: PostRequest) {
    && cfg.creationWithUpload && req.octetStream && req.body.FullBody? && |req.body.bytes| <= U64_MAX
    && (req.length.Length? ==> |req.body.bytes| <= req.length.n)
  }

  function RefPost(cfg: Config, req: PostRequest): Upload {
    if PostBringsBody(cfg, req)
    then Present(RefRecord(cfg, req).(offset := |req.body.bytes|), req.body.bytes)
    else Present(RefRecord(cfg, req), [])
  }

  /** The checks of the handler are these rules, and the record it creates is this one. */
  lemma PostIsAsAsked(cfg: Config, req: PostRequest)
    ensures PostChecks(cfg, req).None? <==> PostInOrder(cfg, req)
    ensures NewInfo(cfg, req) == RefRecord(cfg, req)
    ensures PostBringsBody(cfg, req) <==>
      cfg.creationWithUpload && req.octetStream && req.body.FullBody? && Fits(NewInfo(cfg, req), |req.body.bytes|)
  {
  }

  // ----- appending a part -----

  lemma IndicesAre(s: Slot, k: nat)
    requires k <= U32_LIMIT && forall i: U32 :: i in s.parts <==> i < k
    ensures PartIndices(s) == UpTo(k) && Contiguous(s)
  {
    SortedContiguous(s.parts.Keys, k);
  }

  /** In a contiguous slot the number of parts is an index no part has yet. */
  lemma NextIsFresh(s: Slot)
    requires Contiguous(s) && |PartIndices(s)| < U32_LIMIT
    ensures NextIndex(s) == |PartIndices(s)| && NextIndex(s) !in s.parts
    ensures forall i: U32 :: i in s.parts <==> i < |PartIndices(s)|
  {
    var q := PartIndices(s);
    forall i: U32
      ensures i in s.parts <==> i < |q|
    {
      if i < |q| {
        assert q[i] == i && q[i] in q;
      }
      if i in s.parts {
        assert i in q;
      }
    }
  }

  /** Writing the next part puts its bytes behind those of all earlier parts. */
  lemma NextPartAppends(s: Slot, bytes: Bytes)
    requires Contiguous(s) && |PartIndices(s)| < U32_LIMIT
    ensures var s' := s.(parts := s.parts[NextIndex(s) := bytes]);
            Contiguous(s') && PartBytes(s') == PartBytes(s) + bytes
  {
    NextIsFresh(s);
    var k := |PartIndices(s)|;
    var s' := s.(parts := s.parts[NextIndex(s) := bytes]);
    IndicesAre(s, k);
    IndicesAre(s', k + 1);
    assert Pick(s'.parts, PartIndices(s')) == Pick(s.parts, PartIndices(s)) + [bytes];
    FlatSnoc(Pick(s.parts, PartIndices(s)), bytes);
  }

  lemma NoParts(s: Slot)
    requires s.parts == map[]
    ensures PartIndices(s) == [] && PartBytes(s) == [] && Contiguous(s)
  {
    IndicesAre(s, 0);
  }

  lemma OverwriteAtEnd(data: Bytes, bytes: Bytes)
    ensures Overwrite(data, |data|, bytes) == data + bytes
  {
  }

  // ----- one write -----

  /** The store has room for one more numbered part. */
  predicate HasRoom(st: Store) {
    st.Disk? ==> |PartIndices(st.slot)| < U32_LIMIT
  }

  predicate IsSealed(st: Store) {
    st.Disk? && Sealed(st.slot)
  }

  /** Writing a nonempty chunk, or any chunk before the upload is sealed, at the stored offset appends it. */
  lemma WriteAppends(st: Store, body: Body)
    requires StoreInv(st) && HasRoom(st) && GetInfo(st).Ok?
    requires !IsSealed(st)
    ensures var info := GetInfo(st).value;
            var (st', r) := Protocol.WriteChunk(st, info.offset, body);
            && StoreInv(st') && !IsSealed(st')
            && (r.Ok? <==> body.FullBody? && Fits(info, |body.bytes|))
            && (r.Err? ==> st' == st)
            && (r.Ok? ==> Abs(st') == Present(info.(offset := info.offset + |body.bytes|), Abs(st).content + body.bytes))
  {
    var info := GetInfo(st).value;
    if body.FullBody? && Fits(info, |body.bytes|) {
      match st
      case Disk(s) =>
        NextPartAppends(s, body.bytes);
        var s' := Slots.WriteChunk(s, info.offset, body).0;
        assert s' == s.(parts := s.parts[NextIndex(s) := body.bytes]).(info := s'.info);
        SameParts(s.(parts := s.parts[NextIndex(s) := body.bytes]), s');
      case Memory(e) =>
        OverwriteAtEnd(e.value.data, body.bytes);
    }
  }

  lemma SameParts(s: Slot, s': Slot)
    requires s.parts == s'.parts
    ensures PartIndices(s) == PartIndices(s') && PartBytes(s) == PartBytes(s') && (Contiguous(s) <==> Contiguous(s'))
  {
  }

  /** Completion assembles the parts into the same bytes; a refused completion leaves them where they are. */
  lemma ConcludeKeepsContent(st: Store, finishAccepted: bool)
    requires StoreInv(st) && GetInfo(st).Ok? && !IsSealed(st)
    ensures var (st', r) := Conclude(st, finishAccepted);
            && StoreInv(st') && Abs(st') == Abs(st)
            && (r.Ok? <==> (GetInfo(st).value.IsComplete() ==> finishAccepted))
            && (r.Ok? ==> r.value == |Abs(st).content|)
            && (IsSealed(st') <==> st.Disk? && GetInfo(st).value.IsComplete() && finishAccepted)
  {
    if st.Disk? {
      assert Growing(st.slot);
    }
  }

  // ----- PATCH -----

  /** An empty chunk would be added to an upload whose parts have already been assembled, and do damage there. */
  predicate ReopensSealed(cfg: Config, st: Store, req: PatchRequest)
    requires req.offset.Some?
  {
    && IsSealed(st)
    && RefAccepts(cfg, st.slot.info.value, req) && req.body.bytes == []
    && (st.slot.data.value != [] || !req.finishAccepted)
  }

  predicate PatchAsReference(cfg: Config, st: Store, req: PatchRequest)
    requires req.offset.Some?
  {
    var st' := PatchLocked(cfg, st, req).0;
    StoreInv(st') && Abs(st') == RefPatch(cfg, Abs(st), req)
  }

  lemma DeclareKeeps(st: Store, n: U64)
    requires StoreInv(st) && GetInfo(st).Ok? && GetInfo(st).value.size.None?
    ensures var st' := Protocol.DeclareLength(st, n).0;
            && StoreInv(st') && !IsSealed(st') && (HasRoom(st) ==> HasRoom(st'))
            && Abs(st') == Present(GetInfo(st).value.(size := Some(n), sizeIsDeferred := false), Abs(st).content)
  {
    if st.Disk? {
      SameParts(st.slot, Protocol.DeclareLength(st, n).0.slot);
    }
  }

  /** Write and completion together: the body is appended or nothing changes. */
  lemma WriteThenConcludeAppends(st: Store, body: Body, finishAccepted: bool)
    requires StoreInv(st) && HasRoom(st) && GetInfo(st).Ok? && !IsSealed(st)
    ensures var info := GetInfo(st).value;
            var (st', r) := WriteThenConclude(st, info.offset, body, finishAccepted);
            && StoreInv(st')
            && Abs(st') == (if body.FullBody? && Fits(info, |body.bytes|)
                            then Present(info.(offset := info.offset + |body.bytes|), Abs(st).content + body.bytes)
                            else Abs(st))
            && (r.Ok? <==> body.FullBody? && Fits(info, |body.bytes|) && (Abs(st').info.IsComplete() ==> finishAccepted))
            && (r.Ok? ==> r.value == |Abs(st').content|)
  {
    WriteAppends(st, body);
    var (st1, written) := Protocol.WriteChunk(st, GetInfo(st).value.offset, body);
    if written.Ok? {
      ConcludeKeepsContent(st1, finishAccepted);
    }
  }

  /** The upload after the length declaration, which is all a PATCH does before it writes. */
  function Declared(cfg: Config, st: Store, req: PatchRequest): Store {
    if GetInfo(st).Err? then st
    else
      match LengthToDeclare(cfg, GetInfo(st).value, req.length)
      case Ok(Some(n)) => Protocol.DeclareLength(st, n).0
      case _ => st
  }

  /** Where a PATCH stops: refused, length refused, checksum refused, or after write and completion. */
  lemma PatchStops(cfg: Config, st: Store, req: PatchRequest)
    requires req.offset.Some? && GetInfo(st).Ok?
    ensures var info := GetInfo(st).value;
            var (refusal, length) := (Refusal(info, req.offset.value, req.now), LengthToDeclare(cfg, info, req.length));
            var payload := Payload(cfg, req.checksum, req.body);
            PatchLocked(cfg, st, req) == (
              if refusal.Some? then (st, Err(refusal.value))
              else if length.Err? then (st, Err(length.error))
              else if payload.Err? then (Declared(cfg, st, req), Err(payload.error))
              else WriteThenConclude(Declared(cfg, st, req), req.offset.value, req.body, req.finishAccepted))
  {
  }

  /** Declaring a length changes nothing else in the record. */
  lemma DeclaredRecord(cfg: Config, st: Store, req: PatchRequest)
    requires GetInfo(st).Ok?
    ensures GetInfo(Declared(cfg, st, req)).Ok?
    ensures GetInfo(Declared(cfg, st, req)).value
         == if GetInfo(st).value.size.None? then RefDeclare(cfg, GetInfo(st).value, req.length) else GetInfo(st).value
  {
  }

  lemma DeclaredIsReference(cfg: Config, st: Store, req: PatchRequest)
    requires StoreInv(st) && HasRoom(st) && GetInfo(st).Ok? && !IsSealed(st)
    ensures var st' := Declared(cfg, st, req);
            && StoreInv(st') && HasRoom(st') && !IsSealed(st')
            && Abs(st') == Present(RefDeclare(cfg, GetInfo(st).value, req.length), Abs(st).content)
            && GetInfo(st') == Ok(RefDeclare(cfg, GetInfo(st).value, req.length))
  {
    match LengthToDeclare(cfg, GetInfo(st).value, req.length)
    case Ok(Some(n)) => DeclareKeeps(st, n);
    case _ =>
  }

  /** Before sealing, PATCH does to either store what it does to the reference. */
  lemma PatchUnsealed(cfg: Config, st: Store, req: PatchRequest)
    requires StoreInv(st) && HasRoom(st) && req.offset.Some? && !IsSealed(st)
    ensures PatchAsReference(cfg, st, req)
  {
    if GetInfo(st).Ok? {
      PatchIsAsRuled(cfg, GetInfo(st).value, req);
      PatchStops(cfg, st, req);
      DeclaredIsReference(cfg, st, req);
      WriteThenConcludeAppends(Declared(cfg, st, req), req.body, req.finishAccepted);
    }
  }

  // ----- the answers of PATCH -----

  lemma WriteAnswers(st: Store, offset: U64, body: Body, finishAccepted: bool)
    requires GetInfo(st).Ok? && GetInfo(st).value.offset == offset
    ensures var (info, r) := (GetInfo(st).value, WriteThenConclude(st, offset, body, finishAccepted).1);
            && (r.Ok? <==> body.FullBody? && Fits(info, |body.bytes|)
                           && (info.size == Some(offset + |body.bytes|) ==> finishAccepted))
            && (r.Ok? ==> r.value == offset + |body.bytes|)
  {
  }

  /**
   * In any state of either store, a PATCH is answered with success exactly when all is in order and completion, if it
   * comes to that, is accepted. The answer is the offset behind the chunk.
   */
  lemma PatchSucceedsIff(cfg: Config, st: Store, req: PatchRequest)
    requires req.offset.Some? && GetInfo(st).Ok?
    ensures var (info, r) := (GetInfo(st).value, PatchLocked(cfg, st, req).1);
            && (r.Ok? <==>
                && RefAccepts(cfg, info, req)
                && (LengthInEffect(info, req) == Some(info.offset + |req.body.bytes|) ==> req.finishAccepted))
            && (r.Ok? ==> r.value == info.offset + |req.body.bytes|)
  {
    PatchStops(cfg, st, req);
    DeclaredRecord(cfg, st, req);
    if GetInfo(st).value.offset == req.offset.value {
      WriteAnswers(Declared(cfg, st, req), req.offset.value, req.body, req.finishAccepted);
    }
  }

  lemma WriteRecord(st: Store, offset: U64, body: Body, finishAccepted: bool)
    requires GetInfo(st).Ok? && GetInfo(st).value.offset == offset
    ensures var info := GetInfo(st).value;
            GetInfo(WriteThenConclude(st, offset, body, finishAccepted).0) ==
            Ok(if body.FullBody? && Fits(info, |body.bytes|) then info.(offset := offset + |body.bytes|) else info)
  {
  }

  /** In any state of either store, PATCH leaves the record that the reference leaves, whatever becomes of the bytes. */
  lemma PatchRecord(cfg: Config, st: Store, req: PatchRequest)
    requires req.offset.Some? && GetInfo(st).Ok?
    ensures var (info, st') := (GetInfo(st).value, PatchLocked(cfg, st, req).0);
            GetInfo(st').Ok? && GetInfo(st').value == RefPatch(cfg, Present(info, []), req).info
  {
    PatchStops(cfg, st, req);
    DeclaredRecord(cfg, st, req);
    if GetInfo(st).value.offset == req.offset.value {
      WriteRecord(Declared(cfg, st, req), req.offset.value, req.body, req.finishAccepted);
    }
  }

  /** The bytes that are stored and the offset that is recorded. */
  predicate SameBytes(st: Store, st': Store) {
    match (st, st')
    case (Disk(s), Disk(s')) =>
      && s'.parts == s.parts && s'.data == s.data && (s'.info.Some? <==> s.info.Some?)
      && (s.info.Some? ==> s'.info.value.offset == s.info.value.offset)
    case (Memory(e), Memory(e')) =>
      && (e'.Some? <==> e.Some?)
      && (e.Some? ==> e'.value.data == e.value.data && e'.value.info.offset == e.value.info.offset)
    case _ => false
  }

  /**
   * Whatever state the upload is in, a PATCH that comes with a checksum stores bytes, moves the offset or answers with
   * success only if the whole body arrived and its digest is the expected one.
   */
  lemma ChecksumGates(cfg: Config, st: Store, req: PatchRequest)
    requires req.offset.Some? && req.checksum.Checksum?
    ensures var (st', r) := PatchLocked(cfg, st, req);
            || (SameBytes(st, st') && r.Err?)
            || (req.body.FullBody? && cfg.digest(req.checksum.alg, req.body.bytes) == req.checksum.expected)
  {
    if GetInfo(st).Ok? {
      PatchStops(cfg, st, req);
      assert SameBytes(st, Declared(cfg, st, req));
    }
  }

  /** The empty part number 0 that a PATCH to a sealed upload adds, and what completion then makes of it. */
  lemma SealedWrite(s: Slot, finishAccepted: bool)
    requires Sealed(s)
    ensures var (st', r) := WriteThenConclude(Disk(s), s.info.value.offset, FullBody([]), finishAccepted);
            st' == if finishAccepted then Disk(s.(data := Some([]))) else Disk(s.(parts := map[0 := []]))
  {
    NoParts(s);
    NextPartAppends(s, []);
    assert s.parts[NextIndex(s) := []] == map[0 := []];
  }

  lemma SealedAcceptsOnlyEmpty(cfg: Config, s: Slot, req: PatchRequest)
    requires Sealed(s) && req.offset.Some?
    ensures Declared(cfg, Disk(s), req) == Disk(s)
    ensures RefAccepts(cfg, s.info.value, req) ==> req.body == FullBody([])
  {
  }

  /**
   * PATCH does to a store what it does to the reference exactly when it does not add an empty chunk to a sealed
   * upload that has content or whose completion is refused this time.
   */
  lemma PatchIff(cfg: Config, st: Store, req: PatchRequest)
    requires StoreInv(st) && HasRoom(st) && req.offset.Some?
    ensures PatchAsReference(cfg, st, req) <==> !ReopensSealed(cfg, st, req)
  {
    if !IsSealed(st) {
      PatchUnsealed(cfg, st, req);
    } else {
      PatchStops(cfg, st, req);
      SealedAcceptsOnlyEmpty(cfg, st.slot, req);
      if RefAccepts(cfg, st.slot.info.value, req) {
        SealedWrite(st.slot, req.finishAccepted);
        NoParts(st.slot);
        assert st.slot.data.value + [] == st.slot.data.value;
        var reopened := st.slot.(parts := map[0 := []]);
        assert 0 in reopened.parts && !SlotInv(reopened);
      } else if Refusal(st.slot.info.value, req.offset.value, req.now).None? && Payload(cfg, req.checksum, req.body).Ok? {
        WriteRefused(st, req.offset.value, req.body, req.finishAccepted);
      }
    }
  }

  lemma WriteRefused(st: Store, offset: U64, body: Body, finishAccepted: bool)
    requires GetInfo(st).Ok? && GetInfo(st).value.offset == offset
    requires !(body.FullBody? && Fits(GetInfo(st).value, |body.bytes|))
    ensures WriteThenConclude(st, offset, body, finishAccepted).0 == st
  {
  }

  /** An accepted empty PATCH after sealing empties the part store's upload; the memory store's keeps its bytes. */
  lemma EmptyPatchErases(cfg: Config, s: Slot, e: Entry, req: PatchRequest)
    requires Sealed(s) && StoreInv(Memory(Some(e))) && Abs(Disk(s)) == Abs(Memory(Some(e)))
    requires req.offset.Some? && RefAccepts(cfg, s.info.value, req) && req.finishAccepted
    ensures GetLocked(PatchLocked(cfg, Disk(s), req).0, req.now) == Ok([])
    ensures GetLocked(PatchLocked(cfg, Memory(Some(e)), req).0, req.now) == Ok(e.data)
  {
    PatchStops(cfg, Disk(s), req);
    SealedAcceptsOnlyEmpty(cfg, s, req);
    SealedWrite(s, req.finishAccepted);
    assert e.data + [] == e.data;
    PatchUnsealed(cfg, Memory(Some(e)), req);
  }

  // ----- POST -----

  predicate CarriesBody(cfg: Config, req: PostRequest) {
    cfg.creationWithUpload && req.octetStream && !req.body.NoBody?
  }

  /** In any state of either store, a POST succeeds exactly if its body, if any, fits and completion is accepted. */
  lemma PostSucceedsIff(cfg: Config, st: Store, req: PostRequest)
    ensures var r := PostTail(cfg, Create(st, NewInfo(cfg, req)), req).1;
            && (r.Ok? <==>
                && (CarriesBody(cfg, req) ==> PostBringsBody(cfg, req))
                && (RefPost(cfg, req).info.IsComplete() ==> req.finishAccepted))
            && (r.Ok? ==> r.value == |RefPost(cfg, req).content|)
  {
    PostIsAsAsked(cfg, req);
    WriteAnswers(Create(st, NewInfo(cfg, req)), 0, req.body, req.finishAccepted);
  }

  /**
   * What a POST may find under its ID without harm: in memory anything; on disk an upload without bytes that is not
   * sealed; or a sealed one, if the POST completes the new upload, or if both are empty and it writes nothing.
   */
  predicate PostIsKept(cfg: Config, st: Store, req: PostRequest) {
    match st
    case Memory(_) => true
    case Disk(s) =>
      if s.data.None? then PartBytes(s) == []
      else
        && RefPost(cfg, req).info.IsComplete()
        && (|| (req.finishAccepted && (CarriesBody(cfg, req) ==> PostBringsBody(cfg, req)))
            || (!PostBringsBody(cfg, req) && s.data.value == []))
  }

  predicate PostAsReference(cfg: Config, st: Store, req: PostRequest) {
    var st' := PostTail(cfg, Create(st, NewInfo(cfg, req)), req).0;
    StoreInv(st') && Abs(st') == RefPost(cfg, req)
  }

  lemma CreatedEmpty(st: Store, info: UploadInfo)
    requires StoreInv(st) && HasRoom(st) && (st.Disk? ==> st.slot.data.None? && PartBytes(st.slot) == []) && info.offset == 0
    ensures var created := Create(st, info);
            && StoreInv(created) && HasRoom(created) && !IsSealed(created)
            && Abs(created) == Present(info, []) && GetInfo(created) == Ok(info)
  {
    if st.Disk? {
      SameParts(st.slot, Create(st, info).slot);
      if st.slot == EMPTY_SLOT {
        NoParts(st.slot);
      }
    }
  }

  lemma PostOverNothing(cfg: Config, st: Store, req: PostRequest)
    requires StoreInv(st) && HasRoom(st) && (st.Disk? ==> st.slot.data.None? && PartBytes(st.slot) == [])
    ensures PostAsReference(cfg, st, req)
  {
    var created := Create(st, NewInfo(cfg, req));
    CreatedEmpty(st, NewInfo(cfg, req));
    if CarriesBody(cfg, req) {
      WriteThenConcludeAppends(created, req.body, req.finishAccepted);
    } else {
      ConcludeKeepsContent(created, req.finishAccepted);
    }
  }

  /** The upload has more bytes than its record knows of, in its parts or in the final object. */
  predicate Overlong(s: Slot, bytes: Bytes) {
    && s.info.Some? && |bytes| > s.info.value.offset
    && (s.data == Some(bytes) || (s.data.None? && PartBytes(s) == bytes))
  }

  lemma OverlongIsNoUpload(s: Slot, bytes: Bytes)
    requires Overlong(s, bytes)
    ensures !SlotInv(s) && Abs(Disk(s)).Present? && Abs(Disk(s)).content == bytes
  {
  }

  lemma OverlongStays(s: Slot, bytes: Bytes, finishAccepted: bool)
    requires Overlong(s, bytes) && s.data.None?
    ensures Overlong(Conclude(Disk(s), finishAccepted).0.slot, bytes)
  {
  }

  /** The slot after creation, and after the body is written if it is brought, is overlong. */
  lemma CreatedOverlong(cfg: Config, s: Slot, req: PostRequest)
    requires Growing(s) && HasRoom(Disk(s)) && PartBytes(s) != []
    ensures var created := s.(info := Some(NewInfo(cfg, req)));
            && Overlong(created, PartBytes(s)) && created.data.None?
            && (PostBringsBody(cfg, req) ==>
                  var written := Protocol.WriteChunk(Disk(created), 0, req.body);
                  written.1.Ok? && written.0.Disk? && written.0.slot.data.None?
                  && Overlong(written.0.slot, PartBytes(s) + req.body.bytes))
  {
    var created := s.(info := Some(NewInfo(cfg, req)));
    SameParts(s, created);
    if PostBringsBody(cfg, req) {
      NextPartAppends(created, req.body.bytes);
      SameParts(created.(parts := created.parts[NextIndex(created) := req.body.bytes]),
                Protocol.WriteChunk(Disk(created), 0, req.body).0.slot);
    }
  }

  /** Over an unsealed upload with bytes, the old bytes come in front of the new ones. */
  lemma PostOverParts(cfg: Config, s: Slot, req: PostRequest)
    requires Growing(s) && HasRoom(Disk(s)) && PartBytes(s) != []
    ensures !PostAsReference(cfg, Disk(s), req)
    ensures var after := Abs(PostTail(cfg, Create(Disk(s), NewInfo(cfg, req)), req).0);
            after.Present? && after.content == PartBytes(s) + RefPost(cfg, req).content
  {
    CreatedOverlong(cfg, s, req);
    var created := s.(info := Some(NewInfo(cfg, req)));
    var bytes := PartBytes(s) + RefPost(cfg, req).content;
    assert PartBytes(s) + [] == PartBytes(s);
    if PostBringsBody(cfg, req) {
      OverlongStays(Protocol.WriteChunk(Disk(created), 0, req.body).0.slot, bytes, req.finishAccepted);
    } else if CarriesBody(cfg, req) {
      WriteRefused(Disk(created), 0, req.body, req.finishAccepted);
    } else {
      OverlongStays(created, bytes, req.finishAccepted);
    }
    OverlongIsNoUpload(PostTail(cfg, Disk(created), req).0.slot, bytes);
  }

  lemma PostOverSealed(cfg: Config, s: Slot, req: PostRequest)
    requires Sealed(s)
    ensures PostAsReference(cfg, Disk(s), req) <==> PostIsKept(cfg, Disk(s), req)
  {
    var created := s.(info := Some(NewInfo(cfg, req)));
    NoParts(created);
    if PostBringsBody(cfg, req) {
      NextPartAppends(created, req.body.bytes);
      var recorded := Protocol.WriteChunk(Disk(created), 0, req.body).0.slot;
      assert recorded.parts == map[0 := req.body.bytes];
      SameParts(created.(parts := recorded.parts), recorded);
      assert 0 in recorded.parts;
    } else if CarriesBody(cfg, req) {
      WriteRefused(Disk(created), 0, req.body, req.finishAccepted);
    }
  }

  /** A POST over whatever is stored under its ID leaves the reference upload exactly when that does no harm. */
  lemma PostOverIff(cfg: Config, st: Store, req: PostRequest)
    requires StoreInv(st) && HasRoom(st)
    ensures PostAsReference(cfg, st, req) <==> PostIsKept(cfg, st, req)
  {
    match st
    case Memory(_) => PostOverNothing(cfg, st, req);
    case Disk(s) =>
      if Sealed(s) {
        PostOverSealed(cfg, s, req);
      } else if PartBytes(s) == [] {
        PostOverNothing(cfg, st, req);
      } else {
        NoParts(EMPTY_SLOT);
        PostOverParts(cfg, s, req);
      }
  }

  /**
   * Creating over an existing upload of the part store leaves a well-formed slot exactly when that upload holds no
   * bytes and is not sealed, or is a sealed empty upload and the new one is declared empty.
   */
  lemma CreateOverIff(s: Slot, info: UploadInfo)
    requires SlotInv(s) && info.offset == 0
    ensures SlotInv(s.(info := Some(info))) <==>
      || (s.data.None? && PartBytes(s) == [])
      || (s.data == Some([]) && info.size == Some(0))
  {
    var s' := s.(info := Some(info));
    SameParts(s, s');
    NoParts(EMPTY_SLOT);
  }
}
