/**
 * What one upload looks like in a part-object store, and what the store's operations do to it. A slot holds the
 * decoded info record, the final object and the numbered parts. Every operation is a function from the slot before
 * to the slot after, so that runs and interleavings can be reasoned about without the directory.
 */
module Slots {
  import opened Core
  import opened Seqs
  import opened Listing

  datatype Slot = Slot(info: Option<UploadInfo>, data: Option<Bytes>, parts: map<U32, Bytes>)

  const EMPTY_SLOT := Slot(None, None, map[])

  /** The bytes of the listed parts, in listing order. */
  function Pick(parts: map<U32, Bytes>, q: seq<U32>): seq<Bytes>
    requires forall i :: i in q ==> i in parts
  {
    seq(|q|, i requires 0 <= i < |q| => parts[q[i]])
  }

  /** Picking one more part adds its bytes at the end. */
  lemma PickNext(parts: map<U32, Bytes>, q: seq<U32>, k: nat)
    requires (forall i :: i in q ==> i in parts) && k <= |q|
    ensures k < |q| ==> Flat(Pick(parts, q)[..k + 1]) == Flat(Pick(parts, q)[..k]) + parts[q[k]]
    ensures k == |q| ==> Flat(Pick(parts, q)[..k]) == Flat(Pick(parts, q))
  {
    var picked := Pick(parts, q);
    if k < |q| {
      assert picked[..k + 1] == picked[..k] + [picked[k]];
      FlatSnoc(picked[..k], picked[k]);
    } else {
      assert picked[..k] == picked;
    }
  }

  function PartIndices(s: Slot): (q: seq<U32>)
    ensures forall i :: i in q <==> i in s.parts
  {
    Sorted(s.parts.Keys)
  }

  /** All parts in index order, end to end. */
  function PartBytes(s: Slot): Bytes {
    Flat(Pick(s.parts, PartIndices(s)))
  }

  /** The number of listed parts, truncated to a u32 as the store does. */
  function NextIndex(s: Slot): U32 {
    |PartIndices(s)| % U32_LIMIT
  }

  /** The bounds every store checks before accepting n more bytes at the record's offset. */
  function EndOffset(info: UploadInfo, offset: U64, n: nat): Result<U64> {
    if offset + n > U64_MAX then Err(Internal)
    else if info.size.Some? && offset + n > info.size.value then Err(ExceedsUploadLength(info.size.value, offset + n))
    else Ok(offset + n)
  }

  /** The record and new part index that write_chunk settles on before it writes anything. */
  function PlanChunk(s: Slot, offset: U64, body: Body): Result<UploadInfo>
  {
    if s.info.None? then Err(Io)
    else
      var info := s.info.value;
      if info.offset != offset then Err(OffsetMismatch(info.offset, offset))
      else if !body.FullBody? then Err(Io)
      else
        match EndOffset(info, offset, |body.bytes|)
        case Err(e) => Err(e)
        case Ok(end) => Ok(info.(offset := end))
  }

  function WriteChunk(s: Slot, offset: U64, body: Body): (Slot, Result<nat>)
  {
    match PlanChunk(s, offset, body)
    case Err(e) => (s, Err(e))
    case Ok(info) =>
      (Slot(Some(info), s.data, s.parts[NextIndex(s) := body.bytes]), Ok(|body.bytes|))
  }

  function Finalize(s: Slot): Slot {
    s.(data := Some(PartBytes(s)), parts := map[])
  }

  /** What is left of the parts once those at the given indices are gone. */
  function Without(parts: map<U32, Bytes>, q: seq<U32>): map<U32, Bytes> {
    map n | n in parts && n !in q :: parts[n]
  }

  lemma WithoutNext(parts: map<U32, Bytes>, q: seq<U32>, i: nat)
    requires i < |q|
    ensures Without(parts, q[..i + 1]) == Without(parts, q[..i]) - {q[i]}
  {
    assert q[..i + 1] == q[..i] + [q[i]];
  }

  lemma WithoutAll(s: Slot)
    ensures Without(s.parts, []) == s.parts
    ensures Without(s.parts, PartIndices(s)) == map[]
  {
  }

  function DeclareLength(s: Slot, length: U64): (Slot, Result<()>)
  {
    if s.info.None? then (s, Err(Io))
    else if s.info.value.size.Some? then (s, Err(UploadLengthAlreadySet))
    else (s.(info := Some(s.info.value.(size := Some(length), sizeIsDeferred := false))), Ok(()))
  }

  function ReadContent(s: Slot): Result<Bytes> {
    if s.info.None? then Err(Io)
    else if !s.info.value.IsComplete() then Err(UploadNotReadyForDownload)
    else if s.data.None? then Err(UploadNotReadyForDownload)
    else Ok(s.data.value)
  }

  /** The record that concatenating uploads of the given total leaves behind. */
  function FinalRecord(info: UploadInfo, total: U64): UploadInfo {
    info.(size := Some(total), offset := total, isFinal := true)
  }

  /** The declared sizes added up in a u64 that wraps around. */
  function SizesTotal(partials: seq<UploadInfo>): U64 {
    SizesSum(partials) % (U64_MAX + 1)
  }

  function SizesSum(partials: seq<UploadInfo>): nat {
    if partials == [] then 0 else SizesSum(partials[..|partials| - 1]) + partials[|partials| - 1].size.GetOr(0)
  }

  /** How many leading sources can be read. */
  function Readable(sources: seq<Result<Bytes>>): (k: nat)
    ensures k <= |sources|
    ensures forall i :: 0 <= i < k ==> sources[i].Ok?
    ensures k < |sources| ==> sources[k].Err?
  {
    if sources == [] || sources[0].Err? then 0 else 1 + Readable(sources[1..])
  }

  function Values(sources: seq<Result<Bytes>>, k: nat): seq<Bytes>
    requires k <= |sources| && forall i :: 0 <= i < k ==> sources[i].Ok?
  {
    seq(k, i requires 0 <= i < k => sources[i].value)
  }

  /** Copying the sources in order into the final object; an unreadable source stops the copy where it stands. */
  function Concatenate(s: Slot, sources: seq<Result<Bytes>>, total: U64): (Slot, Result<()>)
  {
    var k := Readable(sources);
    var copied := s.(data := Some(Flat(Values(sources, k))));
    if k < |sources| then (copied, Err(sources[k].error))
    else if s.info.None? then (copied, Err(Io))
    else (copied.(info := Some(FinalRecord(s.info.value, total))), Ok(()))
  }
}
