/** What one upload looks like in the in-memory store, and what its operations do to it. */
module Entries {
  import opened Core
  import opened Seqs
  import Slots

  datatype Entry = Entry(info: UploadInfo, data: Bytes)

  function Zeros(n: nat): (z: Bytes)
    ensures |z| == n
  {
    seq(n, _ => 0)
  }

  /** The buffer after writing `bytes` at `offset`, grown with zeros if it was too short. */
  function Overwrite(data: Bytes, offset: nat, bytes: Bytes): Bytes {
    var end := offset + |bytes|;
    var grown := if |data| < end then data + Zeros(end - |data|) else data;
    grown[..offset] + bytes + grown[end..]
  }

  /** Byte by byte: the new bytes at the offset, the old ones around them, and zeros in a gap. */
  lemma OverwriteAt(data: Bytes, offset: nat, bytes: Bytes, i: nat)
    ensures var (r, end) := (Overwrite(data, offset, bytes), offset + |bytes|);
            && |r| == (if |data| < end then end else |data|)
            && (i < |r| ==> r[i] == if offset <= i < end then bytes[i - offset] else if i < |data| then data[i] else 0)
  {
  }

  /** The chunk is written wherever the caller says; the stored offset is not consulted. */
  function WriteChunk(e: Option<Entry>, offset: U64, body: Body): (Option<Entry>, Result<nat>)
  {
    if !body.FullBody? then (e, Err(Io))
    else if e.None? then (e, Err(NotFound))
    else
      match Slots.EndOffset(e.value.info, offset, |body.bytes|)
      case Err(error) => (e, Err(error))
      case Ok(end) =>
        (Some(Entry(e.value.info.(offset := end), Overwrite(e.value.data, offset, body.bytes))), Ok(|body.bytes|))
  }

  function DeclareLength(e: Option<Entry>, length: U64): (Option<Entry>, Result<()>)
  {
    if e.None? then (e, Err(NotFound))
    else if e.value.info.size.Some? then (e, Err(UploadLengthAlreadySet))
    else (Some(e.value.(info := e.value.info.(size := Some(length), sizeIsDeferred := false))), Ok(()))
  }

  function ReadContent(e: Option<Entry>): Result<Bytes> {
    if e.None? then Err(NotFound)
    else if !e.value.info.IsComplete() then Err(UploadNotReadyForDownload)
    else Ok(e.value.data)
  }

  function Lookup(entries: map<string, Entry>, id: string): Option<Entry> {
    if id in entries then Some(entries[id]) else None
  }

  function Update(entries: map<string, Entry>, id: string, e: Option<Entry>): map<string, Entry> {
    if e.Some? then entries[id := e.value] else entries - {id}
  }

  /** The partials' buffers in request order, as far as they exist. */
  function Sources(entries: map<string, Entry>, partials: seq<UploadInfo>): seq<Result<Bytes>> {
    seq(|partials|, i requires 0 <= i < |partials| =>
      match Lookup(entries, partials[i].id) case Some(e) => Ok(e.data) case None => Err(NotFound))
  }

  /** All sources are gathered first; the upload changes only when every one exists. */
  function Concatenate(e: Option<Entry>, sources: seq<Result<Bytes>>): (Option<Entry>, Result<()>)
  {
    var k := Slots.Readable(sources);
    var combined := Flat(Slots.Values(sources, k));
    if k < |sources| then (e, Err(sources[k].error))
    else if e.None? then (e, Err(NotFound))
    else (Some(Entry(Slots.FinalRecord(e.value.info, |combined| % (U64_MAX + 1)), combined)), Ok(()))
  }
}

/** The in-memory store: one shared map whose entries are updated in place. */
module MemoryStores {
  import opened Core
  import opened Seqs
  import opened Entries
  import Slots

  class MemoryStore {
    var state: map<string, Entry>

    constructor ()
      ensures state == map[]
    {
      state := map[];
    }

    method CreateUpload(info: UploadInfo)
      modifies this
      ensures state == old(state)[info.id := Entry(info, [])]
    {
      state := state[info.id := Entry(info, [])];
    }

    method GetUpload(id: string) returns (r: Result<()>)
      ensures r == if id in state then Ok(()) else Err(NotFound)
    {
      return if id in state then Ok(()) else Err(NotFound);
    }

    method GetInfo(id: string) returns (r: Result<UploadInfo>)
      ensures r == if id in state then Ok(state[id].info) else Err(NotFound)
    {
      return if id in state then Ok(state[id].info) else Err(NotFound);
    }

    method WriteChunk(id: string, offset: U64, body: Body) returns (r: Result<nat>)
      modifies this
      ensures state == Update(old(state), id, Entries.WriteChunk(Lookup(old(state), id), offset, body).0)
      ensures r == Entries.WriteChunk(Lookup(old(state), id), offset, body).1
    {
      if !body.FullBody? {
        return Err(Io);
      }
      if id !in state {
        return Err(NotFound);
      }
      var entry := state[id];
      var n := |body.bytes|;
      if offset + n > U64_MAX {
        return Err(Internal);
      }
      var end := offset + n;
      if entry.info.size.Some? && end > entry.info.size.value {
        return Err(ExceedsUploadLength(entry.info.size.value, end));
      }
      var data := entry.data;
      if |data| < end {
        data := data + Zeros(end - |data|);
      }
      data := data[..offset] + body.bytes + data[end..];
      state := state[id := Entry(entry.info.(offset := end), data)];
      return Ok(n);
    }

    method Delete(id: string) returns (r: Result<()>)
      modifies this
      ensures state == Update(old(state), id, None)
      ensures r == if id in old(state) then Ok(()) else Err(NotFound)
    {
      if id !in state {
        return Err(NotFound);
      }
      state := state - {id};
      return Ok(());
    }

    method DeclareLength(id: string, length: U64) returns (r: Result<()>)
      modifies this
      ensures state == Update(old(state), id, Entries.DeclareLength(Lookup(old(state), id), length).0)
      ensures r == Entries.DeclareLength(Lookup(old(state), id), length).1
    {
      if id !in state {
        return Err(NotFound);
      }
      if state[id].info.size.Some? {
        return Err(UploadLengthAlreadySet);
      }
      var info := state[id].info.(size := Some(length), sizeIsDeferred := false);
      state := state[id := Entry(info, state[id].data)];
      return Ok(());
    }

    method ReadContent(id: string) returns (r: Result<Bytes>)
      ensures r == Entries.ReadContent(Lookup(state, id))
    {
      if id !in state {
        return Err(NotFound);
      }
      if !state[id].info.IsComplete() {
        return Err(UploadNotReadyForDownload);
      }
      return Ok(state[id].data);
    }

    method Concatenate(id: string, partials: seq<UploadInfo>) returns (r: Result<()>)
      modifies this
      ensures state
           == Update(old(state), id, Entries.Concatenate(Lookup(old(state), id), Sources(old(state), partials)).0)
      ensures r == Entries.Concatenate(Lookup(old(state), id), Sources(old(state), partials)).1
    {
      ghost var sources := Sources(state, partials);
      ghost var k := Slots.Readable(sources);
      ghost var values := Slots.Values(sources, k);
      var combined: Bytes := [];
      for i := 0 to |partials|
        invariant i <= k && combined == Flat(values[..i])
        invariant state == old(state)
      {
        if partials[i].id !in state {
          assert sources[i] == Err(NotFound);
          assert k == i;
          return Err(NotFound);
        }
        assert sources[i] == Ok(state[partials[i].id].data);
        assert values[..i + 1] == values[..i] + [values[i]];
        FlatSnoc(values[..i], values[i]);
        combined := combined + state[partials[i].id].data;
      }
      assert values[..|partials|] == values;
      if id !in state {
        return Err(NotFound);
      }
      var total := |combined| % (U64_MAX + 1);
      state := state[id := Entry(Slots.FinalRecord(state[id].info, total), combined)];
      return Ok(());
    }
  }
}
