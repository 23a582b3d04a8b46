/** The filesystem store: every operation as a sequence of reads and writes of files in one directory. */
module FileStores {
  import opened Core
  import opened Seqs
  import opened Names
  import opened Listing
  import opened Directory
  import Slots

  function PartNames(id: string, q: seq<U32>): seq<string> {
    seq(|q|, i requires 0 <= i < |q| => Name(id, Part(q[i])))
  }

  /** What reading one partial upload's final file gives; its ID is validated before it becomes a path. */
  function Source(slots: imap<string, Slots.Slot>, id: string): Result<Bytes> {
    if id !in slots then Err(InvalidUploadId)
    else match slots[id].data case Some(data) => Ok(data) case None => Err(Io)
  }

  function Sources(slots: imap<string, Slots.Slot>, partials: seq<UploadInfo>): seq<Result<Bytes>> {
    seq(|partials|, i requires 0 <= i < |partials| => Source(slots, partials[i].id))
  }

  lemma NamesInOrder(id: string, q: seq<U32>, sorted: seq<Indexed>, names: seq<string>)
    requires Indices(sorted) == q && |names| == |sorted|
    requires forall i :: 0 <= i < |sorted| ==> names[i] == sorted[i].name == Name(id, Part(sorted[i].index))
    ensures names == PartNames(id, q)
  {
    assert forall i :: 0 <= i < |sorted| ==> sorted[i].index == Indices(sorted)[i];
  }

  class FileStore {
    /** The directory that holds every file of every upload. */
    const dir: Dir

    ghost predicate Valid()
      reads dir
    {
      dir.Valid()
    }

    constructor ()
      ensures Valid() && fresh(dir)
      ensures forall id :: id in dir.slots ==> dir.slots[id] == Slots.EMPTY_SLOT
    {
      dir := new Dir();
    }

    method ReadInfo(id: string) returns (r: Result<UploadInfo>)
      requires Valid() && id in dir.slots
      ensures r == match dir.slots[id].info case Some(info) => Ok(info) case None => Err(Io)
    {
      var info := dir.ReadJson(Name(id, Info), id);
      return match info case Some(info) => Ok(info) case None => Err(Io);
    }

    /** Lists the part files of one upload in index order, whatever order the directory is read in. */
    method ListPartsSorted(id: string) returns (names: seq<string>)
      requires Valid() && id in dir.slots
      ensures names == PartNames(id, Slots.PartIndices(dir.slots[id]))
    {
      dir.SlotsOfValidIds(id);
      ghost var parts := PartsAt(dir.files, id).Keys;
      ghost var nameOf := (n: U32) => Name(id, Part(n));
      var indexed: seq<Indexed> := [];
      var rest := dir.files.Keys;
      forall n | n in parts
        ensures nameOf(n) in rest
      {
        ListedPart(dir.files, id, n);
      }
      while rest != {}
        invariant rest <= dir.files.Keys
        invariant Collected(parts, nameOf, indexed, rest)
        decreases rest
      {
        var name :| name in rest;
        var index := ListedIndex(id, name);
        ListingAccepts(dir.files, id, name);
        CollectStep(parts, nameOf, indexed, rest, name, index);
        if index.Some? {
          indexed := indexed + [Indexed(index.value, name)];
        }
        rest := rest - {name};
      }
      var sorted := SortByIndex(indexed);
      CollectedSorted(parts, nameOf, indexed, sorted);
      assert View(dir.files, id) == dir.slots[id];
      names := seq(|sorted|, i requires 0 <= i < |sorted| => sorted[i].name);
      NamesInOrder(id, Slots.PartIndices(dir.slots[id]), sorted, names);
    }

    method CreateUpload(info: UploadInfo) returns (r: Result<()>)
      requires Valid()
      modifies dir
      ensures Valid()
      ensures info.id !in old(dir.slots) ==> r == Err(InvalidUploadId) && dir.slots == old(dir.slots)
      ensures info.id in old(dir.slots) ==>
        r == Ok(()) && dir.slots == old(dir.slots)[info.id := old(dir.slots)[info.id].(info := Some(info))]
    {
      dir.SlotsOfValidIds(info.id);
      if !ValidId(info.id) {
        return Err(InvalidUploadId);
      }
      dir.WriteFile(Name(info.id, Info), Json(info), info.id, Info);
      return Ok(());
    }

    method GetUpload(id: string) returns (r: Result<()>)
      requires Valid()
      ensures r == if id !in dir.slots then Err(InvalidUploadId)
                   else if dir.slots[id].info.None? then Err(NotFound) else Ok(())
    {
      dir.SlotsOfValidIds(id);
      if !ValidId(id) {
        return Err(InvalidUploadId);
      }
      var info := dir.ReadJson(Name(id, Info), id);
      return if info.None? then Err(NotFound) else Ok(());
    }

    /** Stores the bytes as the next part, then the record with the new offset. */
    method WriteChunk(id: string, offset: U64, body: Body) returns (r: Result<nat>)
      requires Valid() && id in dir.slots
      modifies dir
      ensures Valid() && dir.slots == old(dir.slots)[id := Slots.WriteChunk(old(dir.slots)[id], offset, body).0]
      ensures r == Slots.WriteChunk(old(dir.slots)[id], offset, body).1
    {
      var read := ReadInfo(id);
      if read.Err? {
        return Err(read.error);
      }
      var info := read.value;
      if info.offset != offset {
        return Err(OffsetMismatch(info.offset, offset));
      }
      if !body.FullBody? {
        return Err(Io);
      }
      var n := |body.bytes|;
      if offset + n > U64_MAX {
        return Err(Internal);
      }
      var endOffset := offset + n;
      if info.size.Some? && endOffset > info.size.value {
        return Err(ExceedsUploadLength(info.size.value, endOffset));
      }
      var parts := ListPartsSorted(id);
      var index := |parts| % U32_LIMIT;
      dir.WriteFile(Name(id, Part(index)), Raw(body.bytes), id, Part(index));
      dir.WriteFile(Name(id, Info), Json(info.(offset := endOffset)), id, Info);
      return Ok(n);
    }

    /** Removes the listed parts one after another. */
    method RemoveParts(id: string, parts: seq<string>)
      requires Valid() && id in dir.slots && parts == PartNames(id, Slots.PartIndices(dir.slots[id]))
      modifies dir
      ensures Valid() && dir.slots == old(dir.slots)[id := old(dir.slots)[id].(parts := map[])]
    {
      ghost var before := dir.slots;
      ghost var s := dir.slots[id];
      ghost var q := Slots.PartIndices(s);
      Slots.WithoutAll(s);
      assert q[..0] == [];
      for i := 0 to |parts|
        invariant Valid()
        invariant dir.slots == before[id := s.(parts := Slots.Without(s.parts, q[..i]))]
      {
        Slots.WithoutNext(s.parts, q, i);
        dir.RemoveFile(parts[i], id, Part(q[i]));
      }
      assert q[..|parts|] == q;
    }

    /** Copies the listed parts one after another into the final file, which is open and truncated. */
    method CopyParts(id: string, parts: seq<string>)
      requires Valid() && id in dir.slots && parts == PartNames(id, Slots.PartIndices(dir.slots[id]))
      requires dir.slots[id].data == Some([])
      modifies dir
      ensures Valid()
      ensures dir.slots == old(dir.slots)[id := old(dir.slots)[id].(data := Some(Slots.PartBytes(old(dir.slots)[id])))]
    {
      ghost var before := dir.slots;
      ghost var s := dir.slots[id];
      ghost var q := Slots.PartIndices(s);
      ghost var picked := Slots.Pick(s.parts, q);
      var out: Bytes := [];
      for i := 0 to |parts|
        invariant Valid() && out == Flat(picked[..i])
        invariant dir.slots == before[id := s.(data := Some(out))]
      {
        assert dir.slots[id] == s.(data := Some(out)) && q[i] in q;
        var content := dir.ReadRaw(parts[i], id, Part(q[i]));
        Slots.PickNext(s.parts, q, i);
        out := out + content.value;
        dir.WriteFile(Name(id, Data), Raw(out), id, Data);
        assert dir.slots == before[id := s.(data := Some(out))];
      }
      Slots.PickNext(s.parts, q, |parts|);
    }

    /** Assembles the parts into the final file, then removes them. */
    method Finalize(id: string)
      requires Valid() && id in dir.slots
      modifies dir
      ensures Valid() && dir.slots == old(dir.slots)[id := Slots.Finalize(old(dir.slots)[id])]
    {
      ghost var before, s := dir.slots, dir.slots[id];
      var parts := ListPartsSorted(id);
      dir.WriteFile(Name(id, Data), Raw([]), id, Data);
      assert dir.slots == before[id := s.(data := Some([]))];
      if parts == [] {
        assert Slots.PartIndices(s) == [] && s.parts == map[];
        return;
      }
      CopyParts(id, parts);
      assert dir.slots == before[id := s.(data := Some(Slots.PartBytes(s)))];
      RemoveParts(id, parts);
    }

    /** Removes the final file, the record, and every part. */
    method Delete(id: string)
      requires Valid() && id in dir.slots
      modifies dir
      ensures Valid() && dir.slots == old(dir.slots)[id := Slots.EMPTY_SLOT]
    {
      ghost var before, s := dir.slots, dir.slots[id];
      dir.RemoveFile(Name(id, Data), id, Data);
      dir.RemoveFile(Name(id, Info), id, Info);
      assert dir.slots == before[id := Slots.Slot(None, None, s.parts)];
      var parts := ListPartsSorted(id);
      RemoveParts(id, parts);
    }

    method DeclareLength(id: string, length: U64) returns (r: Result<()>)
      requires Valid() && id in dir.slots
      modifies dir
      ensures Valid() && dir.slots == old(dir.slots)[id := Slots.DeclareLength(old(dir.slots)[id], length).0]
      ensures r == Slots.DeclareLength(old(dir.slots)[id], length).1
    {
      var read := ReadInfo(id);
      if read.Err? {
        return Err(read.error);
      }
      if read.value.size.Some? {
        return Err(UploadLengthAlreadySet);
      }
      dir.WriteFile(Name(id, Info), Json(read.value.(size := Some(length), sizeIsDeferred := false)), id, Info);
      return Ok(());
    }

    method ReadContent(id: string) returns (r: Result<Bytes>)
      requires Valid() && id in dir.slots
      ensures r == Slots.ReadContent(dir.slots[id])
    {
      var read := ReadInfo(id);
      if read.Err? {
        return Err(read.error);
      }
      if !read.value.IsComplete() {
        return Err(UploadNotReadyForDownload);
      }
      var data := dir.ReadRaw(Name(id, Data), id, Data);
      return match data case Some(bytes) => Ok(bytes) case None => Err(UploadNotReadyForDownload);
    }

    /** Copies the partials' final files in request order into this upload's final file and records the total. */
    method Concatenate(id: string, partials: seq<UploadInfo>) returns (r: Result<()>)
      requires Valid() && id in dir.slots
      requires forall i :: 0 <= i < |partials| ==> partials[i].id != id
      modifies dir
      ensures Valid()
      ensures dir.slots == old(dir.slots)[id := Slots.Concatenate(old(dir.slots)[id],
                                                 Sources(old(dir.slots), partials), Slots.SizesTotal(partials)).0]
      ensures r == Slots.Concatenate(old(dir.slots)[id],
                                     Sources(old(dir.slots), partials), Slots.SizesTotal(partials)).1
    {
      ghost var before := dir.slots;
      ghost var s := dir.slots[id];
      ghost var sources := Sources(dir.slots, partials);
      ghost var k := Slots.Readable(sources);
      ghost var values := Slots.Values(sources, k);
      var dest := Name(id, Data);
      dir.WriteFile(dest, Raw([]), id, Data);
      var out: Bytes := [];
      for i := 0 to |partials|
        invariant Valid() && i <= k && out == Flat(values[..i])
        invariant dir.slots == before[id := s.(data := Some(out))]
      {
        dir.SlotsOfValidIds(partials[i].id);
        assert sources[i] == Source(before, partials[i].id);
        if !ValidId(partials[i].id) {
          assert k == i && values[..i] == values;
          return Err(InvalidUploadId);
        }
        var content := dir.ReadRaw(Name(partials[i].id, Data), partials[i].id, Data);
        if content.None? {
          assert k == i && values[..i] == values;
          return Err(Io);
        }
        assert values[..i + 1] == values[..i] + [values[i]];
        FlatSnoc(values[..i], values[i]);
        out := out + content.value;
        dir.WriteFile(dest, Raw(out), id, Data);
      }
      assert values[..|partials|] == values;
      var read := ReadInfo(id);
      if read.Err? {
        return Err(read.error);
      }
      dir.WriteFile(Name(id, Info), Json(Slots.FinalRecord(read.value, Slots.SizesTotal(partials))), id, Info);
      return Ok(());
    }
  }
}
