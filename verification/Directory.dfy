/**
 * The store's directory: file names to file contents. A directory holds the files of many uploads; `View` is what one
 * upload's files amount to, and the lemmas say how writing or removing one file changes the views.
 */
module Directory {
  import opened Core
  import opened Names
  import opened Slots

  /** A file holds either an encoded info record or plain bytes. */
  datatype File = Json(info: UploadInfo) | Raw(data: Bytes)

  type Files = map<string, File>

  function Owner(name: string): string {
    ParseName(name).0
  }

  /** The file is one the store writes: a key of a valid ID, with the contents its role calls for. */
  predicate WellFormedFile(name: string, file: File) {
    var (id, kind) := ParseName(name);
    && ValidId(id) && Name(id, kind) == name && !kind.Tmp?
    && (kind.Info? <==> file.Json?)
    && (file.Json? ==> file.info.id == id)
  }

  predicate StoreFiles(files: Files) {
    forall name :: name in files ==> WellFormedFile(name, files[name])
  }

  function InfoAt(files: Files, name: string): Option<UploadInfo> {
    if name in files && files[name].Json? then Some(files[name].info) else None
  }

  function DataAt(files: Files, name: string): Option<Bytes> {
    if name in files && files[name].Raw? then Some(files[name].data) else None
  }

  function PartsAt(files: Files, id: string): map<U32, Bytes> {
    map n: U32 | 0 <= n < U32_LIMIT && DataAt(files, Name(id, Part(n))).Some? :: DataAt(files, Name(id, Part(n))).value
  }

  /** The slot of one upload. */
  function View(files: Files, id: string): Slot {
    Slot(
      InfoAt(files, Name(id, Info)),
      DataAt(files, Name(id, Data)),
      PartsAt(files, id))
  }

  /** Only files of upload `id` differ. */
  ghost predicate OnlyChanges(before: Files, after: Files, id: string) {
    forall name :: Owner(name) != id ==>
      (name in before <==> name in after) && (name in before ==> before[name] == after[name])
  }

  lemma KeysDiffer(id1: string, kind1: Kind, id2: string, kind2: Kind)
    requires ValidId(id1) && ValidId(id2) && (id1 != id2 || kind1 != kind2)
    ensures Name(id1, kind1) != Name(id2, kind2)
  {
    if Name(id1, kind1) == Name(id2, kind2) {
      NameInjective(id1, kind1, id2, kind2);
    }
  }

  lemma SameFile(before: Files, after: Files, id: string, other: string, kind: Kind)
    requires OnlyChanges(before, after, id) && ValidId(other) && other != id
    ensures InfoAt(before, Name(other, kind)) == InfoAt(after, Name(other, kind))
    ensures DataAt(before, Name(other, kind)) == DataAt(after, Name(other, kind))
  {
    ParseOfName(other, kind);
    assert Owner(Name(other, kind)) == other;
  }

  lemma OtherViewsKept(before: Files, after: Files, id: string, other: string)
    requires OnlyChanges(before, after, id) && ValidId(other) && other != id
    ensures View(before, other) == View(after, other)
  {
    SameFile(before, after, id, other, Info);
    SameFile(before, after, id, other, Data);
    forall n: U32
      ensures DataAt(before, Name(other, Part(n))) == DataAt(after, Name(other, Part(n)))
    {
      SameFile(before, after, id, other, Part(n));
    }
  }

  /** The effect on a slot of replacing (or, with None, removing) the file in one role. */
  function SlotWith(s: Slot, kind: Kind, file: Option<File>): Slot
    requires file.Some? ==> (kind.Info? <==> file.value.Json?)
  {
    match kind
    case Info => s.(info := if file.Some? then Some(file.value.info) else None)
    case Data => s.(data := if file.Some? then Some(file.value.data) else None)
    case Part(n) => s.(parts := if file.Some? then s.parts[n := file.value.data] else s.parts - {n})
    case Tmp(_) => s
  }

  function FilesWith(files: Files, name: string, file: Option<File>): Files {
    if file.Some? then files[name := file.value] else files - {name}
  }

  lemma KeepsStoreFiles(files: Files, id: string, kind: Kind, file: Option<File>)
    requires StoreFiles(files) && ValidId(id) && !kind.Tmp?
    requires file.Some? ==> (kind.Info? <==> file.value.Json?)
    requires file.Some? && file.value.Json? ==> file.value.info.id == id
    ensures StoreFiles(FilesWith(files, Name(id, kind), file))
    ensures OnlyChanges(files, FilesWith(files, Name(id, kind), file), id)
  {
    ParseOfName(id, kind);
    assert Owner(Name(id, kind)) == id;
    assert file.Some? ==> WellFormedFile(Name(id, kind), file.value);
  }

  /** What one role of the upload reads as after the file in role `kind` was rewritten. */
  lemma RoleAfter(files: Files, id: string, kind: Kind, file: Option<File>, role: Kind)
    requires ValidId(id)
    requires file.Some? ==> (kind.Info? <==> file.value.Json?)
    ensures InfoAt(FilesWith(files, Name(id, kind), file), Name(id, role))
         == if role != kind then InfoAt(files, Name(id, role))
            else if file.Some? && kind.Info? then Some(file.value.info) else None
    ensures DataAt(FilesWith(files, Name(id, kind), file), Name(id, role))
         == if role != kind then DataAt(files, Name(id, role))
            else if file.Some? && !kind.Info? then Some(file.value.data) else None
  {
    if role != kind {
      KeysDiffer(id, role, id, kind);
    }
  }

  lemma PartAfter(files: Files, id: string, kind: Kind, file: Option<File>, n: U32)
    requires ValidId(id) && !kind.Tmp?
    requires file.Some? ==> (kind.Info? <==> file.value.Json?)
    ensures n in PartsAt(FilesWith(files, Name(id, kind), file), id) <==> n in SlotWith(View(files, id), kind, file).parts
    ensures n in SlotWith(View(files, id), kind, file).parts ==>
      PartsAt(FilesWith(files, Name(id, kind), file), id)[n] == SlotWith(View(files, id), kind, file).parts[n]
  {
    RoleAfter(files, id, kind, file, Part(n));
  }

  lemma PartsAfter(files: Files, id: string, kind: Kind, file: Option<File>)
    requires ValidId(id) && !kind.Tmp?
    requires file.Some? ==> (kind.Info? <==> file.value.Json?)
    ensures PartsAt(FilesWith(files, Name(id, kind), file), id) == SlotWith(View(files, id), kind, file).parts
  {
    var after := PartsAt(FilesWith(files, Name(id, kind), file), id);
    var expected := SlotWith(View(files, id), kind, file).parts;
    forall n: U32
      ensures n in after <==> n in expected
      ensures n in expected ==> after[n] == expected[n]
    {
      PartAfter(files, id, kind, file, n);
    }
    assert after == expected;
  }

  /** Writing or removing one file of an upload changes that role in its slot and nothing else anywhere. */
  lemma ViewAfter(files: Files, id: string, kind: Kind, file: Option<File>)
    requires StoreFiles(files) && ValidId(id) && !kind.Tmp?
    requires file.Some? ==> (kind.Info? <==> file.value.Json?)
    requires file.Some? && file.value.Json? ==> file.value.info.id == id
    ensures StoreFiles(FilesWith(files, Name(id, kind), file))
    ensures View(FilesWith(files, Name(id, kind), file), id) == SlotWith(View(files, id), kind, file)
    ensures OnlyChanges(files, FilesWith(files, Name(id, kind), file), id)
  {
    KeepsStoreFiles(files, id, kind, file);
    PartsAfter(files, id, kind, file);
    RoleAfter(files, id, kind, file, Info);
    RoleAfter(files, id, kind, file, Data);
  }

  /** What the listing of one upload makes of the file names of the whole directory. */
  lemma ListedFile(files: Files, id: string, name: string)
    requires StoreFiles(files) && ValidId(id) && name in files
    ensures ListedIndex(id, name).Some? ==>
      var n := ListedIndex(id, name).value;
      name == Name(id, Part(n)) && n in PartsAt(files, id)
  {
    assert WellFormedFile(name, files[name]);
    var (owner, kind) := ParseName(name);
    ListedIndexOfName(id, owner, kind);
  }

  lemma ListedPart(files: Files, id: string, n: U32)
    requires ValidId(id) && n in PartsAt(files, id)
    ensures Name(id, Part(n)) in files && ListedIndex(id, Name(id, Part(n))) == Some(n)
  {
    ListedIndexOfName(id, id, Part(n));
  }

  /** The listing accepts a file exactly when it is one of the upload's parts, under that part's index. */
  lemma ListingAccepts(files: Files, id: string, name: string)
    requires StoreFiles(files) && ValidId(id) && name in files
    ensures ListedIndex(id, name).Some? ==>
      ListedIndex(id, name).value in PartsAt(files, id) && name == Name(id, Part(ListedIndex(id, name).value))
    ensures forall n: U32 :: n in PartsAt(files, id) && Name(id, Part(n)) == name ==> ListedIndex(id, name) == Some(n)
  {
    ListedFile(files, id, name);
    forall n: U32 | n in PartsAt(files, id) && Name(id, Part(n)) == name
      ensures ListedIndex(id, name) == Some(n)
    {
      ListedPart(files, id, n);
    }
  }

  /** A file found under one of the upload's keys has the contents its role calls for. */
  lemma FileHasItsRole(files: Files, id: string, kind: Kind)
    requires StoreFiles(files) && ValidId(id) && Name(id, kind) in files
    ensures kind.Info? <==> files[Name(id, kind)].Json?
    ensures kind.Info? ==> files[Name(id, kind)].info.id == id
  {
    ParseOfName(id, kind);
    assert WellFormedFile(Name(id, kind), files[Name(id, kind)]);
  }

  /** `slots` has one slot for every valid ID, and it is what that upload's files amount to. */
  ghost predicate Shows(files: Files, slots: imap<string, Slot>) {
    && (forall id {:trigger View(files, id)} :: id in slots <==> ValidId(id))
    && (forall id {:trigger View(files, id)} :: id in slots ==> slots[id] == View(files, id))
    && (forall id {:trigger slots[id]} :: id in slots && slots[id].info.Some? ==> slots[id].info.value.id == id)
  }

  /** The slots leave nothing out: two directories with the same slots hold the same files. */
  lemma SlotsDetermineFiles(files1: Files, files2: Files, slots: imap<string, Slot>)
    requires StoreFiles(files1) && StoreFiles(files2) && Shows(files1, slots) && Shows(files2, slots)
    ensures files1 == files2
  {
    forall name
      ensures name in files1 ==> name in files2 && files2[name] == files1[name]
      ensures name in files2 ==> name in files1 && files1[name] == files2[name]
    {
      SameUnderName(files1, files2, slots, name);
      SameUnderName(files2, files1, slots, name);
    }
  }

  lemma SameUnderName(files1: Files, files2: Files, slots: imap<string, Slot>, name: string)
    requires StoreFiles(files1) && StoreFiles(files2) && Shows(files1, slots) && Shows(files2, slots)
    ensures name in files1 ==> name in files2 && files2[name] == files1[name]
  {
    if name in files1 {
      assert WellFormedFile(name, files1[name]);
      var (id, kind) := ParseName(name);
      assert View(files1, id) == slots[id] && View(files2, id) == slots[id];
      if kind.Part? {
        assert kind.index in PartsAt(files1, id);
        assert kind.index in PartsAt(files2, id);
      }
    }
  }

  /** One flat directory. `slots` is its contents upload by upload. */
  class Dir {
    var files: Files
    ghost var slots: imap<string, Slot>

    ghost predicate Valid()
      reads this
    {
      StoreFiles(files) && Shows(files, slots)
    }

    constructor ()
      ensures Valid() && (forall id :: id in slots ==> slots[id] == EMPTY_SLOT)
    {
      files := map[];
      slots := imap id: string | ValidId(id) :: EMPTY_SLOT;
      new;
      forall id: string
        ensures View(files, id) == EMPTY_SLOT
      {
        assert PartsAt(files, id) == map[];
      }
    }

    /** An upload has a slot exactly when its ID is valid. */
    lemma SlotsOfValidIds(id: string)
      requires Valid()
      ensures id in slots <==> ValidId(id)
    {
      assert View(files, id) == View(files, id);
    }

    ghost method Resync(before: Files, id: string, kind: Kind, file: Option<File>)
      requires StoreFiles(before) && ValidId(id) && !kind.Tmp?
      requires Shows(before, slots)
      requires file.Some? ==> (kind.Info? <==> file.value.Json?)
      requires file.Some? && file.value.Json? ==> file.value.info.id == id
      requires files == FilesWith(before, Name(id, kind), file)
      modifies this`slots
      ensures Valid()
      ensures id in old(slots) && slots == old(slots)[id := SlotWith(old(slots)[id], kind, file)]
    {
      ViewAfter(before, id, kind, file);
      assert View(before, id) == slots[id];
      slots := slots[id := SlotWith(slots[id], kind, file)];
      forall j
        ensures j in slots <==> ValidId(j)
        ensures j in slots ==> slots[j] == View(files, j)
      {
        assert j in old(slots) <==> ValidId(j) by {
          assert View(before, j) == View(before, j);
        }
        if j in slots && j != id {
          OtherViewsKept(before, files, id, j);
        }
      }
    }

    /** Writes one file, creating or truncating it. */
    method WriteFile(name: string, file: File, ghost id: string, ghost kind: Kind)
      requires Valid() && id in slots && !kind.Tmp? && name == Name(id, kind)
      requires (kind.Info? <==> file.Json?) && (file.Json? ==> file.info.id == id)
      modifies this
      ensures Valid() && slots == old(slots)[id := SlotWith(old(slots)[id], kind, Some(file))]
    {
      SlotsOfValidIds(id);
      ghost var before := files;
      files := files[name := file];
      Resync(before, id, kind, Some(file));
    }

    /** Removes one file; a file that is not there is no error. */
    method RemoveFile(name: string, ghost id: string, ghost kind: Kind)
      requires Valid() && id in slots && !kind.Tmp? && name == Name(id, kind)
      modifies this
      ensures Valid() && slots == old(slots)[id := SlotWith(old(slots)[id], kind, None)]
    {
      SlotsOfValidIds(id);
      ghost var before := files;
      files := files - {name};
      Resync(before, id, kind, None);
    }

    method ReadJson(name: string, ghost id: string) returns (r: Option<UploadInfo>)
      requires Valid() && id in slots && name == Name(id, Info)
      ensures r == slots[id].info
    {
      SlotsOfValidIds(id);
      assert View(files, id) == slots[id];
      if name !in files {
        return None;
      }
      FileHasItsRole(files, id, Info);
      return Some(files[name].info);
    }

    method ReadRaw(name: string, ghost id: string, ghost kind: Kind) returns (r: Option<Bytes>)
      requires Valid() && id in slots && name == Name(id, kind) && (kind.Data? || kind.Part?)
      ensures r == match kind
                   case Data => slots[id].data
                   case Part(n) => if n in slots[id].parts then Some(slots[id].parts[n]) else None
    {
      SlotsOfValidIds(id);
      assert View(files, id) == slots[id];
      if name !in files {
        return None;
      }
      FileHasItsRole(files, id, kind);
      return Some(files[name].data);
    }
  }
}
