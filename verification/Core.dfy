/** The values every component shares: machine integers, byte strings, results, and the upload record. */
module Core {

  const U32_LIMIT := 0x1_0000_0000
  const U64_MAX := 0xFFFF_FFFF_FFFF_FFFF

  type U32 = n: int | 0 <= n < 0x1_0000_0000
  type U64 = n: int | 0 <= n <= 0xFFFF_FFFF_FFFF_FFFF
  type Byte = n: int | 0 <= n < 256
  type Bytes = seq<Byte>

  datatype Option<+T> = None | Some(value: T) {
    function GetOr(default: T): T {
      if Some? then value else default
    }
  }

  datatype Result<+T> = Ok(value: T) | Err(error: TusError)

  /** The error values of the server that the modelled code can return. */
  datatype TusError =
    | MissingTusResumable
    | WrongContentType
    | MissingUploadOffset
    | MissingUploadLength
    | InvalidUploadId
    | InvalidMetadata
    | ExtensionNotEnabled
    | EntityTooLarge(max: U64)
    | LockTimeout
    | NotFound
    | PatchOnFinalUpload
    | OffsetMismatch(expected: U64, actual: U64)
    | Gone
    | UploadLengthAlreadySet
    | ExceedsUploadLength(declared: U64, end: nat)
    | ChecksumMismatch
    | UnsupportedChecksumAlgorithm
    | HookRejected
    | NotPartialUpload
    | PartialUploadIncomplete
    | EmptyConcatenation
    | UploadNotReadyForDownload
    | MethodNotAllowed
    | Io
    | Internal

  /** The stored record of one upload. */
  datatype UploadInfo = UploadInfo(
    id: string,
    size: Option<U64>,
    offset: U64,
    sizeIsDeferred: bool,
    expiresAt: Option<int>,
    isPartial: bool,
    isFinal: bool,
    partialUploads: seq<string>)
  {
    predicate IsComplete() {
      size.Some? && offset == size.value
    }

    predicate ExpiredAt(now: int) {
      expiresAt.Some? && now > expiresAt.value
    }
  }

  /** A request body: absent, breaking off with a read error, or read to its end. */
  datatype Body = NoBody | BrokenBody | FullBody(bytes: Bytes)
  {
    function GetBytes(): Bytes {
      if FullBody? then bytes else []
    }
  }
}

/** Concatenation of a list of strings, the reference for every reassembly algorithm. */
module Seqs {

  function Flat<T>(ss: seq<seq<T>>): (r: seq<T>)
  {
    if ss == [] then [] else ss[0] + Flat(ss[1..])
  }

  lemma {:induction false} FlatAppend<T>(a: seq<seq<T>>, b: seq<seq<T>>)
    ensures Flat(a + b) == Flat(a) + Flat(b)
  {
    if a == [] {
      assert a + b == b;
    } else {
      assert (a + b)[1..] == a[1..] + b;
      FlatAppend(a[1..], b);
    }
  }

  lemma FlatSingle<T>(x: seq<T>)
    ensures Flat([x]) == x
  {
    assert [x][1..] == [];
  }

  lemma FlatSnoc<T>(a: seq<seq<T>>, x: seq<T>)
    ensures Flat(a + [x]) == Flat(a) + x
  {
    FlatAppend(a, [x]);
    FlatSingle(x);
  }

  lemma FlatIsPrefix<T>(parts: seq<seq<T>>, k: nat)
    requires k <= |parts|
    ensures Flat(parts[..k]) <= Flat(parts)
  {
    assert parts == parts[..k] + parts[k..];
    FlatAppend(parts[..k], parts[k..]);
  }

  /** Flattening in groups and then flattening the groups is flattening once. */
  lemma {:induction false} FlatOfFlats<T>(sss: seq<seq<seq<T>>>)
    ensures Flat(Flat(sss)) == Flat(seq(|sss|, i requires 0 <= i < |sss| => Flat(sss[i])))
  {
    var inner := seq(|sss|, i requires 0 <= i < |sss| => Flat(sss[i]));
    if sss != [] {
      FlatOfFlats(sss[1..]);
      var rest := seq(|sss[1..]|, i requires 0 <= i < |sss[1..]| => Flat(sss[1..][i]));
      assert inner[1..] == rest;
      FlatAppend(sss[0], Flat(sss[1..]));
    }
  }
}
