/** The body reader of the actix adapter: bytes arrive as messages on a channel and leave in reads of any size. */
module ChannelReaders {
  import opened Core

  datatype Message = Chunk(bytes: Bytes) | Failure

  datatype Poll = Ready | Failed | Pending

  /** The bytes that the messages carry. */
  function Payload(messages: seq<Message>): Bytes {
    if messages == [] then []
    else (match messages[0] case Chunk(bytes) => bytes case Failure => []) + Payload(messages[1..])
  }

  lemma {:induction false} PayloadAppend(a: seq<Message>, b: seq<Message>)
    ensures Payload(a + b) == Payload(a) + Payload(b)
  {
    if a == [] {
      assert a + b == b;
    } else {
      assert (a + b)[1..] == a[1..] + b;
      PayloadAppend(a[1..], b);
    }
  }

  /** The i-th message is the first that is not empty. */
  ghost predicate FirstFull(messages: seq<Message>, i: int) {
    && 0 <= i < |messages| && messages[i].Chunk? && messages[i].bytes != []
    && forall j :: 0 <= j < i ==> messages[j] == Chunk([])
  }

  function Least(a: nat, b: nat): nat {
    if a < b then a else b
  }

  lemma Reassociate(a: Bytes, b: Bytes, c: Bytes, d: Bytes)
    ensures (a + (b + c)) + d == a + (b + (c + d))
    ensures (a + b) + (c + d) == a + (b + c + d)
  {
  }

  class ChannelReader {
    /** Messages sent and not yet received; the sender may have hung up. */
    var queue: seq<Message>
    var closed: bool
    var current: Option<Bytes>
    /** All bytes ever sent and all bytes ever delivered. */
    ghost var sent: Bytes
    ghost var delivered: Bytes

    constructor ()
      ensures Valid() && queue == [] && !closed && sent == [] && delivered == []
    {
      queue, closed, current, sent, delivered := [], false, None, [], [];
    }

    ghost function Held(): Bytes
      reads this
    {
      (if current.Some? then current.value else []) + Payload(queue)
    }

    /** Nothing is lost, repeated or reordered: what was delivered and what is held make up what was sent. */
    ghost predicate Valid()
      reads this
    {
      sent == delivered + Held() && (current.Some? ==> current.value != [])
    }

    method Send(message: Message)
      requires Valid() && !closed
      modifies this
      ensures Valid() && delivered == old(delivered) && sent == old(sent) + Payload([message])
      ensures queue == old(queue) + [message] && !closed && current == old(current)
    {
      PayloadAppend(queue, [message]);
      ghost var front, more := if current.Some? then current.value else [], Payload([message]);
      Reassociate(delivered, front, Payload(queue), more);
      queue := queue + [message];
      sent := sent + more;
    }

    method Close()
      requires Valid()
      modifies this`closed
      ensures Valid() && closed
    {
      closed := true;
    }

    /** Fills the destination from the message at hand. */
    method TakeCurrent(room: nat) returns (out: Bytes)
      requires Valid() && current.Some?
      modifies this`current, this`delivered
      ensures Valid() && delivered == old(delivered) + out
      ensures var bytes := old(current).value;
              var n := Least(|bytes|, room);
              out == bytes[..n] && current == (if n == |bytes| then None else Some(bytes[n..]))
    {
      var bytes := current.value;
      var n := if |bytes| < room then |bytes| else room;
      if n == 0 {
        return [];
      }
      out := bytes[..n];
      assert bytes == out + bytes[n..];
      Reassociate(delivered, out, bytes[n..], Payload(queue));
      delivered := delivered + out;
      current := if n == |bytes| then None else Some(bytes[n..]);
      assert Held() == bytes[n..] + Payload(queue);
    }

    /** Receives messages until there is something to deliver, or to report. */
    method Receive() returns (poll: Poll)
      requires Valid() && current == None
      modifies this`queue, this`current
      ensures Valid()
      ensures poll.Ready? && current == None ==> closed && queue == [] && old(Drained())
      ensures current.Some? ==> poll.Ready? && !old(Drained())
      ensures current.Some? ==>
        exists i :: FirstFull(old(queue), i) && current == Some(old(queue)[i].bytes) && queue == old(queue)[i + 1..]
      ensures poll.Pending? ==> !closed && queue == [] && current == None
      ensures poll.Failed? ==> exists i :: 0 <= i < |old(queue)| && old(queue)[i].Failure? && queue == old(queue)[i + 1..]
                                           && forall j :: 0 <= j < i ==> old(queue)[j] == Chunk([])
    {
      ghost var taken := 0;
      while queue != []
        invariant Valid() && current == None
        invariant 0 <= taken <= |old(queue)| && queue == old(queue)[taken..]
        invariant forall j :: 0 <= j < taken ==> old(queue)[j] == Chunk([])
        decreases |queue|
      {
        var message := queue[0];
        assert message == old(queue)[taken];
        queue := queue[1..];
        taken := taken + 1;
        match message
        case Chunk(bytes) =>
          if bytes != [] {
            current := Some(bytes);
            assert FirstFull(old(queue), taken - 1);
            return Ready;
          }
        case Failure =>
          return Failed;
      }
      return if closed then Ready else Pending;
    }

    /** One poll for a destination with the given room. */
    method PollRead(room: nat) returns (poll: Poll, out: Bytes)
      requires Valid()
      modifies this`queue, this`current, this`delivered
      ensures Valid() && sent == old(sent) && delivered == old(delivered) + out
      ensures |out| <= room && (!poll.Ready? ==> out == [])
      ensures poll.Ready? && room > 0 ==> (out == [] <==> old(Drained()))
      ensures poll.Ready? && room > 0 && out == [] ==> closed && delivered == sent
      ensures poll.Pending? ==> !closed && queue == [] && delivered == sent
      ensures poll.Failed? ==> exists i :: 0 <= i < |old(queue)| && old(queue)[i].Failure? && queue == old(queue)[i + 1..]
                                           && old(current) == None && forall j :: 0 <= j < i ==> old(queue)[j] == Chunk([])
      ensures old(current).Some? ==>
        poll.Ready? && queue == old(queue) && out == old(current).value[..Least(|old(current).value|, room)]
      ensures old(current).None? && (out != [] || current.Some?) ==>
        exists i :: FirstFull(old(queue), i) && queue == old(queue)[i + 1..]
                    && out == old(queue)[i].bytes[..Least(|old(queue)[i].bytes|, room)]
    {
      poll := Ready;
      if current.None? {
        poll := Receive();
      }
      if current.Some? {
        out := TakeCurrent(room);
      } else {
        out := [];
      }
    }

    /** The sender has hung up and only empty messages are left. */
    ghost predicate Drained()
      reads this
    {
      closed && current == None && forall i :: 0 <= i < |queue| ==> queue[i] == Chunk([])
    }
  }
}

/** The reader that hashes what passes through it. */
module ChecksumReaders {
  import opened Core
  import P = Protocol

  /** An incremental hash function. */
  datatype Hash<!H> = Hash(init: H, update: (H, Bytes) -> H, final: H -> Bytes)

  /** Feeding two pieces one after the other is feeding them at once. */
  ghost predicate Incremental<H(!new)>(hash: Hash<H>) {
    && (forall h: H :: hash.update(h, []) == h)
    && (forall h: H, a, b :: hash.update(hash.update(h, a), b) == hash.update(h, a + b))
  }

  lemma FeedAppends<H(!new)>(hash: Hash<H>, fed: Bytes, more: Bytes)
    requires Incremental(hash)
    ensures hash.update(hash.update(hash.init, fed), more) == hash.update(hash.init, fed + more)
  {
  }

  function Digest<H>(hash: Hash<H>, bytes: Bytes): Bytes {
    hash.final(hash.update(hash.init, bytes))
  }

  class ChecksumReader<H(!new)> {
    const hash: Hash<H>
    const expected: Bytes
    var hasher: H
    /** What the wrapped reader still has to give, and whether it ends in an error. */
    var rest: Bytes
    const broken: bool

    constructor (hash: Hash<H>, expected: Bytes, bytes: Bytes, broken: bool)
      ensures this.hash == hash && this.expected == expected && this.broken == broken
      ensures hasher == hash.init && rest == bytes
    {
      this.hash, this.expected, this.broken := hash, expected, broken;
      hasher, rest := hash.init, bytes;
    }

    /** One read of any size; what was filled goes through the hasher. */
    method PollRead(room: nat) returns (r: Result<Bytes>)
      requires room > 0
      modifies this`hasher, this`rest
      ensures r.Err? <==> old(rest) == [] && broken
      ensures r.Err? ==> r.error == Io && rest == old(rest) && hasher == old(hasher)
      ensures r.Ok? ==>
        && old(rest) == r.value + rest && |r.value| <= room && (r.value == [] <==> old(rest) == [])
        && hasher == if r.value == [] then old(hasher) else hash.update(old(hasher), r.value)
    {
      if rest == [] {
        return if broken then Err(Io) else Ok([]);
      }
      var n: nat :| 1 <= n <= |rest| && n <= room;
      var filled := rest[..n];
      assert rest == filled + rest[n..];
      rest := rest[n..];
      hasher := hash.update(hasher, filled);
      return Ok(filled);
    }

    method Verify() returns (r: Result<()>)
      ensures r == if hash.final(hasher) == expected then Ok(()) else Err(ChecksumMismatch)
    {
      var computed := hash.final(hasher);
      return if computed == expected then Ok(()) else Err(ChecksumMismatch);
    }

    /** Reads everything, in reads of any size, then verifies: the gate in front of a checksummed write. */
    method ReadVerified(room: nat) returns (r: Result<Bytes>)
      requires Incremental(hash) && hasher == hash.init && room > 0
      modifies this`hasher, this`rest
      ensures r == if broken then Err(Io)
                   else if Digest(hash, old(rest)) == expected then Ok(old(rest))
                   else Err(ChecksumMismatch)
    {
      var buf: Bytes := [];
      while true
        invariant old(rest) == buf + rest && hasher == hash.update(hash.init, buf)
        decreases |rest|
      {
        var read := PollRead(room);
        if read.Err? {
          return Err(read.error);
        }
        if read.value == [] {
          break;
        }
        FeedAppends(hash, buf, read.value);
        buf := buf + read.value;
      }
      assert buf == old(rest);
      var verdict := Verify();
      return if verdict.Ok? then Ok(buf) else Err(ChecksumMismatch);
    }
  }

  /** What the PATCH handler gets from the gate is what the one-shot digest of the body says. */
  method GatePayload<H(!new)>(cfg: P.Config, hash: Hash<H>, alg: P.Algorithm, expected: Bytes, body: Body, room: nat)
    returns (r: Result<Body>)
    requires Incremental(hash) && room > 0 && cfg.checksum && !body.NoBody?
    requires forall bytes :: cfg.digest(alg, bytes) == Digest(hash, bytes)
    ensures r == P.Payload(cfg, P.Checksum(alg, expected), body)
  {
    var reader := new ChecksumReader<H>(hash, expected, body.GetBytes(), body.BrokenBody?);
    var read := reader.ReadVerified(room);
    return match read case Ok(bytes) => Ok(FullBody(bytes)) case Err(e) => Err(e);
  }
}
