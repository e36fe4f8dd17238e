/** What travels between nodes: big-endian integers, chunk requests and replies,
  * and the frames around tracker messages. */
module Wire {
  import opened Bytes
  import opened Wrappers
  import opened Sequences
  import opened Manifests
  import opened ChunkStores

  // ----- slices

  lemma Paste(a: nat, b: nat, input: Bytes)
    requires a <= b <= |input|
    ensures input[..b] == input[..a] + input[a..b] && input[..b] <= input
  {
  }

  // ----- a connection

  /** One end of a connection: what is still to come in, and what went out. */
  class Stream {
    var input: Bytes
    var output: Bytes

    constructor (input: Bytes)
      ensures this.input == input && output == []
    {
      this.input := input;
      this.output := [];
    }

    /** Fails when the connection closes too early, having read what there was. */
    method ReadExact(n: nat) returns (r: Result<Bytes>)
      modifies this`input
      ensures n <= |old(input)| ==> r == Success(old(input)[..n]) && input == old(input)[n..]
      ensures n > |old(input)| ==> r == Failure(IoError) && input == []
    {
      if |input| < n {
        input := [];
        return Failure(IoError);
      }
      r := Success(input[..n]);
      input := input[n..];
    }

    method ReadU32() returns (r: Result<nat>)
      modifies this`input
      ensures 4 <= |old(input)| ==>
        r == Success(Number(old(input)[..4])) && r.value < U32_LIMIT && input == old(input)[4..]
      ensures 4 > |old(input)| ==> r == Failure(IoError) && input == []
    {
      var b :- ReadExact(4);
      U32Only(b);
      return Success(Number(b));
    }

    method ReadU64() returns (r: Result<nat>)
      modifies this`input
      ensures 8 <= |old(input)| ==>
        r == Success(Number(old(input)[..8])) && r.value < U64_LIMIT && input == old(input)[8..]
      ensures 8 > |old(input)| ==> r == Failure(IoError) && input == []
    {
      var b :- ReadExact(8);
      U64Only(b);
      return Success(Number(b));
    }

    method WriteAll(b: Bytes)
      modifies this`output
      ensures output == old(output) + b
    {
      output := output + b;
    }
  }

  // ----- chunk requests

  datatype ChunkRequest = ChunkRequest(jobId: Bytes, index: nat)

  /** The length is cast to 32 bits. */
  function EncodeRequest(jobId: Bytes, index: nat): Bytes
    requires index < U32_LIMIT
  {
    U32(|jobId| % U32_LIMIT) + jobId + U32(index)
  }

  function ParseRequest(input: Bytes): Option<ChunkRequest> {
    if |input| < 4 then None else
      var n, rest := Number(input[..4]), input[4..];
      if |rest| < n + 4 then None
      else Some(ChunkRequest(rest[..n], Number(rest[n..n + 4])))
  }

  lemma EncodeShort(jobId: Bytes, index: nat)
    requires |jobId| < U32_LIMIT && index < U32_LIMIT
    ensures EncodeRequest(jobId, index) == U32(|jobId|) + jobId + U32(index)
  {
    assert |jobId| % U32_LIMIT == |jobId|;
  }

  /** The server reads the request it was sent. */
  lemma RequestRoundTrip(jobId: Bytes, index: nat, rest: Bytes)
    requires |jobId| < U32_LIMIT && index < U32_LIMIT
    ensures ParseRequest(EncodeRequest(jobId, index) + rest) == Some(ChunkRequest(jobId, index))
  {
    U32Value(|jobId|);
    U32Value(index);
    var length, at := U32(|jobId|), U32(index);
    EncodeShort(jobId, index);
    ParsedRequest(length, jobId, at, rest);
  }

  lemma ParsedRequest(length: Bytes, jobId: Bytes, index: Bytes, rest: Bytes)
    requires |length| == 4 && |index| == 4 && Number(length) == |jobId|
    ensures ParseRequest(length + jobId + index + rest) == Some(ChunkRequest(jobId, Number(index)))
  {
    var input, n := length + jobId + index + rest, |jobId|;
    assert input[..4] == length;
    assert input[4..] == jobId + index + rest;
    assert input[4..][..n] == jobId && input[4..][n..n + 4] == index;
  }

  // ----- chunk replies

  const SERVED: nat := 0
  const NOT_FOUND: nat := 1

  /** A status, and when the chunk was found its length and its bytes. */
  function EncodeReply(file: Option<Bytes>): Bytes
    requires file.Some? ==> |file.value| < U64_LIMIT
  {
    if file.Some? then U32(SERVED) + U64(|file.value|) + file.value else U32(NOT_FOUND)
  }

  /** What goes over the wire: a status of four bytes, 0 or 1, and after 0 the
    * length in eight bytes and the data. */
  lemma ReplyLayout(file: Option<Bytes>)
    requires file.Some? ==> |file.value| < U64_LIMIT
    ensures var wire := EncodeReply(file);
      if file.None? then |wire| == 4 && Number(wire) == 1
      else
        && |wire| == 12 + |file.value|
        && Number(wire[..4]) == 0 && Number(wire[4..12]) == |file.value| && wire[12..] == file.value
  {
    U32Value(SERVED);
    U32Value(NOT_FOUND);
    if file.Some? {
      U64Value(|file.value|);
      HeaderCut(U32(SERVED), U64(|file.value|), file.value, EncodeReply(file));
    }
  }

  /** A request is the length of the job id, the job id and the index. */
  lemma RequestLayout(jobId: Bytes, index: nat)
    requires |jobId| < U32_LIMIT && index < U32_LIMIT
    ensures var wire, n := EncodeRequest(jobId, index), |jobId|;
      && |wire| == 4 + n + 4
      && Number(wire[..4]) == n && wire[4..4 + n] == jobId && Number(wire[4 + n..]) == index
  {
    EncodeShort(jobId, index);
    U32Value(|jobId|);
    U32Value(index);
    var wire := U32(|jobId|) + jobId + U32(index);
    assert wire[..4] == U32(|jobId|) && wire[4 + |jobId|..] == U32(index);
  }

  method ReadRequest(stream: Stream) returns (r: Result<ChunkRequest>)
    modifies stream`input
    ensures r == var request := ParseRequest(old(stream.input));
      if request.Some? then Success(request.value) else Failure(IoError)
  {
    ghost var was := stream.input;
    var len :- stream.ReadU32();
    ghost var rest := was[4..];
    var jobId :- stream.ReadExact(len);
    assert len + 4 <= |rest| ==> rest[len..][..4] == rest[len..len + 4];
    var index :- stream.ReadU32();
    return Success(ChunkRequest(jobId, index));
  }

  method WriteReply(stream: Stream, file: Option<Bytes>)
    requires file.Some? ==> |file.value| < U64_LIMIT
    modifies stream`output
    ensures stream.output == old(stream.output) + EncodeReply(file)
  {
    if file.Some? {
      ghost var was := stream.output;
      stream.WriteAll(U32(SERVED));
      stream.WriteAll(U64(|file.value|));
      stream.WriteAll(file.value);
      AppendThree(was, U32(SERVED), U64(|file.value|), file.value);
    } else {
      stream.WriteAll(U32(NOT_FOUND));
    }
  }

  lemma AppendThree(was: Bytes, a: Bytes, b: Bytes, c: Bytes)
    ensures was + a + b + c == was + (a + b + c)
  {
  }

  /** The file `index` names goes back whole, whatever the index; nothing goes
    * back for half a request. The job id is read and not used. */
  method HandleChunkRequest(stream: Stream, fileId: string, disk: Disk) returns (r: Outcome)
    requires forall path :: path in disk ==> |disk[path]| < U64_LIMIT
    modifies stream
    ensures var request := ParseRequest(old(stream.input));
      && r == (if request.Some? then Pass else Fail(IoError))
      && stream.output == old(stream.output) +
           if request.Some? then EncodeReply(Stored(disk, fileId, request.value.index)) else []
  {
    var request := ReadRequest(stream);
    if request.Failure? {
      return Fail(request.error);
    }
    WriteReply(stream, Stored(disk, fileId, request.value.index));
    return Pass;
  }

  // ----- accepting a reply

  /** The length chunk `i` must have. */
  function LengthOf(m: Manifest, i: nat): int {
    var (start, end) := ChunkRange(i, m.chunkSize, m.totalSize);
    end - start
  }

  lemma LengthFits(m: Manifest, i: nat)
    requires SizesOk(m.totalSize, m.chunkSize)
    ensures LengthOf(m, i) < U64_LIMIT
  {
    MulMono(0, i, m.chunkSize);
  }

  /** Chunk `i` is what the manifest promises, in length and digest. */
  predicate Matches(hash: Hasher, m: Manifest, i: nat, data: Bytes)
    requires i < |m.chunkHashes|
  {
    |data| == LengthOf(m, i) && hash(data) == m.chunkHashes[i]
  }

  /** The bytes of a reply that must carry `expected` of them. */
  function ParseReply(wire: Bytes, expected: int): Result<Bytes> {
    if |wire| < 4 then Failure(IoError)
    else if Number(wire[..4]) != SERVED then Failure(ProtoError)
    else if |wire| < 12 then Failure(IoError)
    else
      var n := Number(wire[4..12]);
      if n != expected then Failure(ProtoError)
      else if |wire| < 12 + n then Failure(IoError)
      else Success(wire[12..12 + n])
  }

  /** What the downloader makes of the bytes a peer sends back. */
  function Accept(hash: Hasher, m: Manifest, i: nat, wire: Bytes): Result<Bytes>
    requires i < |m.chunkHashes|
  {
    var data :- ParseReply(wire, LengthOf(m, i));
    var check := VerifyChunk(hash, m, i, data);
    if check.Fail? then Failure(check.error) else Success(data)
  }

  lemma HeaderCut(status: Bytes, length: Bytes, data: Bytes, wire: Bytes)
    requires |status| == 4 && |length| == 8 && status + length + data <= wire
    ensures 12 + |data| <= |wire|
    ensures wire[..4] == status && wire[4..12] == length && wire[12..12 + |data|] == data
  {
    var whole := status + length + data;
    assert wire[..|whole|] == whole;
    assert wire[..4] == whole[..4];
    assert wire[4..12] == whole[4..12];
    assert wire[12..12 + |data|] == whole[12..];
  }

  lemma ReadsBack(data: Bytes, wire: Bytes)
    requires |data| < U64_LIMIT && EncodeReply(Some(data)) <= wire
    ensures 12 + |data| <= |wire|
    ensures wire[..4] == U32(SERVED) && wire[4..12] == U64(|data|) && wire[12..12 + |data|] == data
  {
    HeaderCut(U32(SERVED), U64(|data|), data, wire);
  }

  lemma ParsedOnly(wire: Bytes, expected: int, data: Bytes)
    requires ParseReply(wire, expected) == Success(data)
    ensures |data| < U64_LIMIT && |data| == expected && EncodeReply(Some(data)) <= wire
  {
    U32Only(wire[..4]);
    U64Only(wire[4..12]);
    Paste(4, 12, wire);
    Paste(12, 12 + |data|, wire);
  }

  lemma ParsedIff(wire: Bytes, expected: int, data: Bytes)
    ensures ParseReply(wire, expected) == Success(data) <==>
      |data| < U64_LIMIT && |data| == expected && EncodeReply(Some(data)) <= wire
  {
    if ParseReply(wire, expected) == Success(data) {
      ParsedOnly(wire, expected, data);
    }
    if |data| < U64_LIMIT && EncodeReply(Some(data)) <= wire {
      ReadsBack(data, wire);
      U32Value(SERVED);
      U64Value(|data|);
    }
  }

  /** A reply is accepted exactly when it begins with the encoding of a chunk
    * the manifest promises, and then that chunk is what is taken from it. */
  lemma AcceptedIff(hash: Hasher, m: Manifest, i: nat, wire: Bytes, data: Bytes)
    requires i < |m.chunkHashes|
    ensures Accept(hash, m, i, wire) == Success(data) <==>
      |data| < U64_LIMIT && Matches(hash, m, i, data) && EncodeReply(Some(data)) <= wire
  {
    ParsedIff(wire, LengthOf(m, i), data);
  }

  lemma ParsedServed(file: Option<Bytes>, expected: int)
    requires file.Some? ==> |file.value| < U64_LIMIT
    ensures ParseReply(EncodeReply(file), expected) ==
      if file.Some? && |file.value| == expected then Success(file.value) else Failure(ProtoError)
  {
    var wire := EncodeReply(file);
    if file.Some? {
      ReadsBack(file.value, wire);
      U32Value(SERVED);
      U64Value(|file.value|);
    } else {
      assert wire[..4] == U32(NOT_FOUND);
      U32Value(NOT_FOUND);
    }
  }

  /** A reply from a node's chunk server is accepted exactly when the node
    * stores the chunk as the manifest promises it. */
  lemma ServedIffStored(hash: Hasher, m: Manifest, i: nat, disk: Disk)
    requires i < |m.chunkHashes|
    requires forall path :: path in disk ==> |disk[path]| < U64_LIMIT
    ensures var file := Stored(disk, m.fileId, i);
      Accept(hash, m, i, EncodeReply(file)) ==
        if file.None? || |file.value| != LengthOf(m, i) then Failure(ProtoError)
        else if hash(file.value) != m.chunkHashes[i]
        then Failure(HashMismatch(i, m.chunkHashes[i], hash(file.value)))
        else Success(file.value)
  {
    ParsedServed(Stored(disk, m.fileId, i), LengthOf(m, i));
  }

  method ReadReply(stream: Stream, expected: int) returns (r: Result<Bytes>)
    modifies stream`input
    ensures r == ParseReply(old(stream.input), expected)
  {
    ghost var wire := stream.input;
    var status :- stream.ReadU32();
    if status != SERVED {
      return Failure(ProtoError);
    }
    assert 12 <= |wire| ==> wire[4..][..8] == wire[4..12] && wire[4..][8..] == wire[12..];
    var n :- stream.ReadU64();
    if n != expected {
      return Failure(ProtoError);
    }
    assert 12 + n <= |wire| ==> wire[12..][..n] == wire[12..12 + n];
    r := stream.ReadExact(n);
  }

  /** Sends the request and takes in the reply. */
  method RequestChunk(stream: Stream, hash: Hasher, m: Manifest, jobId: Bytes, i: nat) returns (r: Result<Bytes>)
    requires i < |m.chunkHashes| && i < U32_LIMIT
    modifies stream
    ensures stream.output == old(stream.output) + EncodeRequest(jobId, i)
    ensures r == Accept(hash, m, i, old(stream.input))
  {
    ghost var was := stream.output;
    stream.WriteAll(U32(|jobId| % U32_LIMIT));
    stream.WriteAll(jobId);
    stream.WriteAll(U32(i));
    AppendThree(was, U32(|jobId| % U32_LIMIT), jobId, U32(i));
    var data :- ReadReply(stream, LengthOf(m, i));
    var check := VerifyChunk(hash, m, i, data);
    if check.Fail? {
      return Failure(check.error);
    }
    return Success(data);
  }

  // ----- frames

  const MAX_FRAME: nat := 16 * 1024 * 1024

  function Frame(payload: Bytes): Bytes {
    U32(|payload| % U32_LIMIT) + payload
  }

  function ReadFrame(input: Bytes): Result<Bytes> {
    if |input| < 4 then Failure(IoError)
    else
      var n := Number(input[..4]);
      if n > MAX_FRAME then Failure(ProtoError)
      else if |input| < 4 + n then Failure(IoError)
      else Success(input[4..4 + n])
  }

  /** `encode` is the serialiser; it may fail. */
  method WriteMsg<T>(stream: Stream, encode: T -> Option<Bytes>, msg: T) returns (r: Outcome)
    modifies stream
    ensures encode(msg).None? ==> r == Fail(SerdeError) && stream.output == old(stream.output)
    ensures encode(msg).Some? ==> r == Pass && stream.output == old(stream.output) + Frame(encode(msg).value)
  {
    var payload := encode(msg);
    if payload.None? {
      return Fail(SerdeError);
    }
    var buf := U32(|payload.value| % U32_LIMIT);
    buf := buf + payload.value;
    stream.WriteAll(buf);
    return Pass;
  }

  /** A message, if the frame is one and `decode`, the parser, takes it. */
  function ReadMessage<T>(input: Bytes, decode: Bytes -> Option<T>): Result<T> {
    var payload :- ReadFrame(input);
    if decode(payload).Some? then Success(decode(payload).value) else Failure(SerdeError)
  }

  /** A frame leaves the stream at the start of the next one. */
  method ReadMsg<T>(stream: Stream, decode: Bytes -> Option<T>) returns (r: Result<T>)
    modifies stream
    ensures r == ReadMessage(old(stream.input), decode)
    ensures var frame := ReadFrame(old(stream.input));
      frame.Success? ==> stream.input == old(stream.input)[4 + |frame.value|..]
  {
    ghost var was := stream.input;
    var len :- stream.ReadU32();
    if len > MAX_FRAME {
      return Failure(ProtoError);
    }
    assert 4 + len <= |was| ==> was[4..][..len] == was[4..4 + len] && was[4..][len..] == was[4 + len..];
    var payload :- stream.ReadExact(len);
    if decode(payload).None? {
      return Failure(SerdeError);
    }
    return Success(decode(payload).value);
  }

  lemma FrameCut(length: Bytes, payload: Bytes, rest: Bytes, n: nat)
    requires |length| == 4 && n <= |payload|
    ensures var input := length + payload + rest;
      4 + n <= |input| && input[..4] == length && input[4..4 + n] == payload[..n]
  {
    var input := length + payload + rest;
    assert input[4..] == payload + rest;
    assert input[4..][..n] == payload[..n];
  }

  lemma FrameParts(payload: Bytes, rest: Bytes)
    ensures var n, input := |payload| % U32_LIMIT, Frame(payload) + rest;
      && 4 + n <= |input| && Number(input[..4]) == n && input[4..4 + n] == payload[..n]
  {
    var n, input := |payload| % U32_LIMIT, Frame(payload) + rest;
    U32Value(n);
    FrameCut(U32(n), payload, rest, n);
  }

  /** What the reader makes of a frame: the message cut to its length modulo
    * 2^32, unless that is over the cap. */
  lemma FrameRead(payload: Bytes, rest: Bytes)
    ensures var n := |payload| % U32_LIMIT;
      ReadFrame(Frame(payload) + rest) == if n > MAX_FRAME then Failure(ProtoError) else Success(payload[..n])
  {
    FrameParts(payload, rest);
  }

  /** The writer checks no size, so a message arrives exactly when it fits the
    * reader's cap; past the u32 range a prefix may be taken for the message. */
  lemma FrameRoundTrip(payload: Bytes, rest: Bytes)
    ensures ReadFrame(Frame(payload) + rest) == Success(payload) <==> |payload| <= 16_777_216
  {
    var n := |payload| % U32_LIMIT;
    FrameRead(payload, rest);
    if |payload| <= MAX_FRAME {
      assert payload[..n] == payload;
    } else {
      assert |payload[..n]| == n;
    }
  }

  /** A message one byte too long is refused, */
  lemma LongMessageIsRefused(long: Bytes, rest: Bytes)
    requires |long| == 16_777_217
    ensures ReadFrame(Frame(long) + rest) == Failure(ProtoError)
  {
    FrameRead(long, rest);
  }

  /** and one of 2^32 bytes arrives empty. */
  lemma HugeMessageArrivesEmpty(huge: Bytes, rest: Bytes)
    requires |huge| == U32_LIMIT
    ensures ReadFrame(Frame(huge) + rest) == Success([])
  {
    FrameRead(huge, rest);
  }

  /** A message within the cap is read back as it was written, by a parser that
    * undoes the serialiser. */
  lemma MessageRoundTrip<T>(encode: T -> Option<Bytes>, decode: Bytes -> Option<T>, msg: T, rest: Bytes)
    requires encode(msg).Some? && decode(encode(msg).value) == Some(msg)
    requires |encode(msg).value| <= 16_777_216
    ensures ReadMessage(Frame(encode(msg).value) + rest, decode) == Success(msg)
  {
    FrameRoundTrip(encode(msg).value, rest);
  }
}
