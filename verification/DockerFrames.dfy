/** Demultiplexing a Docker log stream: 8-byte frame headers with a big-endian payload size (the stream
    format of ContainerAttach in the Docker Engine API v1.41). */
module DockerFrames {
  type byte = x: int | 0 <= x < 256

  type bytes = seq<byte>

  const HEADER := 8
  const LIMIT := 16 * 1024 * 1024

  /** The text of the ValueError and a newline. */
  const TOO_LARGE: bytes :=
    [100, 111, 99, 107, 101, 114, 32, 108, 111, 103, 115, 32, 102, 114, 97, 109, 101, 32, 116, 111, 111, 32, 108, 97,
     114, 103, 101, 10]

  datatype Result<+T> = Ok(value: T) | TooLarge

  /** Payload of the complete frames, and the bytes after them. */
  datatype Split = Split(payload: bytes, tail: bytes)

  // ---- Frames and their encoding ----

  /** The stream number and padding, and the payload. */
  datatype Frame = Frame(kind: bytes, payload: bytes)

  predicate ValidFrame(f: Frame) {
    |f.kind| == 4 && |f.payload| <= LIMIT
  }

  function BigEndian(n: nat): (r: bytes)
    requires n <= LIMIT
    ensures |r| == 4
  {
    [n / 16777216, n / 65536 % 256, n / 256 % 256, n % 256]
  }

  lemma BigEndianSize(n: nat)
    requires n <= LIMIT
    ensures SizeOf(BigEndian(n)) == n
  {
    var q := n / 256;
    Nested(n);
    Nested(q);
    assert n == q * 256 + n % 256 && q == q / 256 * 256 + q % 256;
  }

  lemma Nested(n: nat)
    ensures n / 65536 == n / 256 / 256 && n / 16777216 == n / 65536 / 256
  {
  }

  /** int.from_bytes(..., "big") */
  function SizeOf(b: bytes): nat
    requires |b| == 4
  {
    b[0] as int * 16777216 + b[1] as int * 65536 + b[2] as int * 256 + b[3] as int
  }

  function Encode(f: Frame): bytes
    requires ValidFrame(f)
  {
    f.kind + BigEndian(|f.payload|) + f.payload
  }

  predicate AllValid(fs: seq<Frame>) {
    forall f :: f in fs ==> ValidFrame(f)
  }

  function EncodeAll(fs: seq<Frame>): bytes
    requires AllValid(fs)
  {
    if fs == [] then [] else Encode(fs[0]) + EncodeAll(fs[1..])
  }

  function Payloads(fs: seq<Frame>): bytes {
    if fs == [] then [] else fs[0].payload + Payloads(fs[1..])
  }

  // ---- Reading frames off a buffer ----

  /** The size announced by a header. */
  function Announced(data: bytes): nat
    requires HEADER <= |data|
  {
    SizeOf(data[4..8])
  }

  predicate Oversized(data: bytes) {
    HEADER <= |data| && Announced(data) > LIMIT
  }

  predicate StartsFrame(data: bytes) {
    HEADER <= |data| && Announced(data) <= LIMIT && HEADER + Announced(data) <= |data|
  }

  /** All complete frames in front of the first incomplete or oversized one. */
  function Scan(data: bytes): Split
    decreases |data|
  {
    if StartsFrame(data) then
      var n := HEADER + Announced(data);
      var rest := Scan(data[n..]);
      Split(data[HEADER..n] + rest.payload, rest.tail)
    else
      Split([], data)
  }

  /** Some header that the scan reaches announces too much. */
  predicate Overflows(data: bytes) {
    Oversized(Scan(data).tail)
  }

  /** take_docker_log_frames */
  method TakeFrames(data: bytes) returns (r: Result<Split>)
    ensures r == if Overflows(data) then TooLarge else Ok(Scan(data))
  {
    var payload, index: nat := [], 0;
    assert data[0..] == data;
    while index + HEADER <= |data|
      invariant index <= |data| && Progress(data, payload, index)
    {
      var size := SizeOf(data[index + 4..index + 8]);
      HeaderAt(data, index);
      if size > LIMIT {
        Stuck(data, payload, index);
        return TooLarge;
      }
      if index + HEADER + size > |data| {
        break;
      }
      Advance(data, payload, index, size);
      payload := payload + data[index + HEADER..index + HEADER + size];
      index := index + HEADER + size;
    }
    Stuck(data, payload, index);
    return Ok(Split(payload, data[index..]));
  }

  lemma HeaderAt(data: bytes, index: nat)
    requires index + HEADER <= |data|
    ensures Announced(data[index..]) == SizeOf(data[index + 4..index + 8])
  {
    assert data[index..][4..8] == data[index + 4..index + 8];
  }

  /** Where no frame starts the scan ends. */
  lemma Stuck(data: bytes, payload: bytes, index: nat)
    requires index <= |data| && Progress(data, payload, index) && !StartsFrame(data[index..])
    ensures Scan(data) == Split(payload, data[index..])
  {
    assert payload + [] == payload;
  }

  /** The frames before `index` are read. */
  predicate Progress(data: bytes, payload: bytes, index: nat)
    requires index <= |data|
  {
    var rest := Scan(data[index..]);
    Scan(data) == Split(payload + rest.payload, rest.tail)
  }

  lemma Advance(data: bytes, payload: bytes, index: nat, size: nat)
    requires index + HEADER + size <= |data| && Progress(data, payload, index)
    requires size == SizeOf(data[index + 4..index + 8]) && size <= LIMIT
    ensures Progress(data, payload + data[index + HEADER..index + HEADER + size], index + HEADER + size)
  {
    var here := data[index..];
    assert here[4..8] == data[index + 4..index + 8];
    assert here[HEADER..HEADER + size] == data[index + HEADER..index + HEADER + size];
    assert here[HEADER + size..] == data[index + HEADER + size..];
    Assoc(payload, here[HEADER..HEADER + size], Scan(data[index + HEADER + size..]).payload);
  }

  lemma Assoc(a: bytes, b: bytes, c: bytes)
    ensures a + (b + c) == (a + b) + c
  {
  }

  // ---- Decoding inverts encoding ----

  lemma EncodeStarts(f: Frame, rest: bytes)
    requires ValidFrame(f)
    ensures
      var data := Encode(f) + rest;
      && StartsFrame(data) && Announced(data) == |f.payload|
      && data[HEADER..HEADER + |f.payload|] == f.payload && data[HEADER + |f.payload|..] == rest
  {
    var data := Encode(f) + rest;
    assert data[4..8] == BigEndian(|f.payload|);
    BigEndianSize(|f.payload|);
  }

  /** Encoded frames followed by bytes that start no frame are split exactly there. */
  lemma {:induction false} ScanInvertsEncoding(fs: seq<Frame>, tail: bytes)
    requires AllValid(fs) && !StartsFrame(tail)
    ensures Scan(EncodeAll(fs) + tail) == Split(Payloads(fs), tail)
  {
    if fs == [] {
      assert EncodeAll(fs) + tail == tail;
    } else {
      assert AllValid(fs[1..]);
      ScanInvertsEncoding(fs[1..], tail);
      Assoc(Encode(fs[0]), EncodeAll(fs[1..]), tail);
      EncodeStarts(fs[0], EncodeAll(fs[1..]) + tail);
    }
  }

  lemma BigEndianUnique(b: bytes)
    requires |b| == 4 && SizeOf(b) <= LIMIT
    ensures BigEndian(SizeOf(b)) == b
  {
    var low := b[2] as int * 256 + b[3] as int;
    var high := b[0] as int * 256 + b[1] as int;
    assert SizeOf(b) == high * 65536 + low;
    assert SizeOf(b) / 65536 == high && SizeOf(b) / 256 == high * 256 + b[2] as int;
  }

  lemma Decodable(data: bytes)
    requires StartsFrame(data)
    ensures
      var n := HEADER + Announced(data);
      var f := Frame(data[..4], data[HEADER..n]);
      ValidFrame(f) && data == Encode(f) + data[n..]
  {
    BigEndianUnique(data[4..8]);
    var n := HEADER + Announced(data);
    assert data == data[..4] + data[4..8] + data[HEADER..n] + data[n..];
  }

  /** The frames the scan reads. */
  function FramesOf(data: bytes): (fs: seq<Frame>)
    decreases |data|
  {
    if StartsFrame(data) then
      var n := HEADER + Announced(data);
      [Frame(data[..4], data[HEADER..n])] + FramesOf(data[n..])
    else
      []
  }

  /** Every buffer is the encoding of the frames read and the tail, and the tail starts no frame. */
  lemma {:induction false} EncodingInvertsScan(data: bytes)
    ensures AllValid(FramesOf(data)) && !StartsFrame(Scan(data).tail)
    ensures data == EncodeAll(FramesOf(data)) + Scan(data).tail
    ensures Scan(data).payload == Payloads(FramesOf(data))
    decreases |data|
  {
    if StartsFrame(data) {
      var n := HEADER + Announced(data);
      var f := Frame(data[..4], data[HEADER..n]);
      Decodable(data);
      EncodingInvertsScan(data[n..]);
      var fs := FramesOf(data[n..]);
      assert ([f] + fs)[1..] == fs;
      Assoc(Encode(f), EncodeAll(fs), Scan(data).tail);
    }
  }

  // ---- The buffered loop ----

  lemma {:induction false} ScanAppend(a: bytes, b: bytes)
    ensures
      var first := Scan(a);
      Scan(a + b) == Split(first.payload + Scan(first.tail + b).payload, Scan(first.tail + b).tail)
    decreases |a|
  {
    if StartsFrame(a) {
      var n := HEADER + Announced(a);
      ScanAppend(a[n..], b);
      Extend(a, b, n);
      Assoc(a[HEADER..n], Scan(a[n..]).payload, Scan(Scan(a[n..]).tail + b).payload);
    }
  }

  lemma Extend(a: bytes, b: bytes, n: nat)
    requires StartsFrame(a) && n == HEADER + Announced(a)
    ensures StartsFrame(a + b) && Announced(a + b) == Announced(a)
    ensures (a + b)[HEADER..n] == a[HEADER..n] && (a + b)[n..] == a[n..] + b
  {
    assert (a + b)[4..8] == a[4..8];
  }

  /** A header too large stays so whatever follows. */
  lemma OverflowStays(a: bytes, b: bytes)
    requires Overflows(a)
    ensures Overflows(a + b) && Scan(a + b).payload == Scan(a).payload
  {
    ScanAppend(a, b);
    var t := Scan(a).tail;
    assert (t + b)[4..8] == t[4..8];
  }

  /** One read from the connection; an empty chunk is the end of the stream. */
  datatype Read = Chunk(data: bytes) | Lost

  /** The bytes the loop adds to its buffer unless a header stops it before. */
  function Delivered(inputs: seq<Read>): seq<bytes> {
    if inputs == [] || inputs[0].Lost? || inputs[0].data == [] then [] else [inputs[0].data] + Delivered(inputs[1..])
  }

  function Concat(chunks: seq<bytes>): bytes {
    if chunks == [] then [] else chunks[0] + Concat(chunks[1..])
  }

  /** What the loop writes, and the buffer it ends with, or the header error. */
  datatype Streamed = Streamed(written: bytes, left: Result<bytes>)

  function Stream(buffer: bytes, chunks: seq<bytes>): Streamed
    decreases |chunks|
  {
    if chunks == [] then
      Streamed([], Ok(buffer))
    else if Overflows(buffer + chunks[0]) then
      Streamed([], TooLarge)
    else
      var now := Scan(buffer + chunks[0]);
      var later := Stream(now.tail, chunks[1..]);
      Streamed(now.payload + later.written, later.left)
  }

  /** What ends up in the file: an overflow adds its message. */
  function Output(s: Streamed): bytes {
    s.written + if s.left.TooLarge? then TOO_LARGE else []
  }

  class RenderLogFollow {
    var file: bytes

    /** _stream_unix after the response header. The run ends when `inputs` does. */
    method StreamUnix(inputs: seq<Read>)
      modifies this
      ensures file == old(file) + Output(Stream([], Delivered(inputs)))
    {
      var buffer, k: nat := [], 0;
      ghost var goal := file + Output(Stream([], Delivered(inputs)));
      assert inputs[0..] == inputs;
      while k < |inputs|
        invariant k <= |inputs| && goal == file + Output(Stream(buffer, Delivered(inputs[k..])))
      {
        assert inputs[k..][1..] == inputs[k + 1..];
        if inputs[k].Lost? || inputs[k].data == [] {
          break;
        }
        Step(file, buffer, inputs[k].data, Delivered(inputs[k + 1..]));
        buffer := buffer + inputs[k].data;
        var taken := TakeFrames(buffer);
        if taken.TooLarge? {
          file := file + TOO_LARGE;
          return;
        }
        buffer := taken.value.tail;
        file := file + taken.value.payload;
        k := k + 1;
      }
      assert Delivered(inputs[k..]) == [];
      assert file + [] + [] == file;
    }
  }

  lemma Step(file: bytes, buffer: bytes, chunk: bytes, rest: seq<bytes>)
    ensures
      var next := buffer + chunk;
      file + Output(Stream(buffer, [chunk] + rest)) ==
      if Overflows(next) then file + TOO_LARGE else (file + Scan(next).payload) + Output(Stream(Scan(next).tail, rest))
  {
    assert ([chunk] + rest)[1..] == rest;
    var next := buffer + chunk;
    var later := Stream(Scan(next).tail, rest);
    Assoc(Scan(next).payload, later.written, if later.left.TooLarge? then TOO_LARGE else []);
    Assoc(file, Scan(next).payload, Output(later));
  }

  /** A header holds its size with the most significant byte first, and sizes up to 16 MiB are read. */
  lemma WireFormat(b0: byte, b1: byte, b2: byte, b3: byte, data: bytes)
    ensures SizeOf([b0, b1, b2, b3]) == ((b0 * 256 + b1) * 256 + b2) * 256 + b3
    ensures HEADER == 8 && (Oversized(data) <==> |data| >= 8 && SizeOf(data[4..8]) > 16777216)
  {
  }

  /** The loop takes every chunk up to the first empty one or the loss of the connection. */
  lemma {:induction false} DeliveredUntil(chunks: seq<bytes>, end: Read, rest: seq<Read>)
    requires (forall c :: c in chunks ==> c != []) && (end.Lost? || end.data == [])
    ensures Delivered(Reads(chunks) + [end] + rest) == chunks && Delivered(Reads(chunks)) == chunks
    decreases |chunks|
  {
    if chunks != [] {
      assert chunks[0] in chunks && forall c :: c in chunks[1..] ==> c in chunks;
      DeliveredUntil(chunks[1..], end, rest);
      assert (Reads(chunks) + [end] + rest)[1..] == Reads(chunks[1..]) + [end] + rest;
      assert Reads(chunks)[1..] == Reads(chunks[1..]);
    } else {
      assert Reads(chunks) + [end] + rest == [end] + rest;
    }
  }

  function Reads(chunks: seq<bytes>): (r: seq<Read>)
    ensures |r| == |chunks| && forall i :: 0 <= i < |r| ==> r[i] == Chunk(chunks[i])
  {
    seq(|chunks|, i requires 0 <= i < |chunks| => Chunk(chunks[i]))
  }

  /** What is written: the payload, and after an oversized header "docker logs frame too large" and a newline. */
  lemma OutputEnds(s: Streamed)
    ensures s.left.Ok? ==> Output(s) == s.written
    ensures s.left.TooLarge? ==>
              Output(s) == s.written + [100, 111, 99, 107, 101, 114, 32, 108, 111, 103, 115, 32, 102, 114, 97, 109, 101,
                                        32, 116, 111, 111, 32, 108, 97, 114, 103, 101, 10]
  {
    assert s.written + [] == s.written;
  }

  // ---- How the stream is cut into chunks does not matter ----

  /** Without an oversized header, the loop writes the payload of one scan of the whole stream and is
      left with its tail. */
  lemma {:induction false} StreamIsScan(buffer: bytes, chunks: seq<bytes>)
    requires !StartsFrame(buffer) && !Overflows(buffer + Concat(chunks))
    ensures
      var whole := Scan(buffer + Concat(chunks));
      Stream(buffer, chunks) == Streamed(whole.payload, Ok(whole.tail))
    decreases |chunks|
  {
    if chunks == [] {
      assert buffer + Concat(chunks) == buffer;
    } else {
      var next, rest := buffer + chunks[0], Concat(chunks[1..]);
      Assoc(buffer, chunks[0], rest);
      if Overflows(next) { OverflowStays(next, rest); }
      ScanAppend(next, rest);
      EncodingInvertsScan(next);
      StreamIsScan(Scan(next).tail, chunks[1..]);
    }
  }

  /** The chunk during which an oversized header is reached. */
  predicate BreaksAt(buffer: bytes, chunks: seq<bytes>, k: nat) {
    && k < |chunks| && !Overflows(buffer + Concat(chunks[..k])) && Overflows(buffer + Concat(chunks[..k + 1]))
  }

  /** With one, the loop fails in the chunk that completes that header, and has written what the chunks
      before it complete. */
  lemma {:induction false} StreamBreaks(buffer: bytes, chunks: seq<bytes>, k: nat)
    requires !StartsFrame(buffer) && BreaksAt(buffer, chunks, k)
    ensures Stream(buffer, chunks) == Streamed(Scan(buffer + Concat(chunks[..k])).payload, TooLarge)
    decreases |chunks|
  {
    var next := buffer + chunks[0];
    if k == 0 {
      assert chunks[..k + 1] == [chunks[0]] && chunks[0] + [] == chunks[0];
      assert Concat([chunks[0]][1..]) == [] && Concat(chunks[..k + 1]) == chunks[0];
      assert chunks[..0] == [] && buffer + Concat(chunks[..0]) == buffer;
    } else {
      BreaksLater(buffer, chunks, k);
      EncodingInvertsScan(next);
      StreamBreaks(Scan(next).tail, chunks[1..], k - 1);
    }
  }

  lemma BreaksLater(buffer: bytes, chunks: seq<bytes>, k: nat)
    requires 0 < k && BreaksAt(buffer, chunks, k)
    ensures
      var next := buffer + chunks[0];
      var t := Scan(next).tail;
      && !Overflows(next) && BreaksAt(t, chunks[1..], k - 1)
      && Scan(buffer + Concat(chunks[..k])).payload ==
         Scan(next).payload + Scan(t + Concat(chunks[1..][..k - 1])).payload
  {
    var next := buffer + chunks[0];
    assert chunks[..k][1..] == chunks[1..][..k - 1] && chunks[..k + 1][1..] == chunks[1..][..k];
    Assoc(buffer, chunks[0], Concat(chunks[1..][..k - 1]));
    Assoc(buffer, chunks[0], Concat(chunks[1..][..k]));
    if Overflows(next) { OverflowStays(next, Concat(chunks[1..][..k - 1])); }
    ScanAppend(next, Concat(chunks[1..][..k - 1]));
    ScanAppend(next, Concat(chunks[1..][..k]));
  }

  lemma {:induction false} BreakExists(chunks: seq<bytes>, n: nat) returns (k: nat)
    requires n <= |chunks| && Overflows(Concat(chunks[..n]))
    ensures BreaksAt([], chunks, k) && k < n
  {
    assert forall b: bytes :: [] + b == b;
    if Overflows(Concat(chunks[..n - 1])) {
      k := BreakExists(chunks, n - 1);
    } else {
      k := n - 1;
    }
  }

  lemma {:induction false} ConcatSplit(chunks: seq<bytes>, k: nat)
    requires k <= |chunks|
    ensures Concat(chunks) == Concat(chunks[..k]) + Concat(chunks[k..])
    decreases k
  {
    if k == 0 {
      assert chunks[..0] == [] && chunks[0..] == chunks;
    } else {
      ConcatSplit(chunks[1..], k - 1);
      assert chunks[..k][1..] == chunks[1..][..k - 1] && chunks[1..][k - 1..] == chunks[k..];
      Assoc(chunks[0], Concat(chunks[1..][..k - 1]), Concat(chunks[k..]));
    }
  }
}
