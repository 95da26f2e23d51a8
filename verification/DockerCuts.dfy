/** How a Docker log stream is cut into reads: when the cut decides what the buffered loop writes. */
module DockerCuts {
  import opened DockerFrames

  const CHUNK := 4096

  /** The stream cut into reads, each of 1 to 4096 bytes. */
  ghost predicate IsCut(chunks: seq<bytes>, data: bytes) {
    Concat(chunks) == data && forall c :: c in chunks ==> 1 <= |c| <= CHUNK
  }

  ghost predicate CutsAgree(data: bytes) {
    forall a, b :: IsCut(a, data) && IsCut(b, data) ==> Stream([], a) == Stream([], b)
  }

  /** The oversized header stands behind `start` bytes of complete frames. */
  ghost predicate HeaderBreaks(data: bytes, start: nat) {
    start <= |data| && Scan(data[..start]).tail == [] && Oversized(data[start..])
  }

  /** The first byte with which a read can begin that completes a header at `start`. */
  function EarliestRead(start: nat): nat {
    if start + HEADER <= CHUNK then 0 else start + HEADER - CHUNK
  }

  lemma HeaderIn(data: bytes) returns (start: nat)
    requires Overflows(data)
    ensures HeaderBreaks(data, start) && Scan(data[..start]).payload == Scan(data).payload
  {
    EncodingInvertsScan(data);
    var frames := EncodeAll(FramesOf(data));
    ScanInvertsEncoding(FramesOf(data), []);
    assert frames + [] == frames;
    start := |frames|;
    assert data[..start] == frames && data[start..] == Scan(data).tail;
  }

  // ---- Prefixes of such a stream ----

  lemma HeaderPrefix(tail: bytes, m: nat)
    requires Oversized(tail) && m <= |tail|
    ensures !StartsFrame(tail[..m]) && (Oversized(tail[..m]) <==> m >= HEADER)
  {
    if m >= HEADER { assert tail[..m][4..8] == tail[4..8]; }
  }

  lemma ScanBehind(frames: bytes, x: bytes)
    requires Scan(frames).tail == [] && !StartsFrame(x)
    ensures Scan(frames + x) == Split(Scan(frames).payload, x)
  {
    ScanAppend(frames, x);
    assert [] + x == x;
    assert Scan(frames).payload + [] == Scan(frames).payload;
  }

  /** From the header on all payload is complete, and the header is recognised with its eighth byte. */
  lemma PrefixScan(data: bytes, start: nat, n: nat)
    requires HeaderBreaks(data, start) && n <= |data|
    ensures Overflows(data[..n]) <==> n >= start + HEADER
    ensures n >= start ==> Scan(data[..n]).payload == Scan(data[..start]).payload
  {
    if n >= start {
      HeaderPrefix(data[start..], n - start);
      ScanBehind(data[..start], data[start..][..n - start]);
      assert data[..n] == data[..start] + data[start..][..n - start];
    } else {
      assert data[..n] + data[n..start] == data[..start];
      NoOverflowInside(data[..n], data[n..start]);
    }
  }

  lemma NoOverflowInside(a: bytes, b: bytes)
    requires Scan(a + b).tail == []
    ensures !Overflows(a)
  {
    if Overflows(a) { OverflowStays(a, b); }
  }

  lemma PayloadPrefix(data: bytes, m: nat, n: nat)
    requires m <= n <= |data|
    ensures Scan(data[..m]).payload <= Scan(data[..n]).payload
  {
    assert data[..n] == data[..m] + data[m..n];
    ScanAppend(data[..m], data[m..n]);
  }

  // ---- What a cut writes ----

  /** Every cut writes the payload up to a byte with which the failing read can begin. */
  lemma CutWrites(data: bytes, start: nat, chunks: seq<bytes>) returns (n: nat)
    requires HeaderBreaks(data, start) && IsCut(chunks, data)
    ensures n <= |data| && EarliestRead(start) <= n < start + HEADER
    ensures Stream([], chunks) == Streamed(Scan(data[..n]).payload, TooLarge)
  {
    assert chunks[..|chunks|] == chunks && data[..|data|] == data;
    PrefixScan(data, start, |data|);
    var k := BreakExists(chunks, |chunks|);
    StreamBreaks([], chunks, k);
    n := FailingRead(data, start, chunks, k);
  }

  lemma FailingRead(data: bytes, start: nat, chunks: seq<bytes>, k: nat) returns (n: nat)
    requires HeaderBreaks(data, start) && IsCut(chunks, data) && BreaksAt([], chunks, k)
    ensures n <= |data| && EarliestRead(start) <= n < start + HEADER && data[..n] == [] + Concat(chunks[..k])
  {
    var before, after := Concat(chunks[..k]), Concat(chunks[..k + 1]);
    ConcatSplit(chunks, k);
    ConcatSplit(chunks, k + 1);
    OneMore(chunks, k);
    assert chunks[k] in chunks;
    n := |before|;
    assert data[..n] == before == [] + before && data[..|after|] == after == [] + after;
    PrefixScan(data, start, n);
    PrefixScan(data, start, |after|);
  }

  lemma OneMore(chunks: seq<bytes>, k: nat)
    requires k < |chunks|
    ensures Concat(chunks[..k + 1]) == Concat(chunks[..k]) + chunks[k]
  {
    ConcatSplit(chunks[..k + 1], k);
    assert chunks[..k + 1][..k] == chunks[..k] && chunks[..k + 1][k..] == [chunks[k]];
    assert Concat([chunks[k]]) == chunks[k] + [] == chunks[k];
  }

  /** Byte by byte. */
  function Bytes(data: bytes): (r: seq<bytes>)
    ensures |r| == |data| && forall c :: c in r ==> |c| == 1
  {
    if data == [] then [] else [data[..1]] + Bytes(data[1..])
  }

  lemma {:induction false} BytesConcat(data: bytes)
    ensures Concat(Bytes(data)) == data
  {
    if data != [] {
      BytesConcat(data[1..]);
      assert Bytes(data)[1..] == Bytes(data[1..]);
    }
  }

  lemma ConcatAround(xs: seq<bytes>, read: bytes, ys: seq<bytes>)
    ensures
      var all := xs + [read] + ys;
      && all[..|xs|] == xs && all[..|xs| + 1] == xs + [read]
      && Concat(xs + [read]) == Concat(xs) + read && Concat(all) == Concat(xs) + read + Concat(ys)
  {
    var all := xs + [read] + ys;
    assert all[..|xs|] == xs && all[..|xs| + 1] == xs + [read] && all[|xs| + 1..] == ys;
    OneMore(all, |xs|);
    ConcatSplit(all, |xs| + 1);
  }

  /** The failing read can begin with every byte from the earliest one to the header. */
  lemma CutAt(data: bytes, start: nat, n: nat) returns (chunks: seq<bytes>)
    requires HeaderBreaks(data, start) && EarliestRead(start) <= n <= start
    ensures IsCut(chunks, data) && Stream([], chunks) == Streamed(Scan(data[..n]).payload, TooLarge)
  {
    var end := start + HEADER;
    var first, read, rest := data[..n], data[n..end], data[end..];
    chunks := Bytes(first) + [read] + Bytes(rest);
    BytesConcat(first);
    BytesConcat(rest);
    ConcatAround(Bytes(first), read, Bytes(rest));
    PrefixScan(data, start, n);
    PrefixScan(data, start, end);
    Rejoined(data, n, end);
    StreamBreaks([], chunks, n);
  }

  lemma Rejoined(data: bytes, n: nat, end: nat)
    requires n <= end <= |data|
    ensures data[..n] + data[n..end] == data[..end] == [] + data[..end] && [] + data[..n] == data[..n]
    ensures data[..n] + data[n..end] + data[end..] == data
  {
  }

  // ---- When all cuts agree ----

  /** All payload before the header is complete where the earliest read can begin that completes it. */
  ghost predicate CompleteBefore(data: bytes) {
    exists start: nat :: HeaderBreaks(data, start) &&
                         Scan(data[..EarliestRead(start)]).payload == Scan(data).payload
  }

  /** For every stream: all cuts into reads of at most 4096 bytes give the same run if and only if no
      header is oversized, or all payload before it is complete some 4088 bytes ahead of it. */
  lemma CutsAgreeIff(data: bytes)
    ensures CutsAgree(data) <==> !Overflows(data) || CompleteBefore(data)
  {
    if !Overflows(data) {
      forall a, b | IsCut(a, data) && IsCut(b, data) ensures Stream([], a) == Stream([], b) {
        assert [] + data == data;
        StreamIsScan([], a);
        StreamIsScan([], b);
      }
    } else if CompleteBefore(data) {
      var start: nat :| HeaderBreaks(data, start) && Scan(data[..EarliestRead(start)]).payload == Scan(data).payload;
      forall a, b | IsCut(a, data) && IsCut(b, data) ensures Stream([], a) == Stream([], b) {
        WritesAll(data, start, a);
        WritesAll(data, start, b);
      }
    } else {
      var a, b := CutsDiffer(data);
    }
  }

  lemma WritesAll(data: bytes, start: nat, chunks: seq<bytes>)
    requires HeaderBreaks(data, start) && IsCut(chunks, data)
    requires Scan(data[..EarliestRead(start)]).payload == Scan(data).payload
    ensures Stream([], chunks) == Streamed(Scan(data).payload, TooLarge)
  {
    var n := CutWrites(data, start, chunks);
    PayloadPrefix(data, EarliestRead(start), n);
    PayloadPrefix(data, n, |data|);
    assert data[..|data|] == data;
  }

  /** Otherwise the longest failing read loses payload that one beginning at the header leaves written. */
  lemma CutsDiffer(data: bytes) returns (a: seq<bytes>, b: seq<bytes>)
    requires Overflows(data) && !CompleteBefore(data)
    ensures IsCut(a, data) && IsCut(b, data)
    ensures Stream([], b) == Streamed(Scan(data).payload, TooLarge)
    ensures Stream([], a).left.TooLarge? && Stream([], a).written < Scan(data).payload
  {
    var start := HeaderIn(data);
    a := CutAt(data, start, EarliestRead(start));
    b := CutAt(data, start, start);
    PayloadPrefix(data, EarliestRead(start), start);
  }
}
