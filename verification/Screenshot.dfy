/** The chunked screenshot stream: how the device cuts a capture (device_link.c) and
    how the host checks the metadata and puts the picture together again (device.rs). */
module Screenshot {
  import opened Options
  import opened Sequences

  type Byte = b: int | 0 <= b < 256

  const CHUNK_RAW_BYTES: nat := 1024
  /** Room for the base64 text of one chunk, terminator included. */
  const CHUNK_BASE64_BYTES: nat := 1372
  const FORMAT: string := "rgb565_le"
  const MAX_WIDTH: nat := 640
  const MAX_HEIGHT: nat := 172
  const MAX_BYTES: nat := 640 * 172 * 2

  /** The base64 library on each side. */
  datatype Codec = Codec(encode: seq<Byte> -> string, decode: string -> Option<seq<Byte>>)

  /** Section 4 of RFC 4648: decoding inverts encoding, three bytes become four characters. */
  ghost predicate IsBase64(c: Codec) {
    && (forall b: seq<Byte> :: c.decode(c.encode(b)) == Some(b))
    && (forall b: seq<Byte> :: |c.encode(b)| == (|b| + 2) / 3 * 4)
  }

  datatype Meta = Meta(captureId: string, format: string, width: nat, height: nat, stride: nat,
                       dataSize: nat, chunkBytes: nat, chunkCount: nat)

  datatype Frame =
    | Chunk(captureId: string, index: nat, data: string)
    | Done(captureId: string, chunksSent: nat, bytesSent: nat)
    | Failure(captureId: string)
    | Malformed  // a capture event whose payload does not parse
    | Other      // any other frame

  /** One call of read_frame. */
  datatype Input = Got(frame: Frame) | TimedOut | ReadFailed

  datatype Error =
    | EmptyId | BadFormat | Incomplete | Oversized | BadStride | TooLarge | BadSize | BadChunkCount
    | Timeout | Transport | BadPayload | BadBase64 | IndexOutOfRange | Duplicate | BadLength | Overrun
    | WrongByteTotal | WrongChunkTotal | DeviceFailed | ChunksMissing | LengthMismatch

  datatype Result = Ok(data: seq<Byte>) | Err(error: Error)

  // ------------------------------------------------------------------ device side

  function CeilDiv(n: nat, d: nat): nat
    requires 0 < d
  {
    (n + d - 1) / d
  }

  /** The metadata of build_screenshot_start_result. */
  function StartResult(captureId: string, width: nat, height: nat, stride: nat, dataSize: nat): Meta {
    Meta(captureId, FORMAT, width, height, stride, dataSize, CHUNK_RAW_BYTES, CeilDiv(dataSize, CHUNK_RAW_BYTES))
  }

  function Min(a: nat, b: nat): nat { if a <= b then a else b }

  ghost function DeviceChunk(c: Codec, captureId: string, data: seq<Byte>, i: nat): Frame
    requires i * CHUNK_RAW_BYTES <= |data|
  {
    Chunk(captureId, i, c.encode(data[i * CHUNK_RAW_BYTES..Min(|data|, (i + 1) * CHUNK_RAW_BYTES)]))
  }

  ghost function DeviceChunks(c: Codec, captureId: string, data: seq<Byte>, n: nat): (chunks: seq<Frame>)
    requires n <= CeilDiv(|data|, CHUNK_RAW_BYTES)
    ensures |chunks| == n
  {
    seq(n, i requires 0 <= i < n => DeviceChunk(c, captureId, data, i))
  }

  ghost function DeviceFrames(c: Codec, captureId: string, data: seq<Byte>): seq<Frame> {
    var n := CeilDiv(|data|, CHUNK_RAW_BYTES);
    DeviceChunks(c, captureId, data, n) + [Done(captureId, n, |data|)]
  }

  /** Chunk i, encoded, leaves room for the terminator. */
  ghost predicate ChunkFits(c: Codec, captureId: string, data: seq<Byte>, i: nat)
    requires i < CeilDiv(|data|, CHUNK_RAW_BYTES)
  {
    |DeviceChunk(c, captureId, data, i).data| < CHUNK_BASE64_BYTES
  }

  /** stream_screenshot_capture: chunk frames in order, then one done frame. It stops early
      exactly at the first chunk that does not fit the encode buffer, which never happens
      with base64. */
  method StreamCapture(c: Codec, captureId: string, data: seq<Byte>) returns (frames: seq<Frame>, ok: bool)
    ensures ok <==> forall i :: 0 <= i < CeilDiv(|data|, CHUNK_RAW_BYTES) ==> ChunkFits(c, captureId, data, i)
    ensures ok ==> frames == DeviceFrames(c, captureId, data)
    ensures !ok ==>
      && |frames| < CeilDiv(|data|, CHUNK_RAW_BYTES) && frames == DeviceChunks(c, captureId, data, |frames|)
      && !ChunkFits(c, captureId, data, |frames|)
    ensures IsBase64(c) ==> ok
  {
    var offset: nat := 0;
    var index: nat := 0;
    frames := [];
    while offset < |data|
      invariant offset == Min(|data|, index * CHUNK_RAW_BYTES)
      invariant index <= CeilDiv(|data|, CHUNK_RAW_BYTES)
      invariant frames == DeviceChunks(c, captureId, data, index)
      invariant forall i :: 0 <= i < index ==> ChunkFits(c, captureId, data, i)
    {
      var chunkBytes := if |data| - offset > CHUNK_RAW_BYTES then CHUNK_RAW_BYTES else |data| - offset;
      var encoded := c.encode(data[offset..offset + chunkBytes]);
      assert encoded == DeviceChunk(c, captureId, data, index).data;
      assert index < CeilDiv(|data|, CHUNK_RAW_BYTES);
      if |encoded| >= CHUNK_BASE64_BYTES {
        assert !ChunkFits(c, captureId, data, |frames|);
        return frames, false;
      }
      frames := frames + [Chunk(captureId, index, encoded)];
      offset := offset + chunkBytes;
      index := index + 1;
    }
    frames := frames + [Done(captureId, index, |data|)];
    ok := true;
  }

  // ------------------------------------------------------------- metadata checking

  /** validate_screenshot_meta, check by check. */
  function ValidateMeta(m: Meta): Option<Error> {
    if m.captureId == "" then Some(EmptyId)
    else if m.format != FORMAT then Some(BadFormat)
    else if m.width == 0 || m.height == 0 || m.stride == 0 || m.dataSize == 0 || m.chunkBytes == 0 || m.chunkCount == 0
    then Some(Incomplete)
    else if m.width > MAX_WIDTH || m.height > MAX_HEIGHT then Some(Oversized)
    else if m.stride != m.width * 2 then Some(BadStride)
    else if m.stride * m.height > MAX_BYTES then Some(TooLarge)
    else if m.dataSize != m.stride * m.height then Some(BadSize)
    else if m.chunkCount != CeilDiv(m.dataSize, m.chunkBytes) then Some(BadChunkCount)
    else None
  }

  lemma ProductBound(a: nat, b: nat, ma: nat, mb: nat)
    requires a <= ma && b <= mb
    ensures a * b <= ma * mb
  {
    assert a * b <= ma * b <= ma * mb;
  }

  /** Within the size limits the byte limit can never be what refuses a picture. */
  lemma ByteLimitRedundant(m: Meta)
    ensures ValidateMeta(m) != Some(TooLarge)
  {
    if m.stride == m.width * 2 && m.width <= MAX_WIDTH && m.height <= MAX_HEIGHT {
      ProductBound(m.stride, m.height, 2 * MAX_WIDTH, MAX_HEIGHT);
    }
  }

  /** The device's metadata passes exactly when the picture is within the limits and
      its rows are packed. */
  lemma DeviceMetaValid(captureId: string, width: nat, height: nat, stride: nat, dataSize: nat)
    ensures ValidateMeta(StartResult(captureId, width, height, stride, dataSize)).None? <==>
      && captureId != "" && 0 < width <= MAX_WIDTH && 0 < height <= MAX_HEIGHT
      && stride == 2 * width && dataSize == stride * height
  {
    var m := StartResult(captureId, width, height, stride, dataSize);
    ByteLimitRedundant(m);
    if 0 < width && 0 < height && stride == 2 * width && dataSize == stride * height {
      ProductPositive(stride, height);
    }
  }

  lemma ProductPositive(a: nat, b: nat)
    requires 0 < a && 0 < b
    ensures 0 < a * b
  {
  }

  // -------------------------------------------------------------------- host side

  datatype HostState = HostState(data: seq<Byte>, received: seq<bool>, bytes: nat)

  datatype Step = Continue(state: HostState) | Finish(result: Result)

  /** Where chunk i starts. */
  ghost function Off(m: Meta, i: nat): nat {
    if i == 0 then 0 else Off(m, i - 1) + m.chunkBytes
  }

  /** The chunks 0..chunkCount tile the picture: the last one may be short, none is empty. */
  ghost predicate Cut(m: Meta) {
    0 < m.chunkBytes && forall i: nat :: i < m.chunkCount <==> Off(m, i) < m.dataSize
  }

  lemma {:induction false} OffIsProduct(m: Meta, i: nat)
    ensures Off(m, i) == i * m.chunkBytes
  {
    if i > 0 {
      OffIsProduct(m, i - 1);
      assert i * m.chunkBytes == (i - 1) * m.chunkBytes + m.chunkBytes;
    }
  }

  lemma {:induction false} OffMonotonic(m: Meta, i: nat, j: nat)
    requires i < j
    ensures Off(m, i) + m.chunkBytes <= Off(m, j)
    decreases j
  {
    if i < j - 1 {
      OffMonotonic(m, i, j - 1);
    }
  }

  lemma ValidMetaCuts(m: Meta)
    requires ValidateMeta(m).None?
    ensures Cut(m)
  {
    var n, d := m.dataSize + m.chunkBytes - 1, m.chunkBytes;
    var q := n / d;
    assert q * d + n % d == n;
    forall i: nat
      ensures i < m.chunkCount <==> Off(m, i) < m.dataSize
    {
      OffIsProduct(m, i);
      if i < q {
        ProductBound(i + 1, d, q, d);
        assert (i + 1) * d == i * d + d;
      } else {
        ProductBound(q, d, i, d);
      }
    }
  }

  ghost predicate Shaped(m: Meta, st: HostState) {
    Cut(m) && |st.data| == m.dataSize && |st.received| == m.chunkCount
  }

  function Initial(m: Meta): HostState {
    HostState(seq(m.dataSize, _ => 0), seq(m.chunkCount, _ => false), 0)
  }

  function HostChunk(c: Codec, m: Meta, st: HostState, chunk: Frame): Step
    requires Shaped(m, st) && chunk.Chunk?
  {
    var offset := chunk.index * m.chunkBytes;
    var decoded := c.decode(chunk.data);
    if decoded.None? then Finish(Err(BadBase64))
    else if chunk.captureId != m.captureId then Continue(st)
    else if chunk.index >= |st.received| then Finish(Err(IndexOutOfRange))
    else if st.received[chunk.index] then Finish(Err(Duplicate))
    else
      OffIsProduct(m, chunk.index);
      if |decoded.value| != Min(m.chunkBytes, |st.data| - offset) then Finish(Err(BadLength))
      else if offset + |decoded.value| > |st.data| then Finish(Err(Overrun))
      else Continue(HostState(
        st.data[..offset] + decoded.value + st.data[offset + |decoded.value|..],
        st.received[chunk.index := true],
        st.bytes + |decoded.value|))
  }

  function HostStep(c: Codec, m: Meta, st: HostState, input: Input): (step: Step)
    requires Shaped(m, st)
    ensures step.Continue? ==> Shaped(m, step.state)
  {
    match input
    case TimedOut => Finish(Err(Timeout))
    case ReadFailed => Finish(Err(Transport))
    case Got(Malformed) => Finish(Err(BadPayload))
    case Got(Other) => Continue(st)
    case Got(Failure(id)) =>
      if id == "" || id == m.captureId then Finish(Err(DeviceFailed)) else Continue(st)
    case Got(Done(id, chunks, bytes)) =>
      if id != m.captureId then Continue(st)
      else if bytes != m.dataSize then Finish(Err(WrongByteTotal))
      else if chunks != m.chunkCount then Finish(Err(WrongChunkTotal))
      else if exists i :: 0 <= i < |st.received| && !st.received[i] then Finish(Err(ChunksMissing))
      else if st.bytes != |st.data| then Finish(Err(LengthMismatch))
      else Finish(Ok(st.data))
    case Got(chunk) => HostChunk(c, m, st, chunk)
  }

  /** The host over everything the transport delivers; silence ends in the deadline. */
  function HostRun(c: Codec, m: Meta, st: HostState, inputs: seq<Input>): Result
    requires Shaped(m, st)
    decreases |inputs|
  {
    if inputs == [] then Err(Timeout)
    else
      var step := HostStep(c, m, st, inputs[0]);
      if step.Finish? then step.result else HostRun(c, m, step.state, inputs[1..])
  }

  function Capture(c: Codec, m: Meta, inputs: seq<Input>): Result {
    if ValidateMeta(m).Some? then Err(ValidateMeta(m).value)
    else
      ValidMetaCuts(m);
      HostRun(c, m, Initial(m), inputs)
  }

  /** The chunk branch of the host loop: checks, then the copy into the buffer. */
  method StoreChunk(c: Codec, m: Meta, data: array<Byte>, received: array<bool>, bytes: nat, chunk: Frame)
    returns (error: Option<Error>, bytes': nat)
    requires Shaped(m, HostState(data[..], received[..], bytes)) && chunk.Chunk?
    modifies data, received
    ensures HostChunk(c, m, old(HostState(data[..], received[..], bytes)), chunk)
         == if error.Some? then Finish(Err(error.value)) else Continue(HostState(data[..], received[..], bytes'))
  {
    bytes' := bytes;
    var offset := chunk.index * m.chunkBytes;
    var decoded := c.decode(chunk.data);
    if decoded.None? {
      return Some(BadBase64), bytes';
    }
    if chunk.captureId != m.captureId {
      return None, bytes';
    }
    if chunk.index >= received.Length {
      return Some(IndexOutOfRange), bytes';
    }
    if received[chunk.index] {
      return Some(Duplicate), bytes';
    }
    OffIsProduct(m, chunk.index);
    var n: nat := |decoded.value|;
    var expected := Min(m.chunkBytes, data.Length - offset);
    if n != expected {
      return Some(BadLength), bytes';
    }
    if offset + n > data.Length {
      return Some(Overrun), bytes';
    }
    forall j | 0 <= j < n {
      data[offset + j] := decoded.value[j];
    }
    received[chunk.index] := true;
    assert data[..] == old(data[..offset]) + decoded.value + old(data[offset + n..]);
    return None, bytes + n;
  }

  /** capture_screenshot after the start response: the buffer is filled in place. */
  method CaptureScreenshot(c: Codec, m: Meta, inputs: seq<Input>) returns (result: Result)
    ensures result == Capture(c, m, inputs)
  {
    var invalid := ValidateMeta(m);
    if invalid.Some? {
      return Err(invalid.value);
    }
    ValidMetaCuts(m);
    var data := new Byte[m.dataSize](_ => 0);
    var received := new bool[m.chunkCount](_ => false);
    var bytesReceived: nat := 0;
    assert data[..] == Initial(m).data && received[..] == Initial(m).received;
    var k := 0;
    while k < |inputs|
      invariant k <= |inputs| && fresh(data) && fresh(received)
      invariant Shaped(m, HostState(data[..], received[..], bytesReceived))
      invariant HostRun(c, m, HostState(data[..], received[..], bytesReceived), inputs[k..]) ==
        HostRun(c, m, Initial(m), inputs)
    {
      assert inputs[k..][0] == inputs[k] && inputs[k..][1..] == inputs[k + 1..];
      match inputs[k] {
        case TimedOut => return Err(Timeout);
        case ReadFailed => return Err(Transport);
        case Got(frame) =>
          match frame {
            case Malformed => return Err(BadPayload);
            case Other =>
            case Failure(id) =>
              if id == "" || id == m.captureId {
                return Err(DeviceFailed);
              }
            case Done(id, chunks, bytes) =>
              if id == m.captureId {
                if bytes != m.dataSize {
                  return Err(WrongByteTotal);
                }
                if chunks != m.chunkCount {
                  return Err(WrongChunkTotal);
                }
                if exists i :: 0 <= i < |received[..]| && !received[..][i] {
                  return Err(ChunksMissing);
                }
                if bytesReceived != |data[..]| {
                  return Err(LengthMismatch);
                }
                return Ok(data[..]);
              }
            case Chunk(_, _, _) =>
              var error;
              error, bytesReceived := StoreChunk(c, m, data, received, bytesReceived, frame);
              if error.Some? {
                return Err(error.value);
              }
          }
      }
      k := k + 1;
    }
    result := Err(Timeout);
  }

  // ---------------------------------------------- what an accepted picture must mean

  ghost function ChunkLen(m: Meta, i: nat): nat
    requires Cut(m) && i < m.chunkCount
  {
    Min(m.chunkBytes, m.dataSize - Off(m, i))
  }

  /** The chunk frames of this capture, in arrival order. */
  ghost function OwnChunks(id: string, inputs: seq<Input>): (own: seq<Frame>)
    ensures forall k :: 0 <= k < |own| ==> own[k].Chunk?
  {
    if inputs == [] then []
    else OwnChunks(id, inputs[..|inputs| - 1]) + OwnPart(id, inputs[|inputs| - 1])
  }

  ghost function OwnPart(id: string, input: Input): (own: seq<Frame>)
    ensures forall k :: 0 <= k < |own| ==> own[k].Chunk?
  {
    if input.Got? && input.frame.Chunk? && input.frame.captureId == id then [input.frame] else []
  }

  /** The chunk has an index in range and decodes to exactly the bytes that index needs. */
  ghost predicate Acceptable(c: Codec, m: Meta, chunk: Frame)
    requires Cut(m)
  {
    && chunk.Chunk? && chunk.index < m.chunkCount
    && c.decode(chunk.data).Some? && |c.decode(chunk.data).value| == ChunkLen(m, chunk.index)
  }

  /** The chunk's bytes are in the picture where its index says. */
  ghost predicate Placed(c: Codec, m: Meta, data: seq<Byte>, chunk: Frame)
    requires Cut(m) && |data| == m.dataSize
  {
    Acceptable(c, m, chunk)
    && data[Off(m, chunk.index)..Off(m, chunk.index) + ChunkLen(m, chunk.index)] == c.decode(chunk.data).value
  }

  /** Index i is among the chunks. */
  ghost predicate Has(own: seq<Frame>, i: nat) {
    exists k :: 0 <= k < |own| && own[k].Chunk? && own[k].index == i
  }

  /** All acceptable, no index twice. */
  ghost predicate AllGood(c: Codec, m: Meta, own: seq<Frame>)
    requires Cut(m)
  {
    && (forall k :: 0 <= k < |own| ==> Acceptable(c, m, own[k]))
    && (forall k, l :: 0 <= k < l < |own| ==> own[k].index != own[l].index)
  }

  ghost predicate Covers(m: Meta, own: seq<Frame>) {
    forall i :: 0 <= i < m.chunkCount ==> Has(own, i)
  }

  ghost predicate AllPlaced(c: Codec, m: Meta, data: seq<Byte>, own: seq<Frame>)
    requires Cut(m) && |data| == m.dataSize
  {
    forall k :: 0 <= k < |own| ==> Placed(c, m, data, own[k])
  }

  ghost function SumLen(m: Meta, received: seq<bool>, n: nat): nat
    requires Cut(m) && n <= |received| == m.chunkCount
  {
    if n == 0 then 0 else SumLen(m, received, n - 1) + (if received[n - 1] then ChunkLen(m, n - 1) else 0)
  }

  lemma {:induction false} SumLenMark(m: Meta, received: seq<bool>, n: nat, i: nat)
    requires Cut(m) && n <= |received| == m.chunkCount && i < |received| && !received[i]
    ensures SumLen(m, received[i := true], n) == SumLen(m, received, n) + (if i < n then ChunkLen(m, i) else 0)
  {
    if n > 0 {
      SumLenMark(m, received, n - 1, i);
    }
  }

  lemma {:induction false} SumLenFull(m: Meta, received: seq<bool>, n: nat)
    requires Cut(m) && n <= |received| == m.chunkCount
    requires forall i :: 0 <= i < |received| ==> received[i]
    ensures SumLen(m, received, n) == Min(m.dataSize, Off(m, n))
  {
    if n > 0 {
      SumLenFull(m, received, n - 1);
    }
  }

  lemma {:induction false} SumLenNone(m: Meta, received: seq<bool>, n: nat)
    requires Cut(m) && n <= |received| == m.chunkCount
    requires forall i :: 0 <= i < |received| ==> !received[i]
    ensures SumLen(m, received, n) == 0
  {
    if n > 0 {
      SumLenNone(m, received, n - 1);
    }
  }

  /** The link between the host's state and the chunks it has accepted. */
  ghost predicate Linked(c: Codec, m: Meta, st: HostState, own: seq<Frame>) {
    && Shaped(m, st)
    && AllGood(c, m, own)
    && AllPlaced(c, m, st.data, own)
    && (forall i :: 0 <= i < m.chunkCount ==> (st.received[i] <==> Has(own, i)))
    && st.bytes == SumLen(m, st.received, m.chunkCount)
  }

  lemma SliceUntouched(before: seq<Byte>, after: seq<Byte>, x: nat, b: seq<Byte>, o: nat, n: nat)
    requires x + |b| <= |before| && after == before[..x] + b + before[x + |b|..]
    requires o + n <= |before| && (o + n <= x || x + |b| <= o)
    ensures after[o..o + n] == before[o..o + n]
  {
    assert |after| == |before|;
    forall k | o <= k < o + n
      ensures after[k] == before[k]
    {
    }
  }

  lemma PlacedElsewhere(c: Codec, m: Meta, before: seq<Byte>, after: seq<Byte>, other: Frame, i: nat, b: seq<Byte>)
    requires Cut(m) && |before| == m.dataSize && i < m.chunkCount && |b| == ChunkLen(m, i)
    requires after == before[..Off(m, i)] + b + before[Off(m, i) + |b|..]
    requires Placed(c, m, before, other) && other.index != i
    ensures Placed(c, m, after, other)
  {
    var j := other.index;
    if i < j {
      OffMonotonic(m, i, j);
    } else {
      OffMonotonic(m, j, i);
    }
    SliceUntouched(before, after, Off(m, i), b, Off(m, j), ChunkLen(m, j));
  }

  lemma HasSnoc(own: seq<Frame>, chunk: Frame, i: nat)
    requires chunk.Chunk?
    ensures Has(own + [chunk], i) <==> Has(own, i) || chunk.index == i
  {
    var own' := own + [chunk];
    if Has(own, i) {
      var k :| 0 <= k < |own| && own[k].Chunk? && own[k].index == i;
      assert own'[k] == own[k];
    }
    assert own'[|own|] == chunk;
  }

  lemma AcceptPlaces(c: Codec, m: Meta, st: HostState, own: seq<Frame>, chunk: Frame, st': HostState)
    requires Linked(c, m, st, own)
    requires chunk.Chunk? && chunk.captureId == m.captureId && HostChunk(c, m, st, chunk) == Continue(st')
    ensures Acceptable(c, m, chunk) && !st.received[chunk.index] && Shaped(m, st')
    ensures AllPlaced(c, m, st'.data, own + [chunk]) && AllGood(c, m, own + [chunk])
  {
    OffIsProduct(m, chunk.index);
    var own', i, b := own + [chunk], chunk.index, c.decode(chunk.data).value;
    forall k | 0 <= k < |own|
      ensures Placed(c, m, st'.data, own[k]) && own[k].index != i
    {
      assert Has(own, own[k].index);
      PlacedElsewhere(c, m, st.data, st'.data, own[k], i, b);
    }
    assert st'.data[Off(m, i)..Off(m, i) + |b|] == b;
    forall k | 0 <= k < |own'|
      ensures Placed(c, m, st'.data, own'[k])
    {
      assert own'[k] == if k < |own| then own[k] else chunk;
    }
  }

  /** Accepting a chunk keeps the link. */
  lemma AcceptKeepsLink(c: Codec, m: Meta, st: HostState, own: seq<Frame>, chunk: Frame, st': HostState)
    requires Linked(c, m, st, own)
    requires chunk.Chunk? && chunk.captureId == m.captureId && HostChunk(c, m, st, chunk) == Continue(st')
    ensures Linked(c, m, st', own + [chunk])
  {
    AcceptPlaces(c, m, st, own, chunk, st');
    SumLenMark(m, st.received, m.chunkCount, chunk.index);
    forall i | 0 <= i < m.chunkCount
      ensures st'.received[i] <==> Has(own + [chunk], i)
    {
      HasSnoc(own, chunk, i);
    }
  }

  lemma StepKeepsLink(c: Codec, m: Meta, st: HostState, own: seq<Frame>, input: Input, st': HostState)
    requires Linked(c, m, st, own) && HostStep(c, m, st, input) == Continue(st')
    ensures Linked(c, m, st', own + OwnPart(m.captureId, input))
  {
    if input.Got? && input.frame.Chunk? && input.frame.captureId == m.captureId {
      AcceptKeepsLink(c, m, st, own, input.frame, st');
    } else {
      assert own + OwnPart(m.captureId, input) == own;
    }
  }

  /** An ending step never reports a wrong total length or an overrun, and an accepting
      one sees the done frame with every chunk received. */
  lemma EndingStep(c: Codec, m: Meta, st: HostState, own: seq<Frame>, input: Input)
    requires Linked(c, m, st, own) && HostStep(c, m, st, input).Finish?
    ensures var r := HostStep(c, m, st, input).result;
      && r != Err(LengthMismatch) && r != Err(Overrun)
      && (r.Ok? ==> input == Got(Done(m.captureId, m.chunkCount, m.dataSize)) && r == Ok(st.data) && Covers(m, own))
  {
    if input.Got? && input.frame.Done? {
      if forall i :: 0 <= i < |st.received| ==> st.received[i] {
        SumLenFull(m, st.received, m.chunkCount);
        assert Off(m, m.chunkCount) >= m.dataSize;
      }
    }
    if input.Got? && input.frame.Chunk? {
      OffIsProduct(m, input.frame.index);
    }
  }

  lemma OwnSnoc(id: string, past: seq<Input>, input: Input)
    ensures OwnChunks(id, past + [input]) == OwnChunks(id, past) + OwnPart(id, input)
  {
    assert (past + [input])[..|past|] == past;
  }

  /** The picture is whole: every index arrived exactly once and its bytes are in place. */
  ghost predicate Whole(c: Codec, m: Meta, own: seq<Frame>, data: seq<Byte>)
    requires Cut(m)
  {
    |data| == m.dataSize && AllGood(c, m, own) && Covers(m, own) && AllPlaced(c, m, data, own)
  }

  /** The result r came of frame d: the two last length checks did not fire, and an
      accepted picture is whole there. */
  ghost predicate EndedAt(c: Codec, m: Meta, r: Result, past: seq<Input>, rest: seq<Input>, d: nat)
    requires Cut(m)
  {
    && r != Err(LengthMismatch) && r != Err(Overrun)
    && (r.Ok? ==>
      && d < |rest| && rest[d] == Got(Done(m.captureId, m.chunkCount, m.dataSize))
      && Whole(c, m, OwnChunks(m.captureId, past + rest[..d]), r.data))
  }

  lemma EndsHere(c: Codec, m: Meta, st: HostState, past: seq<Input>, rest: seq<Input>)
    requires Linked(c, m, st, OwnChunks(m.captureId, past))
    requires rest != [] && HostStep(c, m, st, rest[0]).Finish?
    ensures EndedAt(c, m, HostRun(c, m, st, rest), past, rest, 0)
  {
    EndingStep(c, m, st, OwnChunks(m.captureId, past), rest[0]);
    assert past + rest[..0] == past;
  }

  lemma EndsLater(c: Codec, m: Meta, r: Result, past: seq<Input>, rest: seq<Input>, e: nat)
    requires Cut(m) && rest != [] && EndedAt(c, m, r, past + [rest[0]], rest[1..], e)
    ensures EndedAt(c, m, r, past, rest, e + 1)
  {
    if r.Ok? {
      MoveHead(past, rest, e);
    }
  }

  lemma {:induction false} HostSound(c: Codec, m: Meta, st: HostState, past: seq<Input>, rest: seq<Input>)
    returns (d: nat)
    requires Linked(c, m, st, OwnChunks(m.captureId, past))
    ensures EndedAt(c, m, HostRun(c, m, st, rest), past, rest, d)
    decreases |rest|
  {
    d := 0;
    if rest != [] {
      var step := HostStep(c, m, st, rest[0]);
      if step.Finish? {
        EndsHere(c, m, st, past, rest);
      } else {
        StepKeepsLink(c, m, st, OwnChunks(m.captureId, past), rest[0], step.state);
        OwnSnoc(m.captureId, past, rest[0]);
        var e := HostSound(c, m, step.state, past + [rest[0]], rest[1..]);
        EndsLater(c, m, HostRun(c, m, st, rest), past, rest, e);
        d := e + 1;
      }
    }
  }

  lemma InitialLinked(c: Codec, m: Meta)
    requires Cut(m)
    ensures Linked(c, m, Initial(m), [])
  {
    SumLenNone(m, Initial(m).received, m.chunkCount);
  }

  /** Safety, for arbitrary frames: a returned picture is whole at the done frame that
      ended it, and the two last length checks never fire. */
  lemma AcceptedPictureIsWhole(c: Codec, m: Meta, inputs: seq<Input>)
    ensures Capture(c, m, inputs) != Err(LengthMismatch) && Capture(c, m, inputs) != Err(Overrun)
    ensures Capture(c, m, inputs).Ok? ==>
      && ValidateMeta(m).None? && Cut(m)
      && exists d :: 0 <= d < |inputs| && inputs[d] == Got(Done(m.captureId, m.chunkCount, m.dataSize))
                  && Whole(c, m, OwnChunks(m.captureId, inputs[..d]), Capture(c, m, inputs).data)
  {
    if ValidateMeta(m).None? {
      ValidMetaCuts(m);
      InitialLinked(c, m);
      var d := HostSound(c, m, Initial(m), [], inputs);
      if d < |inputs| {
        assert [] + inputs[..d] == inputs[..d];
      }
    }
  }

  // ----------------------------------------------------------------- end to end

  /** A frame that cannot disturb the capture: well formed, and of another kind or
      capture unless it is a chunk. */
  ghost predicate Benign(c: Codec, m: Meta, input: Input) {
    && input.Got?
    && match input.frame
       case Malformed => false
       case Other => true
       case Failure(id) => id != "" && id != m.captureId
       case Done(id, _, _) => id != m.captureId
       case Chunk(_, _, text) => c.decode(text).Some?
  }

  lemma BenignContinues(c: Codec, m: Meta, st: HostState, own: seq<Frame>, input: Input)
    requires Linked(c, m, st, own) && Benign(c, m, input)
    requires AllGood(c, m, own + OwnPart(m.captureId, input))
    ensures HostStep(c, m, st, input).Continue?
  {
    if input.frame.Chunk? && input.frame.captureId == m.captureId {
      var i, own' := input.frame.index, own + [input.frame];
      assert own'[|own|] == input.frame;
      OffIsProduct(m, i);
      forall k | 0 <= k < |own|
        ensures own[k].index != i
      {
        assert own'[k] == own[k];
      }
    }
  }

  lemma AllGoodPrefix(c: Codec, m: Meta, a: seq<Frame>, b: seq<Frame>)
    requires Cut(m) && AllGood(c, m, b) && a <= b
    ensures AllGood(c, m, a)
  {
    forall k, l | 0 <= k < l < |a|
      ensures Acceptable(c, m, a[k]) && Acceptable(c, m, a[l]) && a[k].index != a[l].index
    {
      assert a[k] == b[k] && a[l] == b[l];
    }
    forall k | 0 <= k < |a|
      ensures Acceptable(c, m, a[k])
    {
      assert a[k] == b[k];
    }
  }

  lemma {:induction false} OwnPrefix(id: string, a: seq<Input>, b: seq<Input>)
    ensures OwnChunks(id, a) <= OwnChunks(id, a + b)
    decreases |b|
  {
    if b == [] {
      assert a + b == a;
    } else {
      var u, x := b[..|b| - 1], b[|b| - 1];
      OwnPrefix(id, a, u);
      assert a + b == (a + u) + [x];
      OwnSnoc(id, a + u, x);
    }
  }

  lemma SplitFirst(past: seq<Input>, pre: seq<Input>, tail: seq<Input>)
    requires pre != []
    ensures past + pre == (past + [pre[0]]) + pre[1..]
    ensures (pre + tail)[0] == pre[0] && (pre + tail)[1..] == pre[1..] + tail
  {
  }

  /** A benign frame is refused only when the chunks so far are not all good. */
  lemma RefusedIsBad(c: Codec, m: Meta, st: HostState, past: seq<Input>, input: Input, later: seq<Input>)
    requires Linked(c, m, st, OwnChunks(m.captureId, past)) && Benign(c, m, input)
    requires HostStep(c, m, st, input).Finish?
    ensures !AllGood(c, m, OwnChunks(m.captureId, (past + [input]) + later))
  {
    var own, all := OwnChunks(m.captureId, past), OwnChunks(m.captureId, (past + [input]) + later);
    OwnSnoc(m.captureId, past, input);
    OwnPrefix(m.captureId, past + [input], later);
    if AllGood(c, m, all) {
      AllGoodPrefix(c, m, own + OwnPart(m.captureId, input), all);
      BenignContinues(c, m, st, own, input);
    }
  }

  /** Benign frames either all pass, or one of this capture's own chunks is refused. */
  lemma {:induction false} RunThrough(c: Codec, m: Meta, st: HostState, past: seq<Input>, pre: seq<Input>,
                                      tail: seq<Input>)
    returns (st': Option<HostState>)
    requires Linked(c, m, st, OwnChunks(m.captureId, past))
    requires forall k :: 0 <= k < |pre| ==> Benign(c, m, pre[k])
    ensures match st'
      case Some(final) =>
        Linked(c, m, final, OwnChunks(m.captureId, past + pre)) &&
          HostRun(c, m, st, pre + tail) == HostRun(c, m, final, tail)
      case None =>
        !AllGood(c, m, OwnChunks(m.captureId, past + pre)) && HostRun(c, m, st, pre + tail).Err?
    decreases |pre|
  {
    if pre == [] {
      assert past + pre == past && pre + tail == tail;
      return Some(st);
    }
    var input, own := pre[0], OwnChunks(m.captureId, past);
    SplitFirst(past, pre, tail);
    var step := HostStep(c, m, st, input);
    if step.Finish? {
      RefusedIsBad(c, m, st, past, input, pre[1..]);
      return None;
    }
    OwnSnoc(m.captureId, past, input);
    StepKeepsLink(c, m, st, own, input, step.state);
    st' := RunThrough(c, m, step.state, past + [input], pre[1..], tail);
  }

  lemma DoneAnswer(c: Codec, m: Meta, st: HostState, own: seq<Frame>)
    requires Linked(c, m, st, own)
    ensures HostStep(c, m, st, Got(Done(m.captureId, m.chunkCount, m.dataSize)))
         == Finish(if Covers(m, own) then Ok(st.data) else Err(ChunksMissing))
  {
    EndingStep(c, m, st, own, Got(Done(m.captureId, m.chunkCount, m.dataSize)));
    if !Covers(m, own) {
      var i :| 0 <= i < m.chunkCount && !Has(own, i);
      assert !st.received[i];
    }
  }

  lemma DeliveryRun(c: Codec, m: Meta, pre: seq<Input>, post: seq<Input>)
    requires Cut(m)
    requires forall k :: 0 <= k < |pre| ==> Benign(c, m, pre[k])
    ensures var own := OwnChunks(m.captureId, pre);
      var r := HostRun(c, m, Initial(m), pre + ([Got(Done(m.captureId, m.chunkCount, m.dataSize))] + post));
      (r.Ok? <==> AllGood(c, m, own) && Covers(m, own)) && (r.Ok? ==> Whole(c, m, own, r.data))
  {
    var tail := [Got(Done(m.captureId, m.chunkCount, m.dataSize))] + post;
    InitialLinked(c, m);
    assert [] + pre == pre;
    var st := RunThrough(c, m, Initial(m), [], pre, tail);
    if st.Some? {
      DoneAnswer(c, m, st.value, OwnChunks(m.captureId, pre));
      assert HostRun(c, m, st.value, tail) == HostStep(c, m, st.value, tail[0]).result;
    }
  }

  lemma CaptureRuns(c: Codec, m: Meta, inputs: seq<Input>)
    requires ValidateMeta(m).None?
    ensures Cut(m) && Capture(c, m, inputs) == HostRun(c, m, Initial(m), inputs)
  {
    ValidMetaCuts(m);
  }

  /** Among benign frames, the done frame is answered with a picture exactly when this
      capture's chunks are each acceptable, never repeated, and cover every index; the
      picture is then whole. */
  lemma DeliveryExact(c: Codec, m: Meta, pre: seq<Input>, post: seq<Input>)
    requires ValidateMeta(m).None? && Cut(m)
    requires forall k :: 0 <= k < |pre| ==> Benign(c, m, pre[k])
    ensures var own := OwnChunks(m.captureId, pre);
      var r := Capture(c, m, pre + ([Got(Done(m.captureId, m.chunkCount, m.dataSize))] + post));
      (r.Ok? <==> AllGood(c, m, own) && Covers(m, own)) && (r.Ok? ==> Whole(c, m, own, r.data))
  {
    CaptureRuns(c, m, pre + ([Got(Done(m.captureId, m.chunkCount, m.dataSize))] + post));
    DeliveryRun(c, m, pre, post);
  }

  lemma {:induction false} CountAtMostOne(s: seq<Frame>, x: Frame)
    requires forall k, l :: 0 <= k < l < |s| ==> s[k] != s[l]
    ensures multiset(s)[x] <= 1
    decreases |s|
  {
    if s != [] {
      var n := |s| - 1;
      CountAtMostOne(s[..n], x);
      assert s == s[..n] + [s[n]];
      if x == s[n] {
        assert x !in s[..n];
      }
    }
  }

  lemma CountAtLeastTwo(s: seq<Frame>, k: nat, l: nat)
    requires k < l < |s| && s[k] == s[l]
    ensures multiset(s)[s[k]] >= 2
  {
    assert s == s[..l] + [s[l]] + s[l + 1..];
    assert s[k] in s[..l];
  }

  lemma DeviceChunkAcceptable(c: Codec, m: Meta, data: seq<Byte>, i: nat)
    requires IsBase64(c) && Cut(m) && m.chunkBytes == CHUNK_RAW_BYTES && |data| == m.dataSize && i < m.chunkCount
    ensures i * CHUNK_RAW_BYTES <= |data|
    ensures var chunk := DeviceChunk(c, m.captureId, data, i);
      Acceptable(c, m, chunk) && c.decode(chunk.data).value == data[Off(m, i)..Off(m, i) + ChunkLen(m, i)]
  {
    OffIsProduct(m, i);
    OffIsProduct(m, i + 1);
  }

  /** The device's own chunk frames, in any order, are acceptable and cover the picture. */
  lemma DeviceChunksGood(c: Codec, m: Meta, data: seq<Byte>, chunks: seq<Frame>, own: seq<Frame>)
    requires IsBase64(c) && Cut(m) && m.chunkBytes == CHUNK_RAW_BYTES && |data| == m.dataSize
    requires |chunks| == m.chunkCount
    requires forall i :: 0 <= i < |chunks| ==>
      i * CHUNK_RAW_BYTES <= |data| && chunks[i] == DeviceChunk(c, m.captureId, data, i)
    requires multiset(own) == multiset(chunks)
    ensures AllGood(c, m, own) && Covers(m, own)
    ensures forall k :: 0 <= k < |own| ==> own[k].index < |chunks| && own[k] == chunks[own[k].index]
  {
    forall k | 0 <= k < |own|
      ensures Acceptable(c, m, own[k]) && own[k].index < |chunks| && own[k] == chunks[own[k].index]
    {
      assert own[k] in multiset(own);
      assert own[k] in chunks;
      var i :| 0 <= i < |chunks| && chunks[i] == own[k];
      DeviceChunkAcceptable(c, m, data, i);
    }
    forall k, l | 0 <= k < l < |own|
      ensures own[k].index != own[l].index
    {
      if own[k] == own[l] {
        CountAtLeastTwo(own, k, l);
        CountAtMostOne(chunks, own[k]);
      }
    }
    forall i | 0 <= i < m.chunkCount
      ensures Has(own, i)
    {
      assert chunks[i] in multiset(chunks);
      assert chunks[i] in own;
      var k :| 0 <= k < |own| && own[k] == chunks[i];
    }
  }

  /** The chunk that holds byte j. */
  lemma ChunkAt(m: Meta, j: nat) returns (i: nat)
    requires Cut(m) && m.chunkBytes == CHUNK_RAW_BYTES && j < m.dataSize
    ensures i < m.chunkCount && i == j / CHUNK_RAW_BYTES && Off(m, i) <= j < Off(m, i) + ChunkLen(m, i)
  {
    i := j / CHUNK_RAW_BYTES;
    OffIsProduct(m, i);
  }

  /** A whole picture made of the device's chunks is the captured picture. */
  lemma WholeIsData(c: Codec, m: Meta, data: seq<Byte>, chunks: seq<Frame>, own: seq<Frame>, got: seq<Byte>)
    requires IsBase64(c) && Cut(m) && m.chunkBytes == CHUNK_RAW_BYTES && |data| == m.dataSize
    requires |chunks| == m.chunkCount
    requires forall i :: 0 <= i < |chunks| ==>
      i * CHUNK_RAW_BYTES <= |data| && chunks[i] == DeviceChunk(c, m.captureId, data, i)
    requires Whole(c, m, own, got)
    requires forall k :: 0 <= k < |own| ==> own[k].index < |chunks| && own[k] == chunks[own[k].index]
    ensures got == data
  {
    forall j | 0 <= j < |data|
      ensures got[j] == data[j]
    {
      var i := ChunkAt(m, j);
      assert Has(own, i);
      var k :| 0 <= k < |own| && own[k].Chunk? && own[k].index == i;
      assert own[k] == chunks[i];
      DeviceChunkAcceptable(c, m, data, i);
      SameByte(c, m, data, got, own[k], j);
    }
  }

  lemma SameByte(c: Codec, m: Meta, data: seq<Byte>, got: seq<Byte>, chunk: Frame, j: nat)
    requires Cut(m) && |data| == |got| == m.dataSize && Placed(c, m, got, chunk)
    requires c.decode(chunk.data).value == data[Off(m, chunk.index)..Off(m, chunk.index) + ChunkLen(m, chunk.index)]
    requires Off(m, chunk.index) <= j < Off(m, chunk.index) + ChunkLen(m, chunk.index)
    ensures got[j] == data[j]
  {
    var lo, n := Off(m, chunk.index), ChunkLen(m, chunk.index);
    assert got[lo..lo + n][j - lo] == data[lo..lo + n][j - lo];
  }

  /** End to end: the device's chunk frames in any order, with any benign frames in
      between, then its done frame: the host returns exactly the captured bytes. */
  lemma ScreenshotDelivered(c: Codec, captureId: string, width: nat, height: nat, data: seq<Byte>, pre: seq<Input>,
                            post: seq<Input>)
    requires IsBase64(c) && captureId != ""
    requires 0 < width <= MAX_WIDTH && 0 < height <= MAX_HEIGHT && |data| == 2 * width * height
    requires forall k :: 0 <= k < |pre| ==> Benign(c, StartResult(captureId, width, height, 2 * width, |data|), pre[k])
    requires var frames := DeviceFrames(c, captureId, data);
      multiset(OwnChunks(captureId, pre)) == multiset(frames[..|frames| - 1])
    ensures var frames := DeviceFrames(c, captureId, data);
      Capture(c, StartResult(captureId, width, height, 2 * width, |data|),
              pre + ([Got(frames[|frames| - 1])] + post)) == Ok(data)
  {
    var m := StartResult(captureId, width, height, 2 * width, |data|);
    DeviceMetaValid(captureId, width, height, 2 * width, |data|);
    ValidMetaCuts(m);
    var frames, own := DeviceFrames(c, captureId, data), OwnChunks(captureId, pre);
    var chunks := DeviceChunks(c, captureId, data, m.chunkCount);
    assert frames[..|frames| - 1] == chunks;
    DeviceChunksGood(c, m, data, chunks, own);
    DeliveryExact(c, m, pre, post);
    var r := Capture(c, m, pre + ([Got(frames[|frames| - 1])] + post));
    WholeIsData(c, m, data, chunks, own, r.data);
  }

  // -------------------------------------------------------------- the answers, told plainly

  /** Which metadata the host accepts: a named capture of at most 640 by 172 pixels, rows of
      two bytes a pixel without gaps, and as many chunks as it takes, the last one not
      empty. */
  lemma MetaValidExactly(m: Meta)
    ensures ValidateMeta(m) == None <==>
      && m.captureId != "" && m.format == "rgb565_le"
      && 1 <= m.width <= 640 && 1 <= m.height <= 172
      && m.stride == 2 * m.width && m.dataSize == m.stride * m.height
      && 1 <= m.chunkBytes && 1 <= m.chunkCount
      && m.chunkCount * m.chunkBytes >= m.dataSize > (m.chunkCount - 1) * m.chunkBytes
  {
    if 1 <= m.width <= 640 && 1 <= m.height <= 172 && m.stride == 2 * m.width {
      ProductBound(m.stride, m.height, 1280, 172);
      ProductPositive(m.stride, m.height);
    }
    if m.chunkBytes > 0 && m.dataSize > 0 {
      CeilIs(m.dataSize, m.chunkBytes, m.chunkCount);
    }
  }

  /** The error names a defect the metadata really have; the byte limit is never one. */
  lemma RefusalNamesDefect(m: Meta)
    ensures match ValidateMeta(m)
      case Some(EmptyId) => m.captureId == ""
      case Some(BadFormat) => m.format != "rgb565_le"
      case Some(Incomplete) => 0 in {m.width, m.height, m.stride, m.dataSize, m.chunkBytes, m.chunkCount}
      case Some(Oversized) => m.width > 640 || m.height > 172
      case Some(BadStride) => m.stride != 2 * m.width
      case Some(BadSize) => m.dataSize != m.stride * m.height
      case Some(BadChunkCount) =>
        !(m.chunkCount * m.chunkBytes >= m.dataSize > (m.chunkCount - 1) * m.chunkBytes)
      case Some(_) => false
      case None => true
  {
    ByteLimitRedundant(m);
    if m.chunkBytes > 0 && m.dataSize > 0 {
      CeilIs(m.dataSize, m.chunkBytes, m.chunkCount);
    }
  }

  /** Rounding up finds the one count that covers n without an empty part. */
  lemma CeilIs(n: nat, d: nat, k: nat)
    requires 0 < d && 0 < n
    ensures k == CeilDiv(n, d) <==> k * d >= n > (k - 1) * d
  {
    var q := CeilDiv(n, d);
    assert n + d - 1 == q * d + (n + d - 1) % d;
    assert (q - 1) * d == q * d - d;
    if k * d >= n > (k - 1) * d {
      assert (k - 1) * d == k * d - d;
      SameMultiple(k, q, n, d);
    }
  }

  lemma SameMultiple(k: int, q: int, n: int, d: nat)
    requires 0 < d && k * d >= n > k * d - d && q * d >= n > q * d - d
    ensures k == q
  {
    if k < q {
      MultipleGrows(k, q, d);
    } else if q < k {
      MultipleGrows(q, k, d);
    }
  }

  lemma {:induction false} MultipleGrows(k: int, q: int, d: nat)
    requires k < q
    ensures k * d + d <= q * d
    decreases q - k
  {
    assert (k + 1) * d == k * d + d;
    if k + 1 < q {
      MultipleGrows(k + 1, q, d);
    }
  }

  /** How the host answers a chunk, by what it has accepted before: it fails on text that is
      not base64, whoever sent it, and passes over other captures; of its own it refuses one
      out of range, one it has, and one of the wrong length, and takes every other. */
  lemma ChunkAnswer(c: Codec, m: Meta, st: HostState, own: seq<Frame>, id: string, i: nat, text: string)
    requires Linked(c, m, st, own)
    ensures var step := HostStep(c, m, st, Got(Chunk(id, i, text)));
      if c.decode(text).None? then step == Finish(Err(BadBase64))
      else if id != m.captureId then step == Continue(st)
      else if i >= m.chunkCount then step == Finish(Err(IndexOutOfRange))
      else if Has(own, i) then step == Finish(Err(Duplicate))
      else if |c.decode(text).value| != ChunkLen(m, i) then step == Finish(Err(BadLength))
      else step.Continue?
  {
    OffIsProduct(m, i);
  }

  /** How it answers the end of its own capture: totals that differ from the metadata are
      errors, then chunks that are missing; otherwise the picture is returned. */
  lemma EndAnswer(c: Codec, m: Meta, st: HostState, own: seq<Frame>, chunks: nat, bytes: nat)
    requires Linked(c, m, st, own)
    ensures var step := HostStep(c, m, st, Got(Done(m.captureId, chunks, bytes)));
      if bytes != m.dataSize then step == Finish(Err(WrongByteTotal))
      else if chunks != m.chunkCount then step == Finish(Err(WrongChunkTotal))
      else if !Covers(m, own) then step == Finish(Err(ChunksMissing))
      else step == Finish(Ok(st.data))
  {
    DoneAnswer(c, m, st, own);
  }

  /** And everything else: silence, a broken line, a frame it cannot read and a failure
      report end the capture, the last unless it names another one. */
  lemma OtherAnswers(c: Codec, m: Meta, st: HostState, id: string, chunks: nat, bytes: nat)
    requires Shaped(m, st)
    ensures HostStep(c, m, st, TimedOut) == Finish(Err(Timeout))
    ensures HostStep(c, m, st, ReadFailed) == Finish(Err(Transport))
    ensures HostStep(c, m, st, Got(Malformed)) == Finish(Err(BadPayload))
    ensures HostStep(c, m, st, Got(Other)) == Continue(st)
    ensures HostStep(c, m, st, Got(Failure(id))) ==
      if id in {"", m.captureId} then Finish(Err(DeviceFailed)) else Continue(st)
    ensures id != m.captureId ==> HostStep(c, m, st, Got(Done(id, chunks, bytes))) == Continue(st)
  {
  }
}
