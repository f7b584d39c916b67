/** The IPC frame codec: a 20-byte big-endian header and a payload, an encoder that fills a
    buffer by offset, and an incremental decoder that is fed arbitrary chunks. */
module Frame {
  import opened Base

  type uint16 = n: int | 0 <= n <= 0xFFFF

  const HEADER_BYTES := 20
  const SIZE_MAX := UINT64_MAX

  datatype Frame = Frame(
    major: uint16, minor: uint16, messageType: uint16, flags: uint16, requestId: uint64, payload: seq<uint8>)

  // ----- Big-endian numbers -----

  function Pow256(n: nat): (p: nat)
    ensures 0 < p
  {
    if n == 0 then 1 else 256 * Pow256(n - 1)
  }

  function Big(n: nat, v: nat): (b: seq<uint8>)
    ensures |b| == n
  {
    if n == 0 then [] else Big(n - 1, v / 256) + [v % 256]
  }

  function Value(b: seq<uint8>): nat {
    if b == [] then 0 else Value(b[..|b| - 1]) * 256 + b[|b| - 1]
  }

  lemma {:induction false} ValueBound(b: seq<uint8>)
    ensures Value(b) < Pow256(|b|)
  {
    if b != [] { ValueBound(b[..|b| - 1]); }
  }

  lemma {:induction false} ValueOfTwo(b: seq<uint8>)
    requires |b| == 2
    ensures Value(b) == b[0] as int * 256 + b[1]
  {
    assert b[..1][..0] == [];
    assert Value(b[..1]) == b[0];
  }

  lemma {:induction false} ValueOfFour(b: seq<uint8>)
    requires |b| == 4
    ensures Value(b) == ((b[0] as int * 256 + b[1]) * 256 + b[2]) * 256 + b[3]
  {
    ValueOfTwo(b[..2]);
    assert b[..3][..2] == b[..2];
  }

  lemma {:induction false} ValueOfEight(b: seq<uint8>)
    requires |b| == 8
    ensures Value(b) == ((((((b[0] as int * 256 + b[1]) * 256 + b[2]) * 256 + b[3]) * 256 + b[4]) * 256 + b[5]) * 256
                         + b[6]) * 256 + b[7]
  {
    ValueOfFour(b[..4]);
    assert Value(b[..5]) == Value(b[..4]) * 256 + b[4] by { assert b[..5][..4] == b[..4]; }
    assert Value(b[..6]) == Value(b[..5]) * 256 + b[5] by { assert b[..6][..5] == b[..5]; }
    assert Value(b[..7]) == Value(b[..6]) * 256 + b[6] by { assert b[..7][..6] == b[..6]; }
  }

  lemma {:induction false} ValueOfBig(n: nat, v: nat)
    requires v < Pow256(n)
    ensures Value(Big(n, v)) == v
  {
    if n != 0 {
      ValueOfBig(n - 1, v / 256);
      assert Big(n, v)[..n - 1] == Big(n - 1, v / 256);
    }
  }

  lemma {:induction false} BigOfValue(b: seq<uint8>)
    ensures Big(|b|, Value(b)) == b
  {
    if b != [] {
      var n := |b| - 1;
      BigOfValue(b[..n]);
      assert Value(b) / 256 == Value(b[..n]) && Value(b) % 256 == b[n];
      assert b == b[..n] + [b[n]];
    }
  }

  lemma {:induction false} DivideTwice(v: nat, p: nat)
    requires 0 < p
    ensures v / 256 / p == v / (256 * p)
  {
    var q, r := v / 256, v % 256;
    var q', r' := q / p, q % p;
    assert v == 256 * (p * q' + r') + r;
    assert v == (256 * p) * q' + (256 * r' + r);
    assert 256 * r' + r < 256 * p;
    Quotient(v, 256 * p, q', 256 * r' + r);
  }

  lemma {:induction false} Quotient(v: nat, d: nat, q: nat, r: nat)
    requires 0 < d && r < d && v == d * q + r
    ensures v / d == q
  {
    var a, b := v / d, v % d;
    assert v == d * a + b;
    assert a < q ==> d * (a + 1) <= d * q;
    assert q < a ==> d * (q + 1) <= d * a;
  }

  /** The byte that the shift-and-mask of the writers puts at offset `i`. */
  lemma {:induction false} BigAt(n: nat, v: nat, i: nat)
    requires i < n
    ensures Big(n, v)[i] == v / Pow256(n - 1 - i) % 256
  {
    if i < n - 1 {
      BigAt(n - 1, v / 256, i);
      DivideTwice(v, Pow256(n - 2 - i));
    }
  }

  // ----- Encoding -----

  function FrameSize(f: Frame): nat { HEADER_BYTES + |f.payload| }

  function Encode(f: Frame): (b: seq<uint8>)
    ensures |b| == FrameSize(f)
  {
    Big(4, FrameSize(f)) + Big(2, f.major) + Big(2, f.minor) + Big(2, f.messageType) + Big(2, f.flags)
    + Big(8, f.requestId) + f.payload
  }

  predicate Encodable(max: nat, f: Frame) {
    FrameSize(f) <= UINT32_MAX && FrameSize(f) <= max
  }

  function EncodeAll(fs: seq<Frame>): seq<uint8> {
    if fs == [] then [] else Encode(fs[0]) + EncodeAll(fs[1..])
  }

  /** `writeU16`, `writeU32` and `writeU64`: shift, mask and store byte by byte. */
  method WriteBig(out: array<uint8>, offset: nat, n: nat, v: nat)
    requires offset + n <= out.Length
    modifies out
    ensures out[..] == old(out[..offset]) + Big(n, v) + old(out[offset + n..])
  {
    for i := 0 to n
      invariant out[..offset] == old(out[..offset]) && out[offset + n..] == old(out[offset + n..])
      invariant forall k :: 0 <= k < i ==> out[offset + k] == Big(n, v)[k]
    {
      BigAt(n, v, i);
      out[offset + i] := v / Pow256(n - 1 - i) % 256;
    }
    assert out[..] == out[..offset] + out[offset..offset + n] + out[offset + n..];
    assert out[offset..offset + n] == Big(n, v);
  }

  method CopyPayload(out: array<uint8>, offset: nat, payload: seq<uint8>)
    requires offset + |payload| == out.Length
    modifies out
    ensures out[..] == old(out[..offset]) + payload
  {
    for i := 0 to |payload|
      invariant out[..offset] == old(out[..offset])
      invariant forall k :: 0 <= k < i ==> out[offset + k] == payload[k]
    {
      out[offset + i] := payload[i];
    }
    assert out[..] == out[..offset] + out[offset..];
    assert out[offset..] == payload;
  }

  method WriteHeader(out: array<uint8>, f: Frame)
    requires out.Length == FrameSize(f)
    modifies out
    ensures out[..HEADER_BYTES] + f.payload == Encode(f)
  {
    WriteBig(out, 0, 4, FrameSize(f));
    assert out[..4] == Big(4, FrameSize(f));
    WriteBig(out, 4, 2, f.major);
    assert out[..6] == Big(4, FrameSize(f)) + Big(2, f.major);
    WriteBig(out, 6, 2, f.minor);
    assert out[..8] == Big(4, FrameSize(f)) + Big(2, f.major) + Big(2, f.minor);
    WriteBig(out, 8, 2, f.messageType);
    assert out[..10] == Big(4, FrameSize(f)) + Big(2, f.major) + Big(2, f.minor) + Big(2, f.messageType);
    WriteBig(out, 10, 2, f.flags);
    ghost var head :=
      Big(4, FrameSize(f)) + Big(2, f.major) + Big(2, f.minor) + Big(2, f.messageType) + Big(2, f.flags);
    assert out[..12] == head;
    WriteBig(out, 12, 8, f.requestId);
    assert out[..20] == head + Big(8, f.requestId);
  }

  /** `encodeFrame`. */
  method EncodeFrame(f: Frame, max: nat) returns (status: Code, bytes: seq<uint8>)
    ensures status.Success? <==> Encodable(max, f)
    ensures status.Success? ==> bytes == Encode(f)
    ensures status.ResourceExhausted? <==>
            HEADER_BYTES <= max && |f.payload| <= UINT32_MAX - HEADER_BYTES && max < FrameSize(f)
  {
    bytes := [];
    if max < HEADER_BYTES || UINT32_MAX - HEADER_BYTES < |f.payload| {
      return InvalidArgument, bytes;
    }
    var size := HEADER_BYTES + |f.payload|;
    if max < size {
      return ResourceExhausted, bytes;
    }
    var out := new uint8[size](_ => 0);
    WriteHeader(out, f);
    CopyPayload(out, HEADER_BYTES, f.payload);
    return Success, out[..];
  }

  // ----- Decoding a whole stream -----

  /** `rest` is what stays buffered; a poisoned decoder buffers nothing.  `fault` says what is wrong with
      the first malformed frame, if there is one. */
  datatype Parsed = Parsed(frames: seq<Frame>, rest: seq<uint8>, fault: Code) {
    predicate Poisoned() { !fault.Success? }
  }

  /** What is wrong with a frame of size `n`. */
  function Fault(max: nat, n: nat): Code {
    if n < HEADER_BYTES then InvalidArgument else if max < n then ResourceExhausted else Success
  }

  function U16At(b: seq<uint8>, k: nat): uint16
    requires k + 2 <= |b|
  {
    ValueBound(b[k..k + 2]);
    assert Pow256(2) == 0x10000;
    Value(b[k..k + 2])
  }

  function U64At(b: seq<uint8>, k: nat): uint64
    requires k + 8 <= |b|
  {
    ValueBound(b[k..k + 8]);
    assert Pow256(4) == 0x1_0000_0000;
    assert Pow256(8) == 0x1_0000_0000_0000_0000;
    Value(b[k..k + 8])
  }

  function FrameAt(b: seq<uint8>): Frame
    requires HEADER_BYTES <= |b|
  {
    Frame(U16At(b, 4), U16At(b, 6), U16At(b, 8), U16At(b, 10), U64At(b, 12), b[HEADER_BYTES..])
  }

  function Parse(max: nat, b: seq<uint8>): Parsed {
    if |b| < 4 then Parsed([], b, Success)
    else
      var n := Value(b[..4]);
      if !Fault(max, n).Success? then Parsed([], [], Fault(max, n))
      else if |b| < n then Parsed([], b, Success)
      else
        var p := Parse(max, b[n..]);
        p.(frames := [FrameAt(b[..n])] + p.frames)
  }

  /** A frame read back from its encoding. */
  lemma {:induction false} FrameOfEncode(f: Frame)
    requires FrameSize(f) <= UINT32_MAX
    ensures FrameAt(Encode(f)) == f && Value(Encode(f)[..4]) == FrameSize(f)
  {
    var b := Encode(f);
    assert Pow256(2) == 0x10000;
    assert Pow256(4) == 0x1_0000_0000;
    assert Pow256(8) == 0x1_0000_0000_0000_0000;
    assert b[..4] == Big(4, FrameSize(f)) && b[4..6] == Big(2, f.major) && b[6..8] == Big(2, f.minor);
    assert b[8..10] == Big(2, f.messageType) && b[10..12] == Big(2, f.flags) && b[12..20] == Big(8, f.requestId);
    ValueOfBig(4, FrameSize(f));
    ValueOfBig(2, f.major);
    ValueOfBig(2, f.minor);
    ValueOfBig(2, f.messageType);
    ValueOfBig(2, f.flags);
    ValueOfBig(8, f.requestId);
  }

  /** The bytes of a frame are the encoding of what is read from them. */
  lemma {:induction false} EncodeOfFrame(b: seq<uint8>)
    requires HEADER_BYTES <= |b| && Value(b[..4]) == |b|
    ensures Encode(FrameAt(b)) == b
  {
    BigOfValue(b[..4]);
    BigOfValue(b[4..6]);
    BigOfValue(b[6..8]);
    BigOfValue(b[8..10]);
    BigOfValue(b[10..12]);
    BigOfValue(b[12..20]);
    assert b == b[..4] + b[4..6] + b[6..8] + b[8..10] + b[10..12] + b[12..20] + b[20..];
  }

  lemma {:induction false} PrefixValue(a: seq<uint8>, b: seq<uint8>)
    requires 4 <= |a|
    ensures (a + b)[..4] == a[..4]
  {}

  predicate WholeFrame(max: nat, b: seq<uint8>) {
    4 <= |b| && HEADER_BYTES <= Value(b[..4]) <= max && Value(b[..4]) <= |b|
  }

  /** Parsing `q` after frames `fs` were read. */
  function Prepend(fs: seq<Frame>, q: Parsed): Parsed { q.(frames := fs + q.frames) }

  lemma {:induction false} PrependTwice(fs: seq<Frame>, gs: seq<Frame>, q: Parsed)
    ensures Prepend(fs, Prepend(gs, q)) == Prepend(fs + gs, q)
  {
    assert fs + (gs + q.frames) == (fs + gs) + q.frames;
  }

  /** The first `k` bytes of `b` are the frames `fs`. */
  ghost predicate ReadSoFar(max: nat, b: seq<uint8>, k: nat, fs: seq<Frame>) {
    k <= |b| && Parse(max, b) == Prepend(fs, Parse(max, b[k..]))
  }

  lemma {:induction false} ReadNone(max: nat, b: seq<uint8>)
    ensures ReadSoFar(max, b, 0, [])
  {
    assert b[0..] == b;
    NothingRead(Parse(max, b));
  }

  lemma {:induction false} ReadHead(max: nat, b: seq<uint8>)
    requires WholeFrame(max, b)
    ensures var n := Value(b[..4]); Parse(max, b) == Prepend([FrameAt(b[..n])], Parse(max, b[n..]))
  {}

  lemma {:induction false} ReadOne(max: nat, b: seq<uint8>, k: nat, fs: seq<Frame>, n: nat, f: Frame)
    requires ReadSoFar(max, b, k, fs) && WholeFrame(max, b[k..])
    requires n == Value(b[k..][..4]) && f == FrameAt(b[k..][..n])
    ensures ReadSoFar(max, b, k + n, fs + [f])
  {
    var c := b[k..];
    ReadHead(max, c);
    assert c[n..] == b[k + n..];
    var rest := Parse(max, b[k + n..]);
    assert Parse(max, b) == Prepend(fs, Prepend([f], rest));
    PrependTwice(fs, [f], rest);
  }

  /** Where reading stops: at an incomplete frame, or at a malformed one. */
  lemma {:induction false} ReadAll(max: nat, b: seq<uint8>, k: nat, fs: seq<Frame>)
    requires ReadSoFar(max, b, k, fs) && !WholeFrame(max, b[k..])
    ensures Parse(max, b) ==
            if 4 <= |b[k..]| && !Fault(max, Value(b[k..][..4])).Success?
            then Parsed(fs, [], Fault(max, Value(b[k..][..4])))
            else Parsed(fs, b[k..], Success)
  {
    assert fs + [] == fs;
  }

  /** Parsing is incremental: bytes that arrive later are parsed after what was left over. */
  lemma {:induction false} ParseConcat(max: nat, a: seq<uint8>, b: seq<uint8>)
    ensures var p := Parse(max, a);
            Parse(max, a + b) == if p.Poisoned() then p else Prepend(p.frames, Parse(max, p.rest + b))
    decreases |a|
  {
    if WholeFrame(max, a) {
      PrefixValue(a, b);
      var n := Value(a[..4]);
      var head := [FrameAt(a[..n])];
      assert (a + b)[n..] == a[n..] + b && (a + b)[..n] == a[..n];
      assert Parse(max, a + b) == Prepend(head, Parse(max, a[n..] + b));
      ParseConcat(max, a[n..], b);
      var p := Parse(max, a[n..]);
      assert Parse(max, a) == Prepend(head, p);
      PrependTwice(head, p.frames, Parse(max, p.rest + b));
    } else if 4 <= |a| {
      PrefixValue(a, b);
      NothingRead(Parse(max, a + b));
    } else {
      NothingRead(Parse(max, a + b));
    }
  }

  lemma {:induction false} NothingRead(q: Parsed)
    ensures Prepend([], q) == q
  {}

  /** What stays buffered is shorter than a frame can be, and parsing it again changes nothing. */
  lemma {:induction false} RestIsShort(max: nat, b: seq<uint8>)
    requires HEADER_BYTES <= max
    ensures |Parse(max, b).rest| < max
    ensures Parse(max, b).Poisoned() ==> Parse(max, b).rest == []
    ensures !Parse(max, b).Poisoned() ==> Parse(max, Parse(max, b).rest) == Parsed([], Parse(max, b).rest, Success)
    decreases |b|
  {
    if 4 <= |b| {
      var n := Value(b[..4]);
      if HEADER_BYTES <= n <= max && n <= |b| { RestIsShort(max, b[n..]); }
    }
  }

  /** Encoded frames come back, and whatever follows them is parsed next. */
  lemma {:induction false} ParseEncoded(max: nat, fs: seq<Frame>)
    requires forall f :: f in fs ==> Encodable(max, f)
    ensures Parse(max, EncodeAll(fs)) == Parsed(fs, [], Success)
  {
    if fs != [] {
      var f := fs[0];
      assert f in fs;
      var b := Encode(f) + EncodeAll(fs[1..]);
      FrameOfEncode(f);
      ParseEncoded(max, fs[1..]);
      var n := FrameSize(f);
      assert b[..4] == Encode(f)[..4] && b[..n] == Encode(f) && b[n..] == EncodeAll(fs[1..]);
    }
  }

  /** The decoder reads nothing else: unless poisoned, its frames and its buffer re-encode to the input. */
  lemma {:induction false} ParseIsExact(max: nat, b: seq<uint8>)
    requires !Parse(max, b).Poisoned()
    ensures EncodeAll(Parse(max, b).frames) + Parse(max, b).rest == b
    decreases |b|
  {
    if |b| < 4 || |b| < Value(b[..4]) {
      assert [] + b == b;
    } else {
      var n := Value(b[..4]);
      ParseIsExact(max, b[n..]);
      assert b[..n][..4] == b[..4];
      EncodeOfFrame(b[..n]);
      var q := Parse(max, b[n..]);
      FirstFrame(FrameAt(b[..n]), q.frames, q.rest, b, n);
    }
  }

  lemma {:induction false} FirstFrame(f: Frame, fs: seq<Frame>, rest: seq<uint8>, b: seq<uint8>, n: nat)
    requires n <= |b| && Encode(f) == b[..n] && EncodeAll(fs) + rest == b[n..]
    ensures EncodeAll([f] + fs) + rest == b
  {
    assert ([f] + fs)[1..] == fs;
    assert b == b[..n] + b[n..];
  }

  /** Where decoding stops: after whole frames, at `r`.  The size announced there decides the fault, and without a
      fault `r` is kept because its frame is not complete. */
  lemma {:induction false} StopsAt(max: nat, b: seq<uint8>) returns (r: seq<uint8>)
    ensures var p, n := Parse(max, b), if |r| < 4 then 0 else Value(r[..4]);
            && b == EncodeAll(p.frames) + r
            && (p.fault.InvalidArgument? <==> 4 <= |r| && n < 20)
            && (p.fault.ResourceExhausted? <==> 4 <= |r| && 20 <= n && max < n)
            && (p.fault.Success? <==> |r| < 4 || (20 <= n <= max && |r| < n))
            && p.rest == if p.fault.Success? then r else []
    decreases |b|
  {
    var n := if |b| < 4 then 0 else Value(b[..4]);
    if |b| < 4 || !Fault(max, n).Success? || |b| < n {
      r := b;
      assert [] + b == b;
    } else {
      r := StopsAt(max, b[n..]);
      assert b[..n][..4] == b[..4];
      EncodeOfFrame(b[..n]);
      FirstFrame(FrameAt(b[..n]), Parse(max, b[n..]).frames, r, b, n);
    }
  }

  /** Every field has its place, most significant byte first. */
  lemma {:induction false} Layout(f: Frame)
    requires FrameSize(f) <= UINT32_MAX
    ensures var e := Encode(f);
            && |e| == 20 + |f.payload| && e[20..] == f.payload
            && ((e[0] as int * 256 + e[1]) * 256 + e[2]) * 256 + e[3] == |e|
            && e[4] as int * 256 + e[5] == f.major && e[6] as int * 256 + e[7] == f.minor
            && e[8] as int * 256 + e[9] == f.messageType && e[10] as int * 256 + e[11] == f.flags
            && ((((((e[12] as int * 256 + e[13]) * 256 + e[14]) * 256 + e[15]) * 256 + e[16]) * 256 + e[17]) * 256
                + e[18]) * 256 + e[19] == f.requestId
  {
    var e := Encode(f);
    FrameOfEncode(f);
    assert e[20..] == f.payload;
    ValueOfFour(e[..4]);
    ValueOfTwo(e[4..6]);
    ValueOfTwo(e[6..8]);
    ValueOfTwo(e[8..10]);
    ValueOfTwo(e[10..12]);
    ValueOfEight(e[12..20]);
  }

  // ----- Decoding chunk by chunk -----

  datatype DecoderState = DecoderState(buffer: seq<uint8>, poisoned: bool)

  /** The buffer bound of `append`: twice the frame bound, or all there is. */
  function BufferLimit(max: nat): nat {
    if SIZE_MAX / 2 < max then SIZE_MAX else max * 2
  }

  predicate Overflows(max: nat, s: DecoderState, chunk: seq<uint8>) {
    || max < HEADER_BYTES || max < |chunk| || max < |s.buffer|
    || |chunk| > BufferLimit(max) - |s.buffer|
  }

  /** `append`: the new state and the frames it hands out. */
  function Append(max: nat, s: DecoderState, chunk: seq<uint8>): (DecoderState, seq<Frame>) {
    if s.poisoned || chunk == [] then (s, [])
    else if Overflows(max, s, chunk) then (DecoderState([], true), [])
    else
      var p := Parse(max, s.buffer + chunk);
      (DecoderState(p.rest, p.Poisoned()), p.frames)
  }

  /** The status it returns. */
  function AppendStatus(max: nat, s: DecoderState, chunk: seq<uint8>): Code {
    if s.poisoned then InvalidArgument
    else if chunk == [] then Success
    else if Overflows(max, s, chunk) then ResourceExhausted
    else Parse(max, s.buffer + chunk).fault
  }

  function AppendAll(max: nat, chunks: seq<seq<uint8>>): (DecoderState, seq<Frame>) {
    if chunks == [] then (DecoderState([], false), [])
    else
      var (s, fs) := AppendAll(max, chunks[..|chunks| - 1]);
      var (t, gs) := Append(max, s, chunks[|chunks| - 1]);
      (t, fs + gs)
  }

  function Joined(chunks: seq<seq<uint8>>): seq<uint8> {
    if chunks == [] then [] else Joined(chunks[..|chunks| - 1]) + chunks[|chunks| - 1]
  }

  predicate Bounded(max: nat, chunks: seq<seq<uint8>>) {
    forall c :: c in chunks ==> |c| <= max
  }

  function Outcome(p: Parsed): (DecoderState, seq<Frame>) {
    (DecoderState(p.rest, p.Poisoned()), p.frames)
  }

  /** One more chunk is the same as a longer stream. */
  lemma {:induction false} AppendContinues(max: nat, b: seq<uint8>, chunk: seq<uint8>)
    requires HEADER_BYTES <= max <= SIZE_MAX / 2 && |chunk| <= max
    ensures var p := Parse(max, b);
            var (t, gs) := Append(max, DecoderState(p.rest, p.Poisoned()), chunk);
            (t, p.frames + gs) == Outcome(Parse(max, b + chunk))
  {
    RestIsShort(max, b);
    ParseConcat(max, b, chunk);
    var p := Parse(max, b);
    assert p.frames + [] == p.frames;
    if chunk == [] {
      assert b + chunk == b;
    }
  }

  /** However a stream is cut into chunks, the decoder ends where parsing the whole of it ends:
      the same frames, the same poisoning, the same bytes left over. */
  lemma {:induction false} ChunkingIsIrrelevant(max: nat, chunks: seq<seq<uint8>>)
    requires HEADER_BYTES <= max <= SIZE_MAX / 2 && Bounded(max, chunks)
    ensures AppendAll(max, chunks) == Outcome(Parse(max, Joined(chunks)))
    ensures |AppendAll(max, chunks).0.buffer| < max
  {
    if chunks != [] {
      var n := |chunks| - 1;
      assert chunks[n] in chunks;
      ChunkingIsIrrelevant(max, chunks[..n]);
      AppendContinues(max, Joined(chunks[..n]), chunks[n]);
    }
    RestIsShort(max, Joined(chunks));
  }

  /** The bound on the buffer never turns away a chunk that is itself within the frame bound. */
  lemma {:induction false} OnlyOversizeOverflows(max: nat, chunks: seq<seq<uint8>>, chunk: seq<uint8>)
    requires HEADER_BYTES <= max <= SIZE_MAX / 2 && Bounded(max, chunks) && !AppendAll(max, chunks).0.poisoned
    ensures AppendStatus(max, AppendAll(max, chunks).0, chunk).ResourceExhausted? && |chunk| <= max ==>
              Parse(max, Joined(chunks) + chunk).fault.ResourceExhausted?
    ensures max < |chunk| ==>
              && AppendStatus(max, AppendAll(max, chunks).0, chunk).ResourceExhausted?
              && Append(max, AppendAll(max, chunks).0, chunk) == (DecoderState([], true), [])
  {
    if |chunk| <= max {
      StatusIsOfTheStream(max, chunks, chunk);
    }
  }

  /** The status of a chunk tells what is wrong with the stream up to its end, however the bytes before it
      were cut. */
  lemma {:induction false} StatusIsOfTheStream(max: nat, chunks: seq<seq<uint8>>, chunk: seq<uint8>)
    requires HEADER_BYTES <= max <= SIZE_MAX / 2 && Bounded(max, chunks) && |chunk| <= max
    requires !AppendAll(max, chunks).0.poisoned
    ensures AppendStatus(max, AppendAll(max, chunks).0, chunk) == Parse(max, Joined(chunks) + chunk).fault
  {
    var b := Joined(chunks);
    ChunkingIsIrrelevant(max, chunks);
    ParseConcat(max, b, chunk);
    if chunk == [] {
      assert b + chunk == b;
    }
  }

  lemma {:induction false} SameStreamSameOutcome(max: nat, xs: seq<seq<uint8>>, ys: seq<seq<uint8>>)
    requires HEADER_BYTES <= max <= SIZE_MAX / 2 && Bounded(max, xs) && Bounded(max, ys)
    requires Joined(xs) == Joined(ys)
    ensures AppendAll(max, xs) == AppendAll(max, ys)
  {
    ChunkingIsIrrelevant(max, xs);
    ChunkingIsIrrelevant(max, ys);
  }

  /** Any chunking of encoded frames decodes to exactly those frames, with nothing left over. */
  lemma {:induction false} RoundTrip(max: nat, fs: seq<Frame>, chunks: seq<seq<uint8>>)
    requires HEADER_BYTES <= max <= SIZE_MAX / 2 && Bounded(max, chunks)
    requires (forall f :: f in fs ==> Encodable(max, f)) && Joined(chunks) == EncodeAll(fs)
    ensures AppendAll(max, chunks) == (DecoderState([], false), fs)
  {
    ChunkingIsIrrelevant(max, chunks);
    ParseEncoded(max, fs);
  }

  /** The loop of `append`: reads whole frames off the front of the buffer and counts their bytes. */
  method ReadFrames(max: nat, buffer: seq<uint8>) returns (status: Code, frames: seq<Frame>, consumed: nat)
    ensures consumed <= |buffer|
    ensures Parse(max, buffer) == Parsed(frames, if status.Success? then buffer[consumed..] else [], status)
  {
    frames, consumed := [], 0;
    ReadNone(max, buffer);
    while 4 <= |buffer| - consumed
      invariant ReadSoFar(max, buffer, consumed, frames)
    {
      var current := buffer[consumed..];
      var size := Value(current[..4]);
      if size < HEADER_BYTES || max < size {
        ReadAll(max, buffer, consumed, frames);
        return if size < HEADER_BYTES then InvalidArgument else ResourceExhausted, frames, consumed;
      }
      if |current| < size {
        break;
      }
      var frame := FrameAt(current[..size]);
      ReadOne(max, buffer, consumed, frames, size, frame);
      frames := frames + [frame];
      consumed := consumed + size;
    }
    ReadAll(max, buffer, consumed, frames);
    status := Success;
  }

  class Decoder {
    const max: nat
    var buffer: seq<uint8>
    var poisoned: bool

    constructor (max: nat)
      ensures View() == DecoderState([], false) && Valid() && this.max == max
    {
      this.max, buffer, poisoned := max, [], false;
    }

    ghost function View(): DecoderState
      reads this
    {
      DecoderState(buffer, poisoned)
    }

    /** The buffer holds no whole frame. */
    ghost predicate Valid()
      reads this
    {
      !poisoned ==> Parse(max, buffer) == Parsed([], buffer, Success)
    }

    method Fail()
      modifies this
      ensures View() == DecoderState([], true)
    {
      buffer, poisoned := [], true;
    }

    /** `append`: consumes whole frames from the front of the buffer and erases them at the end. */
    method Feed(chunk: seq<uint8>) returns (status: Code, frames: seq<Frame>)
      requires Valid()
      modifies this
      ensures (View(), frames) == Append(max, old(View()), chunk)
      ensures status == AppendStatus(max, old(View()), chunk) && (status.Success? <==> !poisoned)
      ensures Valid()
    {
      frames := [];
      if poisoned {
        return InvalidArgument, frames;
      }
      if chunk == [] {
        return Success, frames;
      }
      if max < HEADER_BYTES || max < |chunk| || max < |buffer| || |chunk| > BufferLimit(max) - |buffer| {
        Fail();
        return ResourceExhausted, frames;
      }
      buffer := buffer + chunk;
      var consumed;
      status, frames, consumed := ReadFrames(max, buffer);
      RestIsShort(max, buffer);
      if status.Success? {
        buffer := buffer[consumed..];
      } else {
        Fail();
      }
    }

    method Reset()
      modifies this
      ensures View() == DecoderState([], false) && Valid()
    {
      buffer, poisoned := [], false;
    }
  }
}
