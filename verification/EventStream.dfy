/**
 AWS event-stream bodies of Bedrock responses. A frame is
   [total length, 4 bytes big-endian][headers length, 4 bytes][prelude CRC, 4 bytes]
   [headers][payload][message CRC, 4 bytes];
 the parser walks the frames and decodes each payload, without looking at headers and CRCs.
 Decoding a payload as JSON is an arbitrary partial function.
 */
module EventStream {
  import opened GoInt
  import opened Wrappers

  type byte = x: int | 0 <= x < 256

  datatype Usage = Usage(input: int64, output: int64, cacheRead: int64, cacheWrite: int64)

  datatype Metrics = Metrics(inputTokens: int64, outputTokens: int64, cachedTokens: int64, cacheCreationTokens: int64)

  type Decoder = seq<byte> -> Option<Usage>

  datatype Error = BadFrameLength | BadHeadersLength | BadPayloadBounds | NotJson

  const ZERO := Metrics(0, 0, 0, 0)

  /** Input tokens count cache reads and writes as well. */
  function BuildMetrics(u: Usage): Metrics {
    Metrics(Wrap(Wrap(u.input + u.cacheRead) + u.cacheWrite), u.output, u.cacheRead, u.cacheWrite)
  }

  // ---- Big-endian words -------------------------------------------------------------------------

  function Uint32(b: seq<byte>): nat
    requires |b| >= 4
  {
    b[0] as int * 0x100_0000 + b[1] as int * 0x1_0000 + b[2] as int * 0x100 + b[3] as int
  }

  function PutUint32(n: nat): (b: seq<byte>)
    requires n < 0x1_0000_0000
    ensures |b| == 4
  {
    [n / 0x100_0000, n / 0x1_0000 % 0x100, n / 0x100 % 0x100, n % 0x100]
  }

  lemma Uint32Bounds(b: seq<byte>)
    requires |b| >= 4
    ensures b[0] as int * 0x100_0000 <= Uint32(b) < (b[0] as int + 1) * 0x100_0000 <= 0x1_0000_0000
  {
  }

  lemma Uint32RoundTrip(n: nat, rest: seq<byte>)
    requires n < 0x1_0000_0000
    ensures Uint32(PutUint32(n) + rest) == n
  {
    var a, b, c := n / 0x100_0000, n / 0x1_0000, n / 0x100;
    assert b / 0x100 == a && c / 0x100 == b;
    assert n == c * 0x100 + n % 0x100 && c == b * 0x100 + c % 0x100 && b == a * 0x100 + b % 0x100;
  }

  // ---- Frames -----------------------------------------------------------------------------------

  datatype Frame = Frame(preludeCrc: seq<byte>, headers: seq<byte>, payload: seq<byte>, crc: seq<byte>)

  ghost predicate Encodable(f: Frame) {
    |f.preludeCrc| == 4 && |f.crc| == 4 && 16 + |f.headers| + |f.payload| < 0x1_0000_0000
  }

  function Encode(f: Frame): seq<byte>
    requires Encodable(f)
  {
    PutUint32(16 + |f.headers| + |f.payload|) + PutUint32(|f.headers|) + f.preludeCrc + f.headers + f.payload + f.crc
  }

  function EncodeAll(fs: seq<Frame>): seq<byte>
    requires forall f <- fs :: Encodable(f)
  {
    if fs == [] then [] else Encode(fs[0]) + EncodeAll(fs[1..])
  }

  /** The checks of one turn of the loop on what is left of the body: the frame's length and payload, or an error. */
  function ReadFrame(rest: seq<byte>): Result<(nat, seq<byte>), Error>
    requires |rest| >= 12
  {
    var total, headers := Uint32(rest), Uint32(rest[4..]);
    if total < 16 || total > |rest| then Err(BadFrameLength)
    else if headers > total - 16 then Err(BadHeadersLength)
    else
      var start, end := 12 + headers, total - 4;
      if start > end then Err(BadPayloadBounds) else Ok((total, rest[start..end]))
  }

  /** The third error of the loop cannot occur, and each frame consumes at least sixteen bytes. */
  lemma PayloadBoundsNeverFail(rest: seq<byte>)
    requires |rest| >= 12
    ensures ReadFrame(rest) != Err(BadPayloadBounds)
    ensures ReadFrame(rest).Ok? ==> 16 <= ReadFrame(rest).value.0 <= |rest|
    ensures ReadFrame(rest).Ok? ==> |ReadFrame(rest).value.1| + 16 <= ReadFrame(rest).value.0
  {
  }

  /** A body is a run of well-formed frames and a tail too short for a prelude, or the walk fails. */
  datatype Walk = Walked(payloads: seq<seq<byte>>, tail: seq<byte>) | Broken(error: Error)

  function WalkFrames(body: seq<byte>): Walk
    decreases |body|
  {
    if |body| < 12 then Walked([], body)
    else
      var frame := ReadFrame(body);
      PayloadBoundsNeverFail(body);
      if frame.Err? then Broken(frame.error)
      else
        var more := WalkFrames(body[frame.value.0..]);
        if more.Broken? then more else Walked([frame.value.1] + more.payloads, more.tail)
  }

  lemma Middle(a: seq<byte>, b: seq<byte>, c: seq<byte>)
    ensures (a + b + c)[|a|..|a| + |b|] == b
    ensures (a + b + c)[|a| + |b|..] == c
  {
  }

  lemma EncodedSlices(f: Frame, rest: seq<byte>)
    requires Encodable(f)
    ensures |Encode(f)| == 16 + |f.headers| + |f.payload|
    ensures (Encode(f) + rest)[12 + |f.headers|..|Encode(f)| - 4] == f.payload
    ensures (Encode(f) + rest)[|Encode(f)|..] == rest
  {
    var head := PutUint32(16 + |f.headers| + |f.payload|) + PutUint32(|f.headers|) + f.preludeCrc + f.headers;
    assert Encode(f) + rest == head + f.payload + (f.crc + rest);
    Middle(head, f.payload, f.crc + rest);
  }

  lemma EncodedFields(f: Frame, rest: seq<byte>)
    requires Encodable(f)
    ensures Uint32(Encode(f) + rest) == |Encode(f)| == 16 + |f.headers| + |f.payload|
    ensures Uint32((Encode(f) + rest)[4..]) == |f.headers|
  {
    var total, headers := PutUint32(16 + |f.headers| + |f.payload|), PutUint32(|f.headers|);
    var body := f.preludeCrc + f.headers + f.payload + f.crc + rest;
    assert Encode(f) + rest == total + (headers + body);
    Uint32RoundTrip(16 + |f.headers| + |f.payload|, headers + body);
    assert (total + (headers + body))[4..] == headers + body;
    Uint32RoundTrip(|f.headers|, body);
  }

  lemma ReadEncoded(f: Frame, rest: seq<byte>)
    requires Encodable(f)
    ensures |Encode(f) + rest| >= 12
    ensures ReadFrame(Encode(f) + rest) == Ok((|Encode(f)|, f.payload))
  {
    EncodedSlices(f, rest);
    EncodedFields(f, rest);
  }

  function Payloads(fs: seq<Frame>): seq<seq<byte>> {
    seq(|fs|, i requires 0 <= i < |fs| => fs[i].payload)
  }

  /**
   Round trip: walking the concatenation of any encoded frames visits exactly their payloads, in order,
   and leaves exactly the bytes that follow them, when these are too few for a prelude.
   */
  lemma {:induction false} WalkInvertsEncode(fs: seq<Frame>, tail: seq<byte>)
    requires (forall f <- fs :: Encodable(f)) && |tail| < 12
    ensures WalkFrames(EncodeAll(fs) + tail) == Walked(Payloads(fs), tail)
    decreases |fs|
  {
    if fs == [] {
      assert EncodeAll(fs) + tail == tail;
    } else {
      var rest := EncodeAll(fs[1..]) + tail;
      assert EncodeAll(fs) + tail == Encode(fs[0]) + rest;
      EncodedSlices(fs[0], rest);
      ReadEncoded(fs[0], rest);
      WalkInvertsEncode(fs[1..], tail);
      assert Payloads(fs) == [fs[0].payload] + Payloads(fs[1..]);
    }
  }

  /** Conversely, whatever the walk accepts is the encoding of some frames followed by the tail. */
  lemma {:induction false} WalkedIsEncoded(body: seq<byte>) returns (fs: seq<Frame>)
    requires WalkFrames(body).Walked?
    ensures forall f <- fs :: Encodable(f)
    ensures body == EncodeAll(fs) + WalkFrames(body).tail && |WalkFrames(body).tail| < 12
    ensures Payloads(fs) == WalkFrames(body).payloads
    decreases |body|
  {
    if |body| < 12 {
      fs := [];
    } else {
      var (total, payload) := ReadFrame(body).value;
      var f := DecodeFrame(body);
      var more := WalkedIsEncoded(body[total..]);
      fs := [f] + more;
      EncodeCons(f, more, WalkFrames(body).tail);
      assert body == body[..total] + body[total..];
    }
  }

  /** Which check the lengths at the start of a frame fail. */
  predicate FailsCheck(rest: seq<byte>, error: Error)
    requires |rest| >= 12
  {
    match error
    case BadFrameLength => Uint32(rest) < 16 || Uint32(rest) > |rest|
    case BadHeadersLength => 16 <= Uint32(rest) <= |rest| && Uint32(rest[4..]) > Uint32(rest) - 16
    case _ => false
  }

  lemma BadFrameFails(rest: seq<byte>)
    requires |rest| >= 12 && ReadFrame(rest).Err?
    ensures FailsCheck(rest, ReadFrame(rest).error)
  {
  }

  /** And what it does not accept is the encoding of some frames followed by lengths that fail a check. */
  lemma {:induction false} BrokenIsEncoded(body: seq<byte>) returns (fs: seq<Frame>, rest: seq<byte>)
    requires WalkFrames(body).Broken?
    ensures (forall f <- fs :: Encodable(f)) && body == EncodeAll(fs) + rest
    ensures |rest| >= 12 && FailsCheck(rest, WalkFrames(body).error)
    decreases |body|
  {
    if ReadFrame(body).Err? {
      BadFrameFails(body);
      fs, rest := [], body;
    } else {
      var total := ReadFrame(body).value.0;
      PayloadBoundsNeverFail(body);
      var f := DecodeFrame(body);
      var more;
      more, rest := BrokenIsEncoded(body[total..]);
      assert WalkFrames(body).error == WalkFrames(body[total..]).error;
      fs := [f] + more;
      EncodeCons(f, more, rest);
      assert body == body[..total] + body[total..];
    }
  }

  lemma EncodeCons(f: Frame, fs: seq<Frame>, tail: seq<byte>)
    requires Encodable(f) && forall g <- fs :: Encodable(g)
    ensures forall g <- [f] + fs :: Encodable(g)
    ensures EncodeAll([f] + fs) + tail == Encode(f) + (EncodeAll(fs) + tail)
    ensures Payloads([f] + fs) == [f.payload] + Payloads(fs)
  {
    assert ([f] + fs)[1..] == fs;
  }

  lemma DecodeFrame(body: seq<byte>) returns (f: Frame)
    requires |body| >= 12 && ReadFrame(body).Ok?
    ensures Encodable(f) && f.payload == ReadFrame(body).value.1
    ensures body[..ReadFrame(body).value.0] == Encode(f)
  {
    var total, headers := Uint32(body), Uint32(body[4..]);
    Uint32Bounds(body);
    f := Frame(body[8..12], body[12..12 + headers], body[12 + headers..total - 4], body[total - 4..total]);
    PutOfUint32(body);
    PutOfUint32(body[4..]);
    assert body[..total] == body[..4] + body[4..8] + f.preludeCrc + f.headers + f.payload + f.crc;
    assert body[4..][..4] == body[4..8];
  }

  lemma PutOfUint32(b: seq<byte>)
    requires |b| >= 4
    ensures Uint32(b) < 0x1_0000_0000 && PutUint32(Uint32(b)) == b[..4]
  {
    var n := Uint32(b);
    assert n / 0x100_0000 == b[0];
    assert n / 0x1_0000 == b[0] as int * 0x100 + b[1] as int;
    assert n / 0x100 == b[0] as int * 0x1_0000 + b[1] as int * 0x100 + b[2] as int;
  }

  // ---- The usage of a body ----------------------------------------------------------------------

  /** A payload counts when it decodes and reports some tokens. */
  predicate Counts(p: seq<byte>, decode: Decoder) {
    decode(p).Some? && Wrap(decode(p).value.input + decode(p).value.output) > 0
  }

  /** `m` are the metrics of the last counting payload, or zeros when none counts. */
  ghost predicate LastUsage(payloads: seq<seq<byte>>, decode: Decoder, m: Metrics) {
    || (m == ZERO && forall p <- payloads :: !Counts(p, decode))
    || (exists i :: 0 <= i < |payloads| && Counts(payloads[i], decode) && m == BuildMetrics(decode(payloads[i]).value)
          && forall j :: i < j < |payloads| ==> !Counts(payloads[j], decode))
  }

  /** Field by field: the metrics of a usage. */
  predicate Reports(m: Metrics, u: Usage) {
    && m.inputTokens == Wrap(u.input + u.cacheRead + u.cacheWrite) && m.outputTokens == u.output
    && m.cachedTokens == u.cacheRead && m.cacheCreationTokens == u.cacheWrite
  }

  /** The last payload that is readable, with input and output tokens that add up to more than zero. */
  ghost predicate ReportsLast(payloads: seq<seq<byte>>, decode: Decoder, m: Metrics) {
    if exists p <- payloads :: decode(p).Some? && Wrap(decode(p).value.input + decode(p).value.output) > 0 then
      exists i :: 0 <= i < |payloads|
        && decode(payloads[i]).Some? && Wrap(decode(payloads[i]).value.input + decode(payloads[i]).value.output) > 0
        && Reports(m, decode(payloads[i]).value)
        && forall j :: i < j < |payloads| ==>
             decode(payloads[j]).None? || Wrap(decode(payloads[j]).value.input + decode(payloads[j]).value.output) <= 0
    else m.inputTokens == m.outputTokens == m.cachedTokens == m.cacheCreationTokens == 0
  }

  lemma LastUsageReports(payloads: seq<seq<byte>>, decode: Decoder, m: Metrics)
    requires LastUsage(payloads, decode, m)
    ensures ReportsLast(payloads, decode, m)
  {
    if i :| 0 <= i < |payloads| && Counts(payloads[i], decode) && m == BuildMetrics(decode(payloads[i]).value)
            && forall j :: i < j < |payloads| ==> !Counts(payloads[j], decode) {
      BuiltReports(decode(payloads[i]).value);
      assert payloads[i] in payloads;
    }
  }

  lemma BuiltReports(u: Usage)
    ensures Reports(BuildMetrics(u), u)
  {
    WrapCancels(u.input + u.cacheRead, u.cacheWrite);
  }

  function LastCounting(payloads: seq<seq<byte>>, decode: Decoder): Option<Usage> {
    if payloads == [] then None
    else if Counts(payloads[|payloads| - 1], decode) then decode(payloads[|payloads| - 1])
    else LastCounting(payloads[..|payloads| - 1], decode)
  }

  lemma {:induction false} LastCountingIsLast(payloads: seq<seq<byte>>, decode: Decoder)
    ensures
      var last := LastCounting(payloads, decode);
      LastUsage(payloads, decode, if last.Some? then BuildMetrics(last.value) else ZERO)
    decreases |payloads|
  {
    if payloads == [] {
    } else if !Counts(payloads[|payloads| - 1], decode) {
      var front := payloads[..|payloads| - 1];
      LastCountingIsLast(front, decode);
      var last := LastCounting(front, decode);
      LastUsageSkips(front, payloads[|payloads| - 1], decode, if last.Some? then BuildMetrics(last.value) else ZERO);
      assert front + [payloads[|payloads| - 1]] == payloads;
    }
  }

  lemma LastUsageSkips(seen: seq<seq<byte>>, p: seq<byte>, decode: Decoder, m: Metrics)
    requires LastUsage(seen, decode, m) && !Counts(p, decode)
    ensures LastUsage(seen + [p], decode, m)
  {
    var all := seen + [p];
    if i :| 0 <= i < |seen| && Counts(seen[i], decode) && m == BuildMetrics(decode(seen[i]).value)
            && forall j :: i < j < |seen| ==> !Counts(seen[j], decode) {
      assert all[i] == seen[i];
    }
  }

  lemma LastCountingSnoc(seen: seq<seq<byte>>, p: seq<byte>, decode: Decoder)
    ensures LastCounting(seen + [p], decode) == if Counts(p, decode) then decode(p) else LastCounting(seen, decode)
  {
    assert (seen + [p])[..|seen|] == seen;
  }

  /** Where the loop stands: `seen` are the payloads before `offset`. */
  ghost predicate Progress(body: seq<byte>, offset: nat, seen: seq<seq<byte>>) {
    offset <= |body| && WalkFrames(body) == Prepend(seen, WalkFrames(body[offset..]))
  }

  lemma ProgressStep(body: seq<byte>, offset: nat, seen: seq<seq<byte>>, total: nat, payload: seq<byte>)
    requires Progress(body, offset, seen) && |body| - offset >= 12
    requires ReadFrame(body[offset..]) == Ok((total, payload))
    ensures offset < offset + total <= |body|
    ensures Progress(body, offset + total, seen + [payload])
  {
    PayloadBoundsNeverFail(body[offset..]);
    assert body[offset..][total..] == body[offset + total..];
    PrependOne(seen, payload, WalkFrames(body[offset + total..]));
  }

  /** The walk ends with a frame that fails a check, or with a tail too short for a prelude. */
  lemma ProgressEnds(body: seq<byte>, offset: nat, seen: seq<seq<byte>>)
    requires Progress(body, offset, seen)
    ensures |body| - offset < 12 ==> WalkFrames(body).Walked? && WalkFrames(body).payloads == seen
    ensures |body| - offset >= 12 && ReadFrame(body[offset..]).Err? ==>
      WalkFrames(body) == Broken(ReadFrame(body[offset..]).error)
  {
    assert seen + [] == seen;
  }

  method ParseEventStream(body: seq<byte>, decode: Decoder) returns (r: Result<Metrics, Error>)
    ensures match WalkFrames(body)
            case Broken(e) => r == Err(e)
            case Walked(payloads, _) => r.Ok? && ReportsLast(payloads, decode, r.value)
  {
    var usage := Usage(0, 0, 0, 0);
    var found := false;
    var offset := 0;
    ghost var seen: seq<seq<byte>> := [];
    assert body[0..] == body;
    while offset < |body|
      invariant Progress(body, offset, seen)
      invariant LastCounting(seen, decode) == if found then Some(usage) else None
    {
      ProgressEnds(body, offset, seen);
      if |body| - offset < 12 {
        break;
      }
      var frame := ReadFrame(body[offset..]);
      if frame.Err? {
        return Err(frame.error);
      }
      var payload := frame.value.1;
      LastCountingSnoc(seen, payload, decode);
      if Counts(payload, decode) {
        usage := decode(payload).value;
        found := true;
      }
      ghost var before := offset;
      offset := offset + frame.value.0;
      ProgressStep(body, before, seen, offset - before, payload);
      seen := seen + [payload];
    }
    ProgressEnds(body, offset, seen);
    LastCountingIsLast(seen, decode);
    LastUsageReports(seen, decode, if found then BuildMetrics(usage) else ZERO);
    if !found {
      return Ok(ZERO);
    }
    return Ok(BuildMetrics(usage));
  }

  ghost function Prepend(seen: seq<seq<byte>>, w: Walk): Walk {
    if w.Broken? then w else Walked(seen + w.payloads, w.tail)
  }

  lemma PrependOne(seen: seq<seq<byte>>, p: seq<byte>, w: Walk)
    ensures Prepend(seen, Prepend([p], w)) == Prepend(seen + [p], w)
  {
    if w.Walked? {
      assert seen + ([p] + w.payloads) == (seen + [p]) + w.payloads;
    }
  }

  // ---- Telling the two response formats apart ---------------------------------------------------

  predicate IsEventStream(body: seq<byte>) {
    |body| >= 16 && 16 <= Uint32(body) <= |body| && Uint32(body[4..]) <= Uint32(body) - 16
  }

  /** The prelude test takes exactly those bodies whose first frame passes the checks of the walk. */
  lemma EventStreamExactlyWhen(body: seq<byte>)
    ensures IsEventStream(body) <==> |body| >= 16 && ReadFrame(body).Ok?
  {
  }

  method ParseResponse(body: seq<byte>, decodeResponse: Decoder, decodeEvent: Decoder)
    returns (r: Result<Metrics, Error>)
    ensures !IsEventStream(body) ==>
      if decodeResponse(body).Some? then r.Ok? && Reports(r.value, decodeResponse(body).value) else r == Err(NotJson)
    ensures IsEventStream(body) ==>
      match WalkFrames(body)
      case Broken(e) => r == Err(e)
      case Walked(payloads, _) => r.Ok? && ReportsLast(payloads, decodeEvent, r.value)
  {
    if IsEventStream(body) {
      r := ParseEventStream(body, decodeEvent);
      return;
    }
    var resp := decodeResponse(body);
    if resp.None? {
      return Err(NotJson);
    }
    BuiltReports(resp.value);
    return Ok(BuildMetrics(resp.value));
  }

  /** The first byte of a JSON document: white space or an opening brace. */
  predicate StartsJson(b: byte) {
    b == 0x20 || b == 0x09 || b == 0x0A || b == 0x0D || b == 0x7B
  }

  const SMALLEST_AMBIGUOUS_BODY: nat := 0x0900_0000

  /** A body that starts like JSON and is shorter than 150,994,944 bytes is parsed as JSON. */
  lemma JsonBodiesAreNotEventStreams(body: seq<byte>)
    requires body != [] && StartsJson(body[0]) && |body| < SMALLEST_AMBIGUOUS_BODY
    ensures !IsEventStream(body)
  {
    if |body| >= 16 {
      Uint32Bounds(body);
    }
  }

  /** The bound is the exact one: at that length a body starting with a tab is taken for an event stream. */
  lemma TheBoundIsTight() returns (body: seq<byte>)
    ensures |body| == SMALLEST_AMBIGUOUS_BODY && StartsJson(body[0]) && IsEventStream(body)
  {
    body := seq(SMALLEST_AMBIGUOUS_BODY, i requires 0 <= i < SMALLEST_AMBIGUOUS_BODY => if i == 0 then 9 else 0);
  }

  /** Every non-empty run of encoded frames is recognised, whatever follows it. */
  lemma EncodedFramesAreEventStreams(fs: seq<Frame>, tail: seq<byte>)
    requires fs != [] && forall f <- fs :: Encodable(f)
    ensures IsEventStream(EncodeAll(fs) + tail)
  {
    assert EncodeAll(fs) + tail == Encode(fs[0]) + (EncodeAll(fs[1..]) + tail);
    EncodedFields(fs[0], EncodeAll(fs[1..]) + tail);
  }
}
