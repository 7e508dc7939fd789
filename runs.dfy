/** Whole responses driven through modifyResponse: the upstream body is
    piped into the intercepted sink chunk by chunk and then ended, and on
    the compressed path the zlib streams answer with the events given as
    parameters. Each method starts from a fresh sink and returns the calls
    the sink's original write/end received. */
module Runs {
  import opened Wrappers
  import opened Bytes
  import opened ResponseSink
  import Codecs
  import Transform
  import opened Interception

  /** How the decoder's output stream stops. */
  datatype DecoderOutcome = Finished | Failed(message: string)

  /** The upstream body piped into the intercepted write, chunk by chunk. */
  method Pipe(p: Pipeline, writes: seq<Bytes>)
    requires p.Valid() && !p.inputEnded
    modifies p
    ensures p.Valid() && p.phase == old(p.phase) && !p.inputEnded
    ensures p.recovered == old(p.recovered) && p.decoderEnded == old(p.decoderEnded)
    ensures p.newBody == old(p.newBody) && p.encoded == old(p.encoded)
    ensures p.codec.None? ==> p.chunks == old(p.chunks) + writes && p.decoderInput == old(p.decoderInput)
    ensures p.codec.Some? ==> p.decoderInput == old(p.decoderInput) + writes && p.chunks == old(p.chunks)
  {
    var i := 0;
    while i < |writes|
      invariant 0 <= i <= |writes|
      invariant p.Valid() && p.phase == old(p.phase) && !p.inputEnded
      invariant p.recovered == old(p.recovered) && p.decoderEnded == old(p.decoderEnded)
      invariant p.newBody == old(p.newBody) && p.encoded == old(p.encoded)
      invariant p.codec.None? ==> p.chunks == old(p.chunks) + writes[..i] && p.decoderInput == old(p.decoderInput)
      invariant p.codec.Some? ==> p.decoderInput == old(p.decoderInput) + writes[..i] && p.chunks == old(p.chunks)
    {
      p.Write(writes[i]);
      assert writes[..i + 1] == writes[..i] + [writes[i]];
      i := i + 1;
    }
    assert writes[..i] == writes;
  }

  /** The decoder emits its output, chunk by chunk. */
  method Decode(p: Pipeline, decoded: seq<Bytes>)
    requires p.Valid() && p.codec.Some? && p.phase == Collecting
    modifies p
    ensures p.Valid() && p.phase == Collecting
    ensures p.chunks == old(p.chunks) + decoded && p.decoderInput == old(p.decoderInput)
    ensures p.inputEnded == old(p.inputEnded) && p.decoderEnded == old(p.decoderEnded)
  {
    var i := 0;
    while i < |decoded|
      invariant 0 <= i <= |decoded|
      invariant p.Valid() && p.phase == Collecting
      invariant p.chunks == old(p.chunks) + decoded[..i] && p.decoderInput == old(p.decoderInput)
      invariant p.inputEnded == old(p.inputEnded) && p.decoderEnded == old(p.decoderEnded)
    {
      p.OnDecoderData(decoded[i]);
      assert decoded[..i + 1] == decoded[..i] + [decoded[i]];
      i := i + 1;
    }
    assert decoded[..i] == decoded;
  }

  /** The encoder emits the encoding of the new body, chunk by chunk, and
      ends. */
  method Encode(p: Pipeline, encoded: seq<Bytes>)
    requires p.Valid() && p.phase == Encoding && p.encoded == []
    requires Concat(encoded) == p.EncoderOutput(p.newBody.value)
    modifies p, p.sink
    ensures p.Valid() && p.phase == Done && p.encoded == encoded
    ensures p.sink.calls == old(p.sink.calls) + Writes(encoded) + [Ended]
    ensures p.decoderInput == old(p.decoderInput) && p.chunks == old(p.chunks)
    ensures p.newBody == old(p.newBody) && p.decoderEnded == old(p.decoderEnded)
  {
    var i := 0;
    while i < |encoded|
      invariant 0 <= i <= |encoded|
      invariant p.Valid() && p.phase == Encoding
      invariant p.sink.calls == old(p.sink.calls) + Writes(encoded[..i])
      invariant p.encoded == encoded[..i]
      invariant p.decoderInput == old(p.decoderInput) && p.chunks == old(p.chunks)
      invariant p.newBody == old(p.newBody) && p.decoderEnded == old(p.decoderEnded)
    {
      p.OnEncoderData(encoded[i]);
      assert Writes(encoded[..i + 1]) == Writes(encoded[..i]) + [Wrote(encoded[i])];
      i := i + 1;
    }
    assert encoded[..i] == encoded;
    p.OnEncoderEnd();
  }

  /** A response with no content-encoding: the transform sees the
      concatenation of all writes (empty for none), and the sink then gets
      one write of the new body followed by one end. Without a transform
      the body goes out unchanged; a falsy result goes out as the empty
      body. */
  method DeliverPlain(writes: seq<Bytes>, transform: Transform.Callback) returns (calls: seq<Call>)
    ensures Transform.FinalBody(transform, Concat(writes)).Some? ==>
      calls == [Wrote(Transform.FinalBody(transform, Concat(writes)).value), Ended]
    ensures Transform.FinalBody(transform, Concat(writes)).None? ==> calls == []
    ensures transform.None? ==> calls == [Wrote(Concat(writes)), Ended]
    ensures (transform.Some? && !transform.value(Concat(writes)).Rejected?
      && Transform.Falsy(transform.value(Concat(writes)).value)) ==> calls == [Wrote([]), Ended]
  {
    var res := new Sink();
    var p := ModifyResponse(res, Codecs.Bare(Codecs.Undefined), transform, (s: Codecs.ZlibStream) => (b: Bytes) => b);
    assert res.calls == [];
    Pipe(p, writes);
    assert p.chunks == writes;
    p.End();
    calls := res.calls;
    Transform.FinalBodyCases(transform, Concat(writes));
  }

  /** A response whose encoding is `codec`, with zlib streams behaving as
      `zlib`: every write reaches the decoder in order and nothing reaches
      the sink before the decoder stops. If it finishes, or fails on a
      truncated stream, the decoded part goes through the transform and the
      encoder's chunks go out in order followed by one end; on any other
      failure the sink only gets one end. When the decoder finishes, what
      the sink receives is the encoding of the transformed decoding of the
      upstream body. */
  method DeliverCompressed(
    codec: Codecs.Codec, zlib: Codecs.Zlib, writes: seq<Bytes>, decoded: seq<Bytes>,
    outcome: DecoderOutcome, encoded: seq<Bytes>, transform: Transform.Callback)
    returns (toDecoder: seq<Bytes>, calls: seq<Call>)
    requires outcome.Finished? ==> Concat(decoded) == zlib(codec.Decoder())(Concat(writes))
    requires ((outcome.Finished? || outcome.message == UnexpectedEof)
      && Transform.FinalBody(transform, Concat(decoded)).Some?) ==>
      Concat(encoded) == zlib(codec.Encoder())(Transform.FinalBody(transform, Concat(decoded)).value)
    ensures toDecoder == writes
    ensures outcome.Failed? && outcome.message != UnexpectedEof ==> calls == [Ended]
    ensures (outcome.Finished? || outcome.message == UnexpectedEof) ==>
      calls == if Transform.FinalBody(transform, Concat(decoded)).Some? then Writes(encoded) + [Ended] else []
    ensures outcome.Finished? && Transform.FinalBody(transform, zlib(codec.Decoder())(Concat(writes))).Some? ==>
      Ends(calls) == 1 && Concat(Sent(calls)) ==
        zlib(codec.Encoder())(Transform.FinalBody(transform, zlib(codec.Decoder())(Concat(writes))).value)
  {
    var res := new Sink();
    var p := ModifyResponse(res, Codecs.Bare(Codecs.Str(codec.Token())), transform, zlib);
    assert p != null && p.codec == Some(codec);
    Pipe(p, writes);
    p.End();
    Decode(p, decoded);
    assert p.chunks == decoded && p.decoderInput == writes;
    assert res.calls == [];
    match outcome {
      case Finished => p.OnDecoderEnd();
      case Failed(message) => p.OnDecoderError(message);
    }
    if p.phase == Encoding {
      Encode(p, encoded);
      if outcome.Finished? {
        p.DeliveredEncoding();
      }
    }
    toDecoder := p.decoderInput;
    calls := res.calls;
  }

  /** A response whose decoder fails while the upstream body is still
      arriving: the writes after the failure still go into the (failed or
      closed) decoder and reach nothing else, and the end of the upstream
      body adds nothing to the sink. A truncated stream is delivered as at
      a normal end; any other failure leaves the sink with one end and no
      body. */
  method DeliverInterrupted(
    codec: Codecs.Codec, zlib: Codecs.Zlib, early: seq<Bytes>, decoded: seq<Bytes>, message: string,
    late: seq<Bytes>, encoded: seq<Bytes>, transform: Transform.Callback)
    returns (toDecoder: seq<Bytes>, calls: seq<Call>)
    requires message == UnexpectedEof && Transform.FinalBody(transform, Concat(decoded)).Some? ==>
      Concat(encoded) == zlib(codec.Encoder())(Transform.FinalBody(transform, Concat(decoded)).value)
    ensures toDecoder == early + late
    ensures message != UnexpectedEof ==> calls == [Ended]
    ensures message == UnexpectedEof ==>
      calls == if Transform.FinalBody(transform, Concat(decoded)).Some? then Writes(encoded) + [Ended] else []
  {
    var res := new Sink();
    var p := ModifyResponse(res, Codecs.Bare(Codecs.Str(codec.Token())), transform, zlib);
    assert p != null && p.codec == Some(codec);
    Pipe(p, early);
    Decode(p, decoded);
    assert p.chunks == decoded && p.decoderInput == early;
    assert res.calls == [];
    p.OnDecoderError(message);
    Pipe(p, late);
    p.End();
    if p.phase == Encoding {
      Encode(p, encoded);
    }
    toDecoder := p.decoderInput;
    calls := res.calls;
  }
}
