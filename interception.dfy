/** modifyResponse and the per-response pipeline it installs on the sink
    (index.js lines 13-146). Events of the zlib streams, which the source
    receives through `on('data' | 'end' | 'error')`, arrive here as calls
    of the On... methods, in the order the streams emit them. */
module Interception {
  import opened Wrappers
  import opened Bytes
  import opened ResponseSink
  import Codecs
  import Transform

  /** Where a pipeline stands. `Collecting`: the intercepted write/end and
      the decoder's output are being taken in. `Encoding`: the new body is
      in the encoder and its output is being forwarded. `Done`: the
      original end was called after the new body. `Aborted`: a fatal decode
      error ended the response with no body. `Stalled`: the transform's
      promise was rejected, so `finish` never runs. */
  datatype Phase = Collecting | Encoding | Done | Aborted | Stalled

  /** What each slot of the sink holds once the pipeline is installed. */
  function Route(codec: Option<Codecs.Codec>): Handler
  {
    if codec.Some? then IntoDecoder else IntoBuffer
  }

  /** The calls a pipeline has made through the saved original write/end
      by the time it reaches `phase`: on the plain path one write of the
      new body; on the compressed path one write per encoder chunk; and in
      both, once finished, one end. */
  function Emitted(phase: Phase, compressed: bool, body: Bytes, encoded: seq<Bytes>): seq<Call>
  {
    match phase
    case Collecting => []
    case Stalled => []
    case Aborted => [Ended]
    case Encoding => Writes(encoded)
    case Done => if compressed then Writes(encoded) + [Ended] else [Wrote(body), Ended]
  }

  /** The chunks a pipeline has sent by the time it reaches `phase`. */
  function Forwarded(phase: Phase, compressed: bool, body: Bytes, encoded: seq<Bytes>): seq<Bytes>
  {
    if phase.Encoding? || (phase.Done? && compressed) then encoded
    else if phase.Done? then [body]
    else []
  }

  /** End is called once on the paths that finish (normally or by
      abort) and never otherwise; nothing follows it; and the chunks sent
      are the new body, or the encoder's chunks in order. */
  lemma EmittedShape(phase: Phase, compressed: bool, body: Bytes, encoded: seq<Bytes>)
    ensures Ends(Emitted(phase, compressed, body, encoded)) == if phase.Done? || phase.Aborted? then 1 else 0
    ensures forall i :: 0 <= i < |Emitted(phase, compressed, body, encoded)| - 1 ==>
      Emitted(phase, compressed, body, encoded)[i].Wrote?
    ensures Sent(Emitted(phase, compressed, body, encoded)) == Forwarded(phase, compressed, body, encoded)
  {
    var e := Emitted(phase, compressed, body, encoded);
    WritesSendChunks(encoded);
    if phase.Done? {
      if compressed {
        EndsSplit(Writes(encoded), [Ended]);
        SentSplit(Writes(encoded), [Ended]);
      } else {
        assert e[1..] == [Ended] && e[1..][1..] == [];
        assert Ends(e[1..]) == 1 && Sent(e[1..]) == [];
        assert Ends(e) == Ends(e[1..]) && Sent(e) == [body] + Sent(e[1..]);
      }
    } else if phase.Aborted? {
      assert e[1..] == [];
      assert Ends(e) == 1 + Ends(e[1..]);
    }
  }

  /** The state one call of modifyResponse creates for one response. */
  class Pipeline {
    const sink: Sink
    const codec: Option<Codecs.Codec>
    const transform: Transform.Callback
    /** What the zlib streams do to what is written through them. */
    const zlib: Codecs.Zlib
    /** The sink's call log when the pipeline was installed. */
    ghost const before: seq<Call>

    var phase: Phase
    /** The intercepted end has been called. */
    var inputEnded: bool
    /** The body buffer: raw writes on the plain path, decoder output on
        the compressed path. */
    var chunks: seq<Bytes>
    /** The chunks written into the decoder. */
    var decoderInput: seq<Bytes>
    /** The decoder was flushed, closed and made to emit its end after a
        truncation error. */
    var recovered: bool
    /** The decoder emitted its end after all of its input. */
    var decoderEnded: bool
    /** What `finish` converted to bytes, once it has run. */
    var newBody: Option<Bytes>
    /** The encoder's output chunks forwarded so far. */
    var encoded: seq<Bytes>

    /** The collected body. */
    function Body(): Bytes
      reads this
    {
      Concat(chunks)
    }

    /** The decoder's whole output for an input. */
    function DecoderOutput(input: Bytes): Bytes
      requires codec.Some?
    {
      zlib(codec.value.Decoder())(input)
    }

    /** The encoder's whole output for an input. */
    function EncoderOutput(input: Bytes): Bytes
      requires codec.Some?
    {
      zlib(codec.value.Encoder())(input)
    }

    ghost predicate Valid()
      reads this, sink
    {
      && sink.write == Route(codec) && sink.end == Route(codec)
      && (codec.None? ==>
            decoderInput == [] && !recovered && !decoderEnded && encoded == []
            && (phase.Collecting? || phase.Done? || phase.Stalled?)
            && (!phase.Collecting? ==> inputEnded))
      && (phase.Collecting? ==> newBody.None? && encoded == [] && !recovered && !decoderEnded)
      && (phase.Encoding? ==> codec.Some?)
      && (phase.Encoding? || phase.Done? ==> newBody.Some? && newBody == Transform.FinalBody(transform, Body()))
      && (phase.Stalled? ==> newBody.None? && Transform.FinalBody(transform, Body()).None? && encoded == [])
      && (phase.Aborted? ==> codec.Some? && newBody.None? && encoded == [] && !recovered && !decoderEnded)
      && (decoderEnded ==> codec.Some? && inputEnded && Body() == DecoderOutput(Concat(decoderInput)))
      && (phase.Done? && codec.Some? ==> Concat(encoded) == EncoderOutput(newBody.value))
      && sink.calls == before + Emitted(phase, codec.Some?, if newBody.Some? then newBody.value else [], encoded)
    }

    /** What the sink has received from this pipeline: one original end
        exactly when the pipeline finished or aborted, and as chunks either
        the one new body (plain path) or the encoder's chunks in order. */
    lemma SinkSoFar()
      requires Valid()
      ensures Ends(sink.calls) == Ends(before) + (if phase.Done? || phase.Aborted? then 1 else 0)
      ensures Sent(sink.calls) ==
        Sent(before) + Forwarded(phase, codec.Some?, if newBody.Some? then newBody.value else [], encoded)
    {
      var e := Emitted(phase, codec.Some?, if newBody.Some? then newBody.value else [], encoded);
      EmittedShape(phase, codec.Some?, if newBody.Some? then newBody.value else [], encoded);
      EndsSplit(before, e);
      SentSplit(before, e);
    }

    /** Once a compressed response is done after a normal decoder end,
        the sink has received one more end and, as body, exactly the
        encoding of the transformed decoding of everything written into
        the intercepted sink. */
    lemma DeliveredEncoding()
      requires Valid() && phase.Done? && codec.Some? && decoderEnded
      ensures Transform.FinalBody(transform, DecoderOutput(Concat(decoderInput))).Some?
      ensures Ends(sink.calls) == Ends(before) + 1
      ensures Concat(Sent(sink.calls)) == Concat(Sent(before)) +
        EncoderOutput(Transform.FinalBody(transform, DecoderOutput(Concat(decoderInput))).value)
    {
      SinkSoFar();
      ConcatSplit(Sent(before), encoded);
    }

    /** Saves the sink's original write/end and puts the pipeline's own in
        their slots: into the decoder when there is a codec, into the
        buffer when there is none. */
    constructor Install(sink: Sink, codec: Option<Codecs.Codec>, transform: Transform.Callback, zlib: Codecs.Zlib)
      modifies sink
      ensures this.sink == sink && this.codec == codec && this.transform == transform && this.zlib == zlib
      ensures Valid()
      ensures phase == Collecting && !inputEnded && chunks == [] && decoderInput == []
      ensures sink.write == Route(codec) && sink.end == Route(codec)
      ensures sink.calls == old(sink.calls)
    {
      this.sink := sink;
      this.codec := codec;
      this.transform := transform;
      this.zlib := zlib;
      before := sink.calls;
      phase := Collecting;
      inputEnded := false;
      chunks := [];
      decoderInput := [];
      recovered := false;
      decoderEnded := false;
      newBody := None;
      encoded := [];
      new;
      sink.write := Route(codec);
      sink.end := Route(codec);
    }

    /** The intercepting write: into the decoder on the
        compressed path, onto the end of the buffer on the plain path.
        Nothing reaches the sink, also once the decoder has failed or been
        closed. */
    method Write(data: Bytes)
      requires Valid() && !inputEnded
      modifies this
      ensures Valid() && phase == old(phase) && !inputEnded
      ensures codec.None? ==> phase == Collecting
      ensures codec.None? ==> chunks == old(chunks) + [data] && Body() == old(Body()) + data
      ensures codec.None? ==> decoderInput == old(decoderInput)
      ensures codec.Some? ==> decoderInput == old(decoderInput) + [data] && chunks == old(chunks)
      ensures recovered == old(recovered) && decoderEnded == old(decoderEnded)
      ensures newBody == old(newBody) && encoded == old(encoded)
    {
      if codec.Some? {
        decoderInput := decoderInput + [data];
      } else {
        ConcatAppend(chunks, data);
        chunks := chunks + [data];
      }
    }

    /** The intercepting end. Compressed: only the decoder is told
        its input is over. Plain: the buffered body goes through the
        transform, then one original write of the new body and one
        original end. */
    method End()
      requires Valid() && !inputEnded
      modifies this, sink
      ensures Valid() && inputEnded
      ensures chunks == old(chunks) && decoderInput == old(decoderInput)
      ensures recovered == old(recovered) && decoderEnded == old(decoderEnded) && encoded == old(encoded)
      ensures codec.Some? ==> phase == old(phase) && newBody == old(newBody) && sink.calls == old(sink.calls)
      ensures codec.None? ==> newBody == Transform.FinalBody(transform, Body())
      ensures codec.None? && newBody.Some? ==>
        phase == Done && sink.calls == old(sink.calls) + [Wrote(newBody.value), Ended]
      ensures codec.None? && newBody.None? ==> phase == Stalled && sink.calls == old(sink.calls)
    {
      inputEnded := true;
      if codec.None? {
        var settled := Transform.FinalBody(transform, Concat(chunks));
        newBody := settled;
        if settled.Some? {
          sink.OriginalWrite(settled.value);
          sink.OriginalEnd();
          phase := Done;
        } else {
          phase := Stalled;
        }
      }
    }

    /** The concat-stream callback on the compressed path: the decoded
        body goes through the transform and `finish` writes the result
        into the encoder and ends it. */
    method Finish()
      requires Valid() && codec.Some? && phase == Collecting
      modifies this
      ensures Valid()
      ensures newBody == Transform.FinalBody(transform, Body())
      ensures phase == if newBody.Some? then Encoding else Stalled
      ensures chunks == old(chunks) && decoderInput == old(decoderInput) && inputEnded == old(inputEnded)
      ensures recovered == old(recovered) && decoderEnded == old(decoderEnded) && encoded == old(encoded)
    {
      newBody := Transform.FinalBody(transform, Concat(chunks));
      phase := if newBody.Some? then Encoding else Stalled;
    }

    /** A decoded chunk arrives: it is appended to the body. */
    method OnDecoderData(chunk: Bytes)
      requires Valid() && codec.Some? && phase == Collecting
      modifies this
      ensures Valid() && phase == Collecting
      ensures chunks == old(chunks) + [chunk] && Body() == old(Body()) + chunk
      ensures decoderInput == old(decoderInput) && inputEnded == old(inputEnded)
      ensures recovered == old(recovered) && newBody == old(newBody) && encoded == old(encoded)
      ensures decoderEnded == old(decoderEnded)
    {
      ConcatAppend(chunks, chunk);
      chunks := chunks + [chunk];
    }

    /** The decoder ends after all of its input: the collected body is the
        decoding of everything written into it. */
    method OnDecoderEnd()
      requires Valid() && codec.Some? && phase == Collecting
      requires inputEnded && Body() == DecoderOutput(Concat(decoderInput))
      modifies this
      ensures Valid() && decoderEnded
      ensures newBody == Transform.FinalBody(transform, Body())
      ensures phase == if newBody.Some? then Encoding else Stalled
      ensures chunks == old(chunks) && decoderInput == old(decoderInput) && inputEnded == old(inputEnded)
      ensures recovered == old(recovered) && encoded == old(encoded)
    {
      Finish();
      decoderEnded := true;
    }

    /** The decoder fails. On a truncated stream it is flushed, closed and
        made to emit its end, so the part decoded so far goes on through
        the transform; on any other error the original end is called with
        no body written. */
    method OnDecoderError(message: string)
      requires Valid() && codec.Some? && phase == Collecting
      modifies this, sink
      ensures Valid()
      ensures chunks == old(chunks) && decoderInput == old(decoderInput) && inputEnded == old(inputEnded)
      ensures encoded == old(encoded) && !decoderEnded
      ensures message == UnexpectedEof ==>
        recovered && newBody == Transform.FinalBody(transform, Body())
        && phase == (if newBody.Some? then Encoding else Stalled)
        && sink.calls == old(sink.calls)
      ensures message != UnexpectedEof ==>
        !recovered && newBody.None? && phase == Aborted && sink.calls == old(sink.calls) + [Ended]
    {
      if message == UnexpectedEof {
        Finish();
        recovered := true;
      } else {
        sink.OriginalEnd();
        phase := Aborted;
      }
    }

    /** The encoder emits a chunk: it goes out through the original write. */
    method OnEncoderData(chunk: Bytes)
      requires Valid() && phase == Encoding
      modifies this, sink
      ensures Valid() && phase == Encoding
      ensures encoded == old(encoded) + [chunk]
      ensures sink.calls == old(sink.calls) + [Wrote(chunk)]
      ensures chunks == old(chunks) && decoderInput == old(decoderInput) && inputEnded == old(inputEnded)
      ensures recovered == old(recovered) && decoderEnded == old(decoderEnded) && newBody == old(newBody)
    {
      sink.OriginalWrite(chunk);
      encoded := encoded + [chunk];
    }

    /** The encoder ends after emitting the encoding of the new body: the
        original end is called. */
    method OnEncoderEnd()
      requires Valid() && phase == Encoding
      requires Concat(encoded) == EncoderOutput(newBody.value)
      modifies this, sink
      ensures Valid() && phase == Done
      ensures sink.calls == old(sink.calls) + [Ended]
      ensures chunks == old(chunks) && decoderInput == old(decoderInput) && inputEnded == old(inputEnded)
      ensures recovered == old(recovered) && decoderEnded == old(decoderEnded)
      ensures newBody == old(newBody) && encoded == old(encoded)
    {
      sink.OriginalEnd();
      phase := Done;
    }
  }

  /** The decoder error message that marks a stream cut short. */
  const UnexpectedEof: string := "unexpected end of file"

  /** modifyResponse: reads the encoding (dropping `content-length` from a
      header map), chooses the codec and installs a pipeline; for an
      unsupported encoding it installs nothing and leaves the sink as it
      was. */
  method ModifyResponse(res: Sink, source: Codecs.EncodingSource, transform: Transform.Callback, zlib: Codecs.Zlib)
    returns (p: Pipeline?)
    modifies res, source.Objects()
    ensures source.Message? ==> source.msg.headers == Codecs.WithoutContentLength(old(source.msg.headers))
    ensures var plan := Codecs.Classify(old(Codecs.EncodingOf(source)));
      && (p == null <==> plan.Unsupported?)
      && (p == null ==> res.calls == old(res.calls) && res.write == old(res.write) && res.end == old(res.end))
      && (p != null ==>
            fresh(p) && p.Valid() && p.sink == res && p.transform == transform && p.zlib == zlib
            && p.phase == Collecting && !p.inputEnded && p.chunks == [] && p.decoderInput == []
            && res.calls == old(res.calls)
            && p.codec == (if plan.Compressed? then Some(plan.codec) else None))
  {
    var encoding := Codecs.ReadEncoding(source);
    var plan := Codecs.Classify(encoding);
    if plan.Compressed? {
      p := new Pipeline.Install(res, Some(plan.codec), transform, zlib);
    } else if plan.Uncompressed? {
      p := new Pipeline.Install(res, None, transform, zlib);
    } else {
      p := null;
    }
  }
}
