# modifyResponse: an encoding-aware response-body interceptor, in Dafny

This project models `modifyResponse` from `index.js` (node-http-proxy-text). This is the function an
HTTP proxy calls on a response it is about to forward. It:

- reads the response's `content-encoding`, either from the upstream response's header map or from
  a bare value, and deletes `content-length` from that header map;
- picks the matching zlib decoder/encoder pair: `gzip` gives Gunzip/Gzip, `deflate` gives
  Inflate/Deflate, `br` gives BrotliDecompress/BrotliCompress;
- replaces the sink's `write` and `end` so that the outgoing body is collected instead of sent.
  With a codec it is collected through the decoder; without one it goes straight into a buffer;
- runs the caller's transform on the complete body. The result may be a value or a promise, and a
  falsy result becomes `''`;
- sends the new body through the saved original `write`/`end`. With a codec it goes through the
  encoder first;
- recovers from a decoder error. On "unexpected end of file" the decoder is forced to finish, so
  the part decoded so far goes on. On any other error the response is ended with no body.

Modules:

- `Bytes` (`bytes.dfy`): byte chunks and their in-order concatenation. This is what both
  collectors do: concat-stream on the decoder output, BufferHelper on raw writes.
- `Codecs` (`codecs.dfy`): the JavaScript value the encoding switch sees, codec selection, the
  three-way dispatch (compressed / plain / unsupported), and the header edit (`ReadEncoding`
  mutates an `IncomingMessage` object).
- `Transform` (`transform.dfy`): the transform's result is a tagged value,
  `Immediate(v) | Pending(v) | Rejected`. A `Pending` promise has already resolved to `v`.
  `Rejected` stands for a promise that is rejected or never settles, which leaves `finish`
  uncalled. This module also holds the falsy-to-empty normalisation.
- `ResponseSink` (`sink.dfy`): the response object. It records every call of the saved original
  write/end, in order, and which function sits in its `write`/`end` slots.
- `Interception` (`interception.dfy`): the `Pipeline` class (one per response, with its own buffer
  and phase) and `ModifyResponse`. The zlib streams' `data`/`end`/`error` events arrive as calls of
  the `On...` methods. The class invariant `Valid()` ties the sink's log to the pipeline's phase:
  nothing is sent while collecting; on the plain path one write and then one end; on the
  compressed path the encoder's chunks in order and then one end; on an abort one end and no body.
- `Runs` (`runs.dfy`): whole responses driven from a fresh sink, stating what the sink's original
  write/end receive end to end.

An `identity` encoding is not treated like an absent one. The `switch` at index.js:26-39 has no
`identity` case, and the string `'identity'` is truthy, so the test at index.js:58 fails and it
falls into the unsupported branch at index.js:60-62: no interception is installed
(`Codecs.Classify`).

The zlib streams are foreign code. Their behaviour is a parameter `zlib` of type `Codecs.Zlib`,
giving for each of the six stream kinds the whole output for a whole input. A decoder that ends
normally has emitted `zlib(decoder)` of everything written into it, and the encoder emits
`zlib(encoder)` of the new body; with that, `Runs.DeliverCompressed` states what the sink
receives in terms of the upstream body itself.

Text is modelled by its UTF-8 bytes, so `data.toString()` and `Buffer.from(text)` are both the
identity. The intercepting `end` takes no argument, as in the source, so a chunk passed to `end`
would be dropped.

## Model

| member | source | states |
|---|---|---|
| `Bytes.ConcatAppend` | index.js:116 | appending one chunk to the buffer appends exactly its bytes to the body |
| `Bytes.ConcatSplit` | index.js:75-77 | the concatenated body of two runs of chunks is the concatenation of each run's body, so chunk order is preserved |
| `Bytes.ConcatPlacement` | index.js:116-120 | chunk i appears intact in the body, right after the bytes of the chunks before it |
| `Codecs.Codec.Token` | index.js:27-35 | every codec token is a non-empty string, so a selected codec is never taken for the plain path |
| `Codecs.Codec.Decoder` | index.js:28-36 | the decoder chosen for a codec is a decompressing stream of that codec's format |
| `Codecs.Codec.Encoder` | index.js:29-37 | the encoder chosen for a codec is a compressing stream of the same format as its decoder |
| `Codecs.Select` | index.js:26-39 | a codec is selected exactly when the value is the string token of that codec (`gzip`, `deflate`, `br`); any other value selects none |
| `Codecs.Classify` | index.js:45-62 | compressed iff a codec was selected; plain iff the encoding is falsy (`undefined`, `null`, `''`, `false`, `0`, `NaN`); unsupported iff it is truthy and no codec was selected |
| `Codecs.WithoutContentLength` | index.js:19-21 | `content-length` is absent afterwards and every other header entry is kept with its value |
| `Codecs.HeaderEncoding` | index.js:16 | the encoding is the `content-encoding` entry when present, `undefined` otherwise |
| `Codecs.ReadEncoding` | index.js:14-22 | returns the encoding read before the edit and leaves the headers of a message source equal to `WithoutContentLength` of the old ones |
| `Transform.FinalBodyCases` | index.js:80-88 | with no transform the body passes through unchanged; with one, its settled result replaces the body, and a falsy result gives the empty body |
| `Transform.ImmediatePendingAgree` | index.js:140-144 | a transform returning a value and one returning a promise of the same value produce the same bytes |
| `ResponseSink.WritesSendChunks` | index.js:93 | forwarding chunks one write each calls end no time and sends exactly those chunks in order |
| `ResponseSink.Sink.OriginalWrite` | index.js:136 | a call of the saved write appends one chunk to the sink's log and leaves its slots alone |
| `ResponseSink.Sink.OriginalEnd` | index.js:137 | a call of the saved end appends one end to the sink's log and leaves its slots alone |
| `Interception.EmittedShape` | index.js:93-97 | the pipeline's calls on the sink contain end exactly once when it finished or aborted and never otherwise, nothing follows that end, and the chunks sent are the new body (plain) or the encoder chunks in order (compressed) |
| `Interception.Pipeline.SinkSoFar` | index.js:133-137 | for a valid pipeline, the sink has seen exactly one more end than before installation once the pipeline is done or aborted, none before, and exactly the forwarded chunks |
| `Interception.Pipeline.DeliveredEncoding` | index.js:70-107 | a compressed response done after a normal decoder end has sent one end and, as body, the encoding of the transformed decoding of everything written into the intercepted sink |
| `Interception.Pipeline.Install` | index.js:68-72 | the sink's write/end slots now route into the decoder (with a codec) or the buffer (without); no call reaches the sink; the pipeline keeps the codec, the transform and the zlib behaviour it was given |
| `Interception.Pipeline.Write` | index.js:70-116 | an intercepted write appends to the buffer on the plain path, so the body grows by exactly the chunk; on the compressed path (index.js:70) it appends to the decoder's input in any phase, also after the decoder failed or was closed, and the phase is untouched; the sink is untouched on both paths |
| `Interception.Pipeline.End` | index.js:118-145 | plain path: the body goes through the transform, then one original write of the new body and one original end (nothing if the promise is rejected); compressed: only the decoder is ended, in any phase, and the phase and the sink are untouched |
| `Interception.Pipeline.Finish` | index.js:75-98 | the decoded body goes through the transform and the new body is what enters the encoder; a rejected promise stalls the pipeline |
| `Interception.Pipeline.OnDecoderData` | index.js:107 | decoded chunks are appended to the body in arrival order |
| `Interception.Pipeline.OnDecoderEnd` | index.js:75-107 | when the decoder ends after all of its input, having emitted the decoding of that input, the complete decoded body is transformed and handed to the encoder |
| `Interception.Pipeline.OnDecoderError` | index.js:46-56 | "unexpected end of file" recovers: the decoder is closed and the body decoded so far continues as at a normal end; any other error calls the original end once with no body written |
| `Interception.Pipeline.OnEncoderData` | index.js:93 | each encoder chunk goes out through the original write, in order |
| `Interception.Pipeline.OnEncoderEnd` | index.js:94-97 | once the encoder has emitted the encoding of the new body, its end calls the original end once and the pipeline is done |
| `Interception.ModifyResponse` | index.js:13-63 | `content-length` is dropped from a header source; an unsupported encoding installs nothing and leaves the sink's slots and log as they were; otherwise a fresh pipeline is installed with the selected codec (none for a falsy encoding) and the given zlib behaviour, and the sink has not been called |
| `Runs.DeliverPlain` | index.js:113-146 | with no encoding, the sink receives exactly one write of the transformed concatenation of all writes and then one end, or nothing if the promise is rejected; with no transform the concatenation goes out unchanged, and a falsy result goes out as the empty body |
| `Runs.DeliverCompressed` | index.js:45-108 | with a codec, the writes reach the decoder in order; at a normal or truncated decoder end the sink receives the encoder's chunks in order and then one end; after any other decoder error it receives one end and no body; at a normal end the body sent is the encoding of the transformed decoding of the upstream body |
| `Runs.DeliverInterrupted` | index.js:46-72 | when the decoder fails while the upstream body is still arriving, the later writes still go into the decoder and the upstream end adds nothing to the sink; a truncated stream is delivered as at a normal end, and any other error leaves the sink with one end and no body |

## Left out

- zlib internals (gzip, RFC 1952; deflate, RFC 1950/1951; brotli, RFC 7932). The streams'
  behaviour is the uninterpreted parameter `zlib`, so no round trip through a codec is claimed,
  and how the streams cut their output into chunks is left to the event parameters.
- Encoder errors: the encoder has no `error` listener (index.js:93-94), so an encoder failure is
  unhandled in the source; the model's encoder always ends.
- The asynchronous flush of the decoder on truncation recovery. Output that `flush()` would
  produce after the forced end is not modelled; the recovered body is what was decoded before
  the error.
- UTF-8 conversion: invalid UTF-8 replaced by U+FFFD in `toString()` is not modelled.
- Transforms that throw, and truthy non-text results (objects, numbers) handed to `Buffer.from`.
- The `console.log` diagnostics have no effect on the sink.
- Event-loop scheduling: a promise is modelled as already settled, and events as ordered calls.
- Write or end calls on the intercepted sink after its end, and decoder events after the
  decoder's end or failure, are excluded by preconditions (the writable-stream contract of the
  caller). The source does not guard against them: on the plain path a second `end` would run
  `finish` again. Writes and the end after a decoder failure are modelled: they only reach the
  failed or closed decoder.
- Several pipelines installed on the same sink: `Valid()` assumes one pipeline owns the sink's
  saved write/end.
- Transport aborted mid-pipeline: the source has no behaviour for it.
- test/brotli.js: an integration test over real servers and brotli; its JSON scenario needs JSON
  parsing and a codec, so it is not part of this model.
- Runs.DeliverCompressed: drives one fixed order of events (all writes, the intercepted end, all
  decoder output, then the decoder's end or error, then the encoder's output). The order in which
  writes and decoder output interleave does not change the result, because each only appends to
  its own sequence. Runs.DeliverInterrupted drives the order in which the decoder fails before the
  upstream body is over.
