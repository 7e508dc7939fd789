/** Reading the content-encoding of a response and choosing the zlib
    decoder/encoder pair for it (index.js lines 14-39 and the dispatch at
    lines 45-62). */
module Codecs {
  import opened Wrappers
  import opened Bytes

  /** The JavaScript value the pipeline switches on: the header value, or
      the bare second argument of modifyResponse. `OtherFalsy` stands for
      the falsy values that are not strings (`false`, `0`, `NaN`);
      `OtherTruthy` for any truthy value that is not a string (an object
      without `headers`, a non-zero number). */
  datatype JsValue = Undefined | Null | Str(s: string) | OtherFalsy | OtherTruthy

  /** JavaScript truthiness: `undefined`, `null`, `''`, `false`, `0` and
      `NaN` are falsy. */
  predicate Truthy(v: JsValue)
  {
    match v
    case Undefined => false
    case Null => false
    case Str(s) => s != ""
    case OtherFalsy => false
    case OtherTruthy => true
  }

  /** The closed set of encodings the pipeline can undo and redo. */
  datatype Codec = Gzip | Deflate | Brotli
  {
    /** The content-encoding token naming this codec. */
    function Token(): (t: string)
      ensures t != ""
    {
      match this
      case Gzip => "gzip"
      case Deflate => "deflate"
      case Brotli => "br"
    }

    /** The zlib stream that undoes this codec. */
    function Decoder(): (s: ZlibStream)
      ensures s.Decompresses() && s.Format() == this
    {
      match this
      case Gzip => Gunzip
      case Deflate => Inflate
      case Brotli => BrotliDecompress
    }

    /** The zlib stream that re-applies this codec. */
    function Encoder(): (s: ZlibStream)
      ensures !s.Decompresses() && s.Format() == this
    {
      match this
      case Gzip => GzipStream
      case Deflate => DeflateStream
      case Brotli => BrotliCompress
    }
  }

  /** The six zlib stream constructors the pipeline uses. */
  datatype ZlibStream =
    | Gunzip | GzipStream
    | Inflate | DeflateStream
    | BrotliDecompress | BrotliCompress
  {
    predicate Decompresses()
    {
      Gunzip? || Inflate? || BrotliDecompress?
    }

    function Format(): Codec
    {
      match this
      case Gunzip => Gzip
      case GzipStream => Gzip
      case Inflate => Deflate
      case DeflateStream => Deflate
      case BrotliDecompress => Brotli
      case BrotliCompress => Brotli
    }
  }

  /** The `switch` on the encoding: a codec exactly when the value is the
      string token of that codec (strict equality, so case matters). */
  function Select(v: JsValue): (r: Option<Codec>)
    ensures r.Some? ==> v == Str(r.value.Token())
    ensures forall c: Codec :: v == Str(c.Token()) ==> r == Some(c)
  {
    match v
    case Str(s) =>
      if s == "gzip" then Some(Gzip)
      else if s == "deflate" then Some(Deflate)
      else if s == "br" then Some(Brotli)
      else None
    case _ => None
  }

  /** What each zlib stream does to the whole byte stream written through
      it. The formats themselves are foreign, so this is left as a
      parameter of the model: any behaviour can be plugged in. */
  type Zlib = ZlibStream -> (Bytes -> Bytes)

  /** What modifyResponse installs for an encoding. */
  datatype Plan = Compressed(codec: Codec) | Uncompressed | Unsupported

  /** The three-way dispatch: a codec when one was selected, the plain
      path for a falsy encoding, and nothing at all otherwise. */
  function Classify(v: JsValue): (p: Plan)
    ensures p.Compressed? <==> Select(v).Some?
    ensures p.Compressed? ==> p.codec == Select(v).value && v == Str(p.codec.Token())
    ensures p.Uncompressed? <==> !Truthy(v)
    ensures p.Unsupported? <==> Truthy(v) && Select(v).None?
  {
    match Select(v)
    case Some(c) => Compressed(c)
    case None => if !Truthy(v) then Uncompressed else Unsupported
  }

  /** Response headers after the `content-length` entry is deleted: that
      one key is gone and every other entry is kept as it was. */
  function WithoutContentLength(headers: map<string, string>): (r: map<string, string>)
    ensures "content-length" !in r
    ensures forall k :: k in r <==> k in headers && k != "content-length"
    ensures forall k :: k in r ==> r[k] == headers[k]
  {
    headers - {"content-length"}
  }

  /** `headers['content-encoding']`: the entry, or `undefined` when absent. */
  function HeaderEncoding(headers: map<string, string>): (v: JsValue)
    ensures "content-encoding" in headers ==> v == Str(headers["content-encoding"])
    ensures "content-encoding" !in headers ==> v == Undefined
  {
    if "content-encoding" in headers then Str(headers["content-encoding"]) else Undefined
  }

  /** The upstream response, whose header map modifyResponse edits. */
  class IncomingMessage {
    var headers: map<string, string>

    constructor (headers: map<string, string>)
      ensures this.headers == headers
    {
      this.headers := headers;
    }
  }

  /** The second argument of modifyResponse: a response that carries
      headers, or a bare value used as the encoding itself. */
  datatype EncodingSource = Message(msg: IncomingMessage) | Bare(value: JsValue)
  {
    /** The objects reading the encoding may change. */
    function Objects(): set<object>
    {
      if Message? then {msg} else {}
    }
  }

  /** The encoding the pipeline will switch on, before any header edit. */
  function EncodingOf(source: EncodingSource): (v: JsValue)
    reads source.Objects()
    ensures source.Bare? ==> v == source.value
    ensures source.Message? ==> v == HeaderEncoding(source.msg.headers)
  {
    match source
    case Message(msg) => HeaderEncoding(msg.headers)
    case Bare(value) => value
  }

  /** Reads the encoding and drops `content-length` from the headers of a
      message source; a bare source is returned as it is. */
  method ReadEncoding(source: EncodingSource) returns (v: JsValue)
    modifies source.Objects()
    ensures v == old(EncodingOf(source))
    ensures source.Message? ==> source.msg.headers == WithoutContentLength(old(source.msg.headers))
  {
    match source
    case Bare(value) =>
      v := value;
    case Message(msg) =>
      v := HeaderEncoding(msg.headers);
      if "content-length" in msg.headers {
        msg.headers := msg.headers - {"content-length"};
      }
  }
}
