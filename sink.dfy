/** The response sink (`res`). What can be observed of it is the log of
    calls made through the write and end it had when the pipeline saved
    them (`_write`, `_end`), and which function currently sits in its
    `write`/`end` slots. */
module ResponseSink {
  import opened Bytes

  /** One call of the saved original write or end. */
  datatype Call = Wrote(chunk: Bytes) | Ended

  /** Which function `res.write` / `res.end` currently is. */
  datatype Handler = Native | IntoBuffer | IntoDecoder

  /** One original-write call per chunk, in order. */
  function Writes(chunks: seq<Bytes>): seq<Call>
  {
    seq(|chunks|, i requires 0 <= i < |chunks| => Wrote(chunks[i]))
  }

  /** How many times the original end was called. */
  function Ends(calls: seq<Call>): nat
  {
    if calls == [] then 0 else (if calls[0].Ended? then 1 else 0) + Ends(calls[1..])
  }

  /** The chunks that went out through the original write, in order. */
  function Sent(calls: seq<Call>): seq<Bytes>
  {
    if calls == [] then [] else (if calls[0].Wrote? then [calls[0].chunk] else []) + Sent(calls[1..])
  }

  lemma {:induction false} EndsSplit(a: seq<Call>, b: seq<Call>)
    ensures Ends(a + b) == Ends(a) + Ends(b)
  {
    if a == [] {
      assert a + b == b;
    } else {
      assert (a + b)[1..] == a[1..] + b;
      EndsSplit(a[1..], b);
    }
  }

  lemma {:induction false} SentSplit(a: seq<Call>, b: seq<Call>)
    ensures Sent(a + b) == Sent(a) + Sent(b)
  {
    if a == [] {
      assert a + b == b;
    } else {
      assert (a + b)[1..] == a[1..] + b;
      SentSplit(a[1..], b);
    }
  }

  /** Forwarding chunks calls end no time and sends exactly those chunks,
      in order. */
  lemma {:induction false} WritesSendChunks(chunks: seq<Bytes>)
    ensures Ends(Writes(chunks)) == 0
    ensures Sent(Writes(chunks)) == chunks
  {
    if chunks != [] {
      assert Writes(chunks)[1..] == Writes(chunks[1..]);
      WritesSendChunks(chunks[1..]);
    }
  }

  /** The host response object. */
  class Sink {
    var calls: seq<Call>
    var write: Handler
    var end: Handler

    constructor ()
      ensures calls == [] && write == Native && end == Native
    {
      calls := [];
      write := Native;
      end := Native;
    }

    /** A call of the write saved before interception. */
    method OriginalWrite(chunk: Bytes)
      modifies this
      ensures calls == old(calls) + [Wrote(chunk)]
      ensures write == old(write) && end == old(end)
    {
      calls := calls + [Wrote(chunk)];
    }

    /** A call of the end saved before interception. */
    method OriginalEnd()
      modifies this
      ensures calls == old(calls) + [Ended]
      ensures write == old(write) && end == old(end)
    {
      calls := calls + [Ended];
    }
  }
}
