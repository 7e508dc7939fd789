/** Byte buffers and the in-order concatenation that both body collectors
    of the pipeline perform (concat-stream on the decoder's output,
    BufferHelper on raw writes). */
module Bytes {

  type Byte = bv8
  type Bytes = seq<Byte>

  /** The chunks joined in arrival order. */
  function Concat(chunks: seq<Bytes>): Bytes
  {
    if chunks == [] then [] else chunks[0] + Concat(chunks[1..])
  }

  /** Joining two runs of chunks is joining their joins. */
  lemma {:induction false} ConcatSplit(a: seq<Bytes>, b: seq<Bytes>)
    ensures Concat(a + b) == Concat(a) + Concat(b)
  {
    if a == [] {
      assert a + b == b;
    } else {
      assert (a + b)[1..] == a[1..] + b;
      ConcatSplit(a[1..], b);
    }
  }

  /** Collecting one more chunk appends exactly its bytes to the body. */
  lemma {:induction false} ConcatAppend(chunks: seq<Bytes>, c: Bytes)
    ensures Concat(chunks + [c]) == Concat(chunks) + c
  {
    ConcatSplit(chunks, [c]);
    assert [c][1..] == [];
  }

  /** The body is as long as all chunks together, and chunk i sits at the
      offset given by the chunks before it. */
  lemma {:induction false} ConcatPlacement(chunks: seq<Bytes>, i: nat)
    requires i < |chunks|
    ensures |Concat(chunks[..i])| + |chunks[i]| <= |Concat(chunks)|
    ensures Concat(chunks)[|Concat(chunks[..i])|..|Concat(chunks[..i])| + |chunks[i]|] == chunks[i]
  {
    assert chunks == chunks[..i] + [chunks[i]] + chunks[i + 1..];
    ConcatSplit(chunks[..i] + [chunks[i]], chunks[i + 1..]);
    ConcatAppend(chunks[..i], chunks[i]);
  }
}
