/** Chunked reading and truncation of a message in the Worker:
    collectStream of worker/src/index.ts and truncateStream of
    worker/src/mail/parse.ts. */
module Streams {
  import opened Common

  /** What a stream carries, however it is cut. */
  function Concat(chunks: seq<Bytes>): Bytes {
    if chunks == [] then [] else Concat(chunks[..|chunks| - 1]) + chunks[|chunks| - 1]
  }

  function Prefix(data: Bytes, limit: nat): Bytes {
    if |data| <= limit then data else data[..limit]
  }

  /** A readable stream: its chunks, and whether reading fails after them. */
  datatype Stream = Stream(chunks: seq<Bytes>, broken: bool)

  method CollectStream(stream: Stream) returns (r: Option<Bytes>)
    ensures r == if stream.broken then None else Some(Concat(stream.chunks))
  {
    var chunks: seq<Bytes> := [];
    var read := 0;
    while true
      invariant read <= |stream.chunks| && chunks == stream.chunks[..read]
      decreases |stream.chunks| - read
    {
      if read == |stream.chunks| {
        if stream.broken {
          return None;
        }
        break;
      }
      chunks := chunks + [stream.chunks[read]];
      read := read + 1;
    }
    assert chunks == stream.chunks;
    var totalLength := 0;
    for i := 0 to |chunks|
      invariant totalLength == |Concat(chunks[..i])|
    {
      assert chunks[..i + 1][..i] == chunks[..i];
      totalLength := totalLength + |chunks[i]|;
    }
    assert chunks[..|chunks|] == chunks;
    var result := new byte[totalLength];
    var offset := 0;
    for i := 0 to |chunks|
      invariant offset == |Concat(chunks[..i])| <= totalLength
      invariant result[..offset] == Concat(chunks[..i])
    {
      var chunk := chunks[i];
      assert chunks[..i + 1][..i] == chunks[..i];
      PartFits(chunks, i + 1);
      ghost var done := result[..offset];
      forall k | 0 <= k < |chunk| {
        result[offset + k] := chunk[k];
      }
      assert result[..offset] == done;
      assert result[offset..offset + |chunk|] == chunk;
      assert result[..offset + |chunk|] == result[..offset] + result[offset..offset + |chunk|];
      offset := offset + |chunk|;
    }
    assert chunks[..|chunks|] == chunks;
    assert result[..] == result[..totalLength];
    r := Some(result[..]);
  }

  lemma {:induction false} PartFits(chunks: seq<Bytes>, k: nat)
    requires k <= |chunks|
    ensures |Concat(chunks[..k])| <= |Concat(chunks)|
    decreases |chunks| - k
  {
    if k == |chunks| {
      assert chunks[..k] == chunks;
    } else {
      assert chunks[..k + 1][..k] == chunks[..k];
      PartFits(chunks, k + 1);
    }
  }

  /** The TransformStream of truncateStream. */
  class Truncator {
    const maxBytes: nat
    var bytesRead: nat
    var terminated: bool
    var output: seq<Bytes>
    ghost var input: Bytes

    /** The output so far is the prefix of the input so far; once terminated,
        that prefix is complete. */
    ghost predicate Valid()
      reads this
    {
      && Concat(output) == Prefix(input, maxBytes)
      && bytesRead == |Concat(output)|
      && (terminated ==> |input| >= maxBytes)
    }

    constructor (maxBytes: nat)
      ensures Valid() && input == [] && !terminated && this.maxBytes == maxBytes
    {
      this.maxBytes := maxBytes;
      bytesRead, terminated, output, input := 0, false, [], [];
    }

    method Enqueue(chunk: Bytes)
      modifies `output
      ensures output == old(output) + [chunk]
      ensures Concat(output) == Concat(old(output)) + chunk
    {
      output := output + [chunk];
      assert output[..|output| - 1] == old(output);
    }

    method Transform(chunk: Bytes)
      requires Valid() && !terminated
      modifies this
      ensures Valid() && input == old(input) + chunk
    {
      input := input + chunk;
      if bytesRead >= maxBytes {
        terminated := true;
        return;
      }
      var remainingBytes := maxBytes - bytesRead;
      if |chunk| <= remainingBytes {
        Enqueue(chunk);
        bytesRead := bytesRead + |chunk|;
      } else {
        var limitedChunk := chunk[..remainingBytes];
        assert input[..maxBytes] == old(input) + limitedChunk;
        Enqueue(limitedChunk);
        bytesRead := bytesRead + remainingBytes;
        terminated := true;
      }
    }
  }

  /** Piping a stream through the truncator: exactly its first bytes come out,
      and where it was cut into chunks does not matter. */
  method TruncateStream(stream: seq<Bytes>, maxBytes: nat) returns (output: seq<Bytes>)
    ensures Concat(output) == Prefix(Concat(stream), maxBytes)
  {
    var t := new Truncator(maxBytes);
    var i := 0;
    while i < |stream| && !t.terminated
      invariant i <= |stream| && t.Valid() && t.maxBytes == maxBytes && fresh(t)
      invariant t.input == Concat(stream[..i])
    {
      assert stream[..i + 1][..i] == stream[..i];
      t.Transform(stream[i]);
      i := i + 1;
    }
    output := t.output;
    assert stream[..|stream|] == stream;
    PartIsPrefix(stream, i);
  }

  lemma {:induction false} PartIsPrefix(chunks: seq<Bytes>, k: nat)
    requires k <= |chunks|
    ensures Concat(chunks[..k]) <= Concat(chunks)
    decreases |chunks| - k
  {
    if k == |chunks| {
      assert chunks[..k] == chunks;
    } else {
      assert chunks[..k + 1][..k] == chunks[..k];
      PartIsPrefix(chunks, k + 1);
    }
  }
}
