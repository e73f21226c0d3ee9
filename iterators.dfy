/** The two iterators a response hands out: `contentIterator`, which reads
    the body in chunks of a fixed size, and `lineIterator`, which cuts the
    chunks into lines at a delimiter.  The body is a byte sequence that the
    content iterator consumes from the front. */
module Iterators {
  import opened Wrappers
  import UrlEncoding

  type byte = UrlEncoding.byte

  function Min(a: nat, b: nat): nat
  {
    if a <= b then a else b
  }

  /** `n` zero bytes. */
  function Zeros(n: nat): (r: seq<byte>)
    ensures |r| == n && forall i :: 0 <= i < n ==> r[i] == 0
  {
    seq(n, i => 0)
  }

  /** `next()` as written: a fresh array of `size` bytes that one `read`
      fills as far as the stream goes, the rest left zero. */
  function PaddedChunk(stream: seq<byte>, size: nat): (r: seq<byte>)
    ensures |r| == size
  {
    var n := Min(size, |stream|);
    stream[..n] + Zeros(size - n)
  }

  /** A short last read pads its chunk with zeros, so the chunks no longer
      add up to the body: `[1, 2, 3]` in chunks of 2 reads as
      `[1, 2]`, `[3, 0]`. */
  lemma PaddedChunkGrows(stream: seq<byte>, size: nat)
    requires 0 < |stream| < size
    ensures PaddedChunk(stream, size)[..|stream|] == stream
    ensures PaddedChunk(stream, size)[|stream|..] == Zeros(size - |stream|)
    ensures PaddedChunk(stream, size) != stream
  {
  }

  lemma PaddedExample()
    ensures PaddedChunk([1, 2, 3], 2) + PaddedChunk([1, 2, 3][2..], 2) == [1, 2, 3, 0]
  {
    assert [1, 2, 3][..2] == [1, 2];
    assert [1, 2, 3][2..] == [3];
  }

  /** `next()` corrected: only the bytes the read delivered. */
  function Chunk(stream: seq<byte>, size: nat): (r: seq<byte>)
  {
    stream[..Min(size, |stream|)]
  }

  /** The chunks the corrected iterator yields until the stream is empty. */
  function Chunks(stream: seq<byte>, size: nat): seq<seq<byte>>
    requires size > 0
    decreases |stream|
  {
    if |stream| == 0 then [] else [Chunk(stream, size)] + Chunks(stream[|Chunk(stream, size)|..], size)
  }

  function Flatten(chunks: seq<seq<byte>>): seq<byte>
  {
    if |chunks| == 0 then [] else chunks[0] + Flatten(chunks[1..])
  }

  /** The corrected chunks are non-empty, at most `size` long, all full but
      the last, and add up to the body. */
  lemma {:induction false} ChunksCover(stream: seq<byte>, size: nat)
    requires size > 0
    ensures Flatten(Chunks(stream, size)) == stream
    ensures forall i :: 0 <= i < |Chunks(stream, size)| ==> 0 < |Chunks(stream, size)[i]| <= size
    ensures forall i :: 0 <= i < |Chunks(stream, size)| - 1 ==> |Chunks(stream, size)[i]| == size
    decreases |stream|
  {
    if |stream| > 0 {
      var chunk := Chunk(stream, size);
      var rest := stream[|chunk|..];
      ChunksCover(rest, size);
      var cs := Chunks(stream, size);
      assert cs[1..] == Chunks(rest, size);
      assert chunk + rest == stream;
      if |rest| > 0 {
        assert |chunk| == size;
      }
    }
  }

  /** The object `contentIterator(chunkSize)` returns, over the bytes its
      stream still holds. */
  class ContentIterator {
    var stream: seq<byte>
    const chunkSize: nat

    constructor(content: seq<byte>, chunkSize: nat)
      ensures stream == content && this.chunkSize == chunkSize
    {
      stream := content;
      this.chunkSize := chunkSize;
    }

    /** `hasNext()`: whether bytes are left. */
    method HasNext() returns (b: bool)
      ensures b <==> |stream| > 0
    {
      b := |stream| > 0;
    }

    /** `next()`, corrected: the next bytes, as many as a chunk holds or as
        are left, taken off the stream. */
    method Next() returns (chunk: seq<byte>)
      modifies this
      ensures |chunk| == Min(chunkSize, |old(stream)|) && chunk + stream == old(stream)
    {
      var n := Min(chunkSize, |stream|);
      chunk := stream[..n];
      stream := stream[n..];
    }
  }

  /** The response's raw stream as `hasNext()` sees it: the bytes it still
      holds, and whether it was closed. */
  datatype RawStream = RawStream(left: seq<byte>, closed: bool)

  /** `content` as written: `raw.use { it.readBytes() }` reads the raw stream
      to its end and closes it. */
  function ReadAll(raw: RawStream): (seq<byte>, RawStream)
  {
    (raw.left, RawStream([], true))
  }

  /** `hasNext()` as written: `raw.available() > 0`, asked of the response's
      raw stream whichever stream the iterator reads.  A closed stream is
      taken to have nothing available. */
  predicate AsWrittenHasNext(raw: RawStream)
  {
    !raw.closed && |raw.left| > 0
  }

  /** For a streamed body the iterator reads the raw stream itself, and
      `hasNext()` holds exactly while bytes remain.  For a buffered body the
      iterator reads `content`, which has already drained and closed the raw
      stream, so `hasNext()` is false before the first chunk although the
      body has bytes. */
  lemma AsWrittenBufferedEmpty(raw: RawStream)
    requires !raw.closed
    ensures AsWrittenHasNext(raw) <==> |raw.left| > 0
    ensures ReadAll(raw).0 == raw.left && !AsWrittenHasNext(ReadAll(raw).1)
  {
  }

  /** The bytes kept from before the current chunk. */
  function Carried(left: Option<seq<byte>>): seq<byte>
  {
    if left.Some? then left.value else []
  }

  /** The chunks the stream still holds come one by one: a read takes the
      first of them off. */
  lemma ChunksStep(stream: seq<byte>, size: nat, chunk: seq<byte>, rest: seq<byte>)
    requires size > 0 && |stream| > 0
    requires |chunk| == Min(size, |stream|) && chunk + rest == stream
    ensures Chunks(stream, size) == [chunk] + Chunks(rest, size)
  {
    assert chunk == Chunk(stream, size);
    assert rest == stream[|chunk|..];
  }

  /** One call of `next()` as the line iterator leaves things: the line, the
      chunks still to read, the leftover and the queued lines. */
  datatype Step = Step(line: Result<seq<byte>>, rest: seq<seq<byte>>, leftOver: Option<seq<byte>>,
                       overflow: seq<seq<byte>>)

  /** The inner loop of `next()`: read a chunk, add it to the leftover, split
      the text; on two or more parts, answer the first, queue the middle and
      keep the last.  The source reads on past the last chunk (where a read
      gives nothing); the model stops there with `EndlessRead`. */
  function Scan(chunks: seq<seq<byte>>, left: Option<seq<byte>>, split: seq<byte> -> seq<seq<byte>>): Step
    decreases |chunks|
  {
    if |chunks| == 0 then Step(Err(EndlessRead), chunks, left, [])
    else
      var content := Carried(left) + chunks[0];
      var parts := split(content);
      if |parts| >= 2 then Step(Ok(parts[0]), chunks[1..], Some(parts[|parts| - 1]), parts[1..|parts| - 1])
      else Scan(chunks[1..], Some(content), split)
  }

  /** One pass of the inner loop: the first chunk either completes a line or
      joins the leftover. */
  lemma ScanCons(chunk: seq<byte>, rest: seq<seq<byte>>, left: Option<seq<byte>>, split: seq<byte> -> seq<seq<byte>>)
    ensures var content := Carried(left) + chunk;
      var parts := split(content);
      Scan([chunk] + rest, left, split) ==
        if |parts| >= 2 then Step(Ok(parts[0]), rest, Some(parts[|parts| - 1]), parts[1..|parts| - 1])
        else Scan(rest, Some(content), split)
  {
    assert ([chunk] + rest)[1..] == rest;
  }

  /** `next()`: a queued line first; else, while chunks are left, the inner
      loop; else the leftover, which fails when there is none. */
  function NextLine(chunks: seq<seq<byte>>, left: Option<seq<byte>>, overflow: seq<seq<byte>>,
                    split: seq<byte> -> seq<seq<byte>>): Step
  {
    if |overflow| > 0 then Step(Ok(overflow[0]), chunks, left, overflow[1..])
    else if |chunks| == 0 then Step(if left.Some? then Ok(left.value) else Err(NullPointer), chunks, left, overflow)
    else Scan(chunks, left, split)
  }

  /** The text read after the first `k` chunks. */
  function ReadText(left: Option<seq<byte>>, chunks: seq<seq<byte>>, k: nat): seq<byte>
    requires k <= |chunks|
  {
    Carried(left) + Flatten(chunks[..k])
  }

  lemma ReadTextCons(left: Option<seq<byte>>, chunks: seq<seq<byte>>, k: nat)
    requires 0 < k <= |chunks|
    ensures ReadText(left, chunks, k) == ReadText(Some(Carried(left) + chunks[0]), chunks[1..], k - 1)
  {
    assert chunks[..k][1..] == chunks[1..][..k - 1];
  }

  /** The inner loop reads a prefix of the chunks: at least one when it
      answers a line, all of them when it runs out. */
  lemma {:induction false} ScanReads(chunks: seq<seq<byte>>, left: Option<seq<byte>>, split: seq<byte> -> seq<seq<byte>>)
    ensures var s := Scan(chunks, left, split);
      |s.rest| <= |chunks| && chunks[|chunks| - |s.rest|..] == s.rest &&
      (s.line.Ok? ==> |s.rest| < |chunks| && s.leftOver.Some?) &&
      (s.line.Err? ==> s.line.error == EndlessRead && s.rest == [] && s.overflow == [])
    decreases |chunks|
  {
    if |chunks| > 0 && |split(Carried(left) + chunks[0])| < 2 {
      ScanReads(chunks[1..], Some(Carried(left) + chunks[0]), split);
    }
  }

  /** The text read up to the line splits into the line, the queued lines
      and the new leftover: nothing read is lost or repeated. */
  lemma {:induction false} ScanLine(chunks: seq<seq<byte>>, left: Option<seq<byte>>, split: seq<byte> -> seq<seq<byte>>)
    requires Scan(chunks, left, split).line.Ok?
    ensures var s := Scan(chunks, left, split);
      |s.rest| < |chunks| && s.leftOver.Some? &&
      split(ReadText(left, chunks, |chunks| - |s.rest|)) == [s.line.value] + s.overflow + [s.leftOver.value]
    decreases |chunks|
  {
    var content := Carried(left) + chunks[0];
    var parts := split(content);
    ScanReads(chunks, left, split);
    var s := Scan(chunks, left, split);
    if |parts| >= 2 {
      assert chunks[..1] == [chunks[0]];
      assert Flatten(chunks[..1]) == chunks[0] + Flatten([]);
      assert s == Step(Ok(parts[0]), chunks[1..], Some(parts[|parts| - 1]), parts[1..|parts| - 1]);
      assert ReadText(left, chunks, |chunks| - |s.rest|) == content;
      assert parts == [parts[0]] + parts[1..|parts| - 1] + [parts[|parts| - 1]];
    } else {
      ScanLine(chunks[1..], Some(content), split);
      ReadTextCons(left, chunks, |chunks| - |s.rest|);
    }
  }

  /** The line comes at the first chunk after which the text splits. */
  lemma {:induction false} ScanFirst(chunks: seq<seq<byte>>, left: Option<seq<byte>>, split: seq<byte> -> seq<seq<byte>>)
    ensures var s := Scan(chunks, left, split);
      |s.rest| <= |chunks| &&
      forall i :: 0 < i < |chunks| - |s.rest| ==> |split(ReadText(left, chunks, i))| < 2
    decreases |chunks|
  {
    ScanReads(chunks, left, split);
    if |chunks| > 0 && |split(Carried(left) + chunks[0])| < 2 {
      var content := Carried(left) + chunks[0];
      ScanFirst(chunks[1..], Some(content), split);
      var s := Scan(chunks, left, split);
      assert s == Scan(chunks[1..], Some(content), split);
      forall i | 0 < i < |chunks| - |s.rest| ensures |split(ReadText(left, chunks, i))| < 2 {
        ReadTextCons(left, chunks, i);
        assert ReadText(left, chunks, i) == ReadText(Some(content), chunks[1..], i - 1);
        if i == 1 {
          assert chunks[1..][..0] == [];
          assert ReadText(Some(content), chunks[1..], 0) == content + Flatten([]);
          assert Flatten([]) == [];
          assert ReadText(left, chunks, i) == content;
        } else {
          assert |split(ReadText(Some(content), chunks[1..], i - 1))| < 2;
        }
      }
    }
  }

  /** The object `lineIterator(chunkSize, delimiter)` returns.  `split`
      stands for decoding with the response's charset, splitting at the
      delimiter and encoding each part back. */
  class LineIterator {
    const byteArrays: ContentIterator
    const split: seq<byte> -> seq<seq<byte>>
    var leftOver: Option<seq<byte>>
    var overflow: seq<seq<byte>>

    constructor(content: seq<byte>, chunkSize: nat, split: seq<byte> -> seq<seq<byte>>)
      ensures fresh(byteArrays) && byteArrays.stream == content && byteArrays.chunkSize == chunkSize
      ensures this.split == split && leftOver.None? && overflow == []
    {
      byteArrays := new ContentIterator(content, chunkSize);
      this.split := split;
      leftOver := None;
      overflow := [];
    }

    /** `hasNext()`: asks the content iterator only, so a leftover line is
        not offered once the bytes are read. */
    method HasNext() returns (b: bool)
      ensures b <==> |byteArrays.stream| > 0
    {
      b := byteArrays.HasNext();
    }

    /** `next()`. */
    method Next() returns (r: Result<seq<byte>>)
      requires byteArrays.chunkSize > 0
      modifies this, byteArrays
      ensures Step(r, Chunks(byteArrays.stream, byteArrays.chunkSize), leftOver, overflow) ==
        NextLine(Chunks(old(byteArrays.stream), byteArrays.chunkSize), old(leftOver), old(overflow), split)
    {
      if |overflow| > 0 {
        r := Ok(overflow[0]);
        overflow := overflow[1..];
        return;
      }
      var more := byteArrays.HasNext();
      if more {
        while true
          invariant overflow == []
          invariant Scan(Chunks(byteArrays.stream, byteArrays.chunkSize), leftOver, split) ==
            Scan(Chunks(old(byteArrays.stream), byteArrays.chunkSize), old(leftOver), split)
          decreases |byteArrays.stream|
        {
          if |byteArrays.stream| == 0 {
            return Err(EndlessRead);
          }
          ghost var before := byteArrays.stream;
          var left := leftOver;
          var chunk := byteArrays.Next();
          ChunksStep(before, byteArrays.chunkSize, chunk, byteArrays.stream);
          ScanCons(chunk, Chunks(byteArrays.stream, byteArrays.chunkSize), left, split);
          var content := if left.Some? then left.value + chunk else chunk;
          assert content == Carried(left) + chunk;
          leftOver := Some(content);
          var parts := split(content);
          if |parts| >= 2 {
            leftOver := Some(parts[|parts| - 1]);
            overflow := overflow + parts[1..|parts| - 1];
            return Ok(parts[0]);
          }
        }
      }
      r := if leftOver.Some? then Ok(leftOver.value) else Err(NullPointer);
    }
  }
}
