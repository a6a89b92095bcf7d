/** What the WAV header reader finds in a well-laid-out file, whatever other chunks stand
    between the ones it looks for, and that it reads back what the writer wrote. */
module WavHeaderProofs {
  import opened Bytes
  import opened Numbers
  import opened WavHeader

  // Regrouping.

  lemma ChunkFirst(pre: seq<byte>, id: seq<byte>, size: seq<byte>, payload: seq<byte>, post: seq<byte>)
    ensures pre + (id + size + payload) + post == pre + (id + size + (payload + post))
  {
  }

  lemma TwoParts(pre: seq<byte>, a: seq<byte>, b: seq<byte>, post: seq<byte>)
    ensures pre + (a + b) + post == pre + a + (b + post) == (pre + a) + b + post
  {
  }

  lemma Middle(pre: seq<byte>, a: seq<byte>, b: seq<byte>, post: seq<byte>)
    ensures (pre + (a + b + post))[|pre|..|pre| + |a|] == a
    ensures (pre + (a + b + post))[|pre| + |a|..|pre| + |a| + |b|] == b
  {
  }

  lemma SixParts(r: seq<byte>, b: seq<byte>, m: seq<byte>, w: seq<byte>, d: seq<byte>, t: seq<byte>)
    ensures r + b + m + w + d + t == r + (b + m + w + d + t)
    ensures r + b + m + w + d + t == r + b + m + (w + d + t)
    ensures r + b + m + w + d + t == (r + b + m) + w + (d + t)
  {
  }

  // The chunk search.

  predicate Others(cs: seq<Chunk>, id: seq<byte>) {
    forall i :: 0 <= i < |cs| ==> cs[i].Valid() && cs[i].id != id
  }

  lemma FindHere(file: seq<byte>, pre: seq<byte>, id: seq<byte>, size: seq<byte>, post: seq<byte>)
    requires file == pre + (id + size + post) && |id| == |size| == 4
    ensures FindChunk(file, |pre|, id) == Found(Get32(size), |pre| + CHUNK_HEADER_SIZE)
  {
    Middle(pre, id, size, post);
  }

  lemma FindSkipsOne(file: seq<byte>, pre: seq<byte>, c: Chunk, post: seq<byte>, id: seq<byte>)
    requires c.Valid() && c.id != id && file == pre + c.Bytes() + post
    ensures FindChunk(file, |pre|, id) == FindChunk(file, |pre + c.Bytes()|, id)
  {
    ChunkFirst(pre, c.id, c.size, c.payload, post);
    Middle(pre, c.id, c.size, c.payload + post);
    assert |pre + c.Bytes()| == |pre| + CHUNK_HEADER_SIZE + |c.payload|;
  }

  /** The search passes over any number of other chunks. */
  lemma {:induction false} FindSkips(file: seq<byte>, pre: seq<byte>, cs: seq<Chunk>, post: seq<byte>, id: seq<byte>)
    requires Others(cs, id) && file == pre + ChunkBytes(cs) + post
    ensures FindChunk(file, |pre|, id) == FindChunk(file, |pre + ChunkBytes(cs)|, id)
    decreases cs
  {
    if cs == [] {
      assert pre + [] == pre;
    } else {
      var here, later := cs[0].Bytes(), ChunkBytes(cs[1..]);
      TwoParts(pre, here, later, post);
      FindSkipsOne(file, pre, cs[0], later + post, id);
      FindSkips(file, pre + here, cs[1..], post, id);
      assert |(pre + here) + later| == |pre + ChunkBytes(cs)|;
    }
  }

  // A whole file.

  /** The RIFF header, other chunks, "fmt ", other chunks, and the data chunk with whatever
      follows. */
  datatype Layout = Layout(
    riffSize: seq<byte>, before: seq<Chunk>, fmt: Chunk, between: seq<Chunk>, dataSize: seq<byte>, rest: seq<byte>)
  {
    predicate Valid() {
      && |riffSize| == |dataSize| == 4
      && Others(before, FMT) && Others(between, DATA)
      && IsFmt(fmt)
    }

    function File(): seq<byte> {
      RIFF + riffSize + WAVE + ChunkBytes(before) + fmt.Bytes() + ChunkBytes(between) + (DATA + dataSize) + rest
    }

    function DataStart(): nat {
      12 + |ChunkBytes(before)| + |fmt.Bytes()| + |ChunkBytes(between)| + CHUNK_HEADER_SIZE
    }
  }

  /** A "fmt " chunk with or without an empty extension. */
  predicate IsFmt(c: Chunk) {
    && c.Valid() && c.id == FMT
    && (|c.payload| == FMT_SIZE || (|c.payload| == FMT_SIZE + 2 && c.payload[FMT_SIZE..] == [0, 0]))
  }

  lemma PayloadAt(pre: seq<byte>, header: seq<byte>, payload: seq<byte>, post: seq<byte>, i: nat, j: nat)
    requires i <= j <= |payload|
    ensures (pre + (header + payload) + post)[|pre| + |header| + i..|pre| + |header| + j] == payload[i..j]
  {
  }

  lemma FmtFound(file: seq<byte>, pre: seq<byte>, c: Chunk, post: seq<byte>, p: nat)
    requires IsFmt(c) && file == pre + c.Bytes() + post && p == |pre| + CHUNK_HEADER_SIZE
    ensures FindChunk(file, |pre|, FMT) == Found(|c.payload|, p)
    ensures FmtEnd(file, p, |c.payload|) == |pre + c.Bytes()|
    ensures file[p..p + FMT_SIZE] == c.payload[..FMT_SIZE]
  {
    ChunkFirst(pre, FMT, c.size, c.payload, post);
    FindHere(file, pre, FMT, c.size, c.payload + post);
    PayloadAt(pre, FMT + c.size, c.payload, post, 0, FMT_SIZE);
    if |c.payload| == FMT_SIZE + 2 {
      PayloadAt(pre, FMT + c.size, c.payload, post, FMT_SIZE, FMT_SIZE + 2);
    }
  }

  lemma FmtPlace(file: seq<byte>, riff: seq<byte>, before: seq<Chunk>, c: Chunk, post: seq<byte>, p: nat)
    requires Others(before, FMT) && IsFmt(c) && file == riff + ChunkBytes(before) + c.Bytes() + post
    requires p == |riff + ChunkBytes(before)| + CHUNK_HEADER_SIZE
    ensures FindChunk(file, |riff|, FMT) == Found(|c.payload|, p)
    ensures FmtEnd(file, p, |c.payload|) == |riff + ChunkBytes(before) + c.Bytes()|
    ensures file[p..p + FMT_SIZE] == c.payload[..FMT_SIZE]
  {
    TwoParts(riff, ChunkBytes(before), c.Bytes(), post);
    FindSkips(file, riff, before, c.Bytes() + post, FMT);
    FmtFound(file, riff + ChunkBytes(before), c, post, p);
  }

  lemma DataPlace(file: seq<byte>, pre: seq<byte>, between: seq<Chunk>, dataSize: seq<byte>, rest: seq<byte>)
    requires Others(between, DATA) && |dataSize| == 4
    requires file == pre + ChunkBytes(between) + (DATA + dataSize + rest)
    ensures FindChunk(file, |pre|, DATA) == Found(Get32(dataSize), |pre + ChunkBytes(between)| + CHUNK_HEADER_SIZE)
  {
    FindSkips(file, pre, between, DATA + dataSize + rest, DATA);
    FindHere(file, pre + ChunkBytes(between), DATA, dataSize, rest);
  }

  lemma RiffRead(file: seq<byte>, size: seq<byte>, post: seq<byte>)
    requires file == RIFF + size + WAVE + post && |size| == 4
    ensures CanRead(file, 0, 12) && file[..4] == RIFF && file[8..12] == WAVE && file[4..8] == size
  {
  }

  /** The verdict depends on the RIFF size, the "fmt " fields and the payload size only, and
      the data start is where the bytes put it. */
  lemma ReadsLayout(l: Layout)
    requires l.Valid()
    ensures ReadHeader(l.File()) == Judge(Get32(l.riffSize), GetFmt(l.fmt.payload[..FMT_SIZE]), Get32(l.dataSize), l.DataStart())
  {
    hide Judge, GetFmt, Get32, FindChunk, FmtEnd, ChunkBytes, IsFmt, Others;
    var file, riff, data := l.File(), RIFF + l.riffSize + WAVE, DATA + l.dataSize;
    var before, fmt, between := ChunkBytes(l.before), l.fmt.Bytes(), ChunkBytes(l.between);
    SixParts(riff, before, fmt, between, data, l.rest);
    RiffRead(file, l.riffSize, before + fmt + between + data + l.rest);
    FmtPlace(file, riff, l.before, l.fmt, between + data + l.rest, |riff + before| + CHUNK_HEADER_SIZE);
    DataPlace(file, riff + before + fmt, l.between, l.dataSize, l.rest);
  }

  function Without(l: Layout): Layout {
    l.(before := [], between := [])
  }

  /** Chunks inserted before "fmt " and between "fmt " and "data" change no field, and move
      the data start by exactly their bytes. */
  lemma InsertedChunksAreIgnored(l: Layout)
    requires l.Valid()
    ensures var plain, full := ReadHeader(Without(l).File()), ReadHeader(l.File());
            full == if plain.Header? then plain.(dataStart := plain.dataStart + |ChunkBytes(l.before)| + |ChunkBytes(l.between)|)
                    else plain
  {
    hide ReadHeader, Get32, GetFmt;
    ReadsLayout(l);
    ReadsLayout(Without(l));
  }

  // The writer.

  lemma FmtSlices(a: seq<byte>, b: seq<byte>, c: seq<byte>, d: seq<byte>, e: seq<byte>, f: seq<byte>)
    requires |a| == |b| == |e| == |f| == 2 && |c| == |d| == 4
    ensures GetFmt(a + b + c + d + e + f) == Fmt(Get16(a), Get16(b), Get32(c), Get32(d), Get16(e), Get16(f))
  {
    var s := a + b + c + d + e + f;
    assert s[..2] == a && s[2..4] == b && s[4..8] == c && s[8..12] == d && s[12..14] == e && s[14..] == f;
  }

  lemma FmtReadsBack(f: Fmt)
    requires f.Fits()
    ensures GetFmt(f.Bytes()) == f
  {
    FmtSlices(Le16(f.audioFormat), Le16(f.channels), Le32(f.rate), Le32(f.byteRate), Le16(f.blockAlign), Le16(f.bitsPerSample));
    Get16Of(f.audioFormat);
    Get16Of(f.channels);
    Get32Of(f.rate);
    Get32Of(f.byteRate);
    Get16Of(f.blockAlign);
    Get16Of(f.bitsPerSample);
  }

  lemma Get16Of(v: nat)
    requires v < 0x1_0000
    ensures Get16(Le16(v)) == v
  {
    Get16Le16(v);
  }

  lemma Get32Of(v: nat)
    requires v <= UINT32_MAX
    ensures Get32(Le32(v)) == v
  {
    Get32Le32(v);
  }

  /** The writer's header as a layout. */
  function LayoutOf(p: Params, rest: seq<byte>): Layout
    requires p.Accepted() && (p.format.Pcm? || p.format.IeeeFloat?)
  {
    var riffSize := Le32(RiffChunkSize(p.Payload(), HeaderSize(p.format)));
    if p.format.Pcm? then
      Layout(riffSize, [], Chunk(FMT, Le32(FMT_SIZE), FmtOf(p).Bytes()), [], Le32(p.Payload()), rest)
    else
      Layout(riffSize, [], Chunk(FMT, Le32(FMT_SIZE + 2), FmtOf(p).Bytes() + Le16(0)),
             [Chunk(FACT, Le32(4), Le32(p.channels * p.samples))], Le32(p.Payload()), rest)
  }

  lemma PayloadFits(p: Params)
    requires p.Accepted()
    ensures p.Payload() + PCM_HEADER_SIZE - CHUNK_HEADER_SIZE <= UINT32_MAX
    ensures p.Payload() / BytesPerSample(p.format) == p.samples
  {
  }

  lemma NothingBetween(riff: seq<byte>, fmt: seq<byte>, data: seq<byte>, rest: seq<byte>)
    ensures riff + [] + fmt + [] + data + rest == riff + fmt + data + rest
  {
    assert riff + [] == riff && riff + fmt + [] == riff + fmt;
  }

  lemma OneBetween(riff: seq<byte>, fmt: seq<byte>, fact: seq<byte>, data: seq<byte>, rest: seq<byte>)
    ensures riff + [] + fmt + (fact + []) + data + rest == riff + fmt + fact + data + rest
  {
    assert riff + [] == riff && fact + [] == fact;
  }

  lemma WriterMakesLayout(p: Params, rest: seq<byte>)
    requires p.Accepted() && (p.format.Pcm? || p.format.IeeeFloat?)
    ensures LayoutOf(p, rest).Valid()
    ensures WriteHeader(p).Written? && WriteHeader(p).bytes + rest == LayoutOf(p, rest).File()
    ensures |WriteHeader(p).bytes| == LayoutOf(p, rest).DataStart() == HeaderSize(p.format)
  {
    var l := LayoutOf(p, rest);
    var riff, data := RIFF + l.riffSize + WAVE, DATA + l.dataSize;
    if p.format.Pcm? {
      Get32Of(FMT_SIZE);
      NothingBetween(riff, l.fmt.Bytes(), data, rest);
    } else {
      Get32Of(FMT_SIZE + 2);
      Get32Of(4);
      assert (FmtOf(p).Bytes() + Le16(0))[FMT_SIZE..] == Le16(0) == [0, 0];
      assert ChunkBytes(l.between) == l.between[0].Bytes() + [] by {
        assert l.between[1..] == [];
      }
      OneBetween(riff, l.fmt.Bytes(), l.between[0].Bytes(), data, rest);
    }
  }

  /** Every parameter set the check accepts for a format the writer supports reads back as
      itself, whatever follows the header, even where a size field wraps. */
  lemma ReadsWrittenHeader(p: Params, rest: seq<byte>)
    requires p.Accepted() && (p.format.Pcm? || p.format.IeeeFloat?)
    ensures WriteHeader(p).Written?
    ensures ReadHeader(WriteHeader(p).bytes + rest)
         == Header(p.channels, p.rate, p.format, BytesPerSample(p.format), p.samples, HeaderSize(p.format))
  {
    var l := LayoutOf(p, rest);
    WriterMakesLayout(p, rest);
    ReadsLayout(l);
    PayloadFits(p);
    Get32Of(p.Payload());
    Get32Of(RiffChunkSize(p.Payload(), HeaderSize(p.format)));
    assert l.fmt.payload[..FMT_SIZE] == FmtOf(p).Bytes();
    FmtReadsBack(FmtOf(p));
    JudgesOwnHeader(p, l.DataStart());
  }

  lemma JudgesOwnHeader(p: Params, dataStart: nat)
    requires p.Accepted() && (p.format.Pcm? || p.format.IeeeFloat?)
    ensures Judge(RiffChunkSize(p.Payload(), HeaderSize(p.format)), FmtOf(p), p.Payload(), dataStart)
         == Header(p.channels, p.rate, p.format, BytesPerSample(p.format), p.samples, dataStart)
  {
    PayloadFits(p);
    assert p.rate < 0x8000_0000;
  }

  /** The RIFF size of a PCM header never wraps; that of a float header does exactly for the
      longest payloads the check lets through. */
  lemma RiffSizeExactIff(p: Params)
    requires p.Accepted() && (p.format.Pcm? || p.format.IeeeFloat?)
    ensures RiffChunkSize(p.Payload(), HeaderSize(p.format)) == p.Payload() + HeaderSize(p.format) - CHUNK_HEADER_SIZE
       <==> p.format.Pcm? || p.samples < 1073741812
  {
    PayloadFits(p);
  }
}
