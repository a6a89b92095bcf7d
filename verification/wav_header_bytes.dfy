/** WAV headers byte by byte: what stands at which offset of a written header, and which
    field values of a file make a header that the reader accepts. */
module WavHeaderBytes {
  import opened Bytes
  import opened Numbers
  import opened WavHeader
  import opened WavHeaderProofs

  // Little-endian numbers.

  function U16(s: seq<byte>): int
    requires |s| == 2
  {
    s[0] as int + 256 * s[1] as int
  }

  function U32(s: seq<byte>): int
    requires |s| == 4
  {
    s[0] as int + 256 * s[1] as int + 65536 * s[2] as int + 16777216 * s[3] as int
  }

  lemma LoadsU16(s: seq<byte>)
    requires |s| == 2
    ensures Get16(s) == U16(s)
  {
  }

  lemma LoadsU32(s: seq<byte>)
    requires |s| == 4
    ensures Get32(s) == U32(s)
  {
  }

  lemma StoresU16(v: nat)
    ensures U16(Le16(v)) == v % 0x1_0000
  {
    Get16Le16(v);
    LoadsU16(Le16(v));
  }

  lemma StoresU32(v: nat)
    ensures U32(Le32(v)) == v % 0x1_0000_0000
  {
    hide Le32, Get32, U32;
    Get32Le32(v);
    LoadsU32(Le32(v));
  }

  // The parameters that are accepted.

  /** The parameters that can be written, in numbers. */
  lemma AcceptedIff(p: Params)
    ensures var n := if p.format.Pcm? then 2 else if p.format.IeeeFloat? then 4 else 1;
            p.Accepted() <==>
              && 0 < p.channels <= 65535 && 0 < p.rate && p.rate * p.channels * n <= 4294967295
              && p.samples <= 4294967259 / n && p.samples % p.channels == 0
  {
    var n := BytesPerSample(p.format);
    if 0 < p.channels && 0 < p.rate {
      RateBelowProduct(p.rate, p.channels, n);
    }
  }

  lemma RateBelowProduct(rate: int, channels: int, n: int)
    requires 0 < rate && 0 < channels && 0 < n
    ensures rate <= rate * channels * n
  {
    assert rate <= rate * channels;
    assert rate * channels <= (rate * channels) * n;
  }

  /** Once the product fits, the byte rate is the product. */
  lemma ByteRateExact(channels: nat, rate: int, n: nat)
    requires 0 <= rate && rate * channels * n <= UINT32_MAX
    ensures ByteRate(channels, rate, n) == channels * rate * n
  {
    assert channels * rate == rate * channels;
    assert channels * rate * n >= 0;
  }

  // Writing.

  lemma FmtBytesAre(f: Fmt)
    requires f.Fits()
    ensures var s := f.Bytes();
            && U16(s[0..2]) == f.audioFormat && U16(s[2..4]) == f.channels
            && U32(s[4..8]) == f.rate && U32(s[8..12]) == f.byteRate
            && U16(s[12..14]) == f.blockAlign && U16(s[14..16]) == f.bitsPerSample
  {
    hide Le32, Le16, U32, U16;
    var s := f.Bytes();
    assert s[0..2] == Le16(f.audioFormat) && s[2..4] == Le16(f.channels);
    assert s[4..8] == Le32(f.rate) && s[8..12] == Le32(f.byteRate);
    assert s[12..14] == Le16(f.blockAlign) && s[14..16] == Le16(f.bitsPerSample);
    StoresU16(f.audioFormat);
    StoresU16(f.channels);
    StoresU32(f.rate);
    StoresU32(f.byteRate);
    StoresU16(f.blockAlign);
    StoresU16(f.bitsPerSample);
  }

  /** The fields of the "fmt " chunk at offset 20 of a header, for samples of `n` bytes. */
  ghost predicate FmtFields(b: seq<byte>, p: Params, tag: int, n: int)
    requires |b| >= 36
  {
    && U16(b[20..22]) == tag && U16(b[22..24]) == p.channels && U32(b[24..28]) == p.rate
    && U32(b[28..32]) == p.channels * p.rate * n
    && U16(b[32..34]) == p.channels * n % 65536 && U16(b[34..36]) == 8 * n
  }

  lemma FmtAt20(b: seq<byte>, p: Params, tag: int, n: int)
    requires p.Accepted() && |b| >= 36 && b[20..36] == FmtOf(p).Bytes()
    requires tag == FormatField(p.format) && n == BytesPerSample(p.format)
    ensures FmtFields(b, p, tag, n)
  {
    hide U16, U32;
    var s := b[20..36];
    FmtBytesAre(FmtOf(p));
    SliceOfPart(b, 20, s, 0, 2);
    SliceOfPart(b, 20, s, 2, 4);
    SliceOfPart(b, 20, s, 4, 8);
    SliceOfPart(b, 20, s, 8, 12);
    SliceOfPart(b, 20, s, 12, 14);
    SliceOfPart(b, 20, s, 14, 16);
    ByteRateExact(p.channels, p.rate, n);
  }

  /** The 44 bytes of a PCM header. */
  lemma PcmHeaderIs(p: Params)
    requires p.Accepted() && p.format.Pcm?
    ensures WriteHeader(p).Written? && |WriteHeader(p).bytes| == 44
    ensures var b := WriteHeader(p).bytes;
            && b[0..4] == [0x52, 0x49, 0x46, 0x46] && U32(b[4..8]) == 2 * p.samples + 36
            && b[8..12] == [0x57, 0x41, 0x56, 0x45]
            && b[12..16] == [0x66, 0x6D, 0x74, 0x20] && U32(b[16..20]) == 16
            && FmtFields(b, p, 1, 2)
            && b[36..40] == [0x64, 0x61, 0x74, 0x61] && U32(b[40..44]) == 2 * p.samples
  {
    hide Le32, Le16, U32, U16, CheckParameters, FmtFields;
    var b := WriteHeader(p).bytes;
    PayloadFits(p);
    assert RiffChunkSize(p.Payload(), 44) == p.Payload() + 36;
    var size, fmt := Le32(RiffChunkSize(p.Payload(), 44)), FmtOf(p).Bytes();
    assert b == RIFF + size + WAVE + (FMT + Le32(16) + fmt) + (DATA + Le32(p.Payload()));
    PcmParts(size, Le32(16), fmt, Le32(p.Payload()));
    StoresU32(p.Payload() + 36);
    StoresU32(16);
    StoresU32(p.Payload());
    FmtAt20(b, p, 1, 2);
  }

  lemma PcmParts(size: seq<byte>, sixteen: seq<byte>, fmt: seq<byte>, payload: seq<byte>)
    requires |size| == |sixteen| == |payload| == 4 && |fmt| == 16
    ensures var b := RIFF + size + WAVE + (FMT + sixteen + fmt) + (DATA + payload);
            && |b| == 44 && b[0..4] == RIFF && b[4..8] == size && b[8..12] == WAVE && b[12..16] == FMT
            && b[16..20] == sixteen && b[20..36] == fmt && b[36..40] == DATA && b[40..44] == payload
  {
    var riff, chunk, data := RIFF + size + WAVE, FMT + sixteen + fmt, DATA + payload;
    var b := riff + chunk + data;
    assert b[0..12] == riff && b[12..36] == chunk && b[36..44] == data;
    InPart(b, 0, riff, RIFF, size, WAVE);
    InPart(b, 12, chunk, FMT, sixteen, fmt);
    InPart(b, 36, data, DATA, payload, []);
  }

  /** The 58 bytes of a float header. Its two sizes are exact as far as 32 bits go. */
  lemma FloatHeaderIs(p: Params)
    requires p.Accepted() && p.format.IeeeFloat?
    ensures WriteHeader(p).Written? && |WriteHeader(p).bytes| == 58
    ensures var b := WriteHeader(p).bytes;
            && b[0..4] == [0x52, 0x49, 0x46, 0x46] && U32(b[4..8]) == (4 * p.samples + 50) % 0x1_0000_0000
            && b[8..12] == [0x57, 0x41, 0x56, 0x45]
            && b[12..16] == [0x66, 0x6D, 0x74, 0x20] && U32(b[16..20]) == 18
            && FmtFields(b, p, 3, 4) && b[36..38] == [0, 0]
            && b[38..42] == [0x66, 0x61, 0x63, 0x74] && U32(b[42..46]) == 4
            && U32(b[46..50]) == p.channels * p.samples % 0x1_0000_0000
            && b[50..54] == [0x64, 0x61, 0x74, 0x61] && U32(b[54..58]) == 4 * p.samples
  {
    hide Le32, Le16, U32, U16, CheckParameters, FmtFields;
    var b := WriteHeader(p).bytes;
    ZeroIs();
    var size, fmt := Le32(RiffChunkSize(p.Payload(), 58)), FmtOf(p).Bytes();
    var count := Le32(p.channels * p.samples);
    assert b == RIFF + size + WAVE + (FMT + Le32(18) + (fmt + Le16(0))) + (FACT + Le32(4) + count) + (DATA + Le32(p.Payload()));
    FloatParts(size, Le32(18), fmt, Le16(0), Le32(4), count, Le32(p.Payload()));
    PayloadFits(p);
    StoresU32(RiffChunkSize(p.Payload(), 58));
    StoresU32(18);
    StoresU32(4);
    StoresU32(p.channels * p.samples);
    StoresU32(p.Payload());
    FmtAt20(b, p, 3, 4);
  }

  lemma ZeroIs()
    ensures Le16(0) == [0, 0]
  {
  }

  lemma FloatParts(size: seq<byte>, eighteen: seq<byte>, fmt: seq<byte>, extension: seq<byte>,
                   four: seq<byte>, count: seq<byte>, payload: seq<byte>)
    requires |size| == |eighteen| == |four| == |count| == |payload| == 4 && |fmt| == 16 && |extension| == 2
    ensures var b := RIFF + size + WAVE + (FMT + eighteen + (fmt + extension)) + (FACT + four + count) + (DATA + payload);
            && |b| == 58 && b[0..4] == RIFF && b[4..8] == size && b[8..12] == WAVE && b[12..16] == FMT
            && b[16..20] == eighteen && b[20..36] == fmt && b[36..38] == extension && b[38..42] == FACT
            && b[42..46] == four && b[46..50] == count && b[50..54] == DATA && b[54..58] == payload
  {
    var riff, chunk, fact, data := RIFF + size + WAVE, FMT + eighteen + (fmt + extension), FACT + four + count, DATA + payload;
    var b := riff + chunk + fact + data;
    assert b[0..12] == riff && b[12..38] == chunk && b[38..50] == fact && b[50..58] == data;
    InPart(b, 0, riff, RIFF, size, WAVE);
    InPart(b, 12, chunk, FMT, eighteen, fmt + extension);
    assert b[20..38][0..16] == fmt && b[20..38][16..18] == extension;
    assert b[20..36] == b[20..38][0..16] && b[36..38] == b[20..38][16..18];
    InPart(b, 38, fact, FACT, four, count);
    InPart(b, 50, data, DATA, payload, []);
  }

  /** The three parts of a part of `b`. */
  lemma InPart(b: seq<byte>, at: nat, part: seq<byte>, x: seq<byte>, y: seq<byte>, z: seq<byte>)
    requires at + |part| <= |b| && b[at..at + |part|] == part && part == x + y + z
    ensures b[at..at + |x|] == x && b[at + |x|..at + |x| + |y|] == y && b[at + |x| + |y|..at + |part|] == z
  {
    SliceOfPart(b, at, part, 0, |x|);
    SliceOfPart(b, at, part, |x|, |x| + |y|);
    SliceOfPart(b, at, part, |x| + |y|, |part|);
    assert part[0..|x|] == x && part[|x|..|x| + |y|] == y && part[|x| + |y|..|part|] == z;
    assert at + 0 == at && at + (|x| + |y|) == at + |x| + |y|;
  }

  lemma SliceOfPart(b: seq<byte>, at: nat, part: seq<byte>, i: nat, j: nat)
    requires at + |part| <= |b| && b[at..at + |part|] == part && i <= j <= |part|
    ensures b[at + i..at + j] == part[i..j]
  {
    forall k | 0 <= k < j - i
      ensures b[at + i..at + j][k] == part[i..j][k]
    {
      assert part[i + k] == b[at..at + |part|][i + k] == b[at + i + k];
    }
  }

  // Reading.

  /** The "fmt " fields, as the bytes of the chunk spell them. */
  lemma FmtReadAs(s: seq<byte>)
    requires |s| == FMT_SIZE
    ensures GetFmt(s) == Fmt(U16(s[..2]), U16(s[2..4]), U32(s[4..8]), U32(s[8..12]), U16(s[12..14]), U16(s[14..]))
  {
    LoadsU16(s[..2]);
    LoadsU16(s[2..4]);
    LoadsU32(s[4..8]);
    LoadsU32(s[8..12]);
    LoadsU16(s[12..14]);
    LoadsU16(s[14..]);
  }

  /** The reader's verdict, in numbers: which fields make a header, and which. */
  lemma JudgeIff(riffSize: nat, f: Fmt, payload: nat, dataStart: nat)
    requires f.Fits()
    ensures var n := f.bitsPerSample / 8;
            var h := if f.audioFormat == 1 then 44 else 58;
            Judge(riffSize, f, payload, dataStart).Header? <==>
              && ((f.audioFormat == 1 && (n == 1 || n == 2)) || (f.audioFormat == 3 && n == 4))
              && 0 < f.channels && 0 < f.rate < 0x8000_0000 && f.channels * f.rate * n <= 4294967295
              && f.byteRate == f.channels * f.rate * n && f.blockAlign == f.channels * n % 65536
              && riffSize >= (payload + h - 8) % 0x1_0000_0000
              && payload / n <= 4294967259 / n && payload / n % f.channels == 0
    ensures var n := f.bitsPerSample / 8;
            Judge(riffSize, f, payload, dataStart).Header? ==>
              Judge(riffSize, f, payload, dataStart)
              == Header(f.channels, f.rate, if f.audioFormat == 1 then Pcm else IeeeFloat, n, payload / n, dataStart)
    ensures Judge(riffSize, f, payload, dataStart).Unsupported? <==> f.audioFormat != 1 && f.audioFormat != 3
  {
    var n := f.bitsPerSample / 8;
    assert f.channels * f.rate == f.rate * f.channels;
    if f.rate * f.channels * n <= 4294967295 {
      ByteRateExact(f.channels, f.rate, n);
    }
  }

  lemma WrongTagsRejected(file: seq<byte>)
    requires |file| < 12 || file[..4] != [0x52, 0x49, 0x46, 0x46] || file[8..12] != [0x57, 0x41, 0x56, 0x45]
    ensures ReadHeader(file).Invalid?
  {
  }

  /** A "fmt " chunk that is neither 16 bytes nor 18 with an empty extension makes the file
      invalid, whatever it contains. */
  lemma OtherFmtRejected(size: seq<byte>, before: seq<Chunk>, c: Chunk, rest: seq<byte>)
    requires |size| == 4 && Others(before, FMT) && c.Valid() && c.id == FMT && !IsFmt(c)
    ensures ReadHeader(RIFF + size + WAVE + ChunkBytes(before) + c.Bytes() + rest).Invalid?
  {
    var riff, skipped := RIFF + size + WAVE, ChunkBytes(before);
    var file := riff + skipped + c.Bytes() + rest;
    TwoParts(riff, skipped, c.Bytes(), rest);
    RiffRead(file, size, skipped + c.Bytes() + rest);
    FindSkips(file, riff, before, c.Bytes() + rest, FMT);
    FmtUnreadable(file, riff + skipped, c, rest);
  }

  lemma FmtUnreadable(file: seq<byte>, pre: seq<byte>, c: Chunk, post: seq<byte>)
    requires c.Valid() && c.id == FMT && !IsFmt(c) && file == pre + c.Bytes() + post
    ensures FindChunk(file, |pre|, FMT) == Found(|c.payload|, |pre| + CHUNK_HEADER_SIZE)
    ensures FmtEnd(file, |pre| + CHUNK_HEADER_SIZE, |c.payload|) == -1
  {
    ChunkFirst(pre, FMT, c.size, c.payload, post);
    FindHere(file, pre, FMT, c.size, c.payload + post);
    if |c.payload| == FMT_SIZE + 2 {
      PayloadAt(pre, FMT + c.size, c.payload, post, FMT_SIZE, FMT_SIZE + 2);
    }
  }

  /** So does the lack of a "fmt " chunk, or of a "data" chunk behind it. */
  lemma MissingFmtRejected(size: seq<byte>, chunks: seq<Chunk>, rest: seq<byte>)
    requires |size| == 4 && Others(chunks, FMT) && |rest| < CHUNK_HEADER_SIZE
    ensures ReadHeader(RIFF + size + WAVE + ChunkBytes(chunks) + rest).Invalid?
  {
    var riff := RIFF + size + WAVE;
    var file := riff + ChunkBytes(chunks) + rest;
    assert file == riff + (ChunkBytes(chunks) + rest);
    RiffRead(file, size, ChunkBytes(chunks) + rest);
    FindSkips(file, riff, chunks, rest, FMT);
  }

  lemma MissingDataRejected(size: seq<byte>, before: seq<Chunk>, c: Chunk, between: seq<Chunk>, rest: seq<byte>)
    requires |size| == 4 && Others(before, FMT) && IsFmt(c) && Others(between, DATA) && |rest| < CHUNK_HEADER_SIZE
    ensures ReadHeader(RIFF + size + WAVE + ChunkBytes(before) + c.Bytes() + ChunkBytes(between) + rest).Invalid?
  {
    hide FindChunk, FmtEnd, GetFmt, Judge, Get32, ChunkBytes;
    var riff, skipped := RIFF + size + WAVE, ChunkBytes(before);
    var fmt, more := c.Bytes(), ChunkBytes(between);
    var file := riff + skipped + fmt + more + rest;
    assert file == riff + (skipped + fmt + more + rest);
    RiffRead(file, size, skipped + fmt + more + rest);
    assert file == riff + skipped + fmt + (more + rest);
    FmtPlace(file, riff, before, c, more + rest, |riff + skipped| + CHUNK_HEADER_SIZE);
    FindSkips(file, riff + skipped + fmt, between, rest, DATA);
    NothingLeft(file, |riff + skipped + fmt + more|, DATA);
  }

  lemma NothingLeft(file: seq<byte>, pos: nat, id: seq<byte>)
    requires |file| < pos + CHUNK_HEADER_SIZE
    ensures FindChunk(file, pos, id).NotFound?
  {
  }
}
