/** Reading WAV headers off a file, and 16-bit PCM sample I/O in chunks. A file is its
    bytes and a position. */
module WavFiles {
  import opened Bytes
  import opened Numbers
  import opened WavHeader
  import opened WavHeaderProofs

  const MAX_CHUNK := 4096

  /** Up to `n` bytes from `pos` on; none past the end. */
  function ReadAt(bytes: seq<byte>, pos: nat, n: nat): (s: seq<byte>)
    ensures |s| == if pos > |bytes| then 0 else Min(n, |bytes| - pos)
  {
    if pos > |bytes| then [] else bytes[pos..pos + Min(n, |bytes| - pos)]
  }

  function WriteAt(bytes: seq<byte>, pos: nat, s: seq<byte>): seq<byte>
    requires pos <= |bytes|
  {
    bytes[..pos] + s + if pos + |s| < |bytes| then bytes[pos + |s|..] else []
  }

  class File {
    var bytes: seq<byte>
    var pos: nat

    constructor (contents: seq<byte>)
      ensures bytes == contents && pos == 0
    {
      bytes, pos := contents, 0;
    }

    method Read(n: nat) returns (s: seq<byte>)
      modifies this`pos
      ensures s == ReadAt(bytes, old(pos), n) && pos == old(pos) + |s|
    {
      s := ReadAt(bytes, pos, n);
      pos := pos + |s|;
    }

    method Write(s: seq<byte>)
      requires pos <= |bytes|
      modifies this
      ensures bytes == WriteAt(old(bytes), old(pos), s) && pos == old(pos) + |s|
    {
      bytes := WriteAt(bytes, pos, s);
      pos := pos + |s|;
    }
  }

  // Reading the header.

  lemma HeaderParts(bytes: seq<byte>, pos: nat)
    ensures |ReadAt(bytes, pos, CHUNK_HEADER_SIZE)| == CHUNK_HEADER_SIZE <==> CanRead(bytes, pos, CHUNK_HEADER_SIZE)
    ensures CanRead(bytes, pos, CHUNK_HEADER_SIZE) ==>
      && ReadAt(bytes, pos, CHUNK_HEADER_SIZE)[..4] == bytes[pos..pos + 4]
      && ReadAt(bytes, pos, CHUNK_HEADER_SIZE)[4..] == bytes[pos + 4..pos + 8]
  {
  }

  method FindWaveChunk(file: File, id: seq<byte>) returns (found: Found)
    modifies file`pos
    ensures found == FindChunk(file.bytes, old(file.pos), id)
    ensures found.Found? ==> file.pos == found.pos
  {
    while true
      invariant FindChunk(file.bytes, file.pos, id) == FindChunk(file.bytes, old(file.pos), id)
      decreases |file.bytes| - file.pos
    {
      HeaderParts(file.bytes, file.pos);
      var header := file.Read(CHUNK_HEADER_SIZE);
      if |header| != CHUNK_HEADER_SIZE {
        return NotFound;
      }
      var size := Get32(header[4..]);
      if header[..4] == id {
        return Found(size, file.pos);
      }
      file.pos := file.pos + size;
    }
  }

  method ReadFmtChunkData(file: File, size: nat) returns (ok: bool, fmt: Fmt)
    modifies file`pos
    ensures ok <==> FmtEnd(file.bytes, old(file.pos), size) >= 0
    ensures fmt.Fits()
    ensures ok ==> file.pos == FmtEnd(file.bytes, old(file.pos), size)
    ensures ok ==> fmt == GetFmt(file.bytes[old(file.pos)..old(file.pos) + FMT_SIZE])
  {
    fmt := Fmt(0, 0, 0, 0, 0, 0);
    var fields := file.Read(FMT_SIZE);
    if |fields| != FMT_SIZE {
      return false, fmt;
    }
    fmt := GetFmt(fields);
    if size != FMT_SIZE {
      if size != FMT_SIZE + 2 {
        return false, fmt;
      }
      var extension := file.Read(2);
      if |extension| != 2 || extension != [0, 0] {
        return false, fmt;
      }
    }
    return true, fmt;
  }

  /** Reads a header off a file that stands at its start, and leaves it at the data. */
  method ReadWavHeader(file: File) returns (h: Header)
    requires file.pos == 0
    modifies file`pos
    ensures h == ReadHeader(file.bytes)
    ensures h.Header? ==> file.pos == h.dataStart
  {
    var riff := file.Read(12);
    if |riff| != 12 || riff[..4] != RIFF || riff[8..] != WAVE {
      return Invalid;
    }
    assert riff[4..8] == file.bytes[4..8] && riff[8..] == file.bytes[8..12];
    var fmtChunk := FindWaveChunk(file, FMT);
    if fmtChunk.NotFound? {
      return Invalid;
    }
    var ok, fmt := ReadFmtChunkData(file, fmtChunk.size);
    if !ok {
      return Invalid;
    }
    var data := FindWaveChunk(file, DATA);
    if data.NotFound? {
      return Invalid;
    }
    h := Judge(Get32(riff[4..8]), fmt, data.size, file.pos);
  }

  // Samples.

  type sample = x: int | -0x8000 <= x < 0x8000

  function GetSample(s: seq<byte>): sample
    requires |s| == 2
  {
    if Get16(s) < 0x8000 then Get16(s) else Get16(s) - 0x1_0000
  }

  function Payload(xs: seq<sample>): (s: seq<byte>)
    ensures |s| == 2 * |xs|
  {
    if xs == [] then [] else Payload(xs[..|xs| - 1]) + Le16(xs[|xs| - 1])
  }

  function Samples(s: seq<byte>): (xs: seq<sample>)
    ensures |xs| == |s| / 2
  {
    seq(|s| / 2, i requires 0 <= i < |s| / 2 => GetSample(s[2 * i..2 * i + 2]))
  }

  lemma SampleReadsBack(x: sample)
    ensures GetSample(Le16(x)) == x
  {
    Get16Le16(x);
  }

  lemma {:induction false} PayloadAppend(xs: seq<sample>, ys: seq<sample>)
    ensures Payload(xs + ys) == Payload(xs) + Payload(ys)
  {
    if ys == [] {
      assert xs + ys == xs;
    } else {
      var n := |ys| - 1;
      PayloadAppend(xs, ys[..n]);
      assert (xs + ys)[..|xs| + n] == xs + ys[..n];
      assert Payload(xs) + Payload(ys[..n]) + Le16(ys[n]) == Payload(xs) + (Payload(ys[..n]) + Le16(ys[n]));
    }
  }

  lemma {:induction false} SamplesOfPayload(xs: seq<sample>)
    ensures Samples(Payload(xs)) == xs
  {
    if xs != [] {
      var n := |xs| - 1;
      SamplesOfPayload(xs[..n]);
      SampleReadsBack(xs[n]);
      SamplesSnoc(Payload(xs[..n]), Le16(xs[n]));
    }
  }

  /** Samples are stored low byte first, negative ones in two's complement. */
  lemma {:induction false} PayloadBytes(xs: seq<sample>, i: nat)
    requires i < |xs|
    ensures Payload(xs)[2 * i] as int + 256 * Payload(xs)[2 * i + 1] as int == if xs[i] < 0 then xs[i] as int + 65536 else xs[i]
    decreases |xs|
  {
    if i == |xs| - 1 {
      assert Payload(xs)[2 * i..] == Le16(xs[i]);
      assert Payload(xs)[2 * i] == Le16(xs[i])[0] && Payload(xs)[2 * i + 1] == Le16(xs[i])[1];
      TwosComplement(xs[i]);
    } else {
      PayloadBytes(xs[..|xs| - 1], i);
    }
  }

  lemma TwosComplement(x: sample)
    ensures Le16(x)[0] as int + 256 * Le16(x)[1] as int == if x < 0 then x as int + 65536 else x
  {
  }

  lemma SamplesSnoc(s: seq<byte>, last: seq<byte>)
    requires |s| % 2 == 0 && |last| == 2
    ensures Samples(s + last) == Samples(s) + [GetSample(last)]
  {
    var n := |s| / 2;
    forall i | 0 <= i < n
      ensures Samples(s + last)[i] == Samples(s)[i]
    {
      assert (s + last)[2 * i..2 * i + 2] == s[2 * i..2 * i + 2];
    }
    assert (s + last)[2 * n..2 * n + 2] == last;
  }

  // Writing.

  function BlankHeader(format: Format): (s: seq<byte>)
    ensures |s| == HeaderSize(format)
  {
    seq(HeaderSize(format), _ => 0)
  }

  class WavWriter {
    const file: File
    const rate: int
    const channels: nat
    const format: Format
    var samplesWritten: nat
    ghost var payload: seq<byte>

    ghost function ParamsNow(): Params
      reads this
    {
      Params(channels, rate, format, samplesWritten)
    }

    /** Until it is closed, the file is a blank header and the payload so far. */
    ghost predicate Valid()
      reads this, file
    {
      && (format.Pcm? || format.IeeeFloat?)
      && |payload| == BytesPerSample(format) * samplesWritten
      && file.bytes == BlankHeader(format) + payload
      && file.pos == |file.bytes|
    }

    constructor (file: File, rate: int, channels: nat, format: Format)
      requires file.bytes == [] && file.pos == 0
      requires format.Pcm? || format.IeeeFloat?
      requires Params(channels, rate, format, 0).Accepted()
      modifies file
      ensures Valid() && payload == [] && samplesWritten == 0
      ensures this.file == file && this.rate == rate && this.channels == channels && this.format == format
    {
      this.file, this.rate, this.channels, this.format := file, rate, channels, format;
      samplesWritten, payload := 0, [];
      file.Write(BlankHeader(format));
    }

    method WriteSamples(samples: seq<sample>)
      requires Valid() && format.Pcm?
      modifies this, file
      ensures Valid() && payload == old(payload) + Payload(samples)
      ensures samplesWritten == old(samplesWritten) + |samples|
    {
      hide Payload, WriteAt;
      var i := 0;
      EmptyPayload();
      while i < |samples|
        invariant 0 <= i <= |samples| && Valid() && samplesWritten == old(samplesWritten) + i
        invariant payload == old(payload) + Payload(samples[..i])
      {
        var n := Min(MAX_CHUNK, |samples| - i);
        ghost var chunk := samples[i..i + n];
        PayloadAppend(samples[..i], chunk);
        AppendAtEnd(file.bytes, Payload(chunk));
        file.Write(Payload(samples[i..i + n]));
        samplesWritten := samplesWritten + n;
        assert samples[..i] + chunk == samples[..i + n];
        payload := payload + Payload(chunk);
        i := i + n;
      }
      assert samples[..i] == samples;
    }

    /** Writes the real header over the blank one. */
    method Close()
      requires Valid() && ParamsNow().Accepted()
      modifies file
      ensures WriteHeader(ParamsNow()).Written?
      ensures file.bytes == WriteHeader(ParamsNow()).bytes + payload
    {
      hide WriteHeader, WriteAt, CheckParameters, BlankHeader;
      file.pos := 0;
      WriterMakesLayout(ParamsNow(), []);
      var header := WriteHeader(Params(channels, rate, format, samplesWritten));
      HeaderReplaced(BlankHeader(format), payload, header.bytes);
      file.Write(header.bytes);
    }
  }

  lemma HeaderReplaced(blank: seq<byte>, payload: seq<byte>, header: seq<byte>)
    requires |header| == |blank|
    ensures WriteAt(blank + payload, 0, header) == header + payload
  {
  }

  lemma EmptyPayload()
    ensures Payload([]) == []
  {
  }

  lemma AppendAtEnd(bytes: seq<byte>, s: seq<byte>)
    ensures WriteAt(bytes, |bytes|, s) == bytes + s
  {
  }

  // Reading.

  /** The 16-bit samples at `start`, `n` of them. */
  function SamplesAt(bytes: seq<byte>, start: nat, n: nat): (xs: seq<sample>)
    requires start + 2 * n <= |bytes|
    ensures |xs| == n
  {
    Samples(bytes[start..start + 2 * n])
  }

  lemma SamplesAtSplit(bytes: seq<byte>, start: nat, n: nat, m: nat)
    requires m <= n && start + 2 * n <= |bytes|
    ensures SamplesAt(bytes, start, n) == SamplesAt(bytes, start, m) + SamplesAt(bytes, start + 2 * m, n - m)
  {
    forall i | 0 <= i < n
      ensures SamplesAt(bytes, start, n)[i] == (SamplesAt(bytes, start, m) + SamplesAt(bytes, start + 2 * m, n - m))[i]
    {
      SampleAt(bytes, start, n, i);
      if i < m {
        SampleAt(bytes, start, m, i);
      } else {
        SampleAt(bytes, start + 2 * m, n - m, i - m);
      }
    }
  }

  lemma SampleAt(bytes: seq<byte>, start: nat, n: nat, i: nat)
    requires i < n && start + 2 * n <= |bytes|
    ensures SamplesAt(bytes, start, n)[i] == GetSample(bytes[start + 2 * i..start + 2 * i + 2])
  {
    PairInSlice(bytes, start, start + 2 * n, 2 * i);
  }

  lemma PairInSlice(bytes: seq<byte>, a: nat, b: nat, k: nat)
    requires a + k + 2 <= b <= |bytes|
    ensures bytes[a..b][k..k + 2] == bytes[a + k..a + k + 2]
  {
    var s, t := bytes[a..b][k..k + 2], bytes[a + k..a + k + 2];
    assert s[0] == t[0] && s[1] == t[1];
    assert s == [s[0], s[1]] && t == [t[0], t[1]];
  }

  class WavReader {
    const file: File
    const format: Format
    const dataStart: nat
    const samplesInFile: nat
    var unread: nat

    /** The position agrees with the samples read so far. */
    ghost predicate Valid()
      reads this, file
    {
      unread <= samplesInFile && file.pos == dataStart + BytesPerSample(format) * (samplesInFile - unread)
    }

    constructor (file: File)
      requires file.pos == 0 && ReadHeader(file.bytes).Header?
      modifies file`pos
      ensures this.file == file && Valid() && unread == samplesInFile
      ensures format == ReadHeader(file.bytes).format
      ensures dataStart == ReadHeader(file.bytes).dataStart && samplesInFile == ReadHeader(file.bytes).samples
    {
      var h := ReadWavHeader(file);
      this.file := file;
      format := h.format;
      dataStart := h.dataStart;
      samplesInFile := h.samples;
      unread := h.samples;
    }

    method Reset()
      modifies this, file`pos
      ensures Valid() && unread == samplesInFile
    {
      file.pos := dataStart;
      unread := samplesInFile;
    }

    /** Reads the next samples, as many as are asked for and left, and stops at the end of
        the payload whatever follows it. The file holds the samples to return; see
        ReadLoopEndsIff for one that does not. */
    method ReadSamples(count: nat) returns (samples: seq<sample>)
      requires Valid() && format.Pcm? && file.pos + 2 * Min(count, unread) <= |file.bytes|
      modifies this, file`pos
      ensures Valid()
      ensures |samples| == Min(count, old(unread)) && unread == old(unread) - |samples|
      ensures samples == SamplesAt(file.bytes, old(file.pos), |samples|)
    {
      hide SamplesAt;
      var left := count;
      samples := [];
      while left > 0 && unread > 0
        invariant Valid() && 0 <= left && file.pos + 2 * Min(left, unread) <= |file.bytes|
        invariant |samples| + left == count && unread == old(unread) - |samples|
        invariant file.pos == old(file.pos) + 2 * |samples|
        invariant samples == SamplesAt(file.bytes, old(file.pos), |samples|)
      {
        var chunk := Min(Min(MAX_CHUNK, left), unread);
        SamplesAtSplit(file.bytes, old(file.pos), |samples| + chunk, |samples|);
        var read := ReadChunk(chunk);
        samples := samples + read;
        unread := unread - |read|;
        left := left - |read|;
      }
    }

    method ReadChunk(chunk: nat) returns (samples: seq<sample>)
      requires file.pos + 2 * chunk <= |file.bytes|
      modifies file`pos
      ensures samples == SamplesAt(file.bytes, old(file.pos), chunk)
      ensures file.pos == old(file.pos) + 2 * chunk
    {
      var bytes := file.Read(2 * chunk);
      samples := Samples(bytes);
    }
  }

  /** What was written is what is read, with any bytes appended after the payload. */
  lemma ReaderSeesWrittenSamples(p: Params, xs: seq<sample>, extra: seq<byte>)
    requires p.Accepted() && p.format.Pcm? && p.samples == |xs|
    ensures WriteHeader(p).Written?
    ensures var file, h := WriteHeader(p).bytes + Payload(xs) + extra, ReadHeader(WriteHeader(p).bytes + Payload(xs) + extra);
            && h == Header(p.channels, p.rate, Pcm, 2, |xs|, PCM_HEADER_SIZE)
            && h.dataStart + 2 * h.samples <= |file|
            && SamplesAt(file, h.dataStart, h.samples) == xs
  {
    var header, payload := WriteHeader(p).bytes, Payload(xs);
    WriterMakesLayout(p, payload + extra);
    ReadsWrittenHeader(p, payload + extra);
    Between(header, payload, extra);
    SamplesOfPayload(xs);
  }

  lemma Between(a: seq<byte>, b: seq<byte>, c: seq<byte>)
    ensures a + b + c == a + (b + c)
    ensures (a + b + c)[|a|..|a| + |b|] == b
  {
  }

  /** What successive calls of ReadSamples return, for requests of the given sizes. */
  function ReadInTurn(bytes: seq<byte>, pos: nat, unread: nat, requests: seq<nat>): seq<sample>
    requires pos + 2 * unread <= |bytes|
    decreases requests
  {
    if requests == [] then []
    else
      var n := Min(requests[0], unread);
      SamplesAt(bytes, pos, n) + ReadInTurn(bytes, pos + 2 * n, unread - n, requests[1..])
  }

  function Sum(requests: seq<nat>): nat {
    if requests == [] then 0 else requests[0] + Sum(requests[1..])
  }

  /** In whatever amounts the samples are asked for, they come in order and stop exactly at
      the end. */
  lemma {:induction false} RequestsMakeNoDifference(bytes: seq<byte>, pos: nat, unread: nat, requests: seq<nat>)
    requires pos + 2 * unread <= |bytes|
    ensures ReadInTurn(bytes, pos, unread, requests) == SamplesAt(bytes, pos, Min(Sum(requests), unread))
    decreases requests
  {
    if requests != [] {
      var n := Min(requests[0], unread);
      var m := Min(Sum(requests[1..]), unread - n);
      RequestsMakeNoDifference(bytes, pos + 2 * n, unread - n, requests[1..]);
      SamplesAtSplit(bytes, pos, n + m, n);
      assert n + m == Min(Sum(requests), unread);
    }
  }

  // A file written in batches and read in requests.

  function Joined(batches: seq<seq<sample>>): seq<sample> {
    if batches == [] then [] else batches[0] + Joined(batches[1..])
  }

  method WriteBatches(writer: WavWriter, batches: seq<seq<sample>>)
    requires writer.Valid() && writer.format.Pcm?
    modifies writer, writer.file
    ensures writer.Valid() && writer.payload == old(writer.payload) + Payload(Joined(batches))
    ensures writer.samplesWritten == old(writer.samplesWritten) + |Joined(batches)|
    decreases batches
  {
    hide Payload;
    if batches == [] {
      EmptyPayload();
    } else {
      writer.WriteSamples(batches[0]);
      WriteBatches(writer, batches[1..]);
      PayloadAppend(batches[0], Joined(batches[1..]));
    }
  }

  method WriteFile(rate: int, channels: nat, batches: seq<seq<sample>>) returns (output: File)
    requires Params(channels, rate, Pcm, |Joined(batches)|).Accepted()
    ensures var p := WriteHeader(Params(channels, rate, Pcm, |Joined(batches)|));
            p.Written? && output.bytes == p.bytes + Payload(Joined(batches))
  {
    hide WriteHeader, Payload, Joined;
    output := new File([]);
    var writer := new WavWriter(output, rate, channels, Pcm);
    WriteBatches(writer, batches);
    assert writer.payload == Payload(Joined(batches));
    writer.Close();
  }

  method ReadRequests(reader: WavReader, requests: seq<nat>) returns (samples: seq<sample>)
    requires reader.Valid() && reader.format.Pcm? && reader.file.pos + 2 * reader.unread <= |reader.file.bytes|
    modifies reader, reader.file`pos
    ensures reader.Valid()
    ensures samples == ReadInTurn(reader.file.bytes, old(reader.file.pos), old(reader.unread), requests)
    decreases requests
  {
    hide SamplesAt;
    if requests == [] {
      samples := [];
    } else {
      var first := reader.ReadSamples(requests[0]);
      var later := ReadRequests(reader, requests[1..]);
      samples := first + later;
    }
  }

  lemma FrontOfSamples(bytes: seq<byte>, start: nat, n: nat, m: nat)
    requires m <= n && start + 2 * n <= |bytes|
    ensures SamplesAt(bytes, start, m) == SamplesAt(bytes, start, n)[..m]
  {
    SamplesAtSplit(bytes, start, n, m);
  }

  /** From the start of the data, requests get the front of the samples. */
  method ReadFromStart(reader: WavReader, requests: seq<nat>, ghost xs: seq<sample>) returns (samples: seq<sample>)
    requires reader.Valid() && reader.format.Pcm? && reader.unread == reader.samplesInFile == |xs|
    requires reader.dataStart + 2 * |xs| <= |reader.file.bytes|
    requires SamplesAt(reader.file.bytes, reader.dataStart, |xs|) == xs
    modifies reader, reader.file`pos
    ensures samples == xs[..Min(Sum(requests), |xs|)]
  {
    ghost var bytes, start := reader.file.bytes, reader.dataStart;
    RequestsMakeNoDifference(bytes, start, |xs|, requests);
    FrontOfSamples(bytes, start, |xs|, Min(Sum(requests), |xs|));
    samples := ReadRequests(reader, requests);
  }

  /** In whatever batches a file is written, whatever is appended to it, and in whatever
      requests it is read: the samples come back in order up to the number asked for, and
      again after a reset. */
  method WriteThenRead(rate: int, channels: nat, batches: seq<seq<sample>>, extra: seq<byte>,
                       requests: seq<nat>, moreRequests: seq<nat>)
    returns (samples: seq<sample>, again: seq<sample>)
    requires Params(channels, rate, Pcm, |Joined(batches)|).Accepted()
    ensures var xs := Joined(batches);
            samples == xs[..Min(Sum(requests), |xs|)] && again == xs[..Min(Sum(moreRequests), |xs|)]
  {
    hide WriteHeader, ReadHeader, Payload, SamplesAt, Sum, Joined, CheckParameters;
    ghost var xs := Joined(batches);
    var output := WriteFile(rate, channels, batches);
    ReaderSeesWrittenSamples(Params(channels, rate, Pcm, |xs|), xs, extra);
    var input := new File(output.bytes + extra);
    var reader := new WavReader(input);
    samples := ReadFromStart(reader, requests, xs);
    reader.Reset();
    again := ReadFromStart(reader, moreRequests, xs);
  }

  // The read loop on a payload that may be cut short.

  datatype Loop =
    | Going(left: nat, unread: nat, available: nat)   // available: bytes between the position and the end of the file
    | Done
    | Crashed

  /** One turn, with the two checks for a corrupt file. A read that gets less than it asks for
      sets the end-of-file flag, so the second never fails. */
  function Turn(l: Loop): Loop {
    match l
    case Done => Done
    case Crashed => Crashed
    case Going(left, unread, available) =>
      if left == 0 || unread == 0 then Done
      else
        var chunk := Min(Min(MAX_CHUNK, left), unread);
        var bytes := Min(2 * chunk, available);
        var n, atEnd := bytes / 2, bytes < 2 * chunk;
        if n != 0 && bytes % n != 0 then Crashed
        else if n != chunk && !atEnd then Crashed
        else Going(left - n, unread - n, available - bytes)
  }

  function Turns(l: Loop, k: nat): Loop
    decreases k
  {
    if k == 0 then l else Turns(Turn(l), k - 1)
  }

  lemma {:induction false} CompleteEnds(left: nat, unread: nat, available: nat) returns (k: nat)
    requires 2 * Min(left, unread) <= available
    ensures Turns(Going(left, unread, available), k).Done?
    decreases left
  {
    if left == 0 || unread == 0 {
      k := 1;
      assert Turns(Done, 0) == Done;
    } else {
      var n := TurnReadsChunk(left, unread, available);
      k := CompleteEnds(left - n, unread - n, available - 2 * n);
      k := k + 1;
    }
  }

  lemma TurnReadsChunk(left: nat, unread: nat, available: nat) returns (n: nat)
    requires 0 < left && 0 < unread && 2 * Min(left, unread) <= available
    ensures 0 < n <= Min(left, unread)
    ensures Turn(Going(left, unread, available)) == Going(left - n, unread - n, available - 2 * n)
  {
    n := Min(Min(MAX_CHUNK, left), unread);
    TwiceModulo(n);
  }

  lemma TwiceModulo(n: nat)
    requires n > 0
    ensures 2 * n % n == 0
  {
    assert 2 * n / n == 2;
  }

  predicate Short(l: Loop) {
    l.Crashed? || (l.Going? && 2 * Min(l.left, l.unread) > l.available)
  }

  lemma {:induction false} ShortNeverEnds(l: Loop, k: nat)
    requires Short(l)
    ensures !Turns(l, k).Done?
    decreases k
  {
    if k > 0 {
      ShortNeverEnds(Turn(l), k - 1);
    }
  }

  /** The loop comes to an end exactly if the file holds the bytes of all the samples it is
      to return; on a shorter payload it fails a check or goes round forever. */
  lemma ReadLoopEndsIff(left: nat, unread: nat, available: nat)
    ensures (exists k :: Turns(Going(left, unread, available), k).Done?) <==> 2 * Min(left, unread) <= available
  {
    if 2 * Min(left, unread) <= available {
      var k := CompleteEnds(left, unread, available);
    } else {
      forall k
        ensures !Turns(Going(left, unread, available), k).Done?
      {
        ShortNeverEnds(Going(left, unread, available), k);
      }
    }
  }
}
