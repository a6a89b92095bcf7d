/** WAV headers: what the writer lays out and what the chunk-skipping reader makes of any
    byte sequence. */
module WavHeader {
  import opened Bytes
  import opened Numbers

  const PCM_HEADER_SIZE := 44
  const FLOAT_HEADER_SIZE := 58
  const CHUNK_HEADER_SIZE := 8
  const FMT_SIZE := 16

  const RIFF: seq<byte> := [0x52, 0x49, 0x46, 0x46]
  const WAVE: seq<byte> := [0x57, 0x41, 0x56, 0x45]
  const FMT: seq<byte> := [0x66, 0x6D, 0x74, 0x20]
  const FACT: seq<byte> := [0x66, 0x61, 0x63, 0x74]
  const DATA: seq<byte> := [0x64, 0x61, 0x74, 0x61]

  // Little-endian fields; storing a number keeps its low bits.

  function Le16(v: int): (s: seq<byte>)
    ensures |s| == 2
  {
    [v % 256, v / 256 % 256]
  }

  function Le32(v: int): (s: seq<byte>)
    ensures |s| == 4
  {
    Le16(v) + Le16(v / 0x1_0000)
  }

  function Get16(s: seq<byte>): (v: nat)
    requires |s| == 2
    ensures v < 0x1_0000
  {
    s[0] as int + 256 * s[1] as int
  }

  function Get32(s: seq<byte>): (v: nat)
    requires |s| == 4
    ensures v <= UINT32_MAX
  {
    Get16(s[..2]) + 0x1_0000 * Get16(s[2..])
  }

  lemma Get16Le16(v: int)
    ensures Get16(Le16(v)) == v % 0x1_0000
  {
  }

  lemma Get32Le32(v: int)
    ensures Get32(Le32(v)) == v % 0x1_0000_0000
  {
    Get16Le16(v);
    Get16Le16(v / 0x1_0000);
    assert Le32(v)[..2] == Le16(v) && Le32(v)[2..] == Le16(v / 0x1_0000);
    TwoHalves(v);
  }

  lemma TwoHalves(v: int)
    ensures v % 0x1_0000 + 0x1_0000 * (v / 0x1_0000 % 0x1_0000) == v % 0x1_0000_0000
  {
    var q := v / 0x1_0000;
    assert v == 0x1_0000_0000 * (q / 0x1_0000) + (v % 0x1_0000 + 0x1_0000 * (q % 0x1_0000));
  }

  /** The conversion of an unsigned 32-bit number to `int`. */
  function ToInt32(v: nat): int
    requires v <= UINT32_MAX
  {
    if v < 0x8000_0000 then v else v - 0x1_0000_0000
  }

  // Parameters.

  datatype Format = Pcm | IeeeFloat | ALaw | MuLaw

  function FormatField(f: Format): nat {
    match f
    case Pcm => 1
    case IeeeFloat => 3
    case ALaw => 6
    case MuLaw => 7
  }

  function BytesPerSample(f: Format): nat {
    match f
    case Pcm => 2
    case IeeeFloat => 4
    case ALaw => 1
    case MuLaw => 1
  }

  function HeaderSize(f: Format): nat {
    if f.Pcm? then PCM_HEADER_SIZE else FLOAT_HEADER_SIZE
  }

  function RiffChunkSize(payload: nat, headerSize: nat): nat
    requires headerSize >= CHUNK_HEADER_SIZE
  {
    (payload + headerSize - CHUNK_HEADER_SIZE) % 0x1_0000_0000
  }

  function ByteRate(channels: nat, rate: int, bytesPerSample: nat): nat {
    channels * rate * bytesPerSample % 0x1_0000_0000
  }

  function BlockAlign(channels: nat, bytesPerSample: nat): nat {
    channels * bytesPerSample % 0x1_0000
  }

  predicate CheckParameters(channels: nat, rate: int, format: Format, bytesPerSample: nat, samples: nat) {
    && channels != 0 && rate > 0 && bytesPerSample != 0
    && rate <= UINT32_MAX
    && channels <= 0xFFFF
    && bytesPerSample * 8 <= 0xFFFF
    && rate * channels * bytesPerSample <= UINT32_MAX
    && (match format
        case Pcm => bytesPerSample == 1 || bytesPerSample == 2
        case IeeeFloat => bytesPerSample == 4
        case ALaw => bytesPerSample == 1
        case MuLaw => bytesPerSample == 1)
    && samples <= (UINT32_MAX - (PCM_HEADER_SIZE - CHUNK_HEADER_SIZE)) / bytesPerSample
    && samples % channels == 0
  }

  datatype Params = Params(channels: nat, rate: int, format: Format, samples: nat) {
    predicate Accepted() {
      CheckParameters(channels, rate, format, BytesPerSample(format), samples)
    }

    function Payload(): nat {
      BytesPerSample(format) * samples
    }
  }

  // Writing.

  /** The fields of a "fmt " chunk. */
  datatype Fmt = Fmt(audioFormat: nat, channels: nat, rate: nat, byteRate: nat, blockAlign: nat, bitsPerSample: nat) {
    predicate Fits() {
      && audioFormat < 0x1_0000 && channels < 0x1_0000 && rate <= UINT32_MAX && byteRate <= UINT32_MAX
      && blockAlign < 0x1_0000 && bitsPerSample < 0x1_0000
    }

    function Bytes(): (s: seq<byte>)
      ensures |s| == FMT_SIZE
    {
      Le16(audioFormat) + Le16(channels) + Le32(rate) + Le32(byteRate) + Le16(blockAlign) + Le16(bitsPerSample)
    }
  }

  function FmtOf(p: Params): (f: Fmt)
    requires p.Accepted()
    ensures f.Fits()
  {
    var n := BytesPerSample(p.format);
    Fmt(FormatField(p.format), p.channels, p.rate, ByteRate(p.channels, p.rate, n), BlockAlign(p.channels, n), 8 * n)
  }

  /** A chunk as it stands in a file: four bytes of ID, four of size, and that much payload. */
  datatype Chunk = Chunk(id: seq<byte>, size: seq<byte>, payload: seq<byte>) {
    predicate Valid() {
      |id| == 4 && |size| == 4 && |payload| == Get32(size)
    }

    function Bytes(): (s: seq<byte>) {
      id + size + payload
    }
  }

  function ChunkBytes(cs: seq<Chunk>): (s: seq<byte>) {
    if cs == [] then [] else cs[0].Bytes() + ChunkBytes(cs[1..])
  }

  /** The header bytes; nothing for the formats on which the writer gives up. */
  datatype Written = Written(bytes: seq<byte>) | Fatal

  function WriteHeader(p: Params): Written {
    if !p.Accepted() || !(p.format.Pcm? || p.format.IeeeFloat?) then Fatal
    else
      var riff := RIFF + Le32(RiffChunkSize(p.Payload(), HeaderSize(p.format))) + WAVE;
      var data := DATA + Le32(p.Payload());
      if p.format.Pcm? then
        Written(riff + Chunk(FMT, Le32(FMT_SIZE), FmtOf(p).Bytes()).Bytes() + data)
      else
        var fmt := Chunk(FMT, Le32(FMT_SIZE + 2), FmtOf(p).Bytes() + Le16(0));
        var fact := Chunk(FACT, Le32(4), Le32(p.channels * p.samples));
        Written(riff + fmt.Bytes() + fact.Bytes() + data)
  }

  // Reading. A position may lie past the end of the file; reading there yields nothing.

  predicate CanRead(file: seq<byte>, pos: nat, n: nat) {
    pos + n <= |file|
  }

  datatype Found = Found(size: nat, pos: nat) | NotFound

  function FindChunk(file: seq<byte>, pos: nat, id: seq<byte>): (r: Found)
    ensures r.Found? ==> r.pos <= |file| && r.size <= UINT32_MAX
    decreases |file| - pos
  {
    if !CanRead(file, pos, CHUNK_HEADER_SIZE) then NotFound
    else
      var size := Get32(file[pos + 4..pos + 8]);
      if file[pos..pos + 4] == id then Found(size, pos + CHUNK_HEADER_SIZE)
      else FindChunk(file, pos + CHUNK_HEADER_SIZE + size, id)
  }

  function GetFmt(s: seq<byte>): (f: Fmt)
    requires |s| == FMT_SIZE
    ensures f.Fits()
  {
    Fmt(Get16(s[..2]), Get16(s[2..4]), Get32(s[4..8]), Get32(s[8..12]), Get16(s[12..14]), Get16(s[14..]))
  }

  /** Where the "fmt " chunk's data ends, if it can be read: 16 bytes, or 18 with an
      extension size of zero. */
  function FmtEnd(file: seq<byte>, pos: nat, size: nat): (end: int) {
    if !CanRead(file, pos, FMT_SIZE) then -1
    else if size == FMT_SIZE then pos + FMT_SIZE
    else if size == FMT_SIZE + 2 && CanRead(file, pos + FMT_SIZE, 2) && file[pos + 16..pos + 18] == [0, 0] then pos + FMT_SIZE + 2
    else -1
  }

  datatype Header =
    | Header(channels: nat, rate: int, format: Format, bytesPerSample: nat, samples: nat, dataStart: nat)
    | Invalid
    | Unsupported   // the reader's fatal check on the format

  /** The verdict on the fields found. */
  function Judge(riffSize: nat, f: Fmt, payload: nat, dataStart: nat): Header
    requires f.Fits()
  {
    if f.audioFormat != 1 && f.audioFormat != 3 then Unsupported
    else
      var format := if f.audioFormat == 1 then Pcm else IeeeFloat;
      var rate, n := ToInt32(f.rate), f.bitsPerSample / 8;
      if n == 0 then Invalid
      else
        var samples := payload / n;
        if riffSize < RiffChunkSize(payload, HeaderSize(format)) then Invalid
        else if f.byteRate != ByteRate(f.channels, rate, n) then Invalid
        else if f.blockAlign != BlockAlign(f.channels, n) then Invalid
        else if !CheckParameters(f.channels, rate, format, n, samples) then Invalid
        else Header(f.channels, rate, format, n, samples, dataStart)
  }

  function ReadHeader(file: seq<byte>): Header {
    if !CanRead(file, 0, 12) then Invalid
    else if file[..4] != RIFF || file[8..12] != WAVE then Invalid
    else
      match FindChunk(file, 12, FMT)
      case NotFound => Invalid
      case Found(fmtSize, fmtPos) =>
        var end := FmtEnd(file, fmtPos, fmtSize);
        if end < 0 then Invalid
        else
          match FindChunk(file, end, DATA)
          case NotFound => Invalid
          case Found(payload, dataStart) =>
            Judge(Get32(file[4..8]), GetFmt(file[fmtPos..fmtPos + FMT_SIZE]), payload, dataStart)
  }
}
