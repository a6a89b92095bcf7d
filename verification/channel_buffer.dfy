/** Multi-channel audio buffers: one block of samples with two tables of pointers into it
    (common_audio/channel_buffer.h). */
module ChannelBuffers {
  /** A pointer into the block of samples. */
  datatype Pointer = Pointer(offset: nat)

  /** Row-major index of (i, j) in a table of `rows` by `cols`. */
  function At(i: nat, j: nat, rows: nat, cols: nat): (k: nat)
    requires i < rows && j < cols
    ensures k < rows * cols
  {
    RowFits(i, rows, cols);
    i * cols + j
  }

  lemma RowFits(i: nat, rows: nat, cols: nat)
    requires i < rows
    ensures i * cols + cols == (i + 1) * cols <= rows * cols
  {
    assert (i + 1) * cols <= rows * cols;
  }

  lemma RowsApart(i: nat, i': nat, cols: nat)
    requires i < i'
    ensures i * cols + cols <= i' * cols
  {
    RowFits(i, i', cols);
  }

  lemma AtInjective(i: nat, j: nat, i': nat, j': nat, rows: nat, cols: nat)
    requires i < rows && j < cols && i' < rows && j' < cols
    requires At(i, j, rows, cols) == At(i', j', rows, cols)
    ensures i == i' && j == j'
  {
    if i < i' {
      RowsApart(i, i', cols);
      assert false;
    } else if i' < i {
      RowsApart(i', i, cols);
      assert false;
    }
  }

  /** Where the samples of a band of a channel start. */
  function Start(frames: nat, perBand: nat, ch: nat, band: nat): nat {
    ch * frames + band * perBand
  }

  /** Sample k belongs to the band of the channel. */
  predicate InBand(frames: nat, perBand: nat, ch: nat, band: nat, k: nat) {
    Start(frames, perBand, ch, band) <= k < Start(frames, perBand, ch, band) + perBand
  }

  /** A band lies within its channel. */
  lemma BandWithinChannel(frames: nat, perBand: nat, bands: nat, ch: nat, band: nat)
    requires bands * perBand <= frames && band < bands
    ensures Start(frames, perBand, ch, band) + perBand <= ch * frames + bands * perBand
  {
    RowFits(band, bands, perBand);
  }

  /** No sample belongs to bands of two channels. */
  lemma OneChannel(frames: nat, perBand: nat, bands: nat, ch: nat, band: nat, ch': nat, j: nat)
    requires bands * perBand <= frames && band < bands && j < frames
    requires InBand(frames, perBand, ch, band, ch' * frames + j)
    ensures ch == ch' && j < bands * perBand
  {
    BandWithinChannel(frames, perBand, bands, ch, band);
    if ch < ch' {
      RowsApart(ch, ch', frames);
      assert false;
    } else if ch' < ch {
      RowsApart(ch', ch, frames);
      assert false;
    }
  }

  /** No sample belongs to two bands: the parts of the block that the pointers stand for do
      not overlap. */
  lemma BandsDisjoint(frames: nat, perBand: nat, bands: nat, ch: nat, band: nat, ch': nat, band': nat, k: nat)
    requires bands * perBand <= frames && band < bands && band' < bands
    requires InBand(frames, perBand, ch, band, k) && InBand(frames, perBand, ch', band', k)
    ensures ch == ch' && band == band'
  {
    BandWithinChannel(frames, perBand, bands, ch', band');
    OneChannel(frames, perBand, bands, ch, band, ch', k - ch' * frames);
    if band < band' {
      RowsApart(band, band', perBand);
      assert false;
    } else if band' < band {
      RowsApart(band', band, perBand);
      assert false;
    }
  }

  /** Sample k of the block belongs to some band of some channel. */
  ghost predicate Covered(frames: nat, perBand: nat, channels: nat, bands: nat, k: nat) {
    exists ch: nat, band: nat :: ch < channels && band < bands && InBand(frames, perBand, ch, band, k)
  }

  /** The row of a row-major index. */
  lemma {:induction false} RowOf(k: nat, rows: nat, cols: nat) returns (i: nat)
    requires k < rows * cols
    ensures i < rows && i * cols <= k < i * cols + cols
  {
    if (rows - 1) * cols <= k {
      i := rows - 1;
    } else {
      i := RowOf(k, rows - 1, cols);
    }
  }

  /** Frame j of a channel belongs to a band exactly if it is before what the bands leave over. */
  lemma CoveredIff(frames: nat, perBand: nat, channels: nat, bands: nat, ch: nat, j: nat)
    requires bands * perBand <= frames && ch < channels && j < frames
    ensures Covered(frames, perBand, channels, bands, ch * frames + j) <==> j < bands * perBand
  {
    var k := ch * frames + j;
    if j < bands * perBand {
      var band := RowOf(j, bands, perBand);
      assert InBand(frames, perBand, ch, band, k);
    }
    if c: nat, band: nat :| c < channels && band < bands && InBand(frames, perBand, c, band, k) {
      OneChannel(frames, perBand, bands, c, band, ch, j);
    }
  }

  lemma CoveredAll(frames: nat, perBand: nat, channels: nat, bands: nat, k: nat)
    requires bands * perBand == frames && k < channels * frames
    ensures Covered(frames, perBand, channels, bands, k)
  {
    var ch := RowOf(k, channels, frames);
    CoveredIff(frames, perBand, channels, bands, ch, k - ch * frames);
  }

  /** The bands make up the whole block exactly if their number divides that of the frames. */
  lemma BandsCoverBlockIff(frames: nat, channels: nat, bands: nat)
    requires 0 < bands && 0 < channels
    ensures (forall k: nat :: k < channels * frames ==> Covered(frames, frames / bands, channels, bands, k))
       <==> frames % bands == 0
  {
    var perBand := frames / bands;
    assert bands * perBand == frames - frames % bands;
    if frames % bands == 0 {
      forall k: nat | k < channels * frames
        ensures Covered(frames, perBand, channels, bands, k)
      {
        CoveredAll(frames, perBand, channels, bands, k);
      }
    } else {
      CoveredIff(frames, perBand, channels, bands, 0, frames - 1);
      RowFits(0, channels, frames);
      assert !Covered(frames, perBand, channels, bands, frames - 1);
    }
  }

  class ChannelBuffer<T> {
    const data: array<T>
    const channels: array<Pointer>
    const bands: array<Pointer>
    const numFrames: nat
    const numFramesPerBand: nat
    const numAllocatedChannels: nat
    const numBands: nat
    // Number of channels the user sees.
    var numChannels: nat

    predicate Shape() {
      && data.Length == numAllocatedChannels * numFrames
      && channels.Length == numBands * numAllocatedChannels
      && bands.Length == numAllocatedChannels * numBands
      && channels != bands
      && 0 < numBands
      && numFramesPerBand == numFrames / numBands
    }

    /** Both tables point to the start of the band of the channel. */
    ghost predicate Points(ch: nat, band: nat)
      requires Shape() && ch < numAllocatedChannels && band < numBands
      reads channels, bands
    {
      && channels[At(band, ch, numBands, numAllocatedChannels)] == Pointer(Start(numFrames, numFramesPerBand, ch, band))
      && bands[At(ch, band, numAllocatedChannels, numBands)] == Pointer(Start(numFrames, numFramesPerBand, ch, band))
    }

    ghost predicate Valid()
      reads this, channels, bands
    {
      && Shape()
      && numChannels <= numAllocatedChannels
      && (forall ch: nat, band: nat :: ch < numAllocatedChannels && band < numBands ==> Points(ch, band))
    }

    /** The samples of the channels the user sees. */
    ghost function Visible(): (s: seq<T>)
      requires Valid()
      reads this, data, channels, bands
      ensures |s| == numChannels * numFrames <= data.Length
    {
      assert numChannels * numFrames <= numAllocatedChannels * numFrames;
      data[..numChannels * numFrames]
    }

    /** Where the full-band samples of a channel start, as the table says. */
    function ChannelStart(ch: nat): (k: nat)
      requires Valid() && ch < numAllocatedChannels
      reads this, channels, bands
      ensures k == ch * numFrames && k + numFrames == (ch + 1) * numFrames <= data.Length
    {
      RowFits(ch, numAllocatedChannels, numFrames);
      assert Points(ch, 0) && At(0, ch, numBands, numAllocatedChannels) == ch;
      channels[ch].offset
    }

    /** Where the samples of a band of a channel start, as the other table says. */
    function BandStart(ch: nat, band: nat): (k: nat)
      requires Valid() && ch < numAllocatedChannels && band < numBands
      reads this, channels, bands
      ensures k == ch * numFrames + band * numFramesPerBand
    {
      assert Points(ch, band);
      RowFits(ch, numAllocatedChannels, numBands);
      bands[ch * numBands + band].offset
    }

    constructor (frames: nat, channelCount: nat, bandCount: nat, zero: T)
      requires 0 < bandCount
      ensures Valid() && fresh(data) && fresh(channels) && fresh(bands)
      ensures numFrames == frames && numAllocatedChannels == numChannels == channelCount && numBands == bandCount
      ensures forall k :: 0 <= k < data.Length ==> data[k] == zero
    {
      data := new T[channelCount * frames](_ => zero);
      channels := new Pointer[bandCount * channelCount](_ => Pointer(0));
      bands := new Pointer[channelCount * bandCount](_ => Pointer(0));
      numFrames, numFramesPerBand := frames, frames / bandCount;
      numAllocatedChannels, numChannels, numBands := channelCount, channelCount, bandCount;
      new;
      Connect();
    }

    /** Fills both tables. */
    method Connect()
      requires Shape()
      modifies channels, bands
      ensures forall ch: nat, band: nat :: ch < numAllocatedChannels && band < numBands ==> Points(ch, band)
    {
      for ch := 0 to numAllocatedChannels
        invariant forall c: nat, b: nat :: c < ch && b < numBands ==> Points(c, b)
      {
        for band := 0 to numBands
          invariant forall c: nat, b: nat :: c < ch && b < numBands ==> Points(c, b)
          invariant forall b: nat :: b < band ==> Points(ch, b)
        {
          SetPointers(ch, band);
        }
      }
    }

    method SetPointers(ch: nat, band: nat)
      requires Shape() && ch < numAllocatedChannels && band < numBands
      modifies channels, bands
      ensures Points(ch, band)
      ensures forall c: nat, b: nat :: c < numAllocatedChannels && b < numBands && old(Points(c, b)) ==> Points(c, b)
    {
      var i, j := At(band, ch, numBands, numAllocatedChannels), At(ch, band, numAllocatedChannels, numBands);
      channels[i] := Pointer(Start(numFrames, numFramesPerBand, ch, band));
      bands[j] := channels[i];
      forall c: nat, b: nat | c < numAllocatedChannels && b < numBands && old(Points(c, b))
        ensures Points(c, b)
      {
        if At(b, c, numBands, numAllocatedChannels) == i {
          AtInjective(b, c, band, ch, numBands, numAllocatedChannels);
        } else if At(c, b, numAllocatedChannels, numBands) == j {
          AtInjective(c, b, ch, band, numAllocatedChannels, numBands);
        }
      }
    }

    method SetNumChannels(n: nat)
      requires Valid() && n <= numAllocatedChannels
      modifies this`numChannels
      ensures Valid() && numChannels == n
    {
      numChannels := n;
    }
  }
}
