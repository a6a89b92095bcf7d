/** An int16 buffer and a float buffer that are kept in step (common_audio/channel_buffer.cc).
    Floats are modelled as reals. */
module IFChannelBuffers {
  import opened ChannelBuffers

  type int16 = x: int | -32768 <= x <= 32767

  /** A float sample as an int16: limited, then rounded by adding half a step away from zero
      and cutting off the fraction. */
  function FloatS16ToS16(v: real): int16 {
    var w := if v > 32767.0 then 32767.0 else v;
    var x := if w < -32768.0 then -32768.0 else w;
    if x >= 0.0 then (x + 0.5).Floor else -(0.5 - x).Floor
  }

  /** The nearest int16: no other is closer, and of two as close it is the one farther
      from zero. */
  lemma NearestS16(v: real, n: int16)
    ensures Distance(v, FloatS16ToS16(v) as real) <= Distance(v, n as real)
    ensures Distance(v, FloatS16ToS16(v) as real) == Distance(v, n as real) ==>
              Distance(0.0, FloatS16ToS16(v) as real) >= Distance(0.0, n as real)
  {
    var r := FloatS16ToS16(v);
    if n < r {
      assert n as real + 1.0 <= r as real;
    } else if r < n {
      assert r as real + 1.0 <= n as real;
    }
  }

  function Distance(x: real, y: real): real {
    if x < y then y - x else x - y
  }

  function Floats(xs: seq<int16>): (r: seq<real>)
    ensures |r| == |xs|
  {
    seq(|xs|, k requires 0 <= k < |xs| => xs[k] as real)
  }

  function Shorts(xs: seq<real>): (r: seq<int16>)
    ensures |r| == |xs|
  {
    seq(|xs|, k requires 0 <= k < |xs| => FloatS16ToS16(xs[k]))
  }

  /** A sample is the same number in both buffers, as long as it is one that an int16 holds. */
  lemma SameNumbers(xs: seq<int16>, k: nat)
    requires k < |xs|
    ensures Floats(xs)[k] == xs[k] as real && FloatS16ToS16(Floats(xs)[k]) == xs[k]
  {
    NearestS16(xs[k] as real, xs[k]);
  }

  /** Going through floats loses nothing. */
  lemma ShortsOfFloats(xs: seq<int16>)
    ensures Shorts(Floats(xs)) == xs
  {
    forall k | 0 <= k < |xs|
      ensures FloatS16ToS16(xs[k] as real) == xs[k]
    {
      NearestS16(xs[k] as real, xs[k]);
    }
  }

  lemma PrefixesConvert(xs: seq<real>, ys: seq<int16>, k: nat)
    ensures k <= |xs| ==> Shorts(xs[..k]) == Shorts(xs)[..k]
    ensures k <= |ys| ==> Floats(ys[..k]) == Floats(ys)[..k]
  {
  }

  class IFChannelBuffer {
    var ivalid: bool
    var fvalid: bool
    const ibuf: ChannelBuffer<int16>
    const fbuf: ChannelBuffer<real>

    ghost predicate Buffers()
      reads this, ibuf, ibuf.channels, ibuf.bands, fbuf, fbuf.channels, fbuf.bands
    {
      && ibuf.Valid() && fbuf.Valid()
      && ibuf.numFrames == fbuf.numFrames
      && ibuf.numAllocatedChannels == fbuf.numAllocatedChannels
      && (ivalid || fvalid)
    }

    /** Where both buffers are marked valid, they show the same sound. */
    ghost predicate InStep()
      requires Buffers()
      reads this, ibuf, ibuf.data, ibuf.channels, ibuf.bands, fbuf, fbuf.data, fbuf.channels, fbuf.bands
    {
      ivalid && fvalid ==> ibuf.numChannels == fbuf.numChannels && ibuf.Visible() == Shorts(fbuf.Visible())
    }

    ghost predicate Valid()
      reads this, ibuf, ibuf.data, ibuf.channels, ibuf.bands, fbuf, fbuf.data, fbuf.channels, fbuf.bands
    {
      Buffers() && InStep()
    }

    function NumChannels(): nat
      reads this, ibuf, fbuf
    {
      if ivalid then ibuf.numChannels else fbuf.numChannels
    }

    /** The sound as int16 samples, whichever buffer holds it. */
    ghost function IntView(): seq<int16>
      requires Valid()
      reads this, ibuf, ibuf.data, ibuf.channels, ibuf.bands, fbuf, fbuf.data, fbuf.channels, fbuf.bands
    {
      if ivalid then ibuf.Visible() else Shorts(fbuf.Visible())
    }

    /** The sound as float samples. */
    ghost function FloatView(): seq<real>
      requires Valid()
      reads this, ibuf, ibuf.data, ibuf.channels, ibuf.bands, fbuf, fbuf.data, fbuf.channels, fbuf.bands
    {
      if fvalid then fbuf.Visible() else Floats(ibuf.Visible())
    }

    /** The two views never disagree. */
    lemma ViewsAgree()
      requires Valid()
      ensures IntView() == Shorts(FloatView())
      ensures |IntView()| == NumChannels() * ibuf.numFrames
    {
      ShortsOfFloats(ibuf.Visible());
    }

    constructor (numFrames: nat, numChannels: nat, numBands: nat)
      requires 0 < numBands
      ensures Valid() && ivalid && fvalid && NumChannels() == numChannels
      ensures ibuf.numFrames == numFrames && ibuf.numAllocatedChannels == numChannels
      ensures forall k :: 0 <= k < ibuf.data.Length ==> ibuf.data[k] == 0
      ensures forall k :: 0 <= k < fbuf.data.Length ==> fbuf.data[k] == 0.0
      ensures fresh(ibuf) && fresh(fbuf) && fresh(ibuf.data) && fresh(fbuf.data)
    {
      ivalid, fvalid := true, true;
      ibuf := new ChannelBuffer(numFrames, numChannels, numBands, 0);
      fbuf := new ChannelBuffer(numFrames, numChannels, numBands, 0.0);
    }

    method RefreshF()
      requires Valid()
      modifies this`fvalid, fbuf`numChannels, fbuf.data
      ensures Valid() && fvalid
      ensures IntView() == old(IntView()) && FloatView() == old(FloatView()) && NumChannels() == old(NumChannels())
      ensures Same(fbuf.data[..], old(fbuf.data[..]), NumChannels() * ibuf.numFrames)
    {
      if !fvalid {
        fbuf.SetNumChannels(ibuf.numChannels);
        ghost var source := ibuf.Visible();
        for i := 0 to ibuf.numChannels
          invariant Buffers() && fbuf.numChannels == ibuf.numChannels
          invariant Done(fbuf.data, i * ibuf.numFrames, Floats(source))
          invariant Same(fbuf.data[..], old(fbuf.data[..]), |source|)
        {
          ConvertToFloat(i);
        }
        assert fbuf.Visible() == Floats(source);
        fvalid := true;
        ShortsOfFloats(source);
      }
    }

    method ConvertToFloat(i: nat)
      requires Buffers() && i < ibuf.numChannels
      requires Done(fbuf.data, i * ibuf.numFrames, Floats(ibuf.Visible()))
      modifies fbuf.data
      ensures Done(fbuf.data, (i + 1) * ibuf.numFrames, Floats(ibuf.Visible()))
      ensures Same(fbuf.data[..], old(fbuf.data[..]), |ibuf.Visible()|)
    {
      RowFits(i, ibuf.numChannels, ibuf.numFrames);
      var from, to := ibuf.ChannelStart(i), fbuf.ChannelStart(i);
      ghost var source := ibuf.Visible();
      for j := 0 to ibuf.numFrames
        invariant Done(fbuf.data, to + j, Floats(source))
        invariant Same(fbuf.data[..], old(fbuf.data[..]), |source|)
      {
        fbuf.data[to + j] := ibuf.data[from + j] as real;
      }
    }

    method RefreshI()
      requires Valid()
      modifies this`ivalid, ibuf`numChannels, ibuf.data
      ensures Valid() && ivalid
      ensures IntView() == old(IntView()) && FloatView() == old(FloatView()) && NumChannels() == old(NumChannels())
      ensures Same(ibuf.data[..], old(ibuf.data[..]), NumChannels() * ibuf.numFrames)
    {
      if !ivalid {
        ibuf.SetNumChannels(fbuf.numChannels);
        ghost var source := fbuf.Visible();
        for i := 0 to fbuf.numChannels
          invariant Buffers() && ibuf.numChannels == fbuf.numChannels
          invariant Done(ibuf.data, i * ibuf.numFrames, Shorts(source))
          invariant Same(ibuf.data[..], old(ibuf.data[..]), |source|)
        {
          ConvertToS16(i);
        }
        assert ibuf.Visible() == Shorts(source);
        ivalid := true;
      }
    }

    method ConvertToS16(i: nat)
      requires Buffers() && i < fbuf.numChannels
      requires Done(ibuf.data, i * ibuf.numFrames, Shorts(fbuf.Visible()))
      modifies ibuf.data
      ensures Done(ibuf.data, (i + 1) * ibuf.numFrames, Shorts(fbuf.Visible()))
      ensures Same(ibuf.data[..], old(ibuf.data[..]), |fbuf.Visible()|)
    {
      RowFits(i, fbuf.numChannels, fbuf.numFrames);
      var from, to := fbuf.ChannelStart(i), ibuf.ChannelStart(i);
      ghost var source := fbuf.Visible();
      for j := 0 to ibuf.numFrames
        invariant Done(ibuf.data, to + j, Shorts(source))
        invariant Same(ibuf.data[..], old(ibuf.data[..]), |source|)
      {
        ibuf.data[to + j] := FloatS16ToS16(fbuf.data[from + j]);
      }
    }

    /** The first n samples of the block are those of the target. */
    static ghost predicate Done<T>(data: array<T>, n: int, target: seq<T>)
      reads data
    {
      0 <= n <= |target| <= data.Length && forall k :: 0 <= k < n ==> data[k] == target[k]
    }

    /** Write access to the int16 samples: they stay as they are, and the floats now follow
        from them. What the caller then writes into the result is the new sound. */
    method IBuf() returns (buffer: ChannelBuffer<int16>)
      requires Valid()
      modifies this, ibuf`numChannels, ibuf.data
      ensures Valid() && ivalid && !fvalid && buffer == ibuf
      ensures buffer.Visible() == IntView() == old(IntView()) && NumChannels() == old(NumChannels())
      ensures FloatView() == Floats(old(IntView()))
    {
      RefreshI();
      fvalid := false;
      buffer := ibuf;
    }

    /** Write access to the float samples. */
    method FBuf() returns (buffer: ChannelBuffer<real>)
      requires Valid()
      modifies this, fbuf`numChannels, fbuf.data
      ensures Valid() && !ivalid && fvalid && buffer == fbuf
      ensures buffer.Visible() == FloatView() == old(FloatView()) && NumChannels() == old(NumChannels())
      ensures IntView() == old(IntView())
    {
      ViewsAgree();
      RefreshF();
      ivalid := false;
      buffer := fbuf;
    }

    /** Read access to the int16 samples changes nothing that can be seen. */
    method IBufConst() returns (buffer: ChannelBuffer<int16>)
      requires Valid()
      modifies this`ivalid, ibuf`numChannels, ibuf.data
      ensures Valid() && buffer == ibuf && buffer.Visible() == IntView()
      ensures IntView() == old(IntView()) && FloatView() == old(FloatView()) && NumChannels() == old(NumChannels())
    {
      RefreshI();
      buffer := ibuf;
    }

    /** Read access to the float samples changes nothing that can be seen. */
    method FBufConst() returns (buffer: ChannelBuffer<real>)
      requires Valid()
      modifies this`fvalid, fbuf`numChannels, fbuf.data
      ensures Valid() && fvalid && buffer == fbuf && buffer.Visible() == FloatView()
      ensures IntView() == old(IntView()) && FloatView() == old(FloatView()) && NumChannels() == old(NumChannels())
      ensures Same(fbuf.data[..], old(fbuf.data[..]), NumChannels() * ibuf.numFrames)
    {
      RefreshF();
      buffer := fbuf;
    }

    /** Narrowing keeps the sound of the channels that stay. Widening is safe while only one
        buffer is valid. */
    method SetNumChannels(n: nat)
      requires Valid() && n <= ibuf.numAllocatedChannels
      modifies ibuf`numChannels, fbuf`numChannels
      ensures Buffers() && ibuf.numChannels == fbuf.numChannels == NumChannels() == n
      ensures n <= old(NumChannels()) || !(ivalid && fvalid) ==> Valid()
      ensures n <= old(NumChannels()) ==>
        && IntView() <= old(IntView()) && FloatView() <= old(FloatView())
        && |IntView()| == n * ibuf.numFrames
    {
      ghost var ints, floats, k := ibuf.Visible(), fbuf.Visible(), n * ibuf.numFrames;
      PrefixesConvert(floats, ints, k);
      if n < NumChannels() {
        RowsApart(n, NumChannels(), ibuf.numFrames);
      }
      ibuf.SetNumChannels(n);
      fbuf.SetNumChannels(n);
      assert k <= |ints| ==> ibuf.Visible() == ints[..k];
      assert k <= |floats| ==> fbuf.Visible() == floats[..k];
    }
  }

  /** From index n on, the two blocks hold the same samples. */
  ghost predicate Same<T(!new)>(a: seq<T>, b: seq<T>, n: int) {
    |a| == |b| && forall k :: 0 <= k < |a| && n <= k ==> a[k] == b[k]
  }

  /** Widening with both buffers valid is not safe: for any two counts there is a run that
      ends with the buffers marked valid and showing different sounds. */
  method WideningShowsStaleSamples(numFrames: nat, numChannels: nat, numBands: nat, narrow: nat, wide: nat)
    returns (b: IFChannelBuffer)
    requires 0 < numFrames && 0 < numBands && narrow < wide <= numChannels
    ensures b.Buffers() && b.ivalid && b.fvalid && b.NumChannels() == wide && !b.InStep()
  {
    b := new IFChannelBuffer(numFrames, numChannels, numBands);
    var ibuf := b.IBuf();
    var k := ibuf.ChannelStart(narrow);
    ibuf.data[k] := 1;
    b.SetNumChannels(narrow);
    var _ := b.FBufConst();
    RowsApart(narrow, wide, numFrames);
    b.SetNumChannels(wide);
    assert b.ibuf.Visible()[k] == 1 && Shorts(b.fbuf.Visible())[k] == 0;
  }
}
