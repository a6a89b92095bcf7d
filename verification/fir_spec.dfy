/** Convolution of a signal with a filter kernel, in exact arithmetic. */
module FirSpec {
  function Zeros(n: nat): (s: seq<real>)
    ensures |s| == n
  {
    seq(n, _ => 0.0)
  }

  function Sample(x: seq<real>, i: int): real {
    if 0 <= i < |x| then x[i] else 0.0
  }

  function Dot(a: seq<real>, b: seq<real>): real
    requires |a| == |b|
  {
    if a == [] then 0.0 else Dot(a[..|a| - 1], b[..|b| - 1]) + a[|a| - 1] * b[|b| - 1]
  }

  /** The samples that the kernel meets at time `n`, latest first; silence before the start. */
  function Taps(x: seq<real>, n: nat, count: nat): (t: seq<real>)
    ensures |t| == count
  {
    seq(count, k requires 0 <= k < count => Sample(x, n - k))
  }

  /** Sum over k of h[k] * x[n - k]. */
  function Conv(h: seq<real>, x: seq<real>, n: nat): real {
    Dot(h, Taps(x, n, |h|))
  }

  /** The convolution at each sample of `block`, which follows `history`. */
  function Filtered(h: seq<real>, history: seq<real>, block: seq<real>): (out: seq<real>)
    ensures |out| == |block|
  {
    seq(|block|, i requires 0 <= i < |block| => Conv(h, history + block, |history| + i))
  }

  function Reverse(s: seq<real>): (r: seq<real>)
    ensures |r| == |s|
  {
    seq(|s|, i requires 0 <= i < |s| => s[|s| - 1 - i])
  }

  lemma {:induction false} DotAppend(a: seq<real>, b: seq<real>, c: seq<real>, d: seq<real>)
    requires |a| == |b| && |c| == |d|
    ensures Dot(a + c, b + d) == Dot(a, b) + Dot(c, d)
  {
    if c == [] {
      assert a + c == a && b + d == b;
    } else {
      var n := |c| - 1;
      DotAppend(a, b, c[..n], d[..n]);
      assert (a + c)[..|a| + n] == a + c[..n] && (b + d)[..|b| + n] == b + d[..n];
    }
  }

  lemma DotSingle(x: real, y: real)
    ensures Dot([x], [y]) == x * y
  {
    assert [x][..0] == [] && [y][..0] == [];
  }

  /** One more product. */
  lemma DotStep(a: seq<real>, b: seq<real>, j: nat)
    requires |a| == |b| && j < |a|
    ensures Dot(a[..j + 1], b[..j + 1]) == Dot(a[..j], b[..j]) + a[j] * b[j]
  {
    assert a[..j + 1][..j] == a[..j] && b[..j + 1][..j] == b[..j];
  }

  lemma {:induction false} DotReverse(a: seq<real>, b: seq<real>)
    requires |a| == |b|
    ensures Dot(Reverse(a), Reverse(b)) == Dot(a, b)
  {
    if a != [] {
      var n := |a| - 1;
      DotReverse(a[..n], b[..n]);
      DotAppend([a[n]], [b[n]], Reverse(a[..n]), Reverse(b[..n]));
      DotSingle(a[n], b[n]);
      assert Reverse(a) == [a[n]] + Reverse(a[..n]) && Reverse(b) == [b[n]] + Reverse(b[..n]);
    }
  }

  lemma {:induction false} DotZeros(a: seq<real>)
    ensures Dot(a, Zeros(|a|)) == 0.0
  {
    if a != [] {
      DotZeros(a[..|a| - 1]);
      assert Zeros(|a|)[..|a| - 1] == Zeros(|a| - 1);
    }
  }

  /** The signal with enough silence before it for a kernel of `m + 1` taps. */
  function Padded(x: seq<real>, m: nat): (p: seq<real>)
    ensures |p| == m + |x|
  {
    Zeros(m) + x
  }

  /** The form the filters compute: the window that ends at sample `n`, oldest first, with
      the reversed kernel, and any number of zero coefficients before it. */
  lemma ConvAsWindow(h: seq<real>, x: seq<real>, n: nat, m: nat)
    requires n < |x| && 0 < |h| <= m + 1
    ensures Dot(Padded(x, m)[n..n + m + 1], Zeros(m + 1 - |h|) + Reverse(h)) == Conv(h, x, n)
  {
    var z := m + 1 - |h|;
    var w := Padded(x, m)[n..n + m + 1];
    DotZeros(w[..z]);
    DotAppend(w[..z], Zeros(z), w[z..], Reverse(h));
    assert w == w[..z] + w[z..];
    WindowIsTaps(x, n, m, |h|);
    DotReverse(h, Taps(x, n, |h|));
    DotCommutes(Reverse(h), w[z..]);
  }

  lemma WindowIsTaps(x: seq<real>, n: nat, m: nat, count: nat)
    requires n < |x| && 0 < count <= m + 1
    ensures Padded(x, m)[n..n + m + 1][m + 1 - count..] == Reverse(Taps(x, n, count))
  {
    var w, t := Padded(x, m)[n..n + m + 1][m + 1 - count..], Reverse(Taps(x, n, count));
    forall j | 0 <= j < count
      ensures w[j] == t[j]
    {
      assert w[j] == Padded(x, m)[n + m + 1 - count + j];
      assert t[j] == Taps(x, n, count)[count - 1 - j] == Sample(x, n - (count - 1 - j));
    }
  }

  lemma {:induction false} DotCommutes(a: seq<real>, b: seq<real>)
    requires |a| == |b|
    ensures Dot(a, b) == Dot(b, a)
  {
    if a != [] {
      DotCommutes(a[..|a| - 1], b[..|b| - 1]);
    }
  }

  // What the convolution is.

  /** Each coefficient adds its multiple of the signal, delayed by its place in the kernel. */
  lemma ConvStep(h: seq<real>, a: real, x: seq<real>, n: nat)
    ensures Conv([], x, n) == 0.0
    ensures Conv(h + [a], x, n) == Conv(h, x, n) + a * Sample(x, n - |h|)
  {
    var t := Taps(x, n, |h| + 1);
    assert t[..|h|] == Taps(x, n, |h|) && (h + [a])[..|h|] == h;
    DotStep(h + [a], t, |h|);
    assert (h + [a])[..|h| + 1] == h + [a] && t[..|h| + 1] == t;
  }

  /** A single impulse gives the kernel, from the impulse on. */
  lemma {:induction false} ImpulseResponse(h: seq<real>, x: seq<real>, m: nat, n: nat)
    requires forall i :: 0 <= i < |x| ==> x[i] == if i == m then 1.0 else 0.0
    requires m < |x|
    ensures Conv(h, x, n) == Sample(h, n - m)
  {
    if h == [] {
      ConvStep(h, 0.0, x, n);
    } else {
      var k := |h| - 1;
      ImpulseResponse(h[..k], x, m, n);
      ConvStep(h[..k], h[k], x, n);
      assert h[..k] + [h[k]] == h;
    }
  }

  /** The sum over k < m of h[k] * x[n - k], with silence around both. */
  function Products(h: seq<real>, x: seq<real>, n: nat, m: nat): real {
    if m == 0 then 0.0 else Products(h, x, n, m - 1) + Sample(h, m - 1) * Sample(x, n - (m - 1))
  }

  lemma {:induction false} ProductsUpTo(h: seq<real>, x: seq<real>, n: nat, m: nat)
    requires |h| <= m
    ensures Products(h, x, n, m) == Conv(h, x, n)
    decreases m
  {
    if m == |h| {
      ConvIsProducts(h, x, n, m);
      assert h[..m] == h;
    } else {
      ProductsUpTo(h, x, n, m - 1);
    }
  }

  lemma {:induction false} ConvIsProducts(h: seq<real>, x: seq<real>, n: nat, m: nat)
    requires m <= |h|
    ensures Products(h, x, n, m) == Conv(h[..m], x, n)
  {
    if m == 0 {
      ConvStep([], 0.0, x, n);
    } else {
      ConvIsProducts(h, x, n, m - 1);
      ConvStep(h[..m - 1], h[m - 1], x, n);
      assert h[..m - 1] + [h[m - 1]] == h[..m];
    }
  }

  /** Only the coefficients up to the present sample count. */
  lemma {:induction false} ProductsBeyond(h: seq<real>, x: seq<real>, n: nat, m: nat)
    requires n + 1 <= m
    ensures Products(h, x, n, m) == Products(h, x, n, n + 1)
    decreases m
  {
    if m > n + 1 {
      ProductsBeyond(h, x, n, m - 1);
    }
  }

  /** The products of the first `m` coefficients from one end are those of the last `m` samples
      from the other. */
  lemma {:induction false} ProductsFromBack(h: seq<real>, x: seq<real>, n: nat, m: nat)
    requires m <= n + 1
    ensures Products(h, x, n, n + 1) == Products(h, x, n, n + 1 - m) + Products(x, h, n, m)
    decreases m
  {
    if m > 0 {
      ProductsFromBack(h, x, n, m - 1);
    }
  }

  /** Kernel and signal can be exchanged. */
  lemma ConvCommutes(h: seq<real>, x: seq<real>, n: nat)
    ensures Conv(h, x, n) == Conv(x, h, n)
  {
    ProductsUpTo(h, x, n, |h| + n + 1);
    ProductsBeyond(h, x, n, |h| + n + 1);
    ProductsFromBack(h, x, n, n + 1);
    ProductsUpTo(x, h, n, |x| + n + 1);
    ProductsBeyond(x, h, n, |x| + n + 1);
  }

  /** The output at a sample does not depend on later samples. */
  lemma Causal(h: seq<real>, x: seq<real>, y: seq<real>, n: nat)
    requires n < |x|
    ensures Conv(h, x + y, n) == Conv(h, x, n)
  {
    forall k | 0 <= k < |h|
      ensures Taps(x + y, n, |h|)[k] == Taps(x, n, |h|)[k]
    {
      assert Sample(x + y, n - k) == Sample(x, n - k);
    }
    assert Taps(x + y, n, |h|) == Taps(x, n, |h|);
  }

  /** Blocks that a filter accepts: none is empty. */
  predicate Blocks(blocks: seq<seq<real>>) {
    forall i :: 0 <= i < |blocks| ==> blocks[i] != []
  }

  function Concat(blocks: seq<seq<real>>): seq<real> {
    if blocks == [] then [] else Concat(blocks[..|blocks| - 1]) + blocks[|blocks| - 1]
  }

  /** The outputs of a filter fed one block after the other. */
  function FilteredBlocks(h: seq<real>, blocks: seq<seq<real>>): seq<real> {
    if blocks == [] then []
    else
      var before := blocks[..|blocks| - 1];
      FilteredBlocks(h, before) + Filtered(h, Concat(before), blocks[|blocks| - 1])
  }

  lemma FilteredAppend(h: seq<real>, x: seq<real>, y: seq<real>)
    ensures Filtered(h, [], x + y) == Filtered(h, [], x) + Filtered(h, x, y)
  {
    assert [] + (x + y) == x + y && [] + x == x;
    forall n | 0 <= n < |x|
      ensures Filtered(h, [], x + y)[n] == Filtered(h, [], x)[n]
    {
      Causal(h, x, y, n);
    }
  }

  /** However a signal is split into blocks, filtering them in turn gives the direct
      convolution of the whole signal. */
  lemma {:induction false} BlocksMakeNoDifference(h: seq<real>, blocks: seq<seq<real>>)
    ensures FilteredBlocks(h, blocks) == Filtered(h, [], Concat(blocks))
  {
    if blocks != [] {
      var n := |blocks| - 1;
      BlocksMakeNoDifference(h, blocks[..n]);
      FilteredAppend(h, Concat(blocks[..n]), blocks[n]);
    }
  }

  /** One more block. */
  lemma BlocksStep(h: seq<real>, blocks: seq<seq<real>>, i: nat)
    requires i < |blocks|
    ensures Concat(blocks[..i + 1]) == Concat(blocks[..i]) + blocks[i]
    ensures FilteredBlocks(h, blocks[..i + 1]) == FilteredBlocks(h, blocks[..i]) + Filtered(h, Concat(blocks[..i]), blocks[i])
  {
    assert blocks[..i + 1][..i] == blocks[..i];
  }
}
