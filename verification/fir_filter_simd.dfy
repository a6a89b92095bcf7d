/** The SSE2, AVX2 and NEON filters: the kernel reversed, zero-padded to a whole number of
    vectors, and multiplied with the window a vector at a time. */
module FirFiltersSimd {
  import opened FirSpec
  import opened FirFilters

  datatype Variant = Sse2 | Avx2 | Neon {
    function Lanes(): (n: nat)
      ensures n == 4 || n == 8
    {
      if Avx2? then 8 else 4
    }
  }

  /** The length of `k` vectors. */
  function Span(k: nat, lanes: nat): nat {
    if lanes == 8 then 8 * k else 4 * k
  }

  function Vectors(n: nat, lanes: nat): nat {
    if lanes == 8 then (n + 7) / 8 else (n + 3) / 4
  }

  /** Closest higher multiple of the vector length: (n + lanes - 1) & ~(lanes - 1). */
  function RoundUp(n: nat, lanes: nat): (r: nat)
    requires lanes == 4 || lanes == 8
    ensures n <= r < n + lanes
  {
    Span(Vectors(n, lanes), lanes)
  }

  // Vector operations.

  function Add(a: seq<real>, b: seq<real>): (s: seq<real>)
    requires |a| == |b|
    ensures |s| == |a|
  {
    seq(|a|, i requires 0 <= i < |a| => a[i] + b[i])
  }

  function MultiplyAdd(sum: seq<real>, a: seq<real>, b: seq<real>): (s: seq<real>)
    requires |sum| == |a| == |b|
    ensures |s| == |sum|
  {
    seq(|sum|, i requires 0 <= i < |sum| => sum[i] + a[i] * b[i])
  }

  /** The high half of `b`, then the high half of `a`. */
  function MoveHighToLow(a: seq<real>, b: seq<real>): seq<real>
    requires |a| == |b| == 4
  {
    [b[2], b[3], a[2], a[3]]
  }

  function HorizontalAdd4(m: seq<real>): real
    requires |m| == 4
  {
    var s := Add(MoveHighToLow(m, m), m);
    s[0] + s[1]
  }

  function HorizontalAdd(variant: Variant, m: seq<real>): real
    requires |m| == variant.Lanes()
  {
    match variant
    case Sse2 => HorizontalAdd4(m)
    case Avx2 => HorizontalAdd4(Add(m[..4], m[4..]))
    case Neon =>
      var half := Add(m[2..], m[..2]);
      half[0] + half[1]
  }

  function Total(s: seq<real>): real {
    if s == [] then 0.0 else Total(s[..|s| - 1]) + s[|s| - 1]
  }

  lemma TotalOf4(s: seq<real>)
    requires |s| == 4
    ensures Total(s) == s[0] + s[1] + s[2] + s[3]
  {
    assert s[..3][..2] == s[..2] && s[..2][..1] == s[..1] && s[..1][..0] == [];
    assert Total(s[..1]) == s[0];
    assert Total(s[..2]) == s[0] + s[1];
    assert Total(s[..3]) == s[0] + s[1] + s[2];
  }

  lemma {:induction false} TotalAppend(a: seq<real>, b: seq<real>)
    ensures Total(a + b) == Total(a) + Total(b)
  {
    if b == [] {
      assert a + b == a;
    } else {
      var n := |b| - 1;
      TotalAppend(a, b[..n]);
      assert (a + b)[..|a| + n] == a + b[..n];
    }
  }

  /** Whatever order a variant adds its lanes in, it adds all of them once. */
  lemma HorizontalAddIsTotal(variant: Variant, m: seq<real>)
    requires |m| == variant.Lanes()
    ensures HorizontalAdd(variant, m) == Total(m)
  {
    if variant.Avx2? {
      TotalAppend(m[..4], m[4..]);
      assert m == m[..4] + m[4..];
      TotalOf4(m[..4]);
      TotalOf4(m[4..]);
    } else {
      TotalOf4(m);
    }
  }

  lemma {:induction false} TotalMultiplyAdd(sum: seq<real>, a: seq<real>, b: seq<real>)
    requires |sum| == |a| == |b|
    ensures Total(MultiplyAdd(sum, a, b)) == Total(sum) + Dot(a, b)
  {
    if sum != [] {
      var n := |sum| - 1;
      TotalMultiplyAdd(sum[..n], a[..n], b[..n]);
      forall i | 0 <= i < n
        ensures MultiplyAdd(sum, a, b)[i] == MultiplyAdd(sum[..n], a[..n], b[..n])[i]
      {
        assert sum[i] == sum[..n][i] && a[i] == a[..n][i] && b[i] == b[..n][i];
      }
      assert MultiplyAdd(sum, a, b)[..n] == MultiplyAdd(sum[..n], a[..n], b[..n]);
    }
  }

  lemma {:induction false} TotalZeros(n: nat)
    ensures Total(Zeros(n)) == 0.0
  {
    if n > 0 {
      TotalZeros(n - 1);
      assert Zeros(n)[..n - 1] == Zeros(n - 1);
    }
  }

  /** One more vector of products. */
  lemma VectorStep(sum: seq<real>, w: seq<real>, c: seq<real>, j: nat)
    requires |w| == |c| && j + |sum| <= |w| && Total(sum) == Dot(w[..j], c[..j])
    ensures Total(MultiplyAdd(sum, w[j..j + |sum|], c[j..j + |sum|])) == Dot(w[..j + |sum|], c[..j + |sum|])
  {
    var k := j + |sum|;
    TotalMultiplyAdd(sum, w[j..k], c[j..k]);
    DotAppend(w[..j], c[..j], w[j..k], c[j..k]);
    assert w[..j] + w[j..k] == w[..k] && c[..j] + c[j..k] == c[..k];
  }

  class FirFilterSimd {
    const variant: Variant
    const coefficients: array<real>
    const state: array<real>
    const maxInputLength: nat
    ghost const h: seq<real>
    ghost var history: seq<real>

    ghost predicate Valid()
      reads this, coefficients, state
    {
      && |h| > 0 && state != coefficients
      && coefficients.Length == RoundUp(|h|, variant.Lanes())
      && coefficients[..] == Zeros(coefficients.Length - |h|) + Reverse(h)
      && state.Length == maxInputLength + coefficients.Length - 1
      && state[..coefficients.Length - 1] == Padded(history, coefficients.Length - 1)[|history|..]
    }

    constructor (variant: Variant, kernel: seq<real>, maxInputLength: nat)
      requires |kernel| > 0
      ensures Valid() && h == kernel && history == []
      ensures this.variant == variant && this.maxInputLength == maxInputLength
      ensures fresh(coefficients) && fresh(state)
    {
      var n := RoundUp(|kernel|, variant.Lanes());
      var padding := n - |kernel|;
      this.variant := variant;
      this.maxInputLength := maxInputLength;
      coefficients := new real[n](i requires 0 <= i < n =>
        if i < padding then 0.0 else kernel[|kernel| - (i - padding) - 1]);
      state := new real[maxInputLength + n - 1](_ => 0.0);
      h := kernel;
      history := [];
      new;
      assert coefficients[..] == Zeros(padding) + Reverse(h);
      assert state[..n - 1] == Zeros(n - 1) == Padded(history, n - 1)[0..];
    }

    /** One output sample: all lanes of all vectors, then the lanes together. */
    method Convolve(i: nat, ghost vectors: nat) returns (sum: real)
      requires i + coefficients.Length <= state.Length && coefficients.Length == Span(vectors, variant.Lanes())
      ensures sum == Dot(state[i..i + coefficients.Length], coefficients[..])
    {
      var sums := AddVectors(i, vectors);
      HorizontalAddIsTotal(variant, sums);
      sum := HorizontalAdd(variant, sums);
    }

    method AddVectors(i: nat, ghost vectors: nat) returns (sums: seq<real>)
      requires i + coefficients.Length <= state.Length && coefficients.Length == Span(vectors, variant.Lanes())
      ensures |sums| == variant.Lanes()
      ensures Total(sums) == Dot(state[i..i + coefficients.Length], coefficients[..])
    {
      hide Total, MultiplyAdd, Zeros;
      var lanes := variant.Lanes();
      ghost var w, c := state[i..i + coefficients.Length], coefficients[..];
      sums := Zeros(lanes);
      TotalZeros(lanes);
      var j := 0;
      ghost var k := 0;
      while j < coefficients.Length
        invariant 0 <= k <= vectors && j == Span(k, lanes) && |sums| == lanes
        invariant Total(sums) == Dot(w[..j], c[..j])
        decreases vectors - k
      {
        VectorStep(sums, w, c, j);
        SliceOfSlice(state[..], i, i + coefficients.Length, j, j + lanes);
        assert i + j + lanes == i + (j + lanes);
        sums := MultiplyAdd(sums, state[i + j..i + j + lanes], coefficients[j..j + lanes]);
        j := j + lanes;
        k := k + 1;
      }
      assert w[..j] == w && c[..j] == c;
    }

    method Filter(input: seq<real>, out: array<real>)
      requires Valid() && 0 < |input| <= maxInputLength
      requires |input| <= out.Length && out != state && out != coefficients
      modifies this`history, state, out
      ensures Valid() && history == old(history) + input
      ensures out[..|input|] == Filtered(h, old(history), input)
      ensures out[|input|..] == old(out[|input|..])
    {
      LoadInput(input);
      ghost var filled := state[..];
      for i := 0 to |input|
        invariant state[..] == filled && coefficients[..] == old(coefficients[..]) && history == old(history)
        invariant out[..i] == Filtered(h, history, input)[..i]
        invariant out[|input|..] == old(out[|input|..])
      {
        LoadedWindow(old(state[..]), filled, input, i);
        out[i] := Convolve(i, Vectors(|h|, variant.Lanes()));
      }
      KeepEnd(old(state[..coefficients.Length - 1]), input);
    }

    method LoadInput(input: seq<real>)
      requires Valid() && |input| <= maxInputLength
      modifies state
      ensures state[..coefficients.Length - 1 + |input|] == old(state[..coefficients.Length - 1]) + input
    {
      var stateLength := coefficients.Length - 1;
      forall k | 0 <= k < |input| {
        state[stateLength + k] := input[k];
      }
    }

    /** The window that starts at `i` of the loaded state gives output sample `i`. */
    lemma LoadedWindow(before: seq<real>, filled: seq<real>, input: seq<real>, i: nat)
      requires var n := coefficients.Length;
               && 0 < |h| <= n && |before| == |filled| == state.Length && i < |input|
               && n - 1 + |input| <= |filled|
               && before[..n - 1] == Padded(history, n - 1)[|history|..]
               && filled[..n - 1 + |input|] == before[..n - 1] + input
      ensures var n := coefficients.Length;
              Dot(filled[i..i + n], Zeros(n - |h|) + Reverse(h)) == Filtered(h, history, input)[i]
    {
      var n := coefficients.Length;
      WindowGivesOutput(before[..n - 1], history, input, h, i, n - 1);
      SliceOfFront(filled, n - 1 + |input|, i, i + n);
      assert n - 1 + 1 == n;
    }

    method KeepEnd(ghost before: seq<real>, input: seq<real>)
      requires 0 < |h| && state != coefficients
      requires coefficients.Length == RoundUp(|h|, variant.Lanes())
      requires coefficients[..] == Zeros(coefficients.Length - |h|) + Reverse(h)
      requires state.Length == maxInputLength + coefficients.Length - 1 && |input| <= maxInputLength
      requires before == Padded(history, coefficients.Length - 1)[|history|..]
      requires state[..coefficients.Length - 1 + |input|] == before + input
      modifies this`history, state
      ensures Valid() && history == old(history) + input
    {
      var length, stateLength := |input|, coefficients.Length - 1;
      SliceOfFront(state[..], stateLength + length, length, length + stateLength);
      forall k | 0 <= k < stateLength {
        state[k] := state[length + k];
      }
      assert state[..stateLength] == (before + input)[length..];
      StateOfLonger(before, history, input, stateLength);
      history := history + input;
    }
  }

  method FilterBlocksSimd(filter: FirFilterSimd, blocks: seq<seq<real>>) returns (out: seq<real>)
    requires filter.Valid() && filter.history == [] && Blocks(blocks)
    requires forall i :: 0 <= i < |blocks| ==> |blocks[i]| <= filter.maxInputLength
    modifies filter, filter.state
    ensures filter.Valid() && filter.history == Concat(blocks)
    ensures out == Filtered(filter.h, [], Concat(blocks))
  {
    out := [];
    for i := 0 to |blocks|
      invariant filter.Valid() && filter.history == Concat(blocks[..i])
      invariant out == FilteredBlocks(filter.h, blocks[..i])
    {
      BlocksStep(filter.h, blocks, i);
      var block := new real[|blocks[i]|];
      filter.Filter(blocks[i], block);
      out := out + block[..];
    }
    assert blocks[..|blocks|] == blocks;
    BlocksMakeNoDifference(filter.h, blocks);
  }

  /** Whichever filter is chosen, and however either's input is split into blocks, one signal
      gives one output. */
  method AllFiltersAgree(kernel: seq<real>, variant: Variant, maxInputLength: nat,
                         blocks: seq<seq<real>>, others: seq<seq<real>>)
    returns (scalar: seq<real>, vector: seq<real>)
    requires |kernel| > 0 && Blocks(blocks) && Blocks(others) && Concat(blocks) == Concat(others)
    requires forall i :: 0 <= i < |others| ==> |others[i]| <= maxInputLength
    ensures scalar == vector == Filtered(kernel, [], Concat(blocks))
  {
    var filter := new FirFilterC(kernel);
    scalar := FilterBlocks(filter, blocks);
    var simd := new FirFilterSimd(variant, kernel, maxInputLength);
    vector := FilterBlocksSimd(simd, others);
  }

  lemma SliceOfSlice(s: seq<real>, a: nat, b: nat, i: nat, j: nat)
    requires a <= b <= |s| && i <= j && a + j <= b
    ensures s[a..b][i..j] == s[a + i..a + j]
  {
    forall k | 0 <= k < j - i
      ensures s[a..b][i..j][k] == s[a + i..a + j][k]
    {
      assert s[a..b][i..j][k] == s[a..b][i + k];
    }
  }

  lemma SliceOfFront(s: seq<real>, n: nat, i: nat, j: nat)
    requires i <= j <= n <= |s|
    ensures s[..n][i..j] == s[i..j]
  {
  }
}
