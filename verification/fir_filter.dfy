/** The scalar FIR filter. It keeps the end of the signal it has seen in `state` and is
    proved to compute the convolution of the whole signal. Samples are exact numbers. */
module FirFilters {
  import opened FirSpec

  class FirFilterC {
    const coefficients: array<real>
    const state: array<real>
    ghost const h: seq<real>
    ghost var history: seq<real>

    ghost predicate Valid()
      reads this, coefficients, state
    {
      && |h| > 0 && state != coefficients
      && coefficients[..] == Reverse(h)
      && state.Length == |h| - 1
      && state[..] == Padded(history, |h| - 1)[|history|..]
    }

    constructor (kernel: seq<real>)
      requires |kernel| > 0
      ensures Valid() && h == kernel && history == []
      ensures fresh(coefficients) && fresh(state)
    {
      var n := |kernel|;
      coefficients := new real[n](i requires 0 <= i < n => kernel[n - i - 1]);
      state := new real[n - 1](_ => 0.0);
      h := kernel;
      history := [];
      new;
      assert coefficients[..] == Reverse(h);
      assert state[..] == Zeros(n - 1) == Padded(history, n - 1)[0..];
    }

    /** One output sample: products with the old samples, then with the new ones. */
    method Convolve(input: seq<real>, i: nat) returns (sum: real)
      requires i < |input| && coefficients.Length == state.Length + 1
      ensures sum == Dot((state[..] + input)[i..i + coefficients.Length], coefficients[..])
    {
      ghost var w, c := (state[..] + input)[i..i + coefficients.Length], coefficients[..];
      var j;
      sum, j := AddState(input, i);
      while j < coefficients.Length
        invariant j <= coefficients.Length && i + j >= state.Length
        invariant sum == Dot(w[..j], c[..j])
      {
        DotStep(w, c, j);
        WindowAt(state[..], input, i, coefficients.Length, j);
        sum := sum + input[j + i - state.Length] * coefficients[j];
        j := j + 1;
      }
      assert w[..j] == w && c[..j] == c;
    }

    /** The products with the old samples, as far as sample `i` meets them. */
    method AddState(input: seq<real>, i: nat) returns (sum: real, j: nat)
      requires i < |input| && coefficients.Length == state.Length + 1
      ensures j == if state.Length > i then state.Length - i else 0
      ensures sum == Dot((state[..] + input)[i..i + coefficients.Length][..j], coefficients[..][..j])
    {
      ghost var w, c := (state[..] + input)[i..i + coefficients.Length], coefficients[..];
      sum, j := 0.0, 0;
      while state.Length > i && j < state.Length - i
        invariant j <= if state.Length > i then state.Length - i else 0
        invariant sum == Dot(w[..j], c[..j])
      {
        DotStep(w, c, j);
        WindowAt(state[..], input, i, coefficients.Length, j);
        sum := sum + state[i + j] * coefficients[j];
        j := j + 1;
      }
    }

    method Filter(input: seq<real>, out: array<real>)
      requires Valid() && 0 < |input| <= out.Length && out != state && out != coefficients
      modifies this`history, state, out
      ensures Valid() && history == old(history) + input
      ensures out[..|input|] == Filtered(h, old(history), input)
      ensures out[|input|..] == old(out[|input|..])
    {
      ghost var result := Filtered(h, history, input);
      for i := 0 to |input|
        invariant Valid() && history == old(history)
        invariant forall k :: 0 <= k < i ==> out[k] == result[k]
        invariant out[|input|..] == old(out[|input|..])
      {
        UnpaddedWindow(state[..], history, input, h, i);
        out[i] := Convolve(input, i);
      }
      UpdateState(input);
    }

    method UpdateState(input: seq<real>)
      requires Valid() && 0 < |input|
      modifies this`history, state
      ensures Valid() && history == old(history) + input
    {
      var length, stateLength := |input|, state.Length;
      ghost var before := state[..];
      if length >= stateLength {
        forall k | 0 <= k < stateLength {
          state[k] := input[length - stateLength + k];
        }
      } else {
        forall k | 0 <= k < stateLength - length {
          state[k] := state[length + k];
        }
        forall k | 0 <= k < length {
          state[stateLength - length + k] := input[k];
        }
      }
      assert state[..] == (before + input)[length..];
      StateOfLonger(before, history, input, |h| - 1);
      history := history + input;
    }
  }

  /** A signal fed to a fresh filter block by block comes out as its direct convolution. */
  method FilterBlocks(filter: FirFilterC, blocks: seq<seq<real>>) returns (out: seq<real>)
    requires filter.Valid() && filter.history == [] && Blocks(blocks)
    modifies filter, filter.state
    ensures filter.Valid() && filter.history == Concat(blocks)
    ensures out == Filtered(filter.h, [], Concat(blocks))
  {
    out := [];
    for i := 0 to |blocks|
      invariant filter.Valid() && filter.history == Concat(blocks[..i])
      invariant out == FilteredBlocks(filter.h, blocks[..i])
    {
      BlocksStep(filter.h, blocks, i);
      var block := new real[|blocks[i]|];
      filter.Filter(blocks[i], block);
      out := out + block[..];
    }
    assert blocks[..|blocks|] == blocks;
    BlocksMakeNoDifference(filter.h, blocks);
  }

  lemma WindowAt(state: seq<real>, input: seq<real>, i: nat, n: nat, j: nat)
    requires i + n <= |state| + |input| && j < n
    ensures (state + input)[i..i + n][j] == if i + j < |state| then state[i + j] else input[i + j - |state|]
  {
  }

  /** The state and the input side by side are the end of the padded signal. */
  lemma StateThenInput(state: seq<real>, history: seq<real>, input: seq<real>, m: nat)
    requires state == Padded(history, m)[|history|..]
    ensures state + input == Padded(history + input, m)[|history|..]
  {
    assert Padded(history + input, m) == Padded(history, m) + input;
  }

  lemma SliceOfTail(p: seq<real>, a: nat, i: nat, n: nat)
    requires a + i + n <= |p|
    ensures p[a..][i..i + n] == p[a + i..a + i + n]
  {
  }

  /** The window at input sample `i`, with the reversed kernel after any padding, gives the
      output at that sample. */
  lemma WindowGivesOutput(state: seq<real>, history: seq<real>, input: seq<real>, h: seq<real>, i: nat, m: nat)
    requires i < |input| && 0 < |h| <= m + 1 && state == Padded(history, m)[|history|..]
    ensures Dot((state + input)[i..i + (m + 1)], Zeros(m + 1 - |h|) + Reverse(h)) == Filtered(h, history, input)[i]
  {
    var x, n := history + input, |history| + i;
    StateThenInput(state, history, input, m);
    SliceOfTail(Padded(x, m), |history|, i, m + 1);
    ConvAsWindow(h, x, n, m);
    assert n + m + 1 == |history| + i + (m + 1);
  }

  lemma UnpaddedWindow(state: seq<real>, history: seq<real>, input: seq<real>, h: seq<real>, i: nat)
    requires i < |input| && 0 < |h| && state == Padded(history, |h| - 1)[|history|..]
    ensures Dot((state + input)[i..i + |h|], Reverse(h)) == Filtered(h, history, input)[i]
  {
    WindowGivesOutput(state, history, input, h, i, |h| - 1);
    assert Zeros(0) + Reverse(h) == Reverse(h);
  }

  lemma StateOfLonger(state: seq<real>, history: seq<real>, input: seq<real>, m: nat)
    requires state == Padded(history, m)[|history|..]
    ensures (state + input)[|input|..] == Padded(history + input, m)[|history + input|..]
  {
    StateThenInput(state, history, input, m);
  }
}
