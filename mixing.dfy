/** The arithmetic of a sink's mixdown: every input sample is halved with Rust's `/ 2` and
    added, with `i32` wrap-around, onto the sample already in the sink's buffer. */
module Mixing {
  import opened Native

  /** Rust's `x / 2` on signed integers, which truncates toward zero: -3 becomes -1. The
      remainder it leaves is -1, 0 or 1 and has the sign of `x`. */
  function TruncHalf(x: int): (h: int)
    ensures -1 <= x - 2 * h <= 1
    ensures x >= 0 ==> x - 2 * h >= 0
    ensures x < 0 ==> x - 2 * h <= 0
  {
    if x < 0 then -((-x) / 2) else x / 2
  }

  /** Halving keeps a sample in range: the result of `i32 / 2` is an `i32` again. */
  lemma TruncHalfInRange(x: i32)
    ensures I32_MIN / 2 <= TruncHalf(x) <= I32_MAX / 2
  {
  }

  /** Truncating halving is odd-symmetric, and it agrees with halving that rounds down (an
      arithmetic shift right by one) exactly on the non-negative and the even samples. */
  lemma TruncHalfVersusShift(x: int)
    ensures TruncHalf(-x) == -TruncHalf(x)
    ensures TruncHalf(x) == x / 2 <==> x >= 0 || x % 2 == 0
  {
  }

  /** The sum of the halved `i`-th samples of the given input buffers, taken in order. */
  function HalfSum(inputs: seq<seq<i32>>, i: nat): int
    requires forall k :: 0 <= k < |inputs| ==> i < |inputs[k]|
  {
    if inputs == [] then 0
    else HalfSum(inputs[..|inputs| - 1], i) + TruncHalf(inputs[|inputs| - 1][i])
  }

  /** Each halved sample is within half the sample range, so `n` inputs move a sample by at
      most `n` times that much before wrap-around. */
  lemma {:induction false} HalfSumBound(inputs: seq<seq<i32>>, i: nat)
    requires forall k :: 0 <= k < |inputs| ==> i < |inputs[k]|
    ensures |inputs| * (I32_MIN / 2) <= HalfSum(inputs, i) <= |inputs| * (I32_MAX / 2)
  {
    if inputs != [] {
      var n := |inputs| - 1;
      HalfSumBound(inputs[..n], i);
      TruncHalfInRange(inputs[n][i]);
      assert HalfSum(inputs, i) == HalfSum(inputs[..n], i) + TruncHalf(inputs[n][i]);
      assert n * (I32_MIN / 2) + I32_MIN / 2 == (n + 1) * (I32_MIN / 2);
      assert n * (I32_MAX / 2) + I32_MAX / 2 == (n + 1) * (I32_MAX / 2);
    }
  }

  /** The result of mixing `inputs` onto `buffer`: each sample gains the halved samples of all
      inputs at its index, wrapped to `i32`. */
  ghost function Mixdown(buffer: seq<i32>, inputs: seq<seq<i32>>): (mixed: seq<i32>)
    requires forall k :: 0 <= k < |inputs| ==> |buffer| <= |inputs[k]|
    ensures |mixed| == |buffer|
    ensures inputs == [] ==> mixed == buffer
  {
    seq(|buffer|, i requires 0 <= i < |buffer| => WrapI32(buffer[i] + HalfSum(inputs, i)))
  }

  /** Each input is halved on its own before the sum: on a zeroed one-sample buffer, inputs
      `100` and `3` give `51` (not `103 / 2`), and `-3` alone gives `-1` (not `-2`). */
  lemma {:induction false} MixdownHalvesEachInput()
    ensures Mixdown([0], [[100], [3]]) == [51]
    ensures Mixdown([0], [[-3]]) == [-1]
  {
    var two: seq<seq<i32>> := [[100], [3]];
    assert two[..1] == [[100]] && two[..1][..0] == [];
    assert HalfSum(two, 0) == 51;
    var one: seq<seq<i32>> := [[-3]];
    assert one[..0] == [];
    assert HalfSum(one, 0) == -1;
  }

  /** Mixing input after input with wrap-around at each step is the same as mixing them all at
      once: mixing one more input on top of a mixdown gives the mixdown with that input. */
  lemma MixdownStep(buffer: seq<i32>, inputs: seq<seq<i32>>, current: seq<i32>, next: seq<i32>, mixed: seq<i32>)
    requires forall k :: 0 <= k < |inputs| ==> |buffer| <= |inputs[k]|
    requires current == Mixdown(buffer, inputs)
    requires |buffer| <= |next|
    requires |mixed| == |buffer|
    requires forall i :: 0 <= i < |current| ==> mixed[i] == WrapI32(current[i] + TruncHalf(next[i]))
    ensures mixed == Mixdown(buffer, inputs + [next])
  {
    var all := inputs + [next];
    forall i | 0 <= i < |buffer|
      ensures mixed[i] == Mixdown(buffer, all)[i]
    {
      assert all[..|inputs|] == inputs;
      WrapAddWrap(buffer[i] + HalfSum(inputs, i), TruncHalf(next[i]));
    }
  }

  /** The inner loop of a sink's sync: `*val += input[idx] / 2` for every index of the sink's
      buffer, in place. */
  method MixInput(buffer: seq<i32>, input: seq<i32>) returns (mixed: seq<i32>)
    requires |buffer| <= |input|
    ensures |mixed| == |buffer|
    ensures forall i :: 0 <= i < |buffer| ==> mixed[i] == WrapI32(buffer[i] + TruncHalf(input[i]))
  {
    mixed := buffer;
    var idx := 0;
    while idx < |mixed|
      invariant 0 <= idx <= |mixed| == |buffer|
      invariant forall i :: 0 <= i < idx ==> mixed[i] == WrapI32(buffer[i] + TruncHalf(input[i]))
      invariant forall i :: idx <= i < |buffer| ==> mixed[i] == buffer[i]
    {
      mixed := mixed[idx := WrapI32(mixed[idx] + TruncHalf(input[idx]))];
      idx := idx + 1;
    }
  }
}
