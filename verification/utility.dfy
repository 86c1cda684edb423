/**
 * `SwUtilsUtility`: the weighted random pick, the lazy shuffle and the gauge
 * text. The random numbers are inputs: `WeightRandom` receives the
 * `Random.Range` it calls as a function, and `Shuffle` receives the values
 * `random.Next(i, count)` returns, one per step, as a sequence.
 */
module Utility {
  import opened Wrappers
  import opened Strings

  // ---------------------------------------------------------------------------
  // 32-bit integers

  const TwoTo31: int := 0x8000_0000
  const TwoTo32: int := 0x1_0000_0000

  /** A C# `int`. */
  type Int32 = x: int | -0x8000_0000 <= x < 0x8000_0000

  /** The result of an unchecked C# `int` addition whose exact value is `x`. */
  function Wrap32(x: int): (r: Int32)
    ensures -TwoTo31 <= x < TwoTo31 ==> r == x
  {
    (x + TwoTo31) % TwoTo32 - TwoTo31
  }

  /** Wrapping twice is wrapping once: `Wrap32(Wrap32(a) + b) == Wrap32(a + b)`. */
  lemma WrapAdd(a: int, b: int)
    ensures Wrap32(Wrap32(a) + b) == Wrap32(a + b)
  {
    var q := (a + TwoTo31) / TwoTo32;
    var r := (a + TwoTo31) % TwoTo32;
    assert a + TwoTo31 + b == (r + b) + q * TwoTo32;
    ModAddMultiple(r + b, q);
  }

  lemma {:induction false} ModAddMultiple(x: int, q: int)
    ensures (x + q * TwoTo32) % TwoTo32 == x % TwoTo32
    decreases if q < 0 then -q else q
  {
    if q > 0 {
      ModAddMultiple(x, q - 1);
      assert x + q * TwoTo32 == (x + (q - 1) * TwoTo32) + TwoTo32;
    } else if q < 0 {
      ModAddMultiple(x, q + 1);
      assert x + q * TwoTo32 == (x + (q + 1) * TwoTo32) - TwoTo32;
    }
  }

  // ---------------------------------------------------------------------------
  // WeightRandom

  /** Every weight is at least 0. */
  predicate NonNegative(weights: seq<Int32>) {
    forall i :: 0 <= i < |weights| ==> weights[i] >= 0
  }

  /** The exact sum of the first `n` weights. */
  function PrefixSum(weights: seq<Int32>, n: nat): int
    requires n <= |weights|
  {
    if n == 0 then 0 else PrefixSum(weights, n - 1) + weights[n - 1]
  }

  /** The exact sum of all weights. */
  function Sum(weights: seq<Int32>): int {
    PrefixSum(weights, |weights|)
  }

  /** The value of `accumulatedWeight` after adding the first `n` weights in
      C# `int` arithmetic. */
  function Prefix(weights: seq<Int32>, n: nat): Int32
    requires n <= |weights|
  {
    if n == 0 then 0 else Wrap32(Prefix(weights, n - 1) + weights[n - 1])
  }

  /** `totalWeight`: all weights added in C# `int` arithmetic. */
  function Total(weights: seq<Int32>): Int32 {
    Prefix(weights, |weights|)
  }

  /** The least index at or after `from` whose prefix sum through it exceeds
      `draw`, or `|weights|` when there is none. */
  function FirstExceeding(weights: seq<Int32>, draw: Int32, from: nat): (i: nat)
    requires from <= |weights|
    ensures from <= i <= |weights|
    ensures i < |weights| ==> draw < Prefix(weights, i + 1)
    ensures forall k :: from < k <= i ==> Prefix(weights, k) <= draw
    decreases |weights| - from
  {
    if from == |weights| then from
    else if draw < Prefix(weights, from + 1) then from
    else FirstExceeding(weights, draw, from + 1)
  }

  /** `items[i]`, or `None` where C# throws an index exception. */
  function ItemAt<T>(items: seq<T>, i: int): Option<T> {
    if 0 <= i < |items| then Some(items[i]) else None
  }

  /** What `WeightRandom` returns for a given draw: the item at the least index
      whose prefix sum exceeds the draw, else the last item (`None` stands for
      the index exception thrown when `items` is too short). */
  function Pick<T>(items: seq<T>, weights: seq<Int32>, draw: Int32): Option<T> {
    var i := FirstExceeding(weights, draw, 0);
    if i < |weights| then ItemAt(items, i) else ItemAt(items, |items| - 1)
  }

  /** `WeightRandom(items, weights)`, with `Random.Range` as `range`. */
  method WeightRandom<T>(items: seq<T>, weights: seq<Int32>, range: (Int32, Int32) -> Int32) returns (r: Option<T>)
    ensures r == Pick(items, weights, range(0, Total(weights)))
  {
    var totalWeight: Int32 := 0;
    for k := 0 to |weights|
      invariant totalWeight == Prefix(weights, k)
    {
      totalWeight := Wrap32(totalWeight + weights[k]);
    }
    var randomWeight := range(0, totalWeight);
    var accumulatedWeight: Int32 := 0;
    for i := 0 to |weights|
      invariant accumulatedWeight == Prefix(weights, i)
      invariant FirstExceeding(weights, randomWeight, 0) == FirstExceeding(weights, randomWeight, i)
    {
      accumulatedWeight := Wrap32(accumulatedWeight + weights[i]);
      if randomWeight < accumulatedWeight {
        return ItemAt(items, i);
      }
    }
    return ItemAt(items, |items| - 1);
  }

  /** `totalWeight` is the sum of the weights, reduced to 32 bits as C# does;
      so is every `accumulatedWeight`. */
  lemma {:induction false} PrefixWraps(weights: seq<Int32>, n: nat)
    requires n <= |weights|
    ensures Prefix(weights, n) == Wrap32(PrefixSum(weights, n))
  {
    if n > 0 {
      PrefixWraps(weights, n - 1);
      WrapAdd(PrefixSum(weights, n - 1), weights[n - 1]);
    }
  }

  /** With non-negative weights the prefix sums never decrease. */
  lemma {:induction false} PrefixSumMonotone(weights: seq<Int32>, m: nat, n: nat)
    requires NonNegative(weights)
    requires m <= n <= |weights|
    ensures 0 <= PrefixSum(weights, m) <= PrefixSum(weights, n)
    decreases n
  {
    if n > m {
      PrefixSumMonotone(weights, m, n - 1);
    } else if m > 0 {
      PrefixSumMonotone(weights, 0, m - 1);
    }
  }

  /** With non-negative weights whose sum fits in an `int`, nothing wraps. */
  lemma NoOverflow(weights: seq<Int32>, n: nat)
    requires NonNegative(weights) && Sum(weights) < TwoTo31
    requires n <= |weights|
    ensures Prefix(weights, n) == PrefixSum(weights, n)
  {
    PrefixWraps(weights, n);
    PrefixSumMonotone(weights, n, |weights|);
  }

  /** A draw in `[0, totalWeight)` picks an index whose slice
      `[PrefixSum(i), PrefixSum(i + 1))` holds the draw; in particular the
      index is in range and its weight is positive, so an item of weight 0 is
      never returned. */
  lemma DrawSelects(weights: seq<Int32>, draw: Int32)
    requires NonNegative(weights) && Sum(weights) < TwoTo31
    requires 0 <= draw < Total(weights)
    ensures var i := FirstExceeding(weights, draw, 0);
      i < |weights| && PrefixSum(weights, i) <= draw < PrefixSum(weights, i + 1) && weights[i] > 0
  {
    var i := FirstExceeding(weights, draw, 0);
    NoOverflow(weights, |weights|);
    assert i < |weights|;
    NoOverflow(weights, i);
    NoOverflow(weights, i + 1);
    if i > 0 {
      assert Prefix(weights, i) <= draw;
    }
  }

  /** The draws in `[0, totalWeight)` that pick index `i` are exactly those in
      its slice of the prefix sums. */
  lemma PickedIff(weights: seq<Int32>, draw: Int32, i: nat)
    requires NonNegative(weights) && Sum(weights) < TwoTo31
    requires 0 <= draw < Total(weights) && i < |weights|
    ensures FirstExceeding(weights, draw, 0) == i <==> PrefixSum(weights, i) <= draw < PrefixSum(weights, i + 1)
  {
    DrawSelects(weights, draw);
    var j := FirstExceeding(weights, draw, 0);
    if PrefixSum(weights, i) <= draw < PrefixSum(weights, i + 1) {
      NoOverflow(weights, i + 1);
      NoOverflow(weights, j + 1);
      // the prefix through `i` exceeds the draw, so the least such index is at most `i`
      assert draw < Prefix(weights, i + 1);
      if j < i {
        PrefixSumMonotone(weights, j + 1, i);
      }
    }
  }

  /** The integers in `[lo, hi)`. */
  function Interval(lo: int, hi: int): (r: set<int>)
    ensures forall d :: d in r <==> lo <= d < hi
    decreases hi - lo
  {
    if lo >= hi then {} else Interval(lo, hi - 1) + {hi - 1}
  }

  lemma {:induction false} IntervalSize(lo: int, hi: int)
    requires lo <= hi
    ensures |Interval(lo, hi)| == hi - lo
    decreases hi - lo
  {
    if lo < hi {
      IntervalSize(lo, hi - 1);
    }
  }

  /** Out of the `totalWeight` equally likely draws of `Random.Range(0,
      totalWeight)`, exactly `weights[i]` pick index `i`. */
  lemma ChoiceCount(weights: seq<Int32>, i: nat)
    requires NonNegative(weights) && Sum(weights) < TwoTo31
    requires i < |weights|
    ensures |DrawsPicking(weights, i)| == weights[i]
  {
    PickedIsSlice(weights, i);
    IntervalSize(PrefixSum(weights, i), PrefixSum(weights, i + 1));
  }

  /** The draws in `[0, totalWeight)` that make `WeightRandom` pick index `i`. */
  function DrawsPicking(weights: seq<Int32>, i: nat): set<int> {
    set d: Int32 | 0 <= d < Total(weights) && FirstExceeding(weights, d, 0) == i
  }

  lemma PickedIsSlice(weights: seq<Int32>, i: nat)
    requires NonNegative(weights) && Sum(weights) < TwoTo31
    requires i < |weights|
    ensures PrefixSum(weights, i) <= PrefixSum(weights, i + 1)
    ensures DrawsPicking(weights, i) == Interval(PrefixSum(weights, i), PrefixSum(weights, i + 1))
  {
    var lo, hi := PrefixSum(weights, i), PrefixSum(weights, i + 1);
    NoOverflow(weights, |weights|);
    PrefixSumMonotone(weights, i, i + 1);
    PrefixSumMonotone(weights, i + 1, |weights|);
    forall d: int
      ensures d in DrawsPicking(weights, i) <==> lo <= d < hi
    {
      if 0 <= d < Total(weights) {
        PickedIff(weights, d, i);
      }
    }
  }

  /** When no prefix sum exceeds the draw (all weights 0, say), the last item
      is returned. */
  lemma NothingExceedsPicksLast<T>(items: seq<T>, weights: seq<Int32>, draw: Int32)
    requires forall n :: 0 < n <= |weights| ==> Prefix(weights, n) <= draw
    ensures Pick(items, weights, draw) == ItemAt(items, |items| - 1)
  {
  }

  /** All weights 0: the total is 0 and any non-negative draw yields the last item. */
  lemma AllZeroPicksLast<T>(items: seq<T>, weights: seq<Int32>, draw: Int32)
    requires forall k :: 0 <= k < |weights| ==> weights[k] == 0
    requires draw >= 0
    ensures Total(weights) == 0
    ensures Pick(items, weights, draw) == ItemAt(items, |items| - 1)
  {
    forall n | 0 <= n <= |weights|
      ensures Prefix(weights, n) == 0
    {
      ZeroPrefix(weights, n);
    }
    NothingExceedsPicksLast(items, weights, draw);
  }

  lemma {:induction false} ZeroPrefix(weights: seq<Int32>, n: nat)
    requires forall k :: 0 <= k < |weights| ==> weights[k] == 0
    requires n <= |weights|
    ensures Prefix(weights, n) == 0
  {
    if n > 0 {
      ZeroPrefix(weights, n - 1);
    }
  }

  // ---------------------------------------------------------------------------
  // Shuffle

  /** The values `random.Next(i, count)` can return at steps `0 .. count-1`. */
  predicate ValidChoices(choices: seq<nat>, count: nat) {
    |choices| >= count && forall i :: 0 <= i < count ==> i <= choices[i] < count
  }

  /** What the shuffle yields from step `i` on, given the buffer at that step:
      the element at the chosen index, after which that slot takes `buffer[i]`. */
  function Shuffled<T>(buffer: seq<T>, choices: seq<nat>, i: nat): seq<T>
    requires ValidChoices(choices, |buffer|) && i <= |buffer|
    decreases |buffer| - i
  {
    if i == |buffer| then []
    else
      var j := choices[i];
      [buffer[j]] + Shuffled(buffer[j := buffer[i]], choices, i + 1)
  }

  /** `Shuffle(source, seed)`, with the values the seeded `System.Random`
      returns as `choices`; the yielded elements are collected in `output`.
      The output is a function of the source and the choices only, so one
      seed always gives one order. */
  method Shuffle<T>(source: seq<T>, choices: seq<nat>) returns (output: seq<T>)
    requires ValidChoices(choices, |source|)
    ensures output == Shuffled(source, choices, 0)
    ensures |output| == |source| && multiset(output) == multiset(source)
  {
    var buffer := new T[|source|](k requires 0 <= k < |source| => source[k]);
    var count := buffer.Length;
    output := [];
    assert buffer[..] == source;
    for i := 0 to count
      invariant output + Shuffled(buffer[..], choices, i) == Shuffled(source, choices, 0)
    {
      var j := choices[i];
      output := output + [buffer[j]];
      buffer[j] := buffer[i];
    }
    ShuffledIsPermutation(source, choices, 0);
  }

  /** From step `i` on, the shuffle yields a permutation of `buffer[i..]`. */
  lemma {:induction false} ShuffledIsPermutation<T>(buffer: seq<T>, choices: seq<nat>, i: nat)
    requires ValidChoices(choices, |buffer|) && i <= |buffer|
    ensures |Shuffled(buffer, choices, i)| == |buffer| - i
    ensures multiset(Shuffled(buffer, choices, i)) == multiset(buffer[i..])
    decreases |buffer| - i
  {
    if i < |buffer| {
      var j := choices[i];
      var next := buffer[j := buffer[i]];
      ShuffledIsPermutation(next, choices, i + 1);
      assert buffer[i..] == [buffer[i]] + buffer[i + 1..];
      if j == i {
        assert next[i + 1..] == buffer[i + 1..];
      } else {
        assert next[i + 1..] == buffer[i + 1..][j - i - 1 := buffer[i]];
        assert buffer[i + 1..][j - i - 1] == buffer[j];
      }
    }
  }

  /** When every step picks its own index, the source comes out unchanged. */
  lemma {:induction false} IdentityChoices<T>(buffer: seq<T>, choices: seq<nat>, i: nat)
    requires ValidChoices(choices, |buffer|) && i <= |buffer|
    requires forall k :: 0 <= k < |buffer| ==> choices[k] == k
    ensures Shuffled(buffer, choices, i) == buffer[i..]
    decreases |buffer| - i
  {
    if i < |buffer| {
      assert buffer[i := buffer[i]] == buffer;
      IdentityChoices(buffer, choices, i + 1);
      assert buffer[i..] == [buffer[i]] + buffer[i + 1..];
    }
  }

  // ---------------------------------------------------------------------------
  // SetGauge

  /** The text component the gauge writes to. */
  class TextLabel {
    var text: string

    constructor (text: string)
      ensures this.text == text
    {
      this.text := text;
    }
  }

  function DigitChar(d: nat): char
    requires d < 10
  {
    "0123456789"[d]
  }

  /** The decimal digits of `n`, most significant first, without leading zeros. */
  function NatText(n: nat): string
    decreases n
  {
    if n < 10 then [DigitChar(n)] else NatText(n / 10) + [DigitChar(n % 10)]
  }

  /** `int.ToString()` under the invariant culture. */
  function DecimalText(x: int): string {
    if x < 0 then "-" + NatText(-x) else NatText(x)
  }

  /** The gauge text: the current value, `" / "`, then the maximum. */
  function GaugeText(currentValue: Int32, maxValue: Int32): string {
    DecimalText(currentValue) + " / " + DecimalText(maxValue)
  }

  /** `SetGauge(textMesh, gaugeImg, currentValue, maxValue)`: builds the text
      piece by piece and assigns it. The image is not used by the source. */
  method SetGauge(textMesh: TextLabel, currentValue: Int32, maxValue: Int32)
    modifies textMesh
    ensures textMesh.text == GaugeText(currentValue, maxValue)
  {
    var stringBuilder := "";
    stringBuilder := stringBuilder + DecimalText(currentValue);
    stringBuilder := stringBuilder + " / ";
    stringBuilder := stringBuilder + DecimalText(maxValue);
    textMesh.text := stringBuilder;
  }

  // Reading a gauge text back: the reference the round trip is stated against.

  function DigitValue(c: char): int {
    c as int - '0' as int
  }

  function ParseNat(s: string): int
    decreases |s|
  {
    if s == [] then 0 else ParseNat(s[..|s| - 1]) * 10 + DigitValue(s[|s| - 1])
  }

  function ParseDecimal(s: string): int {
    if s != [] && s[0] == '-' then -ParseNat(s[1..]) else ParseNat(s)
  }

  /** The two numbers of a text of the form `a / b`, cut at its first space. */
  function ParseGauge(s: string): Option<(int, int)> {
    var i := IndexOf(s, ' ');
    if i + 3 <= |s| && s[i..i + 3] == " / " then Some((ParseDecimal(s[..i]), ParseDecimal(s[i + 3..])))
    else None
  }

  lemma {:induction false} NatTextDigits(n: nat)
    ensures NatText(n) != []
    ensures forall k :: 0 <= k < |NatText(n)| ==> '0' <= NatText(n)[k] <= '9'
    decreases n
  {
    if n >= 10 {
      NatTextDigits(n / 10);
    }
  }

  lemma {:induction false} ParseNatText(n: nat)
    ensures ParseNat(NatText(n)) == n
    decreases n
  {
    if n >= 10 {
      ParseNatText(n / 10);
      var s := NatText(n);
      assert s[..|s| - 1] == NatText(n / 10);
    }
  }

  lemma ParseDecimalText(x: int)
    ensures ParseDecimal(DecimalText(x)) == x
  {
    var n := if x < 0 then -x else x;
    var t := NatText(n);
    assert ParseNat(t) == n by { ParseNatText(n); }
    if x < 0 {
      assert DecimalText(x) == "-" + t;
      assert ("-" + t)[1..] == t;
    } else {
      assert t[0] != '-' by { NatTextDigits(n); }
    }
  }

  lemma DecimalTextHasNoSpace(x: int)
    ensures ' ' !in DecimalText(x)
  {
    var n := if x < 0 then -x else x;
    NatTextDigits(n);
    assert ' ' !in NatText(n);
    if x < 0 {
      assert DecimalText(x) == "-" + NatText(n);
    }
  }

  /** The gauge text determines both numbers it shows. */
  lemma GaugeRoundTrip(currentValue: Int32, maxValue: Int32)
    ensures ParseGauge(GaugeText(currentValue, maxValue)) == Some((currentValue, maxValue))
  {
    var a, b := DecimalText(currentValue), DecimalText(maxValue);
    var s := GaugeText(currentValue, maxValue);
    ParseDecimalText(currentValue);
    ParseDecimalText(maxValue);
    DecimalTextHasNoSpace(currentValue);
    assert s == a + (" / " + b);
    IndexOfFirst(a, ' ', " / " + b);
    assert s[..|a|] == a;
    assert s[|a|..|a| + 3] == " / ";
    assert s[|a| + 3..] == b;
  }
}
