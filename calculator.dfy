/**
 * The four calculator tools `add`, `subtract`, `multiply` and `divide`.
 * Each takes an array of numbers and ends in one of three ways: it throws an
 * error with a fixed message, it succeeds with a fixed sentinel text, or it
 * succeeds with a computed number. Numbers are exact reals; how the number is
 * rendered as text is not modelled.
 */
module Calculator {
  import opened ArrayReduce

  /** What a tool call produces: a thrown error, a successful sentinel text, or a successful number. */
  datatype Outcome = Err(msg: string) | Sentinel(text: string) | Value(v: real)

  const SubtractArityMessage: string := "Subtraction requires at least one number"
  const DivideArityMessage: string := "Division requires at least two numbers"
  const DivideByZeroText: string := "Cannot divide by zero"

  // Reference definitions: the sum and the product of a sequence, each built
  // by combining everything before the last element with the last element.

  function Sum(xs: seq<real>): real
    decreases |xs|
  {
    if xs == [] then 0.0 else Sum(xs[..|xs| - 1]) + xs[|xs| - 1]
  }

  function Product(xs: seq<real>): real
    decreases |xs|
  {
    if xs == [] then 1.0 else Product(xs[..|xs| - 1]) * xs[|xs| - 1]
  }

  /** Some denominator, i.e. some element after the first, is zero. */
  predicate HasZeroDenominator(numbers: seq<real>)
  {
    exists i :: 1 <= i < |numbers| && numbers[i] == 0.0
  }

  // The four folds, each against its reference definition.

  lemma {:induction false} FoldPlusIsSum(seed: real, xs: seq<real>)
    ensures FoldLeft(Plus, seed, xs) == seed + Sum(xs)
    decreases |xs|
  {
    if xs != [] {
      var init, last := xs[..|xs| - 1], xs[|xs| - 1];
      assert xs == init + [last];
      FoldLeftSnoc(Plus, seed, init, last);
      FoldPlusIsSum(seed, init);
    }
  }

  lemma {:induction false} FoldMinusIsDifference(seed: real, xs: seq<real>)
    ensures FoldLeft(Minus, seed, xs) == seed - Sum(xs)
    decreases |xs|
  {
    if xs != [] {
      var init, last := xs[..|xs| - 1], xs[|xs| - 1];
      assert xs == init + [last];
      FoldLeftSnoc(Minus, seed, init, last);
      FoldMinusIsDifference(seed, init);
    }
  }

  lemma {:induction false} FoldTimesIsProduct(seed: real, xs: seq<real>)
    ensures FoldLeft(Times, seed, xs) == seed * Product(xs)
    decreases |xs|
  {
    if xs != [] {
      var init, last := xs[..|xs| - 1], xs[|xs| - 1];
      assert xs == init + [last];
      FoldLeftSnoc(Times, seed, init, last);
      FoldTimesIsProduct(seed, init);
    }
  }

  lemma {:induction false} FoldOverIsQuotient(seed: real, xs: seq<real>)
    requires NoZero(xs)
    ensures Product(xs) != 0.0
    ensures FoldLeft(Over, seed, xs) == seed / Product(xs)
    decreases |xs|
  {
    if xs != [] {
      var init, last := xs[..|xs| - 1], xs[|xs| - 1];
      assert xs == init + [last];
      FoldLeftSnoc(Over, seed, init, last);
      FoldOverIsQuotient(seed, init);
      var p, q := Product(init), seed / Product(init) / last;
      assert q * last == seed / p;
      assert q * (p * last) == seed;
    }
  }

  // The tool handlers.

  /** `add`: the left fold of `+` over the numbers, starting from 0. Never fails. */
  function Add(numbers: seq<real>): (r: Outcome)
    ensures r == Value(Sum(numbers))
    ensures numbers == [] ==> r == Value(0.0)
  {
    FoldPlusIsSum(0.0, numbers);
    Value(FoldLeft(Plus, 0.0, numbers))
  }

  /**
   * `subtract`: fails on an empty array; otherwise the left fold of `-` over
   * every number after the first, starting from the first.
   */
  function Subtract(numbers: seq<real>): (r: Outcome)
    ensures r.Err? <==> numbers == []
    ensures r.Err? ==> r.msg == SubtractArityMessage
    ensures !r.Sentinel?
    ensures numbers != [] ==> r == Value(numbers[0] - Sum(numbers[1..]))
    ensures |numbers| == 1 ==> r == Value(numbers[0])
  {
    if |numbers| == 0 then
      Err(SubtractArityMessage)
    else
      FoldMinusIsDifference(numbers[0], numbers[1..]);
      Value(FoldLeft(Minus, numbers[0], numbers[1..]))
  }

  /** `multiply`: the left fold of `*` over the numbers, starting from 1. Never fails. */
  function Multiply(numbers: seq<real>): (r: Outcome)
    ensures r == Value(Product(numbers))
    ensures numbers == [] ==> r == Value(1.0)
  {
    FoldTimesIsProduct(1.0, numbers);
    Value(FoldLeft(Times, 1.0, numbers))
  }

  /**
   * `divide`: fails on fewer than two numbers; otherwise splits off the
   * numerator, answers the sentinel text when some denominator is zero, and
   * else the left fold of `/` over the denominators, starting from the
   * numerator.
   */
  function Divide(numbers: seq<real>): (r: Outcome)
    ensures r.Err? <==> |numbers| < 2
    ensures r.Err? ==> r.msg == DivideArityMessage
    ensures r.Sentinel? <==> |numbers| >= 2 && HasZeroDenominator(numbers)
    ensures r.Sentinel? ==> r.text == DivideByZeroText
    ensures r.Value? ==> Product(numbers[1..]) != 0.0 && r.v == numbers[0] / Product(numbers[1..])
  {
    if |numbers| < 2 then
      Err(DivideArityMessage)
    else
      var numerator := numbers[0];
      var denominators := numbers[1..];
      if 0.0 in denominators then
        Sentinel(DivideByZeroText)
      else
        FoldOverIsQuotient(numerator, denominators);
        Value(FoldLeft(Over, numerator, denominators))
  }

  // Left-to-right order: each handler combines the element appended last
  // with the result it gave before that element was appended.

  lemma AddAppend(numbers: seq<real>, x: real)
    ensures Add(numbers + [x]) == Value(Add(numbers).v + x)
  {
  }

  lemma SubtractAppend(numbers: seq<real>, x: real)
    requires numbers != []
    ensures Subtract(numbers + [x]) == Value(Subtract(numbers).v - x)
  {
    assert (numbers + [x])[1..] == numbers[1..] + [x];
    assert (numbers[1..] + [x])[..|numbers| - 1] == numbers[1..];
  }

  lemma MultiplyAppend(numbers: seq<real>, x: real)
    ensures Multiply(numbers + [x]) == Value(Multiply(numbers).v * x)
  {
  }

  /** Appending a non-zero divisor to a successful division divides its result once more. */
  lemma DivideAppend(numbers: seq<real>, x: real)
    requires Divide(numbers).Value?
    requires x != 0.0
    ensures Divide(numbers + [x]) == Value(Divide(numbers).v / x)
  {
    var ds := numbers[1..];
    assert (numbers + [x])[1..] == ds + [x];
    assert NoZero(ds + [x]) by {
      forall i | 0 <= i < |ds + [x]| ensures (ds + [x])[i] != 0.0 {
        if i < |ds| {
          assert (ds + [x])[i] == numbers[i + 1];
        }
      }
    }
    FoldOverIsQuotient(numbers[0], ds);
    FoldOverIsQuotient(numbers[0], ds + [x]);
    FoldLeftSnoc(Over, numbers[0], ds, x);
  }

  /** Appending a zero to at least one number always yields the sentinel. */
  lemma DivideAppendZero(numbers: seq<real>)
    requires numbers != []
    ensures Divide(numbers + [0.0]) == Sentinel(DivideByZeroText)
  {
  }

  /** A zero numerator is not a zero divisor: it divides to zero. */
  lemma DivideZeroNumerator(numbers: seq<real>)
    requires |numbers| >= 2 && numbers[0] == 0.0
    requires forall i :: 1 <= i < |numbers| ==> numbers[i] != 0.0
    ensures Divide(numbers) == Value(0.0)
  {
  }

  /**
   * Which of the three outcomes a handler produces depends only on the length
   * of the array and on which denominators are zero, never on other values.
   */
  lemma OutcomeKindDetermined(xs: seq<real>, ys: seq<real>)
    requires |xs| == |ys|
    requires forall i :: 1 <= i < |xs| ==> (xs[i] == 0.0 <==> ys[i] == 0.0)
    ensures Add(xs).Value? && Add(ys).Value? && Multiply(xs).Value? && Multiply(ys).Value?
    ensures Subtract(xs).Err? == Subtract(ys).Err? && Subtract(xs).Value? == Subtract(ys).Value?
    ensures Divide(xs).Err? == Divide(ys).Err?
    ensures Divide(xs).Sentinel? == Divide(ys).Sentinel?
    ensures Divide(xs).Value? == Divide(ys).Value?
  {
  }

  /** The cases of the tool's end-to-end test suite whose expected text is an integer or a message. */
  lemma TestSuiteCases()
    ensures Add([5.0, 3.0, 2.0]) == Value(10.0)
    ensures Subtract([10.0, 4.0, 1.0]) == Value(5.0)
    ensures Multiply([2.0, 6.0, 2.0]) == Value(24.0)
    ensures Divide([20.0, 2.0, 5.0]) == Value(2.0)
    ensures Divide([5.0, 2.0, 0.0]) == Sentinel("Cannot divide by zero")
    ensures Subtract([]) == Err("Subtraction requires at least one number")
    ensures Divide([10.0]) == Err("Division requires at least two numbers")
  {
  }
}
