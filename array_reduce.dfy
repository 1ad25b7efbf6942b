/**
 * The part of JavaScript's `Array.prototype.reduce` that the calculator
 * handlers rely on: with an initial value, `xs.reduce(step, seed)` folds
 * `step` over `xs` from left to right, so that it yields
 * `step(...step(step(seed, xs[0]), xs[1])..., xs[n-1])`.
 *
 * The handlers only ever reduce with one of four arithmetic operators, so the
 * step is an `Op` rather than a closure. A JavaScript number is modelled by an
 * exact `real`.
 */
module ArrayReduce {

  /** The binary operators the handlers fold with: `+`, `-`, `*` and `/`. */
  datatype Op = Plus | Minus | Times | Over

  /** True when no element of `xs` is zero, i.e. every element may be a divisor. */
  predicate NoZero(xs: seq<real>)
  {
    forall i :: 0 <= i < |xs| ==> xs[i] != 0.0
  }

  /** One reduction step `acc op x`; a division is only defined for a non-zero divisor. */
  function Apply(op: Op, acc: real, x: real): real
    requires op == Over ==> x != 0.0
  {
    match op
    case Plus => acc + x
    case Minus => acc - x
    case Times => acc * x
    case Over => acc / x
  }

  /**
   * Reducing `xs` with the operator from `seed`, as JavaScript's `reduce` does
   * with an initial value: the elements are combined from left to right. When
   * the operator is division, every element is a divisor and must be
   * non-zero, so no step of the fold divides by zero.
   */
  function FoldLeft(op: Op, seed: real, xs: seq<real>): real
    requires op == Over ==> NoZero(xs)
    decreases |xs|
  {
    if xs == [] then seed
    else FoldLeft(op, Apply(op, seed, xs[0]), xs[1..])
  }

  /**
   * The fold is left-nested: folding `xs + [x]` applies the operator to the
   * fold of `xs` and the last element `x`, which is therefore combined last.
   */
  lemma {:induction false} FoldLeftSnoc(op: Op, seed: real, xs: seq<real>, x: real)
    requires op == Over ==> NoZero(xs + [x])
    ensures op == Over ==> NoZero(xs) && x != 0.0
    ensures FoldLeft(op, seed, xs + [x]) == Apply(op, FoldLeft(op, seed, xs), x)
    decreases |xs|
  {
    if op == Over {
      assert forall i :: 0 <= i < |xs| ==> xs[i] == (xs + [x])[i];
      assert x == (xs + [x])[|xs|];
    }
    if xs != [] {
      assert (xs + [x])[1..] == xs[1..] + [x];
      FoldLeftSnoc(op, Apply(op, seed, xs[0]), xs[1..], x);
    }
  }
}
