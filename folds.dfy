/** Ramda's `R.reduce` over an argument list, the arithmetic it folds in
    my-js/core.js and my-js/repl_environment.js, and the sums and products
    those folds compute. */
module Folds {

  /** `R.reduce(f, acc, xs)`: `f` applied left to right, the running value
      first. */
  function FoldLeft<A, B>(f: (B, A) -> B, acc: B, xs: seq<A>): B
    decreases |xs|
  {
    if xs == [] then acc else FoldLeft(f, f(acc, xs[0]), xs[1..])
  }

  function Add(a: int, b: int): int {
    a + b
  }

  function Sub(a: int, b: int): int {
    a - b
  }

  function Mul(a: int, b: int): int {
    a * b
  }

  /** The sum of a list of integers, combined from the right. */
  function Sum(xs: seq<int>): int {
    if xs == [] then 0 else xs[0] + Sum(xs[1..])
  }

  /** The product of a list of integers, combined from the right. */
  function Product(xs: seq<int>): int {
    if xs == [] then 1 else xs[0] * Product(xs[1..])
  }

  /** The fold runs left to right: folding a concatenation folds the second
      part starting from the result of the first, so the last element is
      combined last. */
  lemma {:induction false} FoldLeftAppend<A, B>(f: (B, A) -> B, acc: B, xs: seq<A>, ys: seq<A>)
    ensures FoldLeft(f, acc, xs + ys) == FoldLeft(f, FoldLeft(f, acc, xs), ys)
    decreases |xs|
  {
    if xs == [] {
      assert xs + ys == ys;
    } else {
      assert (xs + ys)[0] == xs[0] && (xs + ys)[1..] == xs[1..] + ys;
      FoldLeftAppend(f, f(acc, xs[0]), xs[1..], ys);
    }
  }

  /** Adding left to right from `acc` adds the sum. */
  lemma {:induction false} FoldAddIsSum(acc: int, xs: seq<int>)
    ensures FoldLeft(Add, acc, xs) == acc + Sum(xs)
    decreases |xs|
  {
    if xs != [] {
      FoldAddIsSum(acc + xs[0], xs[1..]);
    }
  }

  /** Subtracting left to right from `acc` subtracts the sum. */
  lemma {:induction false} FoldSubIsDifference(acc: int, xs: seq<int>)
    ensures FoldLeft(Sub, acc, xs) == acc - Sum(xs)
    decreases |xs|
  {
    if xs != [] {
      FoldSubIsDifference(acc - xs[0], xs[1..]);
    }
  }

  /** Multiplying left to right from `acc` multiplies by the product. */
  lemma {:induction false} FoldMulIsProduct(acc: int, xs: seq<int>)
    ensures FoldLeft(Mul, acc, xs) == acc * Product(xs)
    decreases |xs|
  {
    if xs != [] {
      FoldMulIsProduct(acc * xs[0], xs[1..]);
      assert acc * xs[0] * Product(xs[1..]) == acc * (xs[0] * Product(xs[1..]));
    }
  }
}
