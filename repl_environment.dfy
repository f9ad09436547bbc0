/** The older primitive table (my-js/repl_environment.js): the same folds,
    over raw integers instead of number nodes, and JavaScript's remainder. */
module ReplEnvironment {
  import opened Wrappers
  import opened Folds

  /** `R.reduce(add, 0)`: the sum, starting from 0. */
  function Plus(args: seq<int>): (r: int)
    ensures r == Sum(args)
    ensures args == [] ==> r == 0
  {
    FoldAddIsSum(0, args);
    FoldLeft(Add, 0, args)
  }

  /** `minus(args)`: every later argument subtracted from the first, left to
      right. With no arguments JavaScript's result is `undefined`: `None`. */
  function Minus(args: seq<int>): (r: Option<int>)
    ensures r.Some? <==> |args| >= 1
    ensures r.Some? ==> r.value == args[0] - Sum(args[1..])
    ensures |args| == 1 ==> r == Some(args[0])
  {
    if args == [] then None
    else
      FoldSubIsDifference(args[0], args[1..]);
      Some(FoldLeft(Sub, args[0], args[1..]))
  }

  /** `multiplicate(args)`: the product, starting from the first argument.
      With no arguments the result is `undefined`: `None`. */
  function Multiplicate(args: seq<int>): (r: Option<int>)
    ensures r.Some? <==> |args| >= 1
    ensures r.Some? ==> r.value == Product(args)
  {
    if args == [] then None
    else
      FoldMulIsProduct(args[0], args[1..]);
      Some(FoldLeft(Mul, args[0], args[1..]))
  }

  function Abs(x: int): nat {
    if x < 0 then -x else x
  }

  /** The quotient of two magnitudes, which is itself a magnitude. */
  function Quotient(x: nat, y: nat): (m: nat)
    requires y > 0
    ensures m == x / y
  {
    x / y
  }

  /** The quotient truncated toward zero: as large in magnitude as possible
      without exceeding the exact quotient, negative only when the operands'
      signs differ. */
  function TruncDiv(a: int, b: int): (q: int)
    requires b != 0
    ensures Abs(q) == Abs(a) / Abs(b)
    ensures q < 0 ==> (a < 0) != (b < 0)
    ensures q > 0 ==> (a < 0) == (b < 0)
  {
    var m := Quotient(Abs(a), Abs(b));
    if (a < 0) == (b < 0) then m as int else -(m as int)
  }

  /** JavaScript's `a % b` on integers: `a - b * q` for the truncated quotient
      `q`, which is smaller than `b` in magnitude and has the sign of `a`. A
      zero divisor gives `NaN`: `None`. */
  function Remainder(a: int, b: int): (r: Option<int>)
    ensures r.Some? <==> b != 0
    ensures r.Some? ==> a == b * TruncDiv(a, b) + r.value && Abs(r.value) < Abs(b)
    ensures r.Some? ==> r.value == 0 || (r.value > 0 <==> a > 0)
  {
    if b == 0 then None
    else
      var m := Abs(a) % Abs(b);
      RemainderOfMagnitudes(a, b, m);
      Some(if a < 0 then -m else m)
  }

  /** The remainder of the magnitudes, given the sign of `a`, completes the
      truncated division. */
  lemma RemainderOfMagnitudes(a: int, b: int, m: int)
    requires b != 0 && m == Abs(a) % Abs(b)
    ensures a == b * TruncDiv(a, b) + (if a < 0 then -m else m)
  {
    var q := Abs(a) / Abs(b);
    assert Abs(a) == Abs(b) * q + m;
    if a < 0 && b < 0 {
      assert b * q == -(Abs(b) * q);
    } else if a < 0 {
      assert b * -q == -(Abs(b) * q);
    } else if b < 0 {
      assert b * -q == Abs(b) * q;
    }
  }

  /** The builtins the table binds. */
  datatype Builtin = AddAll | SubtractAll | MultiplyAll | Mod

  /** The `env` table, without `/`. */
  const ReplEnv: map<string, Builtin> := map[
    "+" := AddAll,
    "-" := SubtractAll,
    "*" := MultiplyAll,
    "%" := Mod
  ]

  /** Calling a builtin on the arguments `sliceArguments` collects. `%`
      takes the first two and ignores the rest; with fewer than two it
      divides by `undefined` and gives `NaN`: `None`. */
  function Invoke(f: Builtin, args: seq<int>): (r: Option<int>)
    ensures f == AddAll ==> r == Some(Sum(args))
    ensures f == SubtractAll ==> (r.Some? <==> |args| >= 1)
    ensures f == SubtractAll && r.Some? ==> r.value == args[0] - Sum(args[1..])
    ensures f == MultiplyAll ==> (r.Some? <==> |args| >= 1)
    ensures f == MultiplyAll && r.Some? ==> r.value == Product(args)
    ensures f == Mod ==> (r.Some? <==> |args| >= 2 && args[1] != 0)
    ensures f == Mod && r.Some? ==>
      args[0] == args[1] * TruncDiv(args[0], args[1]) + r.value && Abs(r.value) < Abs(args[1])
  {
    match f
    case AddAll => Some(Plus(args))
    case SubtractAll => Minus(args)
    case MultiplyAll => Multiplicate(args)
    case Mod => if |args| >= 2 then Remainder(args[0], args[1]) else None
  }

  // ---------------------------------------------------------------- properties

  /** The table binds exactly `+ - * %`, each to its builtin. */
  lemma ReplEnvEntries()
    ensures ReplEnv.Keys == {"+", "-", "*", "%"}
    ensures ReplEnv["+"] == AddAll && ReplEnv["-"] == SubtractAll
    ensures ReplEnv["*"] == MultiplyAll && ReplEnv["%"] == Mod
  {
  }

  /** `+` in the table sums its arguments from 0, for every argument list. */
  lemma ReplPlusCall(args: seq<int>)
    ensures Invoke(ReplEnv["+"], args) == Some(Sum(args))
  {
    ReplEnvEntries();
  }

  /** `-` in the table subtracts the rest from the first argument; with no
      arguments it gives `undefined`. */
  lemma ReplMinusCall(args: seq<int>)
    ensures Invoke(ReplEnv["-"], args) == if args == [] then None else Some(args[0] - Sum(args[1..]))
  {
    ReplEnvEntries();
  }

  /** `*` in the table multiplies from the first argument; with no arguments
      it gives `undefined`. */
  lemma ReplTimesCall(args: seq<int>)
    ensures Invoke(ReplEnv["*"], args) == if args == [] then None else Some(Product(args))
  {
    ReplEnvEntries();
  }

  /** `%` in the table is the truncated remainder of its first two arguments,
      and `NaN` with fewer. */
  lemma ReplModCall(args: seq<int>)
    ensures |args| >= 2 ==> Invoke(ReplEnv["%"], args) == Remainder(args[0], args[1])
    ensures |args| < 2 ==> Invoke(ReplEnv["%"], args) == None
  {
    ReplEnvEntries();
  }

  /** Truncated remainder is not Euclidean: `-7 % 3` is `-1` and `7 % -3` is
      `1`. */
  lemma RemainderSigns()
    ensures Remainder(-7, 3) == Some(-1) && Remainder(7, -3) == Some(1)
    ensures Remainder(7, 3) == Some(1) && Remainder(-7, -3) == Some(-1)
  {
  }

  /** For every dividend and divisor: the divisor's sign never matters, and
      negating the dividend negates the remainder. A Euclidean remainder has
      neither property. */
  lemma RemainderSymmetry(a: int, b: int)
    requires b != 0
    ensures Remainder(a, -b) == Remainder(a, b)
    ensures Remainder(-a, b).value == -Remainder(a, b).value
  {
    assert Abs(-b) == Abs(b) && Abs(-a) == Abs(a);
  }
}
