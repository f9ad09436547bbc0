/** The core namespace (my-js/core.js): integer folds over number nodes, the
    `list` constructor and the `nil` binding. */
module Core {
  import opened Wrappers
  import opened Ast
  import opened Folds

  predicate AllNumbers(args: seq<Node>) {
    forall i :: 0 <= i < |args| ==> args[i].Number?
  }

  /** `R.pluck('value', args)` over number nodes. */
  function Values(args: seq<Node>): (vs: seq<int>)
    requires AllNumbers(args)
    ensures |vs| == |args|
    ensures forall i :: 0 <= i < |args| ==> vs[i] == args[i].value
  {
    if args == [] then [] else [args[0].value] + Values(args[1..])
  }

  /** The binary operation folded by a math primitive. */
  function MathFn(p: Primitive): (int, int) -> int
    requires p != ListOf
  {
    match p
    case Add => Folds.Add
    case Subtract => Sub
    case Multiply => Mul
  }

  /** `reduceMathFn(mathfn)(args)`: a number node holding the fold of the
      argument values, starting from the first. `None` stands for the results
      JavaScript obtains by coercion, which the model does not compute: an
      argument that is not a number node (JavaScript coerces its value) and
      no arguments (a number node holding `undefined`). */
  function ReduceMathFn(p: Primitive, args: seq<Node>): (r: Option<Node>)
    requires p != ListOf
    ensures r.Some? <==> |args| >= 1 && AllNumbers(args)
    ensures r.Some? ==> r.value.Number?
    ensures r.Some? && p == Add ==> r.value.value == Sum(Values(args))
    ensures r.Some? && p == Subtract ==> r.value.value == args[0].value - Sum(Values(args[1..]))
    ensures r.Some? && p == Multiply ==> r.value.value == Product(Values(args))
    ensures r.Some? && |args| == 1 ==> r.value == args[0]
  {
    if |args| == 0 || !AllNumbers(args) then None
    else
      var vs := Values(args);
      assert vs[1..] == Values(args[1..]);
      FoldAddIsSum(vs[0], vs[1..]);
      FoldSubIsDifference(vs[0], vs[1..]);
      FoldMulIsProduct(vs[0], vs[1..]);
      Some(Number(FoldLeft(MathFn(p), vs[0], vs[1..])))
  }

  /** `coreList(args)`: a list node of exactly the arguments. */
  function CoreList(args: seq<Node>): (r: Node)
    ensures r.List? && r.items == args
  {
    List(args)
  }

  /** Calling the function a `function` node carries, with its arguments
      spread as `sliceArguments` collects them. */
  function Apply(p: Primitive, args: seq<Node>): (r: Option<Node>)
    ensures p == ListOf ==> r == Some(List(args))
    ensures p != ListOf ==> (r.Some? <==> |args| >= 1 && AllNumbers(args))
    ensures p == Add && r.Some? ==> r.value == Number(Sum(Values(args)))
    ensures p == Subtract && r.Some? ==> r.value == Number(args[0].value - Sum(Values(args[1..])))
    ensures p == Multiply && r.Some? ==> r.value == Number(Product(Values(args)))
  {
    if p == ListOf then Some(CoreList(args)) else ReduceMathFn(p, args)
  }

  /** The `ns` table, without `/` and `%`. */
  const Ns: map<string, Node> := map[
    "+" := Function(Add),
    "-" := Function(Subtract),
    "*" := Function(Multiply),
    "nil" := Str("nil"),
    "list" := Function(ListOf)
  ]

  /** Looking a name up in the table and calling what it holds. */
  function CallNs(name: string, args: seq<Node>): (r: Option<Node>)
    requires name in Ns && Ns[name].Function?
  {
    Apply(Ns[name].primitive, args)
  }

  // ---------------------------------------------------------------- properties

  /** The table binds `nil` to a string node and every other name to a
      function node. */
  lemma NsBindings()
    ensures Ns.Keys == {"+", "-", "*", "nil", "list"}
    ensures Ns["nil"] == Str("nil")
    ensures forall name :: name in Ns && name != "nil" ==> Ns[name].Function?
  {
  }

  /** The function node each name of the table holds. */
  lemma NsEntries()
    ensures Ns["+"] == Function(Add) && Ns["-"] == Function(Subtract)
    ensures Ns["*"] == Function(Multiply) && Ns["list"] == Function(ListOf)
  {
  }

  /** `+` sums the values of one or more number nodes; a single argument is
      returned unchanged. */
  lemma NsPlusCall(args: seq<Node>)
    ensures CallNs("+", args).Some? <==> |args| >= 1 && AllNumbers(args)
    ensures CallNs("+", args).Some? ==> CallNs("+", args).value == Number(Sum(Values(args)))
    ensures |args| == 1 && args[0].Number? ==> CallNs("+", args) == Some(args[0])
  {
    NsEntries();
  }

  /** `-` subtracts the later values from the first, left to right; a single
      argument is returned unchanged, not negated. */
  lemma NsMinusCall(args: seq<Node>)
    ensures CallNs("-", args).Some? <==> |args| >= 1 && AllNumbers(args)
    ensures CallNs("-", args).Some? ==> CallNs("-", args).value == Number(args[0].value - Sum(Values(args[1..])))
    ensures |args| == 1 && args[0].Number? ==> CallNs("-", args) == Some(args[0])
  {
    NsEntries();
  }

  /** `*` multiplies the values of one or more number nodes; a single argument
      is returned unchanged. */
  lemma NsTimesCall(args: seq<Node>)
    ensures CallNs("*", args).Some? <==> |args| >= 1 && AllNumbers(args)
    ensures CallNs("*", args).Some? ==> CallNs("*", args).value == Number(Product(Values(args)))
    ensures |args| == 1 && args[0].Number? ==> CallNs("*", args) == Some(args[0])
  {
    NsEntries();
  }

  /** `list` collects its arguments, whatever they are, into a list node. */
  lemma NsListCall(args: seq<Node>)
    ensures CallNs("list", args) == Some(List(args))
  {
    NsEntries();
  }

  /** `(+ 1 2 3)`, `(- 10 2 3)`, `(* 2 3 4)` and `(list 1 2)`, as the table
      evaluates them. */
  lemma NsExamples()
    ensures CallNs("+", [Number(1), Number(2), Number(3)]) == Some(Number(6))
    ensures CallNs("-", [Number(10), Number(2), Number(3)]) == Some(Number(5))
    ensures CallNs("*", [Number(2), Number(3), Number(4)]) == Some(Number(24))
    ensures CallNs("list", [Number(1), Number(2)]) == Some(List([Number(1), Number(2)]))
  {
    var a := [Number(1), Number(2), Number(3)];
    assert Values(a) == [1, 2, 3];
    var b := [Number(10), Number(2), Number(3)];
    assert Values(b) == [10, 2, 3];
    var c := [Number(2), Number(3), Number(4)];
    assert Values(c) == [2, 3, 4];
  }
}
