/** The printer (my-js/printer.js): a pure function from a `Node` to the text
    of the s-expression it denotes. */
module Printer {
  import opened Wrappers
  import opened Decimal
  import opened Ast

  /** The error raised for a node with no printed form: the `function` nodes
      of the core namespace, whose JSON form drops the function value. */
  const UnrecognizedFunction: string := "unrecognized AST node: {\"type\":\"function\"}"

  /** The type tag of a quote-family node. */
  function QuoteTag(n: Node): string
    requires n.IsQuoteForm()
  {
    match n
    case Quote(_) => "quote"
    case Quasiquote(_) => "quasiquote"
    case Unquote(_) => "unquote"
    case SpliceUnquote(_) => "splice-unquote"
    case Deref(_) => "deref"
  }

  /** Ramda's `join`: the parts with `sep` between consecutive ones. */
  function Join(sep: string, parts: seq<string>): (s: string)
    ensures |parts| == 1 ==> s == parts[0]
  {
    if |parts| == 0 then ""
    else if |parts| == 1 then parts[0]
    else parts[0] + sep + Join(sep, parts[1..])
  }

  function AddPrefixSuffix(pre: string, suf: string, str: string): string {
    pre + str + suf
  }

  function PrStr(n: Node): (r: Result<string>)
    decreases n, 1
  {
    match n
    case List(_) => PrList(n)
    case Vector(_) => PrList(n)
    case Hashmap(_) => PrList(n)
    case Quote(_) => PrQuote(n)
    case Quasiquote(_) => PrQuote(n)
    case Unquote(_) => PrQuote(n)
    case SpliceUnquote(_) => PrQuote(n)
    case Deref(_) => PrQuote(n)
    case Symbol(name) => Ok(PrSymbol(name))
    case WithMeta(_, _) => PrMetadata(n)
    case Boolean(b) => Ok(if b then "true" else "false")
    case ClosureNode(_) => Ok("#")
    case Str(text) => Ok(text)
    case Number(v) => Ok(PrNumber(v))
    case Def(name) => Ok(name)
    case Function(_) => Err(UnrecognizedFunction)
  }

  /** `R.map(pr_str)`: every item printed, in order; the first failure
      propagates. */
  function PrAll(items: seq<Node>): (r: Result<seq<string>>)
    ensures r.Ok? ==> |r.value| == |items|
    decreases items, 2
  {
    if items == [] then Ok([])
    else
      var head :- PrStr(items[0]);
      var tail :- PrAll(items[1..]);
      Ok([head] + tail)
  }

  function PrList(n: Node): (r: Result<string>)
    requires n.IsContainer()
    decreases n, 0
  {
    var parts :- PrAll(n.items);
    var body := Join(" ", parts);
    if n.List? then Ok(AddPrefixSuffix("(", ")", body))
    else if n.Vector? then Ok(AddPrefixSuffix("[", "]", body))
    else Ok(AddPrefixSuffix("{", "}", body))
  }

  function PrQuote(n: Node): (r: Result<string>)
    requires n.IsQuoteForm()
    decreases n, 0
  {
    var inner :- PrStr(n.inner);
    Ok("(" + QuoteTag(n) + " " + inner + ")")
  }

  function PrSymbol(name: string): string {
    name
  }

  /** `elem + ''`: the decimal text of an integer, which reads back as the
      same integer. */
  function PrNumber(v: int): string {
    IntToString(v)
  }

  lemma PrNumberReadsBack(v: int)
    ensures IsNumeral(PrNumber(v)) && NumeralValue(PrNumber(v)) == v
  {
    IntToStringRoundTrip(v);
  }

  /** The second stored form is printed before the first. */
  function PrMetadata(n: Node): (r: Result<string>)
    requires n.WithMeta?
    decreases n, 0
  {
    var second :- PrStr(n.second);
    var first :- PrStr(n.first);
    Ok("(" + "with-meta" + " " + second + " " + first + ")")
  }

  // ---------------------------------------------------------------- properties

  /** Symbols, strings and definitions print their stored text unchanged, a
      closure prints as `#`, and a boolean as `true` or `false`. */
  lemma AtomsPrint(n: Node)
    ensures n.Symbol? ==> PrStr(n) == Ok(n.name)
    ensures n.Str? ==> PrStr(n) == Ok(n.text)
    ensures n.Def? ==> PrStr(n) == Ok(n.name)
    ensures n.ClosureNode? ==> PrStr(n) == Ok("#")
    ensures n.Boolean? ==> PrStr(n) == Ok(if n.flag then "true" else "false")
  {
  }

  /** Whether a tree holds a node with no printed form. */
  predicate HasFunction(n: Node)
    decreases n, 1
  {
    match n
    case List(items) => AnyHasFunction(items)
    case Vector(items) => AnyHasFunction(items)
    case Hashmap(items) => AnyHasFunction(items)
    case Quote(m) => HasFunction(m)
    case Quasiquote(m) => HasFunction(m)
    case Unquote(m) => HasFunction(m)
    case SpliceUnquote(m) => HasFunction(m)
    case Deref(m) => HasFunction(m)
    case WithMeta(a, b) => HasFunction(a) || HasFunction(b)
    case Function(_) => true
    case _ => false
  }

  predicate AnyHasFunction(items: seq<Node>)
    decreases items, 2
  {
    items != [] && (HasFunction(items[0]) || AnyHasFunction(items[1..]))
  }

  /** Printing fails exactly on trees that hold a `function` node, and always
      with the same message. */
  lemma {:induction false} PrintFailsOnFunctions(n: Node)
    ensures PrStr(n).Err? <==> HasFunction(n)
    ensures PrStr(n).Err? ==> PrStr(n).message == UnrecognizedFunction
    decreases n, 1
  {
    match n
    case List(items) => PrintAllFailsOnFunctions(items);
    case Vector(items) => PrintAllFailsOnFunctions(items);
    case Hashmap(items) => PrintAllFailsOnFunctions(items);
    case Quote(m) => PrintFailsOnFunctions(m);
    case Quasiquote(m) => PrintFailsOnFunctions(m);
    case Unquote(m) => PrintFailsOnFunctions(m);
    case SpliceUnquote(m) => PrintFailsOnFunctions(m);
    case Deref(m) => PrintFailsOnFunctions(m);
    case WithMeta(a, b) =>
      PrintFailsOnFunctions(a);
      PrintFailsOnFunctions(b);
    case _ =>
  }

  lemma {:induction false} PrintAllFailsOnFunctions(items: seq<Node>)
    ensures PrAll(items).Err? <==> AnyHasFunction(items)
    ensures PrAll(items).Err? ==> PrAll(items).message == UnrecognizedFunction
    decreases items, 2
  {
    if items != [] {
      PrintFailsOnFunctions(items[0]);
      PrintAllFailsOnFunctions(items[1..]);
    }
  }

  /** `R.map(pr_str)` over a non-empty list: the head, then the rest. */
  lemma PrAllCons(x: Node, rest: seq<Node>)
    ensures PrAll([x] + rest) == match PrStr(x)
      case Err(m) => Err(m)
      case Ok(h) => match PrAll(rest)
        case Err(m) => Err(m)
        case Ok(t) => Ok([h] + t)
  {
    assert ([x] + rest)[1..] == rest;
  }

  lemma PrAllSingleton(x: Node)
    ensures PrAll([x]) == if PrStr(x).Ok? then Ok([PrStr(x).value]) else Err(PrStr(x).message)
  {
    PrAllCons(x, []);
    assert [x] + [] == [x];
    assert PrAll([]) == Ok([]);
    if PrStr(x).Ok? {
      assert [PrStr(x).value] + [] == [PrStr(x).value];
    }
  }

  /** A quote-family node prints as the two-element list of its tag and its
      inner form. */
  lemma QuotePrintsAsList(n: Node)
    requires n.IsQuoteForm()
    ensures PrStr(n) == PrStr(List([Symbol(QuoteTag(n)), n.inner]))
  {
    var tag := QuoteTag(n);
    var inner := PrStr(n.inner);
    PrAllPair(Symbol(tag), n.inner);
    if inner.Ok? {
      ListPrintsParts([Symbol(tag), n.inner], [tag, inner.value]);
      ParenthesizedTwo(tag, inner.value);
    }
  }

  /** A list prints as its printed items joined by spaces, in parentheses. */
  lemma ListPrintsParts(items: seq<Node>, parts: seq<string>)
    requires PrAll(items) == Ok(parts)
    ensures PrStr(List(items)) == Ok("(" + Join(" ", parts) + ")")
  {
  }

  lemma JoinThree(a: string, b: string, c: string)
    ensures Join(" ", [a, b, c]) == a + " " + b + " " + c
  {
    assert [a, b, c][1..] == [b, c] && [b, c][1..] == [c];
  }

  /** `R.map(pr_str)` over two forms: both printed, or the first failure. */
  lemma PrAllPair(x: Node, y: Node)
    ensures PrStr(x).Err? ==> PrAll([x, y]) == Err(PrStr(x).message)
    ensures PrStr(x).Ok? && PrStr(y).Err? ==> PrAll([x, y]) == Err(PrStr(y).message)
    ensures PrStr(x).Ok? && PrStr(y).Ok? ==> PrAll([x, y]) == Ok([PrStr(x).value, PrStr(y).value])
  {
    PrAllSingleton(y);
    PrAllCons(x, [y]);
    assert [x] + [y] == [x, y];
    if PrStr(x).Ok? && PrStr(y).Ok? {
      assert [PrStr(x).value] + [PrStr(y).value] == [PrStr(x).value, PrStr(y).value];
    }
  }

  /** Two parts joined by a space, in parentheses. */
  lemma ParenthesizedTwo(a: string, b: string)
    ensures "(" + Join(" ", [a, b]) + ")" == "(" + a + " " + b + ")"
  {
    assert [a, b][1..] == [b];
  }

  /** Three parts joined by spaces, in parentheses. */
  lemma ParenthesizedThree(a: string, b: string, c: string)
    ensures "(" + Join(" ", [a, b, c]) + ")" == "(" + a + " " + b + " " + c + ")"
  {
    JoinThree(a, b, c);
  }

  /** `R.map(pr_str)` over three forms, the first of which prints. */
  lemma PrAllTriple(x: Node, y: Node, z: Node)
    requires PrStr(x).Ok?
    ensures PrStr(y).Err? ==> PrAll([x, y, z]) == Err(PrStr(y).message)
    ensures PrStr(y).Ok? && PrStr(z).Err? ==> PrAll([x, y, z]) == Err(PrStr(z).message)
    ensures PrStr(y).Ok? && PrStr(z).Ok? ==> PrAll([x, y, z]) == Ok([PrStr(x).value, PrStr(y).value, PrStr(z).value])
  {
    PrAllPair(y, z);
    PrAllCons(x, [y, z]);
    assert [x] + [y, z] == [x, y, z];
    if PrStr(y).Ok? && PrStr(z).Ok? {
      assert [PrStr(x).value] + [PrStr(y).value, PrStr(z).value] == [PrStr(x).value, PrStr(y).value, PrStr(z).value];
    }
  }

  /** A with-meta node prints as the three-element list `with-meta`, second
      form, first form. */
  lemma MetaPrintsAsList(n: Node)
    requires n.WithMeta?
    ensures PrStr(n) == PrStr(List([Symbol("with-meta"), n.second, n.first]))
  {
    var second, first := PrStr(n.second), PrStr(n.first);
    var items := [Symbol("with-meta"), n.second, n.first];
    PrAllTriple(Symbol("with-meta"), n.second, n.first);
    if second.Ok? && first.Ok? {
      ListPrintsParts(items, ["with-meta", second.value, first.value]);
      ParenthesizedThree("with-meta", second.value, first.value);
    }
  }
}
