/** The read/print round trip: printing a tree and reading the text back gives
    the tree's canonical form, in which every quote-family and with-meta node
    is replaced by the list its printed text denotes; printing that again
    reproduces the text. */
module RoundTrip {
  import opened Wrappers
  import opened Decimal
  import opened Tokenizer
  import opened Ast
  import opened Reader
  import opened Printer

  // -------------------------------------------------------------- definitions

  /** The tree that reading a printed tree gives back: `(quote x)` is read as
      a list, not as a quote node. */
  function Canon(n: Node): (c: Node)
    decreases n, 1
  {
    match n
    case List(items) => List(CanonAll(items))
    case Vector(items) => Vector(CanonAll(items))
    case Hashmap(items) => Hashmap(CanonAll(items))
    case Quote(m) => List([Symbol("quote"), Canon(m)])
    case Quasiquote(m) => List([Symbol("quasiquote"), Canon(m)])
    case Unquote(m) => List([Symbol("unquote"), Canon(m)])
    case SpliceUnquote(m) => List([Symbol("splice-unquote"), Canon(m)])
    case Deref(m) => List([Symbol("deref"), Canon(m)])
    case WithMeta(a, b) => List([Symbol("with-meta"), Canon(b), Canon(a)])
    case _ => n
  }

  function CanonAll(items: seq<Node>): (r: seq<Node>)
    ensures |r| == |items|
    decreases items, 2
  {
    if items == [] then [] else [Canon(items[0])] + CanonAll(items[1..])
  }

  /** Tokens that JavaScript's `isNaN` accepts as numbers: after an optional
      sign, a digit, a point, or `Infinity`. A symbol must not look like one. */
  predicate LooksNumeric(tok: string) {
    var body := tok[SignLength(tok)..];
    |body| >= 1 && (IsDigit(body[0]) || body[0] == '.' || body == "Infinity")
  }

  /** A symbol name that the tokenizer reads back as one token and the reader
      as the same symbol. */
  predicate IsSymbolText(name: string) {
    && |name| >= 1
    && (forall i :: 0 <= i < |name| ==> IsAtomChar(name[i]))
    && !LooksNumeric(name)
    && (|| (IsIdentifierStart(name[0]) && name != "true" && name != "false")
        || IsKeyword(name[0])
        || IsMathOperator(name[0])
        || name == "=" || name == "<" || name == ">" || name == "<=" || name == ">=")
  }

  /** Trees whose printed text reads back: no closures, definitions or
      functions, and only symbol and string texts that tokenize as one atom. */
  predicate Readable(n: Node)
    decreases n, 1
  {
    match n
    case List(items) => AllReadable(items)
    case Vector(items) => AllReadable(items)
    case Hashmap(items) => AllReadable(items)
    case Quote(m) => Readable(m)
    case Quasiquote(m) => Readable(m)
    case Unquote(m) => Readable(m)
    case SpliceUnquote(m) => Readable(m)
    case Deref(m) => Readable(m)
    case WithMeta(a, b) => Readable(a) && Readable(b)
    case Number(_) => true
    case Boolean(_) => true
    case Str(text) => IsStringText(text)
    case Symbol(name) => IsSymbolText(name)
    case ClosureNode(_) => false
    case Def(_) => false
    case Function(_) => false
  }

  predicate AllReadable(items: seq<Node>)
    decreases items, 2
  {
    items != [] ==> Readable(items[0]) && AllReadable(items[1..])
  }

  /** A measure under which a quote or with-meta node is larger than the list
      it prints as. */
  function Size(n: Node): (s: nat)
    ensures s >= 1
    decreases n, 1
  {
    match n
    case List(items) => 1 + SizeAll(items)
    case Vector(items) => 1 + SizeAll(items)
    case Hashmap(items) => 1 + SizeAll(items)
    case Quote(m) => Size(m) + 3
    case Quasiquote(m) => Size(m) + 3
    case Unquote(m) => Size(m) + 3
    case SpliceUnquote(m) => Size(m) + 3
    case Deref(m) => Size(m) + 3
    case WithMeta(a, b) => Size(a) + Size(b) + 3
    case _ => 1
  }

  function SizeAll(items: seq<Node>): nat
    decreases items, 2
  {
    if items == [] then 0 else Size(items[0]) + SizeAll(items[1..])
  }

  /** The characters the printer puts right after a form. */
  predicate IsDelimiter(c: char) {
    c == ' ' || c == ')' || c == ']' || c == '}'
  }

  predicate Delimited(input: string, q: nat) {
    q == |input| || (q < |input| && IsDelimiter(input[q]))
  }

  /** `text` occurs in `input` at `p`. */
  predicate OccursAt(input: string, p: nat, text: string) {
    p + |text| <= |input| && input[p..p + |text|] == text
  }

  /** Reading a form at `p` gives `v` and stops at `e`: it stands for
      `ReadFormAt(input, p) == Ok(Parsed(v, e))` (`FormReadsHere`). The
      quantifier ranges over the single point `q == p`; wrapping the call in
      it keeps the verifier from unfolding the recursive reader wherever the
      fact is merely passed along, and the call is unfolded only where a
      proof mentions `ReadFormAt(input, p)` itself. */
  predicate FormReads(input: string, p: nat, v: Node, e: nat) {
    match p <= |input|
    case true => forall q: nat :: p <= q <= p && q <= |input| ==> ReadFormAt(input, q) == Ok(Parsed(v, e))
    case false => false
  }

  /** Reading the forms of a container from `p` up to `close` gives `vs`
      and stops after the closer, at `e`: it stands for
      `ReadElemsAt(input, p, [close]) == Ok(Parsed(vs, e))`, wrapped in a
      one-point quantifier for the reason given at `FormReads`. */
  predicate ElemsRead(input: string, p: nat, close: char, vs: seq<Node>, e: nat) {
    match p <= |input|
    case true => forall q: nat :: p <= q <= p && q <= |input| ==> ReadElemsAt(input, q, [close]) == Ok(Parsed(vs, e))
    case false => false
  }

  // ------------------------------------------------------------ lexing atoms

  lemma {:induction false} SkipWhileStopsAt(input: string, p: nat, q: nat, cls: CharClass)
    requires p <= q <= |input|
    requires forall k :: p <= k < q ==> InClass(input[k], cls)
    requires q == |input| || !InClass(input[q], cls)
    ensures SkipWhile(input, p, cls) == q
    decreases q - p
  {
    if p < q {
      SkipWhileStopsAt(input, p + 1, q, cls);
    }
  }

  /** The closing quote of a string literal is found wherever the literal
      occurs. */
  lemma {:induction false} StringEndOccurs(input: string, p: nat, text: string, j: nat)
    requires OccursAt(input, p, text) && j < |text|
    requires StringEnd(text, j) == Some(|text| - 1)
    ensures StringEnd(input, p + j) == Some(p + |text| - 1)
    decreases |text| - j
  {
    var q := SkipWhile(text, j + 1, NotDoubleQuote);
    assert q < |text|;
    forall k | p + j + 1 <= k < p + q
      ensures IsNotDoubleQuote(input[k])
    {
      assert input[k] == text[k - p];
    }
    assert input[p + q] == text[q];
    SkipWhileStopsAt(input, p + j + 1, p + q, NotDoubleQuote);
    OccursWithin(input, p, text, j, q);
    assert input[p + j..p + q] == text[j..q];
    if TrailingBackslashes(text[j..q]) % 2 == 1 {
      StringEndOccurs(input, p, text, q);
    }
  }

  /** Texts the printer produces for atoms. */
  predicate IsAtomText(t: string) {
    IsSymbolText(t) || IsStringText(t) || t == "true" || t == "false"
    || (IsNumeral(t) && t == IntToString(NumeralValue(t)))
  }

  lemma IdentifierRun(input: string, p: nat, t: string)
    requires OccursAt(input, p, t) && Delimited(input, p + |t|) && |t| >= 1
    requires forall i :: 0 <= i < |t| ==> IsAtomChar(t[i])
    ensures SkipWhile(input, p, AtomChars) == p + |t|
    ensures input[p..p + |t|] == t
  {
    forall k | p <= k < p + |t|
      ensures IsAtomChar(input[k])
    {
      assert input[k] == t[k - p];
    }
    SkipWhileStopsAt(input, p, p + |t|, AtomChars);
  }

  /** Lexing from a character that is not a separator starts right there. */
  lemma LexStartsAt(input: string, p: nat)
    requires p < |input| && !IsWhiteSpace(input[p])
    ensures LexAt(input, p) == LexToken(input, p)
  {
    SkipWhileStopsAt(input, p, p, WhiteSpace);
  }

  /** The scan from any quote of a string literal but its last runs to the
      closing quote. */
  lemma {:induction false} StringTextCloses(text: string, p: nat)
    requires IsStringText(text) && p < |text| - 1 && text[p] == '"'
    ensures StringEnd(text, p) == Some(|text| - 1)
    decreases |text| - p
  {
    var q := SkipWhile(text, p + 1, NotDoubleQuote);
    assert q <= |text| - 1;
    assert text[..q] == text[0..q];
    BackslashesAfter(text, 0, p, q);
    if q < |text| - 1 {
      StringTextCloses(text, q);
    }
  }

  lemma LexStringText(input: string, p: nat, t: string)
    requires IsStringText(t) && OccursAt(input, p, t)
    ensures LexToken(input, p) == Lexed(Ok(Some(t)), p + |t|)
  {
    assert input[p] == t[0];
    StringTextCloses(t, 0);
    StringEndOccurs(input, p, t, 0);
  }

  lemma LexNumberText(input: string, p: nat, t: string)
    requires IsNumeral(t) && t == IntToString(NumeralValue(t))
    requires OccursAt(input, p, t) && Delimited(input, p + |t|)
    ensures LexToken(input, p) == Lexed(Ok(Some(t)), p + |t|)
  {
    assert input[p] == t[0];
    if NumeralValue(t) < 0 {
      assert t[0] == '-';
      IdentifierRun(input, p, t);
    } else {
      forall k | p <= k < p + |t|
        ensures IsNumber(input[k])
      {
        assert input[k] == t[k - p];
      }
      SkipWhileStopsAt(input, p, p + |t|, Numbers);
    }
  }

  lemma LexComparisonText(input: string, p: nat, t: string)
    requires t == "=" || t == "<" || t == ">" || t == "<=" || t == ">="
    requires OccursAt(input, p, t) && Delimited(input, p + |t|) && input[p] == t[0]
    ensures LexToken(input, p) == Lexed(Ok(Some(t)), p + |t|)
  {
    assert input[p] == t[0];
    if |t| == 2 {
      assert input[p + 1] == t[1];
    }
  }

  lemma LexRunText(input: string, p: nat, t: string)
    requires |t| >= 1 && (forall i :: 0 <= i < |t| ==> IsAtomChar(t[i]))
    requires !IsNumber(t[0]) && !IsLogicalOperator(t[0])
    requires IsIdentifierStart(t[0]) || IsKeyword(t[0]) || IsMathOperator(t[0])
    requires OccursAt(input, p, t) && Delimited(input, p + |t|)
    ensures LexToken(input, p) == Lexed(Ok(Some(t)), p + |t|)
  {
    assert input[p] == t[0];
    IdentifierRun(input, p, t);
  }

  /** An atom's text followed by a delimiter is lexed as exactly one token. */
  lemma LexAtomText(input: string, p: nat, t: string)
    requires IsAtomText(t) && OccursAt(input, p, t) && Delimited(input, p + |t|)
    ensures LexAt(input, p) == Lexed(Ok(Some(t)), p + |t|)
  {
    LexAtomToken(input, p, t);
    assert input[p] == t[0];
    LexStartsAt(input, p);
  }

  lemma LexAtomToken(input: string, p: nat, t: string)
    requires IsAtomText(t) && OccursAt(input, p, t) && Delimited(input, p + |t|)
    ensures LexToken(input, p) == Lexed(Ok(Some(t)), p + |t|)
    ensures !IsWhiteSpace(t[0])
  {
    if IsStringText(t) {
      LexStringText(input, p, t);
    } else if IsNumeral(t) && t == IntToString(NumeralValue(t)) {
      LexNumberText(input, p, t);
    } else if t == "=" || t == "<" || t == ">" || t == "<=" || t == ">=" {
      assert input[p] == t[0];
      LexComparisonText(input, p, t);
    } else {
      LexWordText(input, p, t);
    }
  }

  /** A symbol or boolean text that is not a comparison operator. */
  lemma LexWordText(input: string, p: nat, t: string)
    requires IsSymbolText(t) || t == "true" || t == "false"
    requires t != "=" && t != "<" && t != ">" && t != "<=" && t != ">="
    requires OccursAt(input, p, t) && Delimited(input, p + |t|)
    ensures LexToken(input, p) == Lexed(Ok(Some(t)), p + |t|)
    ensures !IsWhiteSpace(t[0])
  {
    if !IsSymbolText(t) {
      assert t[0] == 't' || t[0] == 'f';
    }
    LexRunText(input, p, t);
  }

  // ---------------------------------------------------- reading printed text

  /** A separator before a form or before the rest of a container is skipped. */
  lemma FormSkipsSeparator(input: string, q: nat)
    requires q < |input| && IsWhiteSpace(input[q])
    ensures ReadFormAt(input, q) == ReadFormAt(input, q + 1)
  {
    SeparatorSkipped(input, q);
  }

  lemma ElemsSkipSeparator(input: string, q: nat, close: string)
    requires q < |input| && IsWhiteSpace(input[q])
    ensures ReadElemsAt(input, q, close) == ReadElemsAt(input, q + 1, close)
  {
    SeparatorSkipped(input, q);
    FormSkipsSeparator(input, q);
  }

  /** The first character of a printed form: never a separator or a closer. */
  predicate StartsForm(c: char) {
    !IsWhiteSpace(c) && c != ')' && c != ']' && c != '}'
  }

  /** The first character of a printed atom: nothing the reader treats as
      punctuation. */
  predicate StartsAtom(c: char) {
    StartsForm(c) && !IsContainer(c) && !IsQuote(c) && !IsDeref(c) && !IsMetadata(c)
  }

  /** The reader turns an atom token into `AtomOf` of it. */
  lemma ReadFormAtom(input: string, p: nat, t: string, e: nat)
    requires p <= |input| && LexAt(input, p) == Lexed(Ok(Some(t)), e)
    requires |t| >= 1 && StartsAtom(t[0])
    ensures ReadFormAt(input, p) == Ok(Parsed(AtomOf(t), e))
  {
    assert t != "(" && t != ")" && t != "[" && t != "]" && t != "{" && t != "}" && t != "^";
    assert !IsQuoteToken(t) by {
      assert t != "'" && t != "`" && t != "~" && t != "@";
      assert t[0] != "~@"[0];
    }
  }

  /** A numeral starts with a sign or a digit, so it looks numeric. */
  lemma NumeralStart(t: string)
    ensures IsNumeral(t) ==> LooksNumeric(t) && (IsSign(t[0]) || IsDigit(t[0]))
  {
    if IsNumeral(t) {
      var body := t[SignLength(t)..];
      assert body[..LeadingDigits(body)][0] == body[0];
      if SignLength(t) == 0 {
        assert body[0] == t[0];
      }
    }
  }

  lemma NumberTextReadsBack(v: int)
    ensures IsAtomText(PrNumber(v)) && AtomOf(PrNumber(v)) == Number(v) && StartsAtom(PrNumber(v)[0])
  {
    PrNumberReadsBack(v);
    NumeralStart(PrNumber(v));
  }

  lemma BooleanTextReadsBack(b: bool)
    ensures var t := PrStr(Boolean(b)).value;
      IsAtomText(t) && AtomOf(t) == Boolean(b) && StartsAtom(t[0])
  {
    var t := if b then "true" else "false";
    assert PrStr(Boolean(b)).value == t;
    assert 'a' <= t[0] <= 'z';
    NumeralStart(t);
  }

  lemma StringTextReadsBack(text: string)
    requires IsStringText(text)
    ensures IsAtomText(text) && AtomOf(text) == Str(text) && StartsAtom(text[0])
  {
    NumeralStart(text);
    assert text != "true" && text != "false" by {
      assert "true"[0] != '"' && "false"[0] != '"';
    }
  }

  lemma SymbolTextReadsBack(name: string)
    requires IsSymbolText(name)
    ensures IsAtomText(name) && AtomOf(name) == Symbol(name) && StartsAtom(name[0])
  {
    NumeralStart(name);
    assert name != "true" && name != "false" by {
      if !IsIdentifierStart(name[0]) {
        assert "true"[0] == 't' && "false"[0] == 'f';
      }
    }
  }

  /** The printed text of a readable atom is one token, which the reader
      classifies as the same atom. */
  lemma AtomTextReadsBack(n: Node)
    requires (n.Number? || n.Boolean? || n.Str? || n.Symbol?) && Readable(n)
    ensures PrStr(n).Ok? && IsAtomText(PrStr(n).value)
    ensures AtomOf(PrStr(n).value) == n && StartsAtom(PrStr(n).value[0])
  {
    match n
    case Number(v) => NumberTextReadsBack(v);
    case Boolean(b) => BooleanTextReadsBack(b);
    case Str(text) => StringTextReadsBack(text);
    case Symbol(name) => SymbolTextReadsBack(name);
  }

  lemma ReadAtomText(input: string, p: nat, t: string)
    requires IsAtomText(t) && StartsAtom(t[0])
    requires OccursAt(input, p, t) && Delimited(input, p + |t|)
    ensures ReadFormAt(input, p) == Ok(Parsed(AtomOf(t), p + |t|))
  {
    LexAtomText(input, p, t);
    ReadFormAtom(input, p, t, p + |t|);
  }

  lemma ReadAtomPrinted(n: Node, t: string, input: string, p: nat)
    requires (n.Number? || n.Boolean? || n.Str? || n.Symbol?) && Readable(n) && PrStr(n) == Ok(t)
    requires OccursAt(input, p, t) && Delimited(input, p + |t|)
    ensures |t| >= 1 && StartsForm(t[0])
    ensures FormReads(input, p, n, p + |t|)
  {
    AtomTextReadsBack(n);
    ReadAtomText(input, p, t);
  }

  predicate IsOpener(c: char) {
    c == '(' || c == '[' || c == '{'
  }

  /** The bracket that closes a container opened with `open`. */
  function CloserOf(open: char): (c: char)
    requires IsOpener(open)
    ensures c == ')' || c == ']' || c == '}'
  {
    if open == '(' then ')' else if open == '[' then ']' else '}'
  }

  /** The container the reader builds for the bracket `open`. */
  function Container(open: char, items: seq<Node>): (n: Node)
    requires IsOpener(open)
    ensures n.IsContainer() && n.items == items
  {
    if open == '(' then List(items) else if open == '[' then Vector(items) else Hashmap(items)
  }

  /** The printed text of a container: its items joined by spaces, between
      its brackets. */
  lemma PrintedContainer(open: char, items: seq<Node>, t: string)
    requires IsOpener(open) && PrStr(Container(open, items)) == Ok(t)
    ensures PrAll(items).Ok? && t == [open] + Join(" ", PrAll(items).value) + [CloserOf(open)]
  {
  }

  /** An opening bracket makes the reader read the container's elements. */
  lemma ReadFormOpener(input: string, p: nat, open: char, close: char, items: seq<Node>, e: nat, m: Node)
    requires IsOpener(open) && p < |input| && input[p] == open && close == CloserOf(open)
    requires ElemsRead(input, p + 1, close, items, e) && m == Container(open, items)
    ensures FormReads(input, p, m, e)
  {
    LexStartsAt(input, p);
    SingleCharacterTokens(input, p);
  }

  /** A container's elements when the next token is its closer. */
  lemma ElemsAtCloser(input: string, p: nat, close: char)
    requires p < |input| && input[p] == close && (close == ')' || close == ']' || close == '}')
    ensures ReadElemsAt(input, p, [close]) == Ok(Parsed([], p + 1))
  {
    LexStartsAt(input, p);
    SingleCharacterTokens(input, p);
  }

  /** The token a readable form starts with is not the closer, and the
      lexer produces it. */
  lemma FormToken(input: string, p: nat, close: char)
    requires p < |input| && StartsForm(input[p]) && (close == ')' || close == ']' || close == '}')
    requires ReadFormAt(input, p).Ok?
    ensures LexAt(input, p).result.Ok? && LexAt(input, p).result.value.Some?
    ensures LexAt(input, p).result.value != Some([close])
  {
    LexStartsAt(input, p);
    TokenIsSlice(input, p);
    var l := LexAt(input, p);
    assert l.result.Ok? && l.result.value.Some?;
    assert l.result.value.value[0] == input[p];
  }

  lemma ElemsCons(input: string, p: nat, close: char, v: Node, e1: nat, vs: seq<Node>, e: nat, all: seq<Node>)
    requires p < |input| && StartsForm(input[p]) && (close == ')' || close == ']' || close == '}')
    requires ReadFormAt(input, p) == Ok(Parsed(v, e1)) && e1 <= |input|
    requires ReadElemsAt(input, e1, [close]) == Ok(Parsed(vs, e))
    requires all == [v] + vs
    ensures ReadElemsAt(input, p, [close]) == Ok(Parsed(all, e))
  {
    FormToken(input, p, close);
  }

  /** A piece of an occurring text occurs at the corresponding place. */
  lemma OccursWithin(input: string, p: nat, t: string, i: nat, k: nat)
    requires OccursAt(input, p, t) && i <= k <= |t|
    ensures OccursAt(input, p + i, t[i..k])
  {
    forall m | 0 <= m < k - i
      ensures input[p + i + m] == t[i..k][m]
    {
      assert input[p + i + m] == input[p..p + |t|][i + m];
    }
  }

  /** Where the pieces of a bracketed text lie in the input. */
  lemma BracketedLayout(input: string, p: nat, t: string, j: string, open: char, close: char)
    requires OccursAt(input, p, t) && t == [open] + j + [close]
    ensures |t| == |j| + 2 && p < |input| && input[p] == open
    ensures OccursAt(input, p + 1, j) && p + 1 + |j| < |input| && input[p + 1 + |j|] == close
  {
    assert t[0] == open && t[1..1 + |j|] == j && t[1 + |j|] == close;
    assert input[p] == input[p..p + |t|][0];
    OccursWithin(input, p, t, 1, 1 + |j|);
    assert input[p + 1 + |j|] == input[p..p + |t|][1 + |j|];
  }

  /** Printing a container and reading the text back. */
  lemma {:induction false} ReadContainerPrinted(open: char, items: seq<Node>, t: string, input: string, p: nat, m: Node)
    requires IsOpener(open) && AllReadable(items) && PrStr(Container(open, items)) == Ok(t)
    requires OccursAt(input, p, t) && m == Container(open, CanonAll(items))
    ensures |t| >= 1 && StartsForm(t[0])
    ensures FormReads(input, p, m, p + |t|)
    decreases SizeAll(items) + 1, 2
  {
    PrintedContainer(open, items, t);
    ReadBracketsPrinted(open, items, PrAll(items).value, t, input, p, m);
  }

  /** Reading the brackets of a printed container and what lies between. */
  lemma {:induction false} ReadBracketsPrinted(open: char, items: seq<Node>, parts: seq<string>, t: string, input: string, p: nat, m: Node)
    requires IsOpener(open) && AllReadable(items) && PrAll(items) == Ok(parts)
    requires t == [open] + Join(" ", parts) + [CloserOf(open)]
    requires OccursAt(input, p, t) && m == Container(open, CanonAll(items))
    ensures FormReads(input, p, m, p + |t|)
    decreases SizeAll(items) + 1, 1
  {
    var close := CloserOf(open);
    BracketedLayout(input, p, t, Join(" ", parts), open, close);
    ReadBracketed(items, parts, input, p + 1, close, p + |t|);
    ReadFormOpener(input, p, open, close, CanonAll(items), p + |t|, m);
  }

  /** The items of a container, printed between its brackets, read back up
      to and including the closer. */
  lemma {:induction false} ReadBracketed(items: seq<Node>, parts: seq<string>, input: string, p: nat, close: char, e: nat)
    requires AllReadable(items) && PrAll(items) == Ok(parts)
    requires close == ')' || close == ']' || close == '}'
    requires OccursAt(input, p, Join(" ", parts)) && e == p + |Join(" ", parts)| + 1
    requires e <= |input| && input[e - 1] == close
    ensures ElemsRead(input, p, close, CanonAll(items), e)
    decreases SizeAll(items), 6
  {
    JoinedItemsAt(input, p, parts, close);
    ItemsEndJoined(p, parts);
    ReadElemsPrinted(items, parts, input, p, close);
  }

  /** Where the first printed item and the rest lie in the input. */
  lemma ItemsLayout(input: string, p: nat, j: string, first: string, rest: string, close: char)
    requires j == first + " " + rest
    requires OccursAt(input, p, j) && p + |j| < |input| && input[p + |j|] == close
    ensures OccursAt(input, p, first) && p + |first| < |input| && input[p + |first|] == ' '
    ensures OccursAt(input, p + |first| + 1, rest)
    ensures p + |first| + 1 + |rest| < |input| && input[p + |first| + 1 + |rest|] == close
  {
    OccursWithin(input, p, j, 0, |first|);
    assert j[0..|first|] == first;
    assert input[p + |first|] == input[p..p + |j|][|first|];
    OccursWithin(input, p, j, |first| + 1, |j|);
    assert j[|first| + 1..|j|] == rest;
  }

  /** Printed items separated by single spaces and followed by `close`, one
      item at a time. */
  predicate ItemsAt(input: string, p: nat, parts: seq<string>, close: char)
    decreases |parts|
  {
    if parts == [] then p < |input| && input[p] == close
    else
      var q := p + |parts[0]|;
      && OccursAt(input, p, parts[0]) && q < |input|
      && if |parts| == 1 then input[q] == close
         else input[q] == ' ' && ItemsAt(input, q + 1, parts[1..], close)
  }

  /** The joined text of the items followed by `close` lays them out one by
      one. */
  lemma {:induction false} JoinedItemsAt(input: string, p: nat, parts: seq<string>, close: char)
    requires OccursAt(input, p, Join(" ", parts))
    requires p + |Join(" ", parts)| < |input| && input[p + |Join(" ", parts)|] == close
    ensures ItemsAt(input, p, parts, close)
    decreases |parts|
  {
    if parts == [] {
      assert Join(" ", parts) == "";
    } else if |parts| == 1 {
      assert Join(" ", parts) == parts[0];
    } else {
      var rest := parts[1..];
      assert Join(" ", parts) == parts[0] + " " + Join(" ", rest);
      ItemsLayout(input, p, Join(" ", parts), parts[0], Join(" ", rest), close);
      JoinedItemsAt(input, p + |parts[0]| + 1, rest, close);
    }
  }

  /** The end of the elements read from printed items: one past the closer. */
  function ItemsEnd(p: nat, parts: seq<string>): (e: nat)
    ensures e > p
    decreases |parts|
  {
    if parts == [] then p + 1
    else if |parts| == 1 then p + |parts[0]| + 1
    else ItemsEnd(p + |parts[0]| + 1, parts[1..])
  }

  /** The end of the items is one past the closer after their joined text. */
  lemma {:induction false} ItemsEndJoined(p: nat, parts: seq<string>)
    ensures ItemsEnd(p, parts) == p + |Join(" ", parts)| + 1
    decreases |parts|
  {
    if |parts| >= 2 {
      ItemsEndJoined(p + |parts[0]| + 1, parts[1..]);
    }
  }

  /** The first character of an occurring text. */
  lemma OccursFirst(input: string, p: nat, t: string)
    requires OccursAt(input, p, t) && |t| >= 1
    ensures p < |input| && input[p] == t[0]
  {
    assert input[p] == input[p..p + |t|][0];
  }

  /** The last item read, then the closer. */
  lemma ElemsSingle(input: string, p: nat, close: char, v: Node, e1: nat)
    requires p < |input| && StartsForm(input[p]) && (close == ')' || close == ']' || close == '}')
    requires ReadFormAt(input, p) == Ok(Parsed(v, e1)) && e1 <= |input|
    requires ReadElemsAt(input, e1, [close]) == Ok(Parsed([], e1 + 1))
    ensures ReadElemsAt(input, p, [close]) == Ok(Parsed([v], e1 + 1))
  {
    FormToken(input, p, close);
    assert [v] + [] == [v];
  }

  lemma ElemsLastItem(input: string, p: nat, close: char, v: Node, e1: nat, vs: seq<Node>, e: nat)
    requires close == ')' || close == ']' || close == '}'
    requires p < |input| && StartsForm(input[p])
    requires FormReads(input, p, v, e1)
    requires e1 < |input| && input[e1] == close
    requires vs == [v] && e == e1 + 1
    ensures ElemsRead(input, p, close, vs, e)
  {
    ElemsAtCloser(input, e1, close);
    ElemsSingle(input, p, close, v, e1);
  }

  /** One read item and a separator, then the rest of the container's
      elements. */
  lemma ElemsSeparatedItem(input: string, p: nat, close: char, v: Node, e1: nat, vs: seq<Node>, e: nat)
    requires close == ')' || close == ']' || close == '}'
    requires p < |input| && StartsForm(input[p])
    requires FormReads(input, p, v, e1)
    requires e1 < |input| && input[e1] == ' '
    requires ElemsRead(input, e1 + 1, close, vs, e)
    ensures ElemsRead(input, p, close, [v] + vs, e)
  {
    ElemsSkipSeparator(input, e1, [close]);
    ElemsCons(input, p, close, v, e1, vs, e, [v] + vs);
  }

  /** The first printed item and the rest, as plain facts. */
  lemma ElemsSplit(items: seq<Node>, parts: seq<string>)
    requires items != [] && AllReadable(items) && PrAll(items) == Ok(parts)
    ensures |parts| == |items|
    ensures Readable(items[0]) && PrStr(items[0]) == Ok(parts[0])
    ensures AllReadable(items[1..]) && PrAll(items[1..]) == Ok(parts[1..])
    ensures CanonAll(items) == [Canon(items[0])] + CanonAll(items[1..])
    ensures SizeAll(items) == Size(items[0]) + SizeAll(items[1..])
  {
    PrAllCons(items[0], items[1..]);
    assert [items[0]] + items[1..] == items;
  }

  /** Where the first item ends, and what follows it. */
  lemma ItemsAtSplit(input: string, p: nat, parts: seq<string>, close: char)
    requires parts != [] && ItemsAt(input, p, parts, close)
    ensures OccursAt(input, p, parts[0]) && p + |parts[0]| < |input|
    ensures |parts| == 1 ==> input[p + |parts[0]|] == close && ItemsEnd(p, parts) == p + |parts[0]| + 1
    ensures |parts| > 1 ==>
      && input[p + |parts[0]|] == ' '
      && ItemsAt(input, p + |parts[0]| + 1, parts[1..], close)
      && ItemsEnd(p, parts) == ItemsEnd(p + |parts[0]| + 1, parts[1..])
  {
  }

  lemma {:induction false} ReadElemsPrinted(items: seq<Node>, parts: seq<string>, input: string, p: nat, close: char)
    requires AllReadable(items) && PrAll(items) == Ok(parts) && ItemsAt(input, p, parts, close)
    requires close == ')' || close == ']' || close == '}'
    ensures ElemsRead(input, p, close, CanonAll(items), ItemsEnd(p, parts))
    decreases SizeAll(items), 5
  {
    if items == [] {
      ElemsAtCloser(input, p, close);
    } else {
      ElemsSplit(items, parts);
      ItemsAtSplit(input, p, parts, close);
      if |items| == 1 {
        assert CanonAll(items) == [Canon(items[0])];
        ReadLastItem(items[0], parts[0], input, p, close, CanonAll(items), ItemsEnd(p, parts));
      } else {
        ReadFirstOfMany(items[0], parts[0], items[1..], parts[1..], input, p, close, CanonAll(items), ItemsEnd(p, parts));
      }
    }
  }

  /** The last item of a container, followed by its closer. */
  lemma {:induction false} ReadLastItem(x: Node, tx: string, input: string, p: nat, close: char, vs: seq<Node>, e: nat)
    requires Readable(x) && PrStr(x) == Ok(tx)
    requires OccursAt(input, p, tx) && p + |tx| < |input| && input[p + |tx|] == close
    requires close == ')' || close == ']' || close == '}'
    requires vs == [Canon(x)] && e == p + |tx| + 1
    ensures ElemsRead(input, p, close, vs, e)
    decreases Size(x), 4
  {
    ReadPrinted(x, tx, input, p);
    OccursFirst(input, p, tx);
    ElemsLastItem(input, p, close, Canon(x), p + |tx|, vs, e);
  }

  /** An item followed by a space and the printed rest of the container. */
  lemma {:induction false} ReadFirstOfMany(x: Node, tx: string, rest: seq<Node>, prest: seq<string>, input: string, p: nat, close: char, vs: seq<Node>, e: nat)
    requires Readable(x) && PrStr(x) == Ok(tx) && rest != []
    requires AllReadable(rest) && PrAll(rest) == Ok(prest)
    requires OccursAt(input, p, tx) && p + |tx| < |input| && input[p + |tx|] == ' '
    requires ItemsAt(input, p + |tx| + 1, prest, close)
    requires close == ')' || close == ']' || close == '}'
    requires vs == [Canon(x)] + CanonAll(rest) && e == ItemsEnd(p + |tx| + 1, prest)
    ensures ElemsRead(input, p, close, vs, e)
    decreases Size(x) + SizeAll(rest), 4
  {
    ReadPrinted(x, tx, input, p);
    OccursFirst(input, p, tx);
    ReadElemsPrinted(rest, prest, input, p + |tx| + 1, close);
    ElemsSeparatedItem(input, p, close, Canon(x), p + |tx|, CanonAll(rest), e);
  }

  /** Printing a readable tree and reading the text back, wherever it occurs
      followed by a delimiter, gives the canonical tree and stops right after
      the text. */
  lemma {:induction false} ReadPrinted(n: Node, t: string, input: string, p: nat)
    requires Readable(n) && PrStr(n) == Ok(t)
    requires OccursAt(input, p, t) && Delimited(input, p + |t|)
    ensures |t| >= 1 && StartsForm(t[0])
    ensures FormReads(input, p, Canon(n), p + |t|)
    decreases Size(n), 3
  {
    match n
    case List(items) => ReadContainerPrinted('(', items, t, input, p, Canon(n));
    case Vector(items) => ReadContainerPrinted('[', items, t, input, p, Canon(n));
    case Hashmap(items) => ReadContainerPrinted('{', items, t, input, p, Canon(n));
    case Quote(m) => ReadQuoteFormPrinted(n, t, input, p);
    case Quasiquote(m) => ReadQuoteFormPrinted(n, t, input, p);
    case Unquote(m) => ReadQuoteFormPrinted(n, t, input, p);
    case SpliceUnquote(m) => ReadQuoteFormPrinted(n, t, input, p);
    case Deref(m) => ReadQuoteFormPrinted(n, t, input, p);
    case WithMeta(a, b) => ReadMetaPrinted(n, t, input, p);
    case _ => ReadAtomPrinted(n, t, input, p);
  }

  predicate IsWordChar(c: char) {
    'a' <= c <= 'z' || c == '-'
  }

  /** A lower-case word other than `true` and `false` is a symbol text. */
  lemma WordIsSymbol(name: string)
    requires |name| >= 1 && 'a' <= name[0] <= 'z' && name != "true" && name != "false"
    requires forall i :: 0 <= i < |name| ==> IsWordChar(name[i])
    ensures IsSymbolText(name)
  {
    assert SignLength(name) == 0 && name[0..] == name;
    assert name != "Infinity" by {
      assert "Infinity"[0] == 'I';
    }
  }

  /** The head symbol the printer writes for a quote form is a symbol text. */
  lemma QuoteTagIsSymbol(n: Node)
    requires n.IsQuoteForm()
    ensures IsSymbolText(QuoteTag(n))
  {
    match n
    case Quote(_) => WordIsSymbol("quote");
    case Quasiquote(_) => WordIsSymbol("quasiquote");
    case Unquote(_) => WordIsSymbol("unquote");
    case SpliceUnquote(_) => WordIsSymbol("splice-unquote");
    case Deref(_) => WordIsSymbol("deref");
  }

  lemma PairFacts(a: Node, b: Node)
    ensures AllReadable([a, b]) == (Readable(a) && Readable(b))
    ensures SizeAll([a, b]) == Size(a) + Size(b)
    ensures CanonAll([a, b]) == [Canon(a), Canon(b)]
  {
    assert [a, b][1..] == [b];
    assert [b][1..] == [];
    assert AllReadable([b]) == Readable(b);
    assert SizeAll([b]) == Size(b);
  }

  lemma TripleFacts(a: Node, b: Node, c: Node)
    ensures AllReadable([a, b, c]) == (Readable(a) && Readable(b) && Readable(c))
    ensures SizeAll([a, b, c]) == Size(a) + Size(b) + Size(c)
    ensures CanonAll([a, b, c]) == [Canon(a), Canon(b), Canon(c)]
  {
    assert [a, b, c][1..] == [b, c];
    PairFacts(b, c);
  }

  lemma CanonQuote(n: Node)
    requires n.IsQuoteForm()
    ensures Canon(n) == List([Symbol(QuoteTag(n)), Canon(n.inner)])
  {
  }

  /** A quote form prints, reads back and is measured as the list of its
      tag symbol and its inner form. */
  lemma QuoteAsList(n: Node)
    requires n.IsQuoteForm() && Readable(n.inner)
    ensures var items := [Symbol(QuoteTag(n)), n.inner];
      && AllReadable(items) && PrStr(Container('(', items)) == PrStr(n)
      && Canon(n) == Container('(', CanonAll(items)) && SizeAll(items) + 1 < Size(n)
  {
    QuoteItems(n);
    QuotePrintsAsList(n);
    CanonQuote(n);
    PairFacts(Symbol(QuoteTag(n)), n.inner);
  }

  lemma QuoteItems(n: Node)
    requires n.IsQuoteForm() && Readable(n.inner)
    ensures var items := [Symbol(QuoteTag(n)), n.inner];
      AllReadable(items) && SizeAll(items) + 1 < Size(n)
  {
    QuoteTagIsSymbol(n);
    assert Readable(Symbol(QuoteTag(n)));
    PairFacts(Symbol(QuoteTag(n)), n.inner);
  }

  /** A with-meta node prints, reads back and is measured as the list of
      `with-meta`, its second form and its first form. */
  lemma MetaAsList(n: Node)
    requires n.WithMeta? && Readable(n.first) && Readable(n.second)
    ensures var items := [Symbol("with-meta"), n.second, n.first];
      && AllReadable(items) && PrStr(Container('(', items)) == PrStr(n)
      && Canon(n) == Container('(', CanonAll(items)) && SizeAll(items) + 1 < Size(n)
  {
    MetaPrintsAsList(n);
    WordIsSymbol("with-meta");
    TripleFacts(Symbol("with-meta"), n.second, n.first);
  }

  lemma {:induction false} ReadQuoteFormPrinted(n: Node, t: string, input: string, p: nat)
    requires n.IsQuoteForm() && Readable(n.inner) && PrStr(n) == Ok(t)
    requires OccursAt(input, p, t)
    ensures |t| >= 1 && StartsForm(t[0])
    ensures FormReads(input, p, Canon(n), p + |t|)
    decreases Size(n), 1
  {
    QuoteAsList(n);
    ReadContainerPrinted('(', [Symbol(QuoteTag(n)), n.inner], t, input, p, Canon(n));
  }

  lemma {:induction false} ReadMetaPrinted(n: Node, t: string, input: string, p: nat)
    requires n.WithMeta? && Readable(n.first) && Readable(n.second) && PrStr(n) == Ok(t)
    requires OccursAt(input, p, t)
    ensures |t| >= 1 && StartsForm(t[0])
    ensures FormReads(input, p, Canon(n), p + |t|)
    decreases Size(n), 1
  {
    MetaAsList(n);
    ReadContainerPrinted('(', [Symbol("with-meta"), n.second, n.first], t, input, p, Canon(n));
  }

  // ------------------------------------------------------------- the theorems

  /** A readable tree holds no `function` node, so it always prints. */
  lemma {:induction false} ReadablePrints(n: Node)
    requires Readable(n)
    ensures !HasFunction(n) && PrStr(n).Ok?
    decreases n, 1
  {
    match n
    case List(items) => AllReadablePrint(items);
    case Vector(items) => AllReadablePrint(items);
    case Hashmap(items) => AllReadablePrint(items);
    case Quote(m) => ReadablePrints(m);
    case Quasiquote(m) => ReadablePrints(m);
    case Unquote(m) => ReadablePrints(m);
    case SpliceUnquote(m) => ReadablePrints(m);
    case Deref(m) => ReadablePrints(m);
    case WithMeta(a, b) =>
      ReadablePrints(a);
      ReadablePrints(b);
    case _ =>
      PrintFailsOnFunctions(n);
  }

  lemma {:induction false} AllReadablePrint(items: seq<Node>)
    requires AllReadable(items)
    ensures !AnyHasFunction(items) && PrAll(items).Ok?
    decreases items, 2
  {
    if items != [] {
      ReadablePrints(items[0]);
      AllReadablePrint(items[1..]);
    }
    PrintAllFailsOnFunctions(items);
  }

  /** The canonical form prints exactly as the tree it came from. */
  lemma {:induction false} CanonPrintsSame(n: Node)
    ensures PrStr(Canon(n)) == PrStr(n)
    decreases n, 1
  {
    match n
    case List(items) => CanonAllPrintsSame(items);
    case Vector(items) => CanonAllPrintsSame(items);
    case Hashmap(items) => CanonAllPrintsSame(items);
    case WithMeta(a, b) =>
      MetaPrintsAsList(n);
      CanonPrintsSame(a);
      CanonPrintsSame(b);
      CanonMetaPrints(n);
    case Quote(_) | Quasiquote(_) | Unquote(_) | SpliceUnquote(_) | Deref(_) =>
      QuotePrintsAsList(n);
      CanonPrintsSame(n.inner);
      CanonQuotePrints(n);
    case _ =>
  }

  lemma {:induction false} CanonAllPrintsSame(items: seq<Node>)
    ensures PrAll(CanonAll(items)) == PrAll(items)
    decreases items, 2
  {
    if items != [] {
      CanonPrintsSame(items[0]);
      CanonAllPrintsSame(items[1..]);
      PrAllCons(Canon(items[0]), CanonAll(items[1..]));
      PrAllCons(items[0], items[1..]);
      assert [items[0]] + items[1..] == items;
    }
  }

  /** The two-item list of a quote form prints the same once its inner form
      prints the same as its canonical form. */
  lemma CanonQuotePrints(n: Node)
    requires n.IsQuoteForm() && PrStr(Canon(n.inner)) == PrStr(n.inner)
    ensures PrStr(Canon(n)) == PrStr(List([Symbol(QuoteTag(n)), n.inner]))
  {
    var tag := Symbol(QuoteTag(n));
    CanonQuote(n);
    PrAllCons(tag, [Canon(n.inner)]);
    PrAllCons(tag, [n.inner]);
    PrAllSingleton(Canon(n.inner));
    PrAllSingleton(n.inner);
    assert [tag] + [Canon(n.inner)] == [tag, Canon(n.inner)];
    assert [tag] + [n.inner] == [tag, n.inner];
  }

  lemma CanonMetaPrints(n: Node)
    requires n.WithMeta?
    requires PrStr(Canon(n.first)) == PrStr(n.first) && PrStr(Canon(n.second)) == PrStr(n.second)
    ensures PrStr(Canon(n)) == PrStr(List([Symbol("with-meta"), n.second, n.first]))
  {
    var tag := Symbol("with-meta");
    PrAllSingleton(Canon(n.first));
    PrAllSingleton(n.first);
    PrAllCons(Canon(n.second), [Canon(n.first)]);
    PrAllCons(n.second, [n.first]);
    assert [Canon(n.second)] + [Canon(n.first)] == [Canon(n.second), Canon(n.first)];
    assert [n.second] + [n.first] == [n.second, n.first];
    PrAllCons(tag, [Canon(n.second), Canon(n.first)]);
    PrAllCons(tag, [n.second, n.first]);
    assert [tag] + [Canon(n.second), Canon(n.first)] == [tag, Canon(n.second), Canon(n.first)];
    assert [tag] + [n.second, n.first] == [tag, n.second, n.first];
  }

  /** Print, read, print: a readable tree prints; reading the whole text back
      gives its canonical form and consumes the text; printing what was read
      reproduces the text. */
  lemma PrintReadPrint(n: Node)
    requires Readable(n)
    ensures PrStr(n).Ok?
    ensures var t := PrStr(n).value;
      && ReadFormAt(t, 0) == Ok(Parsed(Canon(n), |t|))
      && PrStr(Canon(n)) == Ok(t)
  {
    ReadablePrints(n);
    var t := PrStr(n).value;
    assert t[0..0 + |t|] == t;
    ReadPrinted(n, t, t, 0);
    CanonPrintsSame(n);
  }

  /** Canonical forms are readable whenever the tree is, and canonical
      already. */
  lemma {:induction false} CanonReadable(n: Node)
    requires Readable(n)
    ensures Readable(Canon(n)) && Canon(Canon(n)) == Canon(n)
    decreases n, 1
  {
    match n
    case List(items) => CanonAllReadable(items);
    case Vector(items) => CanonAllReadable(items);
    case Hashmap(items) => CanonAllReadable(items);
    case WithMeta(a, b) =>
      CanonReadable(a);
      CanonReadable(b);
      CanonMetaReadable(n);
    case Quote(_) | Quasiquote(_) | Unquote(_) | SpliceUnquote(_) | Deref(_) =>
      CanonReadable(n.inner);
      CanonQuoteReadable(n);
    case _ =>
  }

  lemma CanonQuoteReadable(n: Node)
    requires n.IsQuoteForm()
    requires Readable(Canon(n.inner)) && Canon(Canon(n.inner)) == Canon(n.inner)
    ensures Readable(Canon(n)) && Canon(Canon(n)) == Canon(n)
  {
    QuoteTagIsSymbol(n);
    CanonQuote(n);
    PairFacts(Symbol(QuoteTag(n)), Canon(n.inner));
  }

  lemma CanonMetaReadable(n: Node)
    requires n.WithMeta?
    requires Readable(Canon(n.first)) && Canon(Canon(n.first)) == Canon(n.first)
    requires Readable(Canon(n.second)) && Canon(Canon(n.second)) == Canon(n.second)
    ensures Readable(Canon(n)) && Canon(Canon(n)) == Canon(n)
  {
    WordIsSymbol("with-meta");
    TripleFacts(Symbol("with-meta"), Canon(n.second), Canon(n.first));
  }

  lemma {:induction false} CanonAllReadable(items: seq<Node>)
    requires AllReadable(items)
    ensures AllReadable(CanonAll(items)) && CanonAll(CanonAll(items)) == CanonAll(items)
    decreases items, 2
  {
    if items != [] {
      CanonReadable(items[0]);
      CanonAllReadable(items[1..]);
      var c := CanonAll(items);
      assert c[0] == Canon(items[0]) && c[1..] == CanonAll(items[1..]);
    }
  }

  /** A tree the reader produced from printed text is a fixed point: it prints
      to the same text, and reading that text gives exactly the same tree. */
  lemma ReadIsFixedPoint(n: Node)
    requires Readable(n)
    ensures PrStr(n).Ok?
    ensures var c := Canon(n);
      && PrStr(c) == PrStr(n)
      && ReadFormAt(PrStr(n).value, 0) == Ok(Parsed(c, |PrStr(n).value|))
      && ReadFormAt(PrStr(c).value, 0) == Ok(Parsed(c, |PrStr(c).value|))
  {
    PrintReadPrint(n);
    CanonReadable(n);
    PrintReadPrint(Canon(n));
  }

  // ------------------------------------------------------ reader macro marks

  /** A printed form never starts with `@`, so a `~` written right before
      it is an unquote mark and not the first half of `~@`. */
  lemma PrintedStartsNoDeref(n: Node, t: string)
    requires Readable(n) && PrStr(n) == Ok(t)
    ensures |t| >= 1 && !IsDeref(t[0])
  {
    match n
    case List(items) => PrintedContainer('(', items, t);
    case Vector(items) => PrintedContainer('[', items, t);
    case Hashmap(items) => PrintedContainer('{', items, t);
    case Quote(_) | Quasiquote(_) | Unquote(_) | SpliceUnquote(_) | Deref(_) =>
    case WithMeta(_, _) =>
    case _ => AtomTextReadsBack(n);
  }

  /** A mark followed by a form that does not start with `@` lexes as the
      mark alone. */
  lemma LexMark(mark: string, input: string)
    requires IsQuoteToken(mark) && |mark| < |input| && input[..|mark|] == mark
    requires !IsDeref(input[|mark|])
    ensures LexAt(input, 0) == Lexed(Ok(Some(mark)), |mark|)
  {
    assert input[0] == mark[0];
    LexStartsAt(input, 0);
    if mark == "~@" {
      assert input[0..2] == mark;
    } else {
      assert |mark| == 1 && input[0..1] == mark;
    }
  }

  /** A reader macro mark makes the reader read one form and wrap it. */
  lemma ReadFormMark(input: string, p: nat, mark: string, e: nat, v: Node, e2: nat)
    requires p <= |input| && LexAt(input, p) == Lexed(Ok(Some(mark)), e) && IsQuoteToken(mark)
    requires e <= |input| && ReadFormAt(input, e) == Ok(Parsed(v, e2))
    ensures ReadFormAt(input, p) == Ok(Parsed(QuoteNode(mark, v), e2))
  {
    assert mark != "(" && mark != ")" && mark != "[" && mark != "]" && mark != "{" && mark != "}" by {
      assert mark[0] != '(' && mark[0] != ')' && mark[0] != '[' && mark[0] != ']' && mark[0] != '{' && mark[0] != '}';
    }
  }

  /** `^` lexes as a token of its own. */
  lemma LexMeta(input: string)
    requires |input| >= 1 && input[0] == '^'
    ensures LexAt(input, 0) == Lexed(Ok(Some("^")), 1)
  {
    LexStartsAt(input, 0);
    assert input[0..1] == "^";
  }

  /** `^` makes the reader read two forms and store them in that order. */
  lemma ReadFormMeta(input: string, p: nat, e: nat, a: Node, e1: nat, b: Node, e2: nat)
    requires p <= |input| && LexAt(input, p) == Lexed(Ok(Some("^")), e)
    requires e <= |input| && e1 <= |input|
    requires ReadFormAt(input, e) == Ok(Parsed(a, e1)) && ReadFormAt(input, e1) == Ok(Parsed(b, e2))
    ensures ReadFormAt(input, p) == Ok(Parsed(WithMeta(a, b), e2))
  {
    assert "^" != "(" && "^" != ")" && "^" != "[" && "^" != "]" && "^" != "{" && "^" != "}";
    assert !IsQuoteToken("^");
  }

  /** The quote-family node read after a mark prints as the list headed by
      the mark's name around the text that followed the mark. */
  lemma PrintMarked(mark: string, n: Node, t: string)
    requires IsQuoteToken(mark) && Readable(n) && PrStr(n) == Ok(t)
    ensures var q := QuoteNode(mark, Canon(n));
      PrStr(q) == Ok("(" + QuoteTag(q) + " " + t + ")")
  {
    CanonPrintsSame(n);
  }

  /** A mark, then a form read up to the end, reads as the mark's node. */
  lemma MarkThenForm(mark: string, input: string, v: Node)
    requires IsQuoteToken(mark) && |mark| < |input| && input[..|mark|] == mark
    requires !IsDeref(input[|mark|]) && FormReads(input, |mark|, v, |input|)
    ensures ReadFormAt(input, 0) == Ok(Parsed(QuoteNode(mark, v), |input|))
  {
    LexMark(mark, input);
    FormReadsHere(input, |mark|, v, |input|);
    ReadFormMark(input, 0, mark, |mark|, v, |input|);
  }

  /** The printed text of a readable tree, written after a mark, reads back
      as the tree's canonical form up to the end. */
  lemma PrintedAfterMark(mark: string, n: Node, t: string, input: string)
    requires Readable(n) && PrStr(n) == Ok(t) && input == mark + t
    ensures |mark| < |input| && input[..|mark|] == mark && !IsDeref(input[|mark|])
    ensures FormReads(input, |mark|, Canon(n), |input|)
  {
    assert input[|mark|..|mark| + |t|] == t && input[..|mark|] == mark;
    ReadPrinted(n, t, input, |mark|);
    PrintedStartsNoDeref(n, t);
    assert input[|mark|] == t[0];
  }

  /** A reader macro mark before the printed text of a readable tree reads as
      the quote-family node of that mark around the tree's canonical form,
      consuming the whole text (`PrintMarked` gives its printed form). */
  lemma ReadMarkedPrinted(mark: string, n: Node, t: string, input: string)
    requires IsQuoteToken(mark) && Readable(n) && PrStr(n) == Ok(t) && input == mark + t
    ensures ReadFormAt(input, 0) == Ok(Parsed(QuoteNode(mark, Canon(n)), |input|))
  {
    PrintedAfterMark(mark, n, t, input);
    MarkThenForm(mark, input, Canon(n));
  }

  /** What `FormReads` stands for. */
  lemma FormReadsHere(input: string, p: nat, v: Node, e: nat)
    requires FormReads(input, p, v, e)
    ensures ReadFormAt(input, p) == Ok(Parsed(v, e))
  {
  }

  /** A form after a separator reads as from the separator. */
  lemma FormAfterSeparator(input: string, q: nat, v: Node, e: nat)
    requires q < |input| && input[q] == ' ' && FormReads(input, q + 1, v, e)
    ensures FormReads(input, q, v, e)
  {
    FormSkipsSeparator(input, q);
    assert ReadFormAt(input, q + 1) == Ok(Parsed(v, e));
  }

  /** The first form after `^` ends at the separator. */
  lemma MetaFirstRead(a: Node, ta: string, rest: string, input: string)
    requires Readable(a) && PrStr(a) == Ok(ta)
    requires input == "^" + ta + " " + rest
    ensures FormReads(input, 1, Canon(a), 1 + |ta|)
  {
    assert input[1..1 + |ta|] == ta && input[1 + |ta|] == ' ';
    ReadPrinted(a, ta, input, 1);
  }

  /** The second form after `^` is read from the separator to the end. */
  lemma MetaSecondRead(b: Node, head: string, tb: string, input: string)
    requires Readable(b) && PrStr(b) == Ok(tb)
    requires |head| >= 1 && head[|head| - 1] == ' ' && input == head + tb
    ensures FormReads(input, |head| - 1, Canon(b), |input|)
  {
    assert input[|head|..|head| + |tb|] == tb;
    ReadPrinted(b, tb, input, |head|);
    FormAfterSeparator(input, |head| - 1, Canon(b), |input|);
  }

  /** The two printed forms after `^`, one separator apart. */
  lemma MetaOperandsRead(a: Node, b: Node, ta: string, tb: string, head: string, input: string)
    requires Readable(a) && PrStr(a) == Ok(ta)
    requires Readable(b) && PrStr(b) == Ok(tb)
    requires head == "^" + ta + " " && input == head + tb
    ensures FormReads(input, 1, Canon(a), 1 + |ta|)
    ensures FormReads(input, 1 + |ta|, Canon(b), |input|)
  {
    MetaFirstRead(a, ta, tb, input);
    MetaSecondRead(b, head, tb, input);
  }

  /** `^`, then two forms, the second read up to the end, reads as the
      with-meta node of the two. */
  lemma MetaThenForms(input: string, a: Node, e1: nat, b: Node)
    requires |input| >= 1 && input[0] == '^'
    requires FormReads(input, 1, a, e1) && FormReads(input, e1, b, |input|)
    ensures ReadFormAt(input, 0) == Ok(Parsed(WithMeta(a, b), |input|))
  {
    LexMeta(input);
    FormReadsHere(input, 1, a, e1);
    FormReadsHere(input, e1, b, |input|);
    ReadFormMeta(input, 0, 1, a, e1, b, |input|);
  }

  /** `^` followed by two printed forms reads as a with-meta node holding the
      first form's tree and then the second's, consuming the whole text
      (`PrintMetaMarked` gives its printed form). */
  lemma ReadMetaMarked(a: Node, b: Node, ta: string, tb: string, input: string)
    requires Readable(a) && PrStr(a) == Ok(ta)
    requires Readable(b) && PrStr(b) == Ok(tb)
    requires input == "^" + ta + " " + tb
    ensures ReadFormAt(input, 0) == Ok(Parsed(WithMeta(Canon(a), Canon(b)), |input|))
  {
    MetaOperandsRead(a, b, ta, tb, "^" + ta + " ", input);
    MetaThenForms(input, Canon(a), 1 + |ta|, Canon(b));
  }

  /** The with-meta node read after `^` prints as `with-meta` followed by
      the two texts swapped. */
  lemma PrintMetaMarked(a: Node, b: Node, ta: string, tb: string)
    requires Readable(a) && PrStr(a) == Ok(ta)
    requires Readable(b) && PrStr(b) == Ok(tb)
    ensures PrStr(WithMeta(Canon(a), Canon(b))) == Ok("(" + "with-meta" + " " + tb + " " + ta + ")")
  {
    CanonPrintsSame(a);
    CanonPrintsSame(b);
  }

  /** The reader test of step 1 for a mark: `'1` reads as a quote of 1 ... */
  lemma QuoteOneReads()
    ensures ReadFormAt("'" + "1", 0) == Ok(Parsed(Quote(Number(1)), 2))
  {
    OnePrints();
    ReadMarkedPrinted("'", Number(1), "1", "'" + "1");
  }

  /** ... and prints as `(quote 1)`. */
  lemma QuoteOnePrints()
    ensures PrStr(Quote(Number(1))) == Ok("(quote 1)")
  {
    OnePrints();
    assert "(" + "quote" + " " + "1" + ")" == "(quote 1)";
  }

  lemma OnePrints()
    ensures PrStr(Number(1)) == Ok("1") && Readable(Number(1)) && Canon(Number(1)) == Number(1)
  {
    assert IntToString(1) == "1";
  }
}
