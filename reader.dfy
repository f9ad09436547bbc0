/** The reader (my-js/reader.js): recursive descent from tokens to `Node`s.

    `ReadFormAt(input, p)` is the specification: the form that `read_form`
    returns when the token stream stands at logical position `p` of `input`,
    with the position after it, or the error it raises. The methods below
    drive a `TokenStream` and are proved against it. */
module Reader {
  import opened Wrappers
  import opened Decimal
  import opened CharStream
  import opened Tokenizer
  import opened Ast

  /** `read_atom`'s classification of a token: a numeral becomes its integer
      value, `true` and `false` become booleans, a token that starts and ends
      with `"` becomes a string that keeps its quotes, and anything else is a
      symbol. */
  function AtomOf(tok: string): (n: Node)
    ensures n.Number? || n.Boolean? || n.Str? || n.Symbol?
    ensures n.Number? <==> IsNumeral(tok)
    ensures n.Number? ==> n.value == NumeralValue(tok)
    ensures n.Boolean? <==> !IsNumeral(tok) && (tok == "true" || tok == "false")
    ensures n.Boolean? ==> n.flag == (tok == "true")
    ensures n.Str? <==> !IsNumeral(tok) && tok != "true" && tok != "false"
                        && |tok| > 0 && tok[0] == '"' && tok[|tok| - 1] == '"'
    ensures (n.Str? ==> n.text == tok) && (n.Symbol? ==> n.name == tok)
  {
    if IsNumeral(tok) then Number(NumeralValue(tok))
    else if tok == "true" then Boolean(true)
    else if tok == "false" then Boolean(false)
    else if |tok| > 0 && tok[0] == '"' && tok[|tok| - 1] == '"' then Str(tok)
    else Symbol(tok)
  }

  /** A value read and the logical position after it. */
  datatype Parsed<T> = Parsed(value: T, end: nat)

  predicate IsQuoteToken(tok: string) {
    tok == "'" || tok == "`" || tok == "~" || tok == "~@" || tok == "@"
  }

  /** The node a quote marker wraps around the form after it. */
  function QuoteNode(tok: string, inner: Node): (n: Node)
    requires IsQuoteToken(tok)
    ensures n.IsQuoteForm() && n.inner == inner
    ensures n.Quote? <==> tok == "'"
    ensures n.Quasiquote? <==> tok == "`"
    ensures n.Unquote? <==> tok == "~"
    ensures n.SpliceUnquote? <==> tok == "~@"
    ensures n.Deref? <==> tok == "@"
  {
    if tok == "'" then Quote(inner)
    else if tok == "`" then Quasiquote(inner)
    else if tok == "~" then Unquote(inner)
    else if tok == "~@" then SpliceUnquote(inner)
    else Deref(inner)
  }

  function ReadFormAt(input: string, p: nat): (r: Result<Parsed<Node>>)
    requires p <= |input|
    ensures r.Ok? ==> p < r.value.end <= |input|
    decreases |input| - p, 1
  {
    var l := LexAt(input, p);
    if l.result.Err? then Err(l.result.message)
    else if l.result.value.None? then Err("unexpected EOF while reading")
    else
      var tok := l.result.value.value;
      if tok == "(" then
        var items :- ReadElemsAt(input, l.end, ")");
        Ok(Parsed(List(items.value), items.end))
      else if tok == ")" then Err("expected ')', got EOF")
      else if tok == "[" then
        var items :- ReadElemsAt(input, l.end, "]");
        Ok(Parsed(Vector(items.value), items.end))
      else if tok == "]" then Err("expected ']', got EOF")
      else if tok == "{" then
        var items :- ReadElemsAt(input, l.end, "}");
        Ok(Parsed(Hashmap(items.value), items.end))
      else if tok == "}" then Err("expected '}', got EOF")
      else if IsQuoteToken(tok) then
        var inner :- ReadFormAt(input, l.end);
        Ok(Parsed(QuoteNode(tok, inner.value), inner.end))
      else if tok == "^" then
        var first :- ReadFormAt(input, l.end);
        var second :- ReadFormAt(input, first.end);
        Ok(Parsed(WithMeta(first.value, second.value), second.end))
      else Ok(Parsed(AtomOf(tok), l.end))
  }

  /** The forms of a container read from `p` up to the token `close`, which is
      consumed. */
  function ReadElemsAt(input: string, p: nat, close: string): (r: Result<Parsed<seq<Node>>>)
    requires p <= |input|
    ensures r.Ok? ==> p < r.value.end <= |input|
    decreases |input| - p, 2
  {
    var l := LexAt(input, p);
    if l.result.Err? then Err(l.result.message)
    else if l.result.value == Some(close) then Ok(Parsed([], l.end))
    else if l.result.value.None? then Err("expected " + close + " got EOF")
    else
      var first :- ReadFormAt(input, p);
      var rest :- ReadElemsAt(input, first.end, close);
      Ok(Parsed([first.value] + rest.value, rest.end))
  }

  /** The outcome of a reading method: its result and where it left the
      token stream. */
  function Outcome<T>(r: Result<T>, end: nat): Result<Parsed<T>> {
    if r.Ok? then Ok(Parsed(r.value, end)) else Err(r.message)
  }

  /** `items` followed by the outcome of reading the rest of a container. */
  function Prepend(items: seq<Node>, r: Result<Parsed<seq<Node>>>): Result<Parsed<seq<Node>>> {
    if r.Ok? then Ok(Parsed(items + r.value.value, r.value.end)) else r
  }

  /** The next token, when the stream holds one. */
  ghost predicate HasToken(ts: TokenStream)
    reads ts, ts.istream
    requires ts.Valid()
  {
    var l := LexAt(ts.istream.input, ts.start).result;
    l.Ok? && l.value.Some?
  }

  method ReadForm(ts: TokenStream) returns (r: Result<Node>)
    requires ts.Valid()
    modifies ts, ts.istream
    ensures ts.Valid()
    ensures Outcome(r, ts.start) == ReadFormAt(ts.istream.input, old(ts.start))
    decreases |ts.istream.input| - ts.start, 2
  {
    var eof := ts.Eof();
    if eof.Err? {
      return Err(eof.message);
    }
    if eof.value {
      return Err("unexpected EOF while reading");
    }
    var peeked := ts.Peek();
    var token := peeked.value.value;
    if token == "(" {
      var items := ReadContainer(ts, ")");
      return if items.Ok? then Ok(List(items.value)) else Err(items.message);
    }
    if token == ")" {
      return Err("expected ')', got EOF");
    }
    if token == "[" {
      var items := ReadContainer(ts, "]");
      return if items.Ok? then Ok(Vector(items.value)) else Err(items.message);
    }
    if token == "]" {
      return Err("expected ']', got EOF");
    }
    if token == "{" {
      var items := ReadContainer(ts, "}");
      return if items.Ok? then Ok(Hashmap(items.value)) else Err(items.message);
    }
    if token == "}" {
      return Err("expected '}', got EOF");
    }
    if IsQuoteToken(token) {
      var inner := ReadQuote(ts);
      return if inner.Ok? then Ok(QuoteNode(token, inner.value)) else Err(inner.message);
    }
    if token == "^" {
      var pair := ReadMetadata(ts);
      return if pair.Ok? then Ok(WithMeta(pair.value.0, pair.value.1)) else Err(pair.message);
    }
    var atom := ReadAtom(ts);
    return Ok(atom);
  }

  /** Reading the rest of a container when the next token is neither the
      closer nor the end: one form, then the rest. */
  lemma ElemsStep(input: string, s: nat, close: string, container: seq<Node>)
    requires s <= |input|
    requires var l := LexAt(input, s).result; l.Ok? && l.value.Some? && l.value != Some(close)
    ensures var first := ReadFormAt(input, s);
      && (first.Err? ==> Prepend(container, ReadElemsAt(input, s, close)) == Err(first.message))
      && (first.Ok? ==> Prepend(container, ReadElemsAt(input, s, close))
                        == Prepend(container + [first.value.value], ReadElemsAt(input, first.value.end, close)))
  {
    var first := ReadFormAt(input, s);
    if first.Ok? {
      var rest := ReadElemsAt(input, first.value.end, close);
      if rest.Ok? {
        assert container + ([first.value.value] + rest.value.value) == container + [first.value.value] + rest.value.value;
      }
    }
  }

  /** The closer ends a container; a lexical error ends the reading. */
  lemma ElemsAtCloseOrError(input: string, s: nat, close: string)
    requires s <= |input|
    ensures var l := LexAt(input, s);
      && (l.result == Ok(Some(close)) ==> ReadElemsAt(input, s, close) == Ok(Parsed([], l.end)))
      && (l.result.Err? ==> ReadElemsAt(input, s, close) == Err(l.result.message))
  {
  }

  /** Where only separators are left, a container is unterminated, however far
      the scan has gone. */
  lemma ElemsAtEnd(input: string, s: nat, close: string)
    requires s <= |input| && LexAt(input, s).result == Ok(None)
    ensures ReadElemsAt(input, s, close) == Err("expected " + close + " got EOF")
    ensures ReadElemsAt(input, LexAt(input, s).end, close) == Err("expected " + close + " got EOF")
  {
    assert LexAt(input, s).end == |input|;
  }

  /** Where only separators are left, `read_form` fails on the end marker. */
  lemma ReadFormAtEnd(input: string, p: nat)
    requires p <= |input| && forall i :: p <= i < |input| ==> IsWhiteSpace(input[i])
    ensures ReadFormAt(input, p) == Err("unexpected EOF while reading")
  {
    EndMarker(input, p);
  }

  /** A closer where a form is expected is an error naming that closer. */
  lemma ReadFormAtCloser(input: string, p: nat, close: string)
    requires p <= |input| && LexAt(input, p).result == Ok(Some(close))
    requires close == ")" || close == "]" || close == "}"
    ensures ReadFormAt(input, p) == Err("expected '" + close + "', got EOF")
  {
  }

  /** A form is read only from a token that opens a container, marks a
      quote or metadata, or is an atom: never from a closer, the end marker
      or a lexical error. */
  lemma ReadFormAtStart(input: string, p: nat)
    requires p <= |input|
    ensures ReadFormAt(input, p).Ok? ==>
      var l := LexAt(input, p).result;
      l.Ok? && l.value.Some? && l.value.value != ")" && l.value.value != "]" && l.value.value != "}"
  {
  }

  /** `read_atom` on some tokens: leading zeros, a plus sign and a fraction
      are read as `parseInt` reads them, and a second point makes a symbol. */
  lemma AtomExamples()
    ensures AtomOf("007") == Number(7) && AtomOf("+5") == Number(5)
    ensures AtomOf("-10.1") == Number(-10) && AtomOf("1.2.3") == Symbol("1.2.3")
    ensures AtomOf("true") == Boolean(true) && AtomOf("\"a\"") == Str("\"a\"")
  {
    LeadingZeros();
    PlusSign();
    NegativeFraction();
    TwoPoints();
  }

  lemma LeadingZeros()
    ensures IsNumeral("007") && NumeralValue("007") == 7
  {
    var t := "007";
    assert SignLength(t) == 0 && t[0..] == t;
    assert LeadingDigits(t[2..]) == 1 && LeadingDigits(t[1..]) == 2 && LeadingDigits(t) == 3;
    assert t[..3] == t && t[..2] == "00" && "00"[..1] == "0";
    assert DigitsValue("0") == 0 && DigitsValue("00") == 0;
  }

  lemma PlusSign()
    ensures IsNumeral("+5") && NumeralValue("+5") == 5
  {
    var t := "+5";
    assert SignLength(t) == 1 && t[1..] == "5";
    assert LeadingDigits("5") == 1 && "5"[..1] == "5" && "5"[..0] == [];
  }

  lemma NegativeFraction()
    ensures IsNumeral("-10.1") && NumeralValue("-10.1") == -10
  {
    var t := "-10.1";
    var body := t[1..];
    assert SignLength(t) == 1 && body == "10.1";
    assert body[2..] == ".1" && LeadingDigits(".1") == 0;
    assert body[1..] == "0.1" && "0.1"[1..] == ".1" && LeadingDigits("0.1") == 1;
    assert LeadingDigits(body) == 2 && body[3..] == "1" && AllDigits("1");
    assert body[..2] == "10" && "10"[..1] == "1" && "1"[..0] == [];
    assert DigitsValue("10") == 10;
  }

  lemma TwoPoints()
    ensures !IsNumeral("1.2.3")
  {
    var t := "1.2.3";
    assert SignLength(t) == 0 && t[0..] == t;
    assert t[1..] == ".2.3" && LeadingDigits(".2.3") == 0 && LeadingDigits(t) == 1;
    assert t[2..] == "2.3" && !IsDigit("2.3"[1]);
  }

  /** Drop the opening token, read forms up to `close` and drop it. */
  method ReadContainer(ts: TokenStream, close: string) returns (r: Result<seq<Node>>)
    requires ts.Valid() && HasToken(ts)
    modifies ts, ts.istream
    ensures ts.Valid()
    ensures Outcome(r, ts.start) == ReadElemsAt(ts.istream.input, LexAt(ts.istream.input, old(ts.start)).end, close)
    decreases |ts.istream.input| - ts.start, 1
  {
    ghost var input := ts.istream.input;
    var _ := ts.Next();
    ghost var p0 := ts.start;
    var container: seq<Node> := [];
    ghost var whole := ReadElemsAt(input, p0, close);
    assert whole.Ok? ==> container + whole.value.value == whole.value.value;
    while true
      invariant ts.Valid()
      invariant old(ts.start) < ts.start
      invariant whole == Prepend(container, ReadElemsAt(input, ts.start, close))
      decreases |input| - ts.start
    {
      ghost var s := ts.start;
      ElemsAtCloseOrError(input, s, close);
      var next := ts.Peek();
      if next.Err? {
        return Err(next.message);
      }
      if next.value == Some(close) {
        break;
      }
      var atEnd := ts.Eof();
      if atEnd == Ok(true) {
        ElemsAtEnd(input, s, close);
        break;
      }
      ElemsStep(input, s, close, container);
      var form := ReadForm(ts);
      if form.Err? {
        return Err(form.message);
      }
      container := container + [form.value];
    }
    ElemsAtCloseOrError(input, ts.start, close);
    assert container + [] == container;
    var last := ts.Peek();
    if last != Ok(Some(close)) {
      return Err("expected " + close + " got EOF");
    }
    var _ := ts.Next();
    return Ok(container);
  }

  /** Drop the quote marker and read the form it applies to. */
  method ReadQuote(ts: TokenStream) returns (r: Result<Node>)
    requires ts.Valid() && HasToken(ts)
    modifies ts, ts.istream
    ensures ts.Valid()
    ensures Outcome(r, ts.start) == ReadFormAt(ts.istream.input, LexAt(ts.istream.input, old(ts.start)).end)
    decreases |ts.istream.input| - ts.start, 1
  {
    var _ := ts.Next();
    r := ReadForm(ts);
  }

  /** Drop the `^` and read two forms, in that order. */
  method ReadMetadata(ts: TokenStream) returns (r: Result<(Node, Node)>)
    requires ts.Valid() && HasToken(ts)
    modifies ts, ts.istream
    ensures ts.Valid()
    ensures var spec := ReadFormAt(ts.istream.input, LexAt(ts.istream.input, old(ts.start)).end);
      && (r.Ok? ==> spec.Ok? && r.value.0 == spec.value.value)
      && Outcome(if r.Ok? then Ok(r.value.1) else Err(r.message), ts.start)
         == (if spec.Ok? then ReadFormAt(ts.istream.input, spec.value.end) else Err(spec.message))
    decreases |ts.istream.input| - ts.start, 1
  {
    var _ := ts.Next();
    var first := ReadForm(ts);
    if first.Err? {
      return Err(first.message);
    }
    var second := ReadForm(ts);
    if second.Err? {
      return Err(second.message);
    }
    return Ok((first.value, second.value));
  }

  /** Consume the next token and classify it. */
  method ReadAtom(ts: TokenStream) returns (n: Node)
    requires ts.Valid() && HasToken(ts)
    modifies ts, ts.istream
    ensures ts.Valid()
    ensures var l := LexAt(ts.istream.input, old(ts.start));
      n == AtomOf(l.result.value.value) && ts.start == l.end
  {
    var atom := ts.Next();
    n := AtomOf(atom.value.value);
  }

  /** `read_str`: read one form from the start of `sexp`. */
  method ReadStr(sexp: string) returns (r: Result<Node>)
    ensures r.Ok? <==> ReadFormAt(sexp, 0).Ok?
    ensures r.Ok? ==> r.value == ReadFormAt(sexp, 0).value.value
    ensures r.Err? ==> r.message == ReadFormAt(sexp, 0).message
  {
    var istream := new InputStream(sexp);
    var tstream := new TokenStream(istream);
    r := ReadForm(tstream);
  }
}
