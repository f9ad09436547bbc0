/** The tokenizer (my-js/token_stream.js): it reads the character stream one
    maximal token at a time and keeps at most one token of look-ahead.

    `LexAt(input, p)` is the specification: the token that `read_next` returns
    when the character stream stands at index `p` of `input`, and the index at
    which it leaves the stream. The class `TokenStream` is the imperative
    tokenizer, proved against it. */
module Tokenizer {
  import opened Wrappers
  import opened CharStream
  import Decimal

  // ---------------------------------------------------------------- classifiers

  predicate IsWhiteSpace(c: char) {
    c == ',' || c == ' ' || c == '\n' || c == '\r'
  }

  predicate IsContainer(c: char) {
    c == '(' || c == ')' || c == '[' || c == ']' || c == '{' || c == '}'
  }

  predicate IsPoint(c: char) {
    c == '.'
  }

  /** A character of a numeric run: a decimal digit or a point. */
  predicate IsNumber(c: char) {
    Decimal.IsDigit(c) || IsPoint(c)
  }

  predicate IsDoubleQuote(c: char) {
    c == '"'
  }

  predicate IsNotDoubleQuote(c: char) {
    c != '"'
  }

  /** The quote markers other than `@`: `'`, backquote and `~`. */
  predicate IsQuote(c: char) {
    c == '\'' || c == '`' || c == '~'
  }

  predicate IsBackslash(c: char) {
    c == '\\'
  }

  predicate IsMathOperator(c: char) {
    c == '+' || c == '-' || c == '/' || c == '*' || c == '%'
  }

  predicate IsLogicalOperator(c: char) {
    c == '>' || c == '<' || c == '='
  }

  predicate IsKeyword(c: char) {
    c == ':'
  }

  predicate IsDeref(c: char) {
    c == '@'
  }

  predicate IsMetadata(c: char) {
    c == '^'
  }

  /** The first character of an identifier: a letter or an underscore. */
  predicate IsIdentifierStart(c: char) {
    'a' <= c <= 'z' || 'A' <= c <= 'Z' || c == '_'
  }

  /** A character that continues an operator run, a keyword or a word: anything
      but a separator or a container delimiter. */
  predicate IsAtomChar(c: char) {
    !IsWhiteSpace(c) && !IsContainer(c)
  }

  /** How many of the classes `read_next` tests after the separators hold
      for a character. */
  function DispatchClasses(c: char): nat {
    (if IsContainer(c) then 1 else 0) + (if IsMathOperator(c) then 1 else 0)
    + (if IsLogicalOperator(c) then 1 else 0) + (if IsNumber(c) then 1 else 0)
    + (if IsDoubleQuote(c) then 1 else 0) + (if IsQuote(c) then 1 else 0)
    + (if IsKeyword(c) then 1 else 0) + (if IsDeref(c) then 1 else 0)
    + (if IsMetadata(c) then 1 else 0) + (if IsIdentifierStart(c) then 1 else 0)
  }

  /** The classes `read_next` tests never overlap, so the order it tests them
      in decides nothing; separators are in none of them; and every class but
      the brackets lies within the characters an atom run continues over. */
  lemma ClassesDisjoint(c: char)
    ensures DispatchClasses(c) <= 1
    ensures IsWhiteSpace(c) ==> DispatchClasses(c) == 0
    ensures !IsContainer(c) && DispatchClasses(c) == 1 ==> IsAtomChar(c)
  {
  }

  // ------------------------------------------------------------- specification

  /** The character tests the tokenizer hands to `read_until`. */
  datatype CharClass = WhiteSpace | AtomChars | Numbers | NotDoubleQuote

  predicate InClass(c: char, cls: CharClass) {
    match cls
    case WhiteSpace => IsWhiteSpace(c)
    case AtomChars => IsAtomChar(c)
    case Numbers => IsNumber(c)
    case NotDoubleQuote => IsNotDoubleQuote(c)
  }

  /** The index at which `read_until` stops when started at `p`: the first
      index from `p` on whose character is not in `cls`, or the end. */
  function SkipWhile(input: string, p: nat, cls: CharClass): (q: nat)
    requires p <= |input|
    ensures p <= q <= |input|
    ensures forall k :: p <= k < q ==> InClass(input[k], cls)
    ensures q < |input| ==> !InClass(input[q], cls)
    decreases |input| - p
  {
    if p < |input| && InClass(input[p], cls) then SkipWhile(input, p + 1, cls) else p
  }

  /** The number of consecutive backslashes at the end of `s`. */
  function TrailingBackslashes(s: string): (n: nat)
    ensures n <= |s|
  {
    if s != [] && IsBackslash(s[|s| - 1]) then 1 + TrailingBackslashes(s[..|s| - 1]) else 0
  }

  /** The index of the quote that closes the string whose scan starts at the
      quote at `p`, or `None` if the text ends first. A quote preceded by an odd
      number of backslashes is escaped: the scan goes on from it. */
  function StringEnd(input: string, p: nat): (r: Option<nat>)
    requires p < |input|
    ensures r.Some? ==> p < r.value < |input| && input[r.value] == '"'
    decreases |input| - p
  {
    var q := SkipWhile(input, p + 1, NotDoubleQuote);
    if q == |input| then None
    else if TrailingBackslashes(input[p..q]) % 2 == 1 then StringEnd(input, q)
    else Some(q)
  }

  /** What `read_next` produces and where it leaves the character stream:
      `Ok(Some(token))`, `Ok(None)` (the end marker `null`) or the error it
      raises. */
  datatype Lexed = Lexed(result: Result<Option<string>>, end: nat)

  /** The token that starts at `p` once separators are skipped. */
  function LexAt(input: string, p: nat): (l: Lexed)
    requires p <= |input|
    ensures p <= l.end <= |input|
    ensures l.result.Ok? && l.result.value.Some? ==> p < l.end
  {
    var s := SkipWhile(input, p, WhiteSpace);
    if s == |input| then Lexed(Ok(None), s) else LexToken(input, s)
  }

  /** The token read from a non-separator character at `s`, classified by that
      character in the order `read_next` tests the classes. */
  function LexToken(input: string, s: nat): (l: Lexed)
    requires s < |input| && !IsWhiteSpace(input[s])
    ensures s < l.end <= |input|
    ensures l.result.Ok? ==> l.result.value == Some(input[s..l.end])
  {
    var c := input[s];
    if IsContainer(c) then Lexed(Ok(Some(input[s..s + 1])), s + 1)
    else if IsMathOperator(c) then
      var e := SkipWhile(input, s, AtomChars);
      Lexed(Ok(Some(input[s..e])), e)
    else if IsLogicalOperator(c) then
      if (c == '>' || c == '<') && s + 1 < |input| && input[s + 1] == '=' then Lexed(Ok(Some(input[s..s + 2])), s + 2)
      else Lexed(Ok(Some(input[s..s + 1])), s + 1)
    else if IsNumber(c) then
      var e := SkipWhile(input, s, Numbers);
      Lexed(Ok(Some(input[s..e])), e)
    else if IsDoubleQuote(c) then
      match StringEnd(input, s)
      case Some(e) => Lexed(Ok(Some(input[s..e + 1])), e + 1)
      case None => Lexed(Err(ErrorMessage("unterminated string", Track(input[..|input|]))), |input|)
    else if IsQuote(c) then
      if c == '~' && s + 1 < |input| && input[s + 1] == '@' then Lexed(Ok(Some(input[s..s + 2])), s + 2)
      else Lexed(Ok(Some(input[s..s + 1])), s + 1)
    else if IsKeyword(c) then
      var e := SkipWhile(input, s, AtomChars);
      Lexed(Ok(Some(input[s..e])), e)
    else if IsDeref(c) || IsMetadata(c) then Lexed(Ok(Some(input[s..s + 1])), s + 1)
    else
      var e := SkipWhile(input, s, AtomChars);
      if IsIdentifierStart(c) then Lexed(Ok(Some(input[s..e])), e)
      else Lexed(Err(ErrorMessage("unrecognized char", Track(input[..e]))), e)
  }

  // ------------------------------------------------------- lexical properties

  /** A separator before a token changes nothing but where the scan starts. */
  lemma SeparatorSkipped(input: string, p: nat)
    requires p < |input| && IsWhiteSpace(input[p])
    ensures LexAt(input, p) == LexAt(input, p + 1)
  {
  }

  /** The end marker comes exactly when nothing but separators is left. */
  lemma EndMarker(input: string, p: nat)
    requires p <= |input|
    ensures LexAt(input, p).result == Ok(None)
            <==> forall k :: p <= k < |input| ==> IsWhiteSpace(input[k])
  {
    var s := SkipWhile(input, p, WhiteSpace);
    if s < |input| {
      assert !IsWhiteSpace(input[s]);
    }
  }

  /** Every token is the text between the first non-separator at or after `p`
      and the position where the scan stops. */
  lemma TokenIsSlice(input: string, p: nat)
    requires p <= |input|
    ensures var l := LexAt(input, p);
      l.result.Ok? && l.result.value.Some? ==>
        var s := SkipWhile(input, p, WhiteSpace);
        && s < l.end
        && l.result.value.value == input[s..l.end]
        && forall k :: p <= k < s ==> IsWhiteSpace(input[k])
  {
  }

  /** `( ) [ ] { } @ ^` are one-character tokens. */
  lemma SingleCharacterTokens(input: string, s: nat)
    requires s < |input|
    requires IsContainer(input[s]) || IsDeref(input[s]) || IsMetadata(input[s])
    ensures LexToken(input, s) == Lexed(Ok(Some([input[s]])), s + 1)
  {
    assert input[s..s + 1] == [input[s]];
  }

  /** A token starting with an operator character or `:` is the maximal run of
      characters other than separators and delimiters. */
  lemma OperatorRun(input: string, s: nat)
    requires s < |input| && (IsMathOperator(input[s]) || IsKeyword(input[s]))
    ensures var l := LexToken(input, s);
      && l.result.Ok?
      && var tok := l.result.value.value;
      && tok[0] == input[s]
      && (forall i :: 0 <= i < |tok| ==> IsAtomChar(tok[i]))
      && (l.end == |input| || !IsAtomChar(input[l.end]))
  {
  }

  /** `<` and `>` absorb a following `=`; `=` is always a token by itself. */
  lemma ComparisonTokens(input: string, s: nat)
    requires s < |input| && IsLogicalOperator(input[s])
    ensures var tok := LexToken(input, s).result.value.value;
      && LexToken(input, s).result.Ok?
      && (input[s] == '=' ==> tok == "=")
      && (input[s] != '=' ==>
            tok == if s + 1 < |input| && input[s + 1] == '=' then [input[s], '='] else [input[s]])
  {
    assert input[s..s + 1] == [input[s]];
    if s + 1 < |input| {
      assert input[s..s + 2] == [input[s], input[s + 1]];
    }
  }

  /** `~@` is one token; `~` before anything else is a token by itself. */
  lemma SpliceUnquoteToken(input: string, s: nat)
    requires s < |input| && IsQuote(input[s])
    ensures var tok := LexToken(input, s).result.value.value;
      && LexToken(input, s).result.Ok?
      && tok == if input[s] == '~' && s + 1 < |input| && input[s + 1] == '@' then "~@" else [input[s]]
  {
    assert input[s..s + 1] == [input[s]];
    if s + 1 < |input| {
      assert input[s..s + 2] == [input[s], input[s + 1]];
    }
  }

  /** A run that would be a word but does not start with a letter or an
      underscore is an error raised after the whole run is consumed, so that
      reading resumes at the separator or delimiter after it. */
  lemma UnrecognizedRunConsumed(input: string, s: nat)
    requires s < |input|
    requires var c := input[s];
      && IsAtomChar(c) && !IsMathOperator(c) && !IsLogicalOperator(c) && !IsNumber(c)
      && !IsDoubleQuote(c) && !IsQuote(c) && !IsKeyword(c) && !IsDeref(c) && !IsMetadata(c)
      && !IsIdentifierStart(c)
    ensures var l := LexToken(input, s);
      && l.result.Err?
      && s < l.end
      && (forall k :: s <= k < l.end ==> IsAtomChar(input[k]))
      && (l.end == |input| || !IsAtomChar(input[l.end]))
  {
  }

  /** Backslashes at the end of a text stop at its last non-backslash. */
  lemma {:induction false} TrailingBackslashesFrom(t: string, j: nat)
    requires j < |t| && !IsBackslash(t[j])
    ensures TrailingBackslashes(t) == TrailingBackslashes(t[j..])
    decreases |t|
  {
    if j < |t| - 1 {
      if IsBackslash(t[|t| - 1]) {
        TrailingBackslashesFrom(t[..|t| - 1], j);
        assert t[..|t| - 1][j..] == t[j..][..|t[j..]| - 1];
      }
    }
  }

  /** The backslashes ending `input[p..i]` are those ending `input[q..i]` when
      `input[q]` is not one. */
  lemma BackslashesAfter(input: string, p: nat, q: nat, i: nat)
    requires p <= q < i <= |input| && !IsBackslash(input[q])
    ensures TrailingBackslashes(input[p..i]) == TrailingBackslashes(input[q..i])
  {
    assert input[p..i][q - p..] == input[q..i];
    TrailingBackslashesFrom(input[p..i], q - p);
  }

  /** The quote that `StringEnd` finds follows an even run of backslashes, and
      every quote it passes follows an odd run. */
  lemma {:induction false} StringEndEscapes(input: string, p: nat, e: nat)
    requires p < |input| && IsDoubleQuote(input[p]) && StringEnd(input, p) == Some(e)
    ensures TrailingBackslashes(input[p..e]) % 2 == 0
    ensures forall i :: p < i < e && IsDoubleQuote(input[i]) ==> TrailingBackslashes(input[p..i]) % 2 == 1
    decreases |input| - p
  {
    var q := SkipWhile(input, p + 1, NotDoubleQuote);
    if TrailingBackslashes(input[p..q]) % 2 == 1 {
      StringEndEscapes(input, q, e);
      BackslashesAfter(input, p, q, e);
      forall i | p < i < e && IsDoubleQuote(input[i])
        ensures TrailingBackslashes(input[p..i]) % 2 == 1
      {
        if q < i {
          BackslashesAfter(input, p, q, i);
        }
      }
    }
  }

  /** A string literal: quoted at both ends, its closing quote not escaped
      and every quote inside it escaped by an odd run of backslashes. */
  predicate IsStringText(text: string) {
    && |text| >= 2 && text[0] == '"' && text[|text| - 1] == '"'
    && TrailingBackslashes(text[..|text| - 1]) % 2 == 0
    && forall i :: 0 < i < |text| - 1 && text[i] == '"' ==> TrailingBackslashes(text[..i]) % 2 == 1
  }

  /** Every string token is a string literal. */
  lemma StringTokenShape(input: string, s: nat)
    requires s < |input| && IsDoubleQuote(input[s])
    requires LexToken(input, s).result.Ok?
    ensures IsStringText(LexToken(input, s).result.value.value)
  {
    var e := StringEnd(input, s).value;
    assert LexToken(input, s).result.value.value == input[s..e + 1];
    StringEndShape(input, s, e);
  }

  /** The text from an opening quote to the quote that closes it is a string
      literal. */
  lemma StringEndShape(input: string, s: nat, e: nat)
    requires s < |input| && IsDoubleQuote(input[s]) && StringEnd(input, s) == Some(e)
    ensures IsStringText(input[s..e + 1])
  {
    StringEndEscapes(input, s, e);
    QuotedSliceShape(input, s, e);
  }

  /** The text between two quotes, both included, whose inner quotes are all
      escaped and whose last quote is not. */
  lemma QuotedSliceShape(input: string, s: nat, e: nat)
    requires s < e < |input| && input[s] == '"' && input[e] == '"'
    requires TrailingBackslashes(input[s..e]) % 2 == 0
    requires forall i :: s < i < e && IsDoubleQuote(input[i]) ==> TrailingBackslashes(input[s..i]) % 2 == 1
    ensures IsStringText(input[s..e + 1])
  {
    var tok := input[s..e + 1];
    assert tok[..|tok| - 1] == input[s..e];
    forall i | 0 < i < |tok| - 1 && tok[i] == '"'
      ensures TrailingBackslashes(tok[..i]) % 2 == 1
    {
      assert tok[..i] == input[s..s + i];
    }
  }

  /** One step of the scan for the closing quote, from the quote at `p` to the
      next quote `q`. */
  lemma StringEndAt(input: string, p: nat, q: nat)
    requires p < |input| && q == SkipWhile(input, p + 1, NotDoubleQuote)
    ensures q == |input| ==> StringEnd(input, p) == None
    ensures q < |input| && TrailingBackslashes(input[p..q]) % 2 == 0 ==> StringEnd(input, p) == Some(q)
    ensures q < |input| && TrailingBackslashes(input[p..q]) % 2 == 1 ==> StringEnd(input, p) == StringEnd(input, q)
  {
  }

  /** Adjacent slices of a text join into one. */
  lemma SlicesJoin(input: string, p: nat, q: nat, r: nat)
    requires p <= q <= r <= |input|
    ensures input[p..q] + input[q..r] == input[p..r]
  {
  }

  // ----------------------------------------------------------- implementation

  /** The decrementing loop of `read_string`: count the backslashes at the end
      of the text read so far. */
  method CountTrailingBackslashes(str: string) returns (backslashes: nat)
    ensures backslashes == TrailingBackslashes(str)
  {
    var idx := |str| - 1;
    backslashes := 0;
    assert str[..idx + 1] == str;
    while idx >= 0
      invariant -1 <= idx < |str|
      invariant TrailingBackslashes(str) == backslashes + TrailingBackslashes(str[..idx + 1])
      decreases idx + 1
    {
      assert str[..idx + 1][..idx] == str[..idx];
      if IsBackslash(str[idx]) {
        backslashes := backslashes + 1;
      } else {
        break;
      }
      idx := idx - 1;
    }
  }

  class TokenStream {
    const istream: InputStream
    /** The look-ahead token cached by `peek`, if any. */
    var current: Option<string>
    /** Where the next token logically begins: the character stream's position,
        or, while a token is cached, the position it was read from. */
    ghost var start: nat

    ghost predicate Valid()
      reads this, istream
    {
      && istream.Valid()
      && start <= istream.pos
      && (current.None? ==> start == istream.pos)
      && (current.Some? ==> LexAt(istream.input, start) == Lexed(Ok(current), istream.pos))
    }

    constructor (istream: InputStream)
      requires istream.Valid()
      ensures this.istream == istream && current == None && start == istream.pos
      ensures Valid()
    {
      this.istream := istream;
      current := None;
      start := istream.pos;
    }

    /** Consume characters while they are in `cls` and return them. */
    method ReadUntil(cls: CharClass) returns (s: string)
      requires istream.Valid()
      modifies istream
      ensures istream.Valid()
      ensures istream.pos == SkipWhile(istream.input, old(istream.pos), cls)
      ensures s == istream.input[old(istream.pos)..istream.pos]
    {
      s := "";
      ghost var p0 := istream.pos;
      ghost var q := SkipWhile(istream.input, p0, cls);
      while !istream.Eof() && InClass(istream.Peek().value, cls)
        invariant istream.Valid()
        invariant p0 <= istream.pos <= q
        invariant s == istream.input[p0..istream.pos]
        decreases |istream.input| - istream.pos
      {
        var c := istream.Next();
        s := s + [c.value];
      }
    }

    /** Read a string up to, but not including, its closing quote, starting at
        the opening quote; continue past every escaped quote. `None` when the
        text ends before the closing quote. */
    method ReadString() returns (r: Option<string>)
      requires istream.Valid() && istream.pos < |istream.input|
      modifies istream
      ensures istream.Valid()
      ensures StringEnd(istream.input, old(istream.pos)).None? ==> r == None && istream.pos == |istream.input|
      ensures StringEnd(istream.input, old(istream.pos)).Some? ==>
        && istream.pos == StringEnd(istream.input, old(istream.pos)).value
        && r == Some(istream.input[old(istream.pos)..istream.pos])
      decreases |istream.input| - istream.pos
    {
      ghost var p := istream.pos;
      var first := istream.Next();
      var rest := ReadUntil(NotDoubleQuote);
      var str := [first.value] + rest;
      ghost var q := istream.pos;
      StringEndAt(istream.input, p, q);
      SlicesJoin(istream.input, p, p + 1, q);
      assert [first.value] == istream.input[p..p + 1];
      if istream.Eof() {
        return None;
      }
      var backslashes := CountTrailingBackslashes(str);
      if backslashes % 2 == 1 {
        var more := ReadString();
        if more.None? {
          return None;
        }
        SlicesJoin(istream.input, p, q, istream.pos);
        str := str + more.value;
      }
      return Some(str);
    }

    /** Read a run of atom characters; it is a word only if it starts with a
        letter or an underscore. */
    method ReadWord() returns (word: Option<string>)
      requires istream.Valid() && istream.pos < |istream.input|
      requires IsAtomChar(istream.input[istream.pos])
      modifies istream
      ensures istream.Valid()
      ensures istream.pos == SkipWhile(istream.input, old(istream.pos), AtomChars)
      ensures word == if IsIdentifierStart(istream.input[old(istream.pos)])
                      then Some(istream.input[old(istream.pos)..istream.pos]) else None
    {
      var w := ReadUntil(AtomChars);
      if !IsIdentifierStart(w[0]) {
        return None;
      }
      return Some(w);
    }

    /** Read `=`, `<` or `>`, and a following `=` after `<` or `>`. */
    method ReadLogicalOperator() returns (op: string)
      requires istream.Valid() && istream.pos < |istream.input|
      modifies istream
      ensures istream.Valid()
      ensures var s, input := old(istream.pos), istream.input;
        if (input[s] == '>' || input[s] == '<') && s + 1 < |input| && input[s + 1] == '='
        then op == input[s..s + 2] && istream.pos == s + 2
        else op == [input[s]] && istream.pos == s + 1
    {
      var c := istream.Next();
      op := [c.value];
      if (op == ">" || op == "<") && istream.Peek() == Some('=') {
        var d := istream.Next();
        op := op + [d.value];
      }
    }

    /** Read a digit run. */
    method ReadNumber() returns (s: string)
      requires istream.Valid()
      modifies istream
      ensures istream.Valid()
      ensures istream.pos == SkipWhile(istream.input, old(istream.pos), Numbers)
      ensures s == istream.input[old(istream.pos)..istream.pos]
    {
      s := ReadUntil(Numbers);
    }

    /** Read `'`, backquote, `~`, or `~@`. */
    method ReadQuote() returns (quote: string)
      requires istream.Valid() && istream.pos < |istream.input|
      modifies istream
      ensures istream.Valid()
      ensures var s, input := old(istream.pos), istream.input;
        if input[s] == '~' && s + 1 < |input| && input[s + 1] == '@'
        then quote == input[s..s + 2] && istream.pos == s + 2
        else quote == [input[s]] && istream.pos == s + 1
    {
      var c := istream.Next();
      quote := [c.value];
      if quote == "~" && istream.Peek() == Some('@') {
        var d := istream.Next();
        quote := quote + [d.value];
      }
    }

    /** Skip separators and read one token. */
    method ReadNext() returns (r: Result<Option<string>>)
      requires istream.Valid()
      modifies istream
      ensures istream.Valid()
      ensures r == LexAt(istream.input, old(istream.pos)).result
      ensures istream.pos == LexAt(istream.input, old(istream.pos)).end
    {
      var _ := ReadUntil(WhiteSpace);
      if istream.Eof() {
        return Ok(None);
      }
      r := ReadToken();
    }

    /** Read the token that starts at the current, non-separator character:
        delimiters, operators, numbers and strings. */
    method ReadToken() returns (r: Result<Option<string>>)
      requires istream.Valid() && istream.pos < |istream.input|
      requires !IsWhiteSpace(istream.input[istream.pos])
      modifies istream
      ensures istream.Valid()
      ensures r == LexToken(istream.input, old(istream.pos)).result
      ensures istream.pos == LexToken(istream.input, old(istream.pos)).end
    {
      ghost var s := istream.pos;
      assert istream.input[s..s + 1] == [istream.input[s]];
      var c := istream.Peek().value;
      if IsContainer(c) {
        var t := istream.Next();
        return Ok(Some([t.value]));
      }
      if IsMathOperator(c) {
        var run := ReadUntil(AtomChars);
        return Ok(Some(run));
      }
      if IsLogicalOperator(c) {
        var op := ReadLogicalOperator();
        return Ok(Some(op));
      }
      if IsNumber(c) {
        var digits := ReadNumber();
        return Ok(Some(digits));
      }
      if IsDoubleQuote(c) {
        r := ReadStringToken();
        return;
      }
      r := ReadMarkerOrWord();
    }

    /** Read a string token, both quotes included. */
    method ReadStringToken() returns (r: Result<Option<string>>)
      requires istream.Valid() && istream.pos < |istream.input|
      requires IsDoubleQuote(istream.input[istream.pos])
      modifies istream
      ensures istream.Valid()
      ensures r == LexToken(istream.input, old(istream.pos)).result
      ensures istream.pos == LexToken(istream.input, old(istream.pos)).end
    {
      ghost var s := istream.pos;
      var body := ReadString();
      if body.None? {
        return istream.Error("unterminated string");
      }
      ghost var e := istream.pos;
      var close := istream.Next();
      SlicesJoin(istream.input, s, e, e + 1);
      assert istream.input[e..e + 1] == [close.value];
      return Ok(Some(body.value + [close.value]));
    }

    /** Read a quote marker, a keyword, `@`, `^` or a word. */
    method ReadMarkerOrWord() returns (r: Result<Option<string>>)
      requires istream.Valid() && istream.pos < |istream.input|
      requires var c := istream.input[istream.pos];
        !IsWhiteSpace(c) && !IsContainer(c) && !IsMathOperator(c) && !IsLogicalOperator(c)
        && !IsNumber(c) && !IsDoubleQuote(c)
      modifies istream
      ensures istream.Valid()
      ensures r == LexToken(istream.input, old(istream.pos)).result
      ensures istream.pos == LexToken(istream.input, old(istream.pos)).end
    {
      ghost var s := istream.pos;
      assert istream.input[s..s + 1] == [istream.input[s]];
      var c := istream.Peek().value;
      if IsQuote(c) {
        var quote := ReadQuote();
        return Ok(Some(quote));
      }
      if IsKeyword(c) {
        var keyword := ReadUntil(AtomChars);
        return Ok(Some(keyword));
      }
      if IsDeref(c) || IsMetadata(c) {
        var t := istream.Next();
        return Ok(Some([t.value]));
      }
      var word := ReadWord();
      if word.Some? {
        return Ok(word);
      }
      return istream.Error("unrecognized char");
    }

    /** The next token, read at most once and cached until `Next`. */
    method Peek() returns (r: Result<Option<string>>)
      requires Valid()
      modifies this, istream
      ensures Valid()
      ensures r == LexAt(istream.input, old(start)).result
      ensures r.Ok? && r.value.Some? ==> start == old(start) && current == r.value
      ensures !(r.Ok? && r.value.Some?) ==> start == LexAt(istream.input, old(start)).end && current == None
      ensures old(current).Some? ==> istream.pos == old(istream.pos) && current == old(current)
    {
      if current.Some? {
        return Ok(current);
      }
      r := ReadNext();
      if r.Ok? && r.value.Some? {
        current := r.value;
      } else {
        start := istream.pos;
      }
    }

    /** The next token, consumed: the cached one if `Peek` read it. */
    method Next() returns (r: Result<Option<string>>)
      requires Valid()
      modifies this, istream
      ensures Valid() && current == None
      ensures r == LexAt(istream.input, old(start)).result
      ensures start == LexAt(istream.input, old(start)).end
    {
      var token := current;
      current := None;
      if token.Some? {
        start := istream.pos;
        return Ok(token);
      }
      r := ReadNext();
      start := istream.pos;
    }

    /** Whether the next token is the end marker. */
    method Eof() returns (r: Result<bool>)
      requires Valid()
      modifies this, istream
      ensures Valid()
      ensures var l := LexAt(istream.input, old(start)).result;
        r == if l.Ok? then Ok(l.value.None?) else Err(l.message)
      ensures r == Ok(false) ==> start == old(start) && current.Some?
                                 && current == LexAt(istream.input, start).result.value
      ensures !(r == Ok(false)) ==> start == LexAt(istream.input, old(start)).end && current == None
    {
      var token := Peek();
      if token.Err? {
        return Err(token.message);
      }
      return Ok(token.value.None?);
    }
  }
}
