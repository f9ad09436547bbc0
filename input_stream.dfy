/** The character stream: a cursor over the source text that tracks the
    position, the line and the column (my-js/input_stream.js). */
module CharStream {
  import opened Wrappers
  import Decimal

  datatype Position = Position(line: nat, col: nat)

  /** Line and column after reading `consumed` from the start of a text: every
      newline starts a new line at column 0, every other character moves one
      column to the right. Reading starts at line 1, column 0. */
  function Track(consumed: string): (p: Position)
    ensures p.line >= 1
  {
    if consumed == [] then Position(1, 0)
    else
      var before := Track(consumed[..|consumed| - 1]);
      if consumed[|consumed| - 1] == '\n' then Position(before.line + 1, 0)
      else Position(before.line, before.col + 1)
  }

  /** The message of the error raised at `at`: `msg (line:col) `. */
  function ErrorMessage(msg: string, at: Position): string {
    msg + " (" + Decimal.NatToString(at.line) + ":" + Decimal.NatToString(at.col) + ") "
  }

  class InputStream {
    const input: string
    var pos: nat
    var line: nat
    var col: nat

    /** The counters agree with the text read so far. */
    ghost predicate Valid()
      reads this
    {
      pos <= |input| && Position(line, col) == Track(input[..pos])
    }

    constructor (input: string)
      ensures this.input == input
      ensures pos == 0 && line == 1 && col == 0
      ensures Valid()
    {
      this.input := input;
      pos, line, col := 0, 1, 0;
    }

    /** The character at the current position, or `None` (JavaScript's
        `undefined`) past the end; the position moves on by one either way. */
    method Next() returns (c: Option<char>)
      modifies this
      ensures pos == old(pos) + 1
      ensures c == if old(pos) < |input| then Some(input[old(pos)]) else None
      ensures c == Some('\n') ==> line == old(line) + 1 && col == 0
      ensures c != Some('\n') ==> line == old(line) && col == old(col) + 1
      ensures old(Valid()) && old(pos) < |input| ==> Valid()
    {
      c := if pos < |input| then Some(input[pos]) else None;
      ghost var before := if pos <= |input| then input[..pos] else input;
      pos := pos + 1;
      if c == Some('\n') {
        line := line + 1;
        col := 0;
      } else {
        col := col + 1;
      }
      if old(pos) < |input| {
        assert input[..pos][..|input[..pos]| - 1] == before;
      }
    }

    /** The character at the current position, without moving. */
    function Peek(): (c: Option<char>)
      reads this
      ensures c.Some? <==> !Eof()
      ensures c.Some? ==> c.value == input[pos]
    {
      if pos < |input| then Some(input[pos]) else None
    }

    /** No character is left: at the end of a stream whose counters agree
        with the text, and past it after `Next` at the end. */
    predicate Eof()
      reads this
      ensures Valid() ==> (Eof() <==> pos == |input|)
    {
      pos >= |input|
    }

    /** Raise an error whose message carries the current line and column. */
    function Error<T>(msg: string): (r: Result<T>)
      reads this
      ensures r.Err? && r.message == ErrorMessage(msg, Position(line, col))
      ensures Valid() ==> r.message == ErrorMessage(msg, Track(input[..pos]))
    {
      Err(ErrorMessage(msg, Position(line, col)))
    }
  }
}
