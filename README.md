# MAL reader, printer and environment in Dafny

This project models the front half of a small Lisp interpreter written in
JavaScript, the `my-js` implementation of MAL (Make A Lisp):

- the character stream that tracks position, line and column;
- the tokenizer with its one-token look-ahead cache;
- the recursive-descent reader from tokens to a tagged tree;
- the printer from a tree back to text;
- the chain of mutable environment frames and `copyExtendEnv`;
- the two primitive tables: the `ns` table over number nodes and the older
  table over raw integers;
- the closure record;
- the `filter` and `map` array loops with their curried forms.

Stateful code is modelled as classes and methods, and each method is proved
against a pure specification function:

- `CharStream.InputStream` is a class over `pos`, `line` and `col`. Its
  counters always agree with `Track` of the text read so far.
- `Tokenizer.TokenStream` is a class over the input stream and the cached
  token. Its methods are proved to return exactly `LexAt(input, p)` /
  `LexToken(input, s)` and to leave the stream where that token ends.
- The reader's methods (`Reader.ReadForm`, `ReadContainer`, `ReadQuote`,
  `ReadMetadata`, `ReadAtom`) drive a `TokenStream`. They are proved equal to
  the pure `Reader.ReadFormAt` / `ReadElemsAt`, which take a logical position
  in the text.
- `Environment.Env` is a class whose `data` map is reassigned by `Set`.
  `Bindings()`, the flattened view of the chain, is the partner of `Find`
  and `Get`.
- `Filter.FilterLoop` and `Map.MapLoop` are the index loops over an array.
  They are proved equal to `Filtered` and `Mapped`.

Pure code (the printer, the primitive tables, the closure record) is modelled
as functions.

The central theorem is the read/print round trip, in module `RoundTrip`.
Take a readable tree: one without closures, definitions or function nodes,
whose symbol and string texts tokenize back as one atom. Printing it
succeeds. Reading the printed text gives the tree's canonical form `Canon`,
in which every quote-family and with-meta node becomes the list its text
denotes (`'x` prints as `(quote x)`, which reads back as a list). Printing
the canonical form reproduces the same text, and the canonical form is a
fixed point.

`None` stands for JavaScript's `undefined` and for results that are not an
integer. It is the value of an unbound name in the environment and the result
of folding an empty argument list, and `%` by zero gives it where JavaScript
gives NaN. The `ns` primitives give it for every argument that is not a
number node, where JavaScript would coerce a boolean, an empty container or a
string and compute something anyway.
Errors the source throws are modelled as the `Err` case of a `Result`, with
the source's message text.

## Model

| member | source | states |
|---|---|---|
| CharStream.Track | my-js/input_stream.js:28-38 | Line and column after reading a text from line 1, column 0: a newline starts the next line at column 0, any other character moves one column right |
| CharStream.InputStream.constructor | my-js/input_stream.js:10-13 | A fresh stream is at position 0, line 1, column 0 |
| CharStream.InputStream.Next | my-js/input_stream.js:28-38 | Returns the character at the position, or undefined past the end, and advances the position by exactly one. A newline increments the line and resets the column; anything else increments the column and keeps the line. Line and column keep agreeing with the text read |
| CharStream.InputStream.Peek | my-js/input_stream.js:45-47 | The character at the position, present exactly when the stream is not at its end; reads only |
| CharStream.InputStream.Eof | my-js/input_stream.js:53-55 | On a stream whose counters agree with the text, the end is reached exactly when the position is the text's length |
| CharStream.InputStream.Error | my-js/input_stream.js:62-64 | Always fails, with a message that carries the current line and column, which are those of the text read so far |
| Decimal.NatToString | my-js/printer.js:103-105 | The decimal text of a natural number is a non-empty run of digits |
| Decimal.NatToStringRoundTrip | my-js/printer.js:103-105 | The digits printed for a natural number have that number as their value |
| Decimal.IntToStringRoundTrip | my-js/reader.js:129-130 | The text `elem + ''` gives for an integer passes the reader's numeric test and `parseInt` turns it back into the same integer |
| Decimal.LeadingDigits | my-js/reader.js:129-130 | The length of the maximal leading digit run that `parseInt` reads |
| Folds.FoldLeftAppend | my-js/core.js:23-29 | `R.reduce` runs left to right: reducing a concatenation reduces the second part starting from the result of the first |
| Folds.FoldAddIsSum | my-js/core.js:23-29 | Folding addition left to right from a start value adds the sum of the list |
| Folds.FoldSubIsDifference | my-js/repl_environment.js:17-19 | Folding subtraction left to right from a start value subtracts the sum of the list |
| Folds.FoldMulIsProduct | my-js/repl_environment.js:21-23 | Folding multiplication left to right from a start value multiplies by the product of the list |
| Tokenizer.ClassesDisjoint | my-js/token_stream.js:99-200 | The character classes (`is_container`, `is_math_operator`, `is_logical_operator`, `is_number`, `is_doublequote`, `is_quote`, `is_keyword`, `is_deref`, `is_metadata` and the word start) never overlap, so `read_next`'s order of tests decides nothing; a separator is in none of them; every one but the brackets lies within the characters an atom run continues over |
| Tokenizer.SkipWhile | my-js/token_stream.js:288-294 | Where `read_until` stops: every character passed is in the class, and the one it stops at is not (or the text has ended) |
| Tokenizer.StringEnd | my-js/token_stream.js:257-280 | The index of the quote that closes a string, found after the opening quote and within the text; none if the text ends first |
| Tokenizer.StringEndEscapes | my-js/token_stream.js:257-280 | The closing quote follows an even number of backslashes; every quote passed over follows an odd number |
| Tokenizer.StringEndShape | my-js/token_stream.js:257-280 | The text from an opening quote to its closing quote is a string literal |
| Tokenizer.StringTokenShape | my-js/token_stream.js:57-58 | Every string token begins and ends with `"`, its closing quote is not escaped, and every inner quote is escaped by an odd backslash run |
| Tokenizer.LexAt | my-js/token_stream.js:23-91 | The scan stays within the text, and every token consumes at least one character |
| Tokenizer.LexToken | my-js/token_stream.js:32-91 | A token read at a non-separator is exactly the slice of text the scan consumed, and it is never empty |
| Tokenizer.SeparatorSkipped | my-js/token_stream.js:26-26 | A comma, space, newline or carriage return before a token changes nothing but where the scan starts |
| Tokenizer.EndMarker | my-js/token_stream.js:26-30 | The end marker is produced exactly when only separators are left |
| Tokenizer.TokenIsSlice | my-js/token_stream.js:23-91 | Every token is the text from the first non-separator to where the scan stops, and only separators precede it |
| Tokenizer.SingleCharacterTokens | my-js/token_stream.js:35-81 | Each of `( ) [ ] { } @ ^` is a one-character token |
| Tokenizer.OperatorRun | my-js/token_stream.js:40-71 | A token starting with `+ - / * %` or `:` is the maximal run of characters up to a separator or container character |
| Tokenizer.ComparisonTokens | my-js/token_stream.js:223-229 | `<` and `>` absorb a directly following `=`; `=` is always a token by itself |
| Tokenizer.SpliceUnquoteToken | my-js/token_stream.js:243-249 | `~@` is one token; `~` before anything else is a token by itself |
| Tokenizer.UnrecognizedRunConsumed | my-js/token_stream.js:84-89 | A run that does not start with a letter or underscore is an error raised only after the whole run is consumed |
| Tokenizer.CountTrailingBackslashes | my-js/token_stream.js:264-275 | The decrementing loop counts exactly the backslashes that end the text |
| Tokenizer.TokenStream.constructor | my-js/token_stream.js:8-17 | A new token stream holds no cached token and starts where the character stream stands |
| Tokenizer.TokenStream.ReadUntil | my-js/token_stream.js:288-294 | Consumes exactly the characters `SkipWhile` passes and returns them |
| Tokenizer.TokenStream.ReadString | my-js/token_stream.js:257-280 | Reads from the opening quote up to, not including, the closing quote `StringEnd` finds, continuing past escaped quotes; at the end of the text it reports the string unterminated |
| Tokenizer.TokenStream.ReadWord | my-js/token_stream.js:207-216 | Consumes the maximal run of atom characters; it is a word only if it starts with a letter or an underscore |
| Tokenizer.TokenStream.ReadLogicalOperator | my-js/token_stream.js:223-229 | Reads `=`, `<` or `>`, and a following `=` only after `<` or `>` |
| Tokenizer.TokenStream.ReadNumber | my-js/token_stream.js:235-237 | Consumes and returns the maximal run of number characters |
| Tokenizer.TokenStream.ReadQuote | my-js/token_stream.js:243-249 | Reads a quote character, and an `@` directly after `~` |
| Tokenizer.TokenStream.ReadNext | my-js/token_stream.js:23-91 | Skips separators and returns exactly the token, end marker or error `LexAt` gives, leaving the stream where that token ends |
| Tokenizer.TokenStream.ReadToken | my-js/token_stream.js:32-91 | Classifies the character in the source's order and returns exactly `LexToken`'s token or error |
| Tokenizer.TokenStream.ReadStringToken | my-js/token_stream.js:57-58 | A string token with both quotes, as `LexToken` gives it |
| Tokenizer.TokenStream.ReadMarkerOrWord | my-js/token_stream.js:61-89 | Quote markers, keywords, `@`, `^` and words, as `LexToken` gives them |
| Tokenizer.TokenStream.Peek | my-js/token_stream.js:300-302 | Returns the next token; a token is read once and cached, so repeated peeks return it again and consume nothing more |
| Tokenizer.TokenStream.Next | my-js/token_stream.js:309-313 | Returns the cached token if peek read one, otherwise reads one; either way the cache is cleared and the stream stands after that token |
| Tokenizer.TokenStream.Eof | my-js/token_stream.js:315-317 | True exactly when the next token is the end marker; otherwise the token stays cached |
| Reader.AtomOf | my-js/reader.js:127-145 | A token is a number exactly when it is a numeral, with the value of its signed leading digits. Otherwise `true` and `false` are the matching booleans, a token that starts and ends with `"` is a string that keeps its quotes, and every other token is a symbol with that name |
| Reader.QuoteNode | my-js/reader.js:66-84 | Each marker wraps exactly the following form, and each gives its own node: `'` a quote, a backquote a quasiquote, `~` an unquote, `~@` a splice-unquote, `@` a deref |
| Reader.ReadFormAt | my-js/reader.js:34-92 | A form read successfully consumes at least one character and stays within the text |
| Reader.ReadFormAtEnd | my-js/reader.js:36-38 | Where only separators are left, reading a form fails with `unexpected EOF while reading` |
| Reader.ReadFormAtCloser | my-js/reader.js:46-64 | A `)`, `]` or `}` where a form is expected fails with `expected '<closer>', got EOF` |
| Reader.ReadFormAtStart | my-js/reader.js:34-92 | For every input, a form is read only when the next token exists and is not a closer |
| Reader.AtomExamples | my-js/reader.js:127-145 | `007` reads as 7, `+5` as 5, `-10.1` as -10, `1.2.3` as a symbol, `true` as the boolean and `"a"` as a string keeping its quotes |
| Reader.LeadingZeros | my-js/reader.js:129-130 | `007` is numeric and `parseInt` gives 7 |
| Reader.PlusSign | my-js/reader.js:129-130 | `+5` is numeric and `parseInt` gives 5 |
| Reader.NegativeFraction | my-js/reader.js:129-130 | `-10.1` is numeric and `parseInt` drops the fraction, giving -10 |
| Reader.TwoPoints | my-js/reader.js:129-130 | `1.2.3` is not numeric |
| Reader.ReadElemsAt | my-js/reader.js:101-118 | The elements of a container, read up to and including the closer, consume at least one character |
| Reader.ElemsStep | my-js/reader.js:107-109 | When the next token is neither the closer nor the end, the container reads one form and then the rest, in order |
| Reader.ElemsAtCloseOrError | my-js/reader.js:107-116 | The closer ends a container and is consumed; a lexical error ends the reading |
| Reader.ElemsAtEnd | my-js/reader.js:111-113 | A container whose closer never arrives fails with `expected <close> got EOF` |
| Reader.ReadForm | my-js/reader.js:34-92 | Reading a form from the token stream gives exactly `ReadFormAt`'s form or error, and leaves the stream where it ends |
| Reader.ReadContainer | my-js/reader.js:101-118 | Drops the opener, then reads forms in order up to the closer and consumes it, exactly as `ReadElemsAt` |
| Reader.ReadQuote | my-js/reader.js:154-158 | Drops the marker and reads exactly one following form |
| Reader.ReadMetadata | my-js/reader.js:166-170 | Drops `^` and reads exactly two forms, in read order |
| Reader.ReadAtom | my-js/reader.js:127-145 | Consumes one token and classifies it with `AtomOf` |
| Reader.ReadStr | my-js/reader.js:16-24 | Reads exactly one form from the start of the text; tokens after it are never read |
| Printer.AtomsPrint | my-js/printer.js:11-50 | A symbol, a string and a definition print their stored text unchanged (a string keeps its quotes), a closure prints as `#`, a boolean as `true` or `false` |
| Printer.PrAll | my-js/printer.js:59-59 | Printing a list of items gives one text per item |
| Printer.PrNumberReadsBack | my-js/printer.js:103-105 | A printed number is a numeral whose value is the number |
| Printer.PrintFailsOnFunctions | my-js/printer.js:11-50 | Printing fails exactly on trees holding a node of an unprinted kind, always with the `unrecognized AST node` message |
| Printer.PrintAllFailsOnFunctions | my-js/printer.js:57-67 | Printing a container's items fails exactly when one of them holds such a node |
| Printer.ListPrintsParts | my-js/printer.js:57-60 | A list prints as its items' texts joined by single spaces inside parentheses |
| Printer.QuotePrintsAsList | my-js/printer.js:85-87 | A quote-family node prints as `(` tag, space, printed inner form `)`, the same text as the two-element list of its tag and inner form |
| Printer.MetaPrintsAsList | my-js/printer.js:112-114 | A with-meta node prints as `(with-meta`, the second stored form, then the first `)`, in reversed order |
| Environment.ZipObj | my-js/env.js:9-12 | Every name below the shorter length is bound; each binding holds a value paired with that name; a name's last occurrence wins |
| Environment.Env.constructor | my-js/env.js:5-14 | A new frame has the given outer frame and its initial bindings from the names and values |
| Environment.Env.Find | my-js/env.js:28-39 | Returns the frame itself when the name is bound locally, otherwise an outer frame that binds it with no frame nearer than it binding the name (the nearest), and null exactly when no frame of the chain does; the value it holds is the one the flattened bindings show |
| Environment.Env.Get | my-js/env.js:41-49 | Returns the value of the nearest frame that binds the name, or fails with `symbol <key> not found` exactly when no frame does |
| Environment.Env.Set | my-js/env.js:24-26 | Writes only the local frame: the visible bindings gain the new value and the outer chain is unchanged |
| Environment.CopyExtendEnv | my-js/env.js:57-64 | A new frame with the same outer frame whose bindings are the source's overlaid by the extras; the source frame is unchanged |
| Environment.InitialData | my-js/env.js:7-13 | Without names a new frame starts empty; with names it binds only names from that list |
| Environment.InitialBindingsZip | my-js/env.js:12-12 | With names and values, each name is bound to the value at its last index |
| Environment.InitialBindingsUndefined | my-js/env.js:8-9 | With names but no values, exactly the names are bound, all to undefined |
| Closures.NewClosure | my-js/closure.js:3-24 | The record's type is `closure`; its env, body and args are exactly those it was built from |
| Core.Values | my-js/core.js:26-26 | Plucking the values of number nodes keeps their count and order |
| Core.ReduceMathFn | my-js/core.js:23-29 | Defined exactly on non-empty lists of number nodes. `+` gives the sum, `-` the first minus the sum of the rest, `*` the product; one argument is returned unchanged |
| Core.CoreList | my-js/core.js:45-47 | A list node whose children are exactly the arguments |
| Core.Apply | my-js/core.js:23-47 | `list` gives the list of exactly its arguments. A math function gives a number exactly when its arguments are a non-empty run of number nodes: the sum for `+`, the first minus the sum of the rest for `-`, the product for `*` |
| Core.NsPlusCall | my-js/core.js:32-32 | Calling the table's `+` gives a result exactly when the arguments are one or more number nodes, and that result is the number node of their sum (a single argument comes back unchanged) |
| Core.NsMinusCall | my-js/core.js:33-33 | Calling the table's `-` gives a result exactly when the arguments are one or more number nodes, and that result is the number node of the first value minus the sum of the rest (a single argument comes back unchanged) |
| Core.NsTimesCall | my-js/core.js:34-34 | Calling the table's `*` gives a result exactly when the arguments are one or more number nodes, and that result is the number node of their product (a single argument comes back unchanged) |
| Core.NsListCall | my-js/core.js:38-38 | Calling the table's `list` on any arguments gives the list node of exactly those arguments |
| Core.NsEntries | my-js/core.js:31-39 | The table binds `+`, `-`, `*` and `list` to the function nodes of addition, subtraction, multiplication and list building |
| Core.NsBindings | my-js/core.js:31-39 | The table binds `+ - * list` to function nodes and `nil` to the string node `nil` |
| Core.NsExamples | my-js/core.js:32-38 | `(+ 1 2 3)` is 6, `(- 10 2 3)` is 5, `(* 2 3 4)` is 24 and `(list 1 2)` is the list of 1 and 2 |
| ReplEnvironment.Plus | my-js/repl_environment.js:30-30 | The sum starting from 0, so no arguments give 0 |
| ReplEnvironment.Minus | my-js/repl_environment.js:17-19 | The first argument minus the rest, left to right; one argument is returned unchanged, not negated; none gives undefined |
| ReplEnvironment.Multiplicate | my-js/repl_environment.js:21-23 | The product starting from the first argument; none gives undefined |
| ReplEnvironment.TruncDiv | my-js/repl_environment.js:15-15 | The quotient truncated toward zero that JavaScript's `%` is built on |
| ReplEnvironment.Remainder | my-js/repl_environment.js:15-15 | JavaScript's `a % b`: completes the truncated division, smaller than `b` in magnitude, with the sign of `a`; undefined (NaN) for a zero divisor |
| ReplEnvironment.RemainderSigns | my-js/repl_environment.js:15-15 | `-7 % 3` is -1 and `7 % -3` is 1, unlike a Euclidean remainder |
| ReplEnvironment.RemainderSymmetry | my-js/repl_environment.js:15-15 | For every dividend and non-zero divisor, `%` ignores the divisor's sign, and negating the dividend negates the remainder |
| ReplEnvironment.Invoke | my-js/repl_environment.js:13-35 | `+` gives the sum of any arguments; `-` and `*` are defined exactly on a non-empty list, giving the first minus the sum of the rest and the product; `%` is defined exactly when it has two arguments and the second is non-zero, and then completes the truncated division with a remainder smaller than the divisor |
| ReplEnvironment.ReplEnvEntries | my-js/repl_environment.js:29-35 | The table binds exactly `+ - * %`, to addition from 0, subtraction, multiplication and the remainder |
| ReplEnvironment.ReplPlusCall | my-js/repl_environment.js:30-30 | The table's `+` on any arguments gives their sum, 0 for none |
| ReplEnvironment.ReplMinusCall | my-js/repl_environment.js:31-31 | The table's `-` gives undefined for no arguments and otherwise the first minus the sum of the rest |
| ReplEnvironment.ReplTimesCall | my-js/repl_environment.js:32-32 | The table's `*` gives undefined for no arguments and otherwise the product |
| ReplEnvironment.ReplModCall | my-js/repl_environment.js:34-34 | The table's `%` on two or more arguments is JavaScript's remainder of the first two; on fewer it is undefined |
| Filter.Filtered | my-js/utils/filter.js:23-29 | The filtered list is no longer than the input |
| Filter.FilterLoop | my-js/utils/filter.js:23-29 | The loop pushes exactly the accepted elements, in order, and only reads the array |
| Filter.Filter | my-js/utils/filter.js:7-30 | With a collection, returns its accepted elements; without one, returns the curried form holding the predicate |
| Filter.ApplyCurried | my-js/utils/filter.js:12-22 | The curried form applied to a collection gives the same result as the two-argument call |
| Filter.FilteredMembers | my-js/utils/filter.js:24-28 | An element is in the result exactly when it is in the input and satisfies the predicate |
| Filter.FilteredCounts | my-js/utils/filter.js:24-28 | Each accepted value occurs as often as in the input, each rejected one not at all |
| Filter.FilteredAppend | my-js/utils/filter.js:24-28 | Filtering a concatenation filters each part, in order |
| Filter.FilteredIdempotent | my-js/utils/filter.js:24-28 | Filtering twice with the same predicate equals filtering once |
| Map.Mapped | my-js/utils/map.js:17-21 | Same length as the input, and element `i` is the transform of input element `i` |
| Map.MapLoop | my-js/utils/map.js:17-21 | The loop pushes the transform of every element, in order, and only reads the array |
| Map.Map | my-js/utils/map.js:7-22 | With a collection, returns its mapped elements; without one, returns the curried form holding the transform |
| Map.ApplyCurried | my-js/utils/map.js:8-16 | The curried form applied to a collection gives the same result as the two-argument call |
| Map.MappedAppend | my-js/utils/map.js:18-20 | Mapping a concatenation maps each part, in order |
| Map.MappedCompose | my-js/utils/map.js:18-20 | Mapping twice equals mapping once with the composed transform |
| RoundTrip.PrintReadPrint | my-js/tests/step1_read_print.js:5-13 | A readable tree prints. Reading the whole text back gives its canonical form and consumes the text, and printing that form reproduces the text |
| RoundTrip.ReadIsFixedPoint | my-js/tests/step1_read_print.js:5-13 | The canonical form prints to the same text, and reading that text gives exactly the canonical form again |
| RoundTrip.CanonReadable | my-js/tests/step1_read_print.js:7-11 | The canonical form of a readable tree is readable and already canonical |
| RoundTrip.CanonPrintsSame | my-js/printer.js:85-114 | Replacing quote and with-meta nodes by the lists they print as changes no printed text |
| RoundTrip.CanonAllPrintsSame | my-js/printer.js:57-67 | The same for a container's items |
| RoundTrip.ReadablePrints | my-js/printer.js:11-50 | A readable tree holds no unprinted node, so printing it succeeds |
| RoundTrip.AllReadablePrint | my-js/printer.js:57-67 | The items of a readable container all print |
| RoundTrip.ReadPrinted | my-js/reader.js:34-92 | The printed text of a readable tree, wherever it occurs followed by a delimiter, reads back as the canonical form and ends where the text ends |
| RoundTrip.ReadContainerPrinted | my-js/reader.js:101-118 | A printed container reads back as the same kind of container with the canonical items |
| RoundTrip.ReadBracketsPrinted | my-js/reader.js:101-118 | The opener, the printed items and the closer read back as that container |
| RoundTrip.ReadBracketed | my-js/reader.js:107-117 | The joined printed items followed by the closer read back as the canonical items, ending after the closer |
| RoundTrip.ReadElemsPrinted | my-js/reader.js:107-117 | Printed items laid out one by one read back as the canonical items |
| RoundTrip.ReadLastItem | my-js/reader.js:107-117 | The last printed item followed by the closer reads back as that one item |
| RoundTrip.ReadFirstOfMany | my-js/reader.js:107-117 | An item, a space and the printed rest read back as the item followed by the rest |
| RoundTrip.ReadQuoteFormPrinted | my-js/reader.js:42-44 | A printed quote form reads back as the two-element list of its tag and canonical inner form |
| RoundTrip.ReadMetaPrinted | my-js/reader.js:42-44 | A printed with-meta form reads back as the list of `with-meta`, the second and the first canonical forms |
| RoundTrip.QuoteAsList | my-js/printer.js:85-87 | A quote form prints and reads back as the list of its tag symbol and its inner form |
| RoundTrip.MetaAsList | my-js/printer.js:112-114 | A with-meta form prints and reads back as the list of `with-meta`, its second and its first form |
| RoundTrip.CanonQuotePrints | my-js/printer.js:85-87 | The canonical list of a quote form prints as the quote form does |
| RoundTrip.CanonMetaPrints | my-js/printer.js:112-114 | The canonical list of a with-meta form prints as the with-meta form does |
| RoundTrip.QuoteTagIsSymbol | my-js/printer.js:85-87 | The tag the printer writes for a quote form reads back as a symbol |
| RoundTrip.PrintedContainer | my-js/printer.js:57-67 | A list, vector or hashmap prints as its items' texts joined by single spaces between its brackets |
| RoundTrip.ReadFormOpener | my-js/reader.js:42-60 | `(`, `[` and `{` make the reader build a list, vector or hashmap of the elements read up to the closer |
| RoundTrip.ElemsAtCloser | my-js/reader.js:107-117 | A closer right away gives an empty container and is consumed |
| RoundTrip.ElemsCons | my-js/reader.js:107-109 | A form, then the rest of the elements, gives that form followed by the rest |
| RoundTrip.FormToken | my-js/reader.js:36-64 | The token a printed form starts with is produced by the lexer and is not the closer |
| RoundTrip.FormSkipsSeparator | my-js/reader.js:34-40 | A separator before a form does not change what is read |
| RoundTrip.ElemsSkipSeparator | my-js/reader.js:107-109 | A separator before the rest of a container does not change what is read |
| RoundTrip.ReadFormAtom | my-js/reader.js:90-90 | A token that starts no container, quote or metadata is read as `AtomOf` of it |
| RoundTrip.ReadAtomText | my-js/reader.js:127-145 | The text of an atom followed by a delimiter reads back as `AtomOf` of it, ending where the text ends |
| RoundTrip.ReadAtomPrinted | my-js/reader.js:127-145 | A readable number, boolean, string or symbol reads back from its printed text as itself |
| RoundTrip.AtomTextReadsBack | my-js/reader.js:127-145 | The printed text of a readable atom is one token that the reader classifies as the same atom |
| RoundTrip.NumberTextReadsBack | my-js/reader.js:129-130 | A printed number is read back as the same number |
| RoundTrip.BooleanTextReadsBack | my-js/reader.js:133-139 | A printed boolean is read back as the same boolean |
| RoundTrip.StringTextReadsBack | my-js/reader.js:141-142 | A string literal is read back as a string that keeps its quotes |
| RoundTrip.SymbolTextReadsBack | my-js/reader.js:144-144 | A symbol text is read back as the same symbol |
| RoundTrip.NumeralStart | my-js/reader.js:129-129 | A numeral starts with a sign or a digit, so the numeric test accepts it |
| RoundTrip.LexAtomText | my-js/token_stream.js:23-91 | The text of an atom followed by a delimiter is lexed as exactly one token |
| RoundTrip.LexAtomToken | my-js/token_stream.js:32-91 | The same, from the atom's first character |
| RoundTrip.LexStringText | my-js/token_stream.js:57-58 | A string literal is lexed as exactly one token, wherever it occurs |
| RoundTrip.StringTextCloses | my-js/token_stream.js:257-280 | The scan from any unescaped quote of a string literal runs to its closing quote |
| RoundTrip.StringEndOccurs | my-js/token_stream.js:257-280 | The closing quote of a string literal is found wherever the literal occurs |
| RoundTrip.LexNumberText | my-js/token_stream.js:52-54 | A printed integer followed by a delimiter is lexed as one token |
| RoundTrip.LexComparisonText | my-js/token_stream.js:47-49 | `= < > <= >=` followed by a delimiter are lexed as one token |
| RoundTrip.LexRunText | my-js/token_stream.js:40-89 | An operator, keyword or word run followed by a delimiter is lexed as one token |
| RoundTrip.LexWordText | my-js/token_stream.js:207-216 | A symbol or boolean text followed by a delimiter is lexed as one token |
| RoundTrip.LexStartsAt | my-js/token_stream.js:26-26 | Lexing from a non-separator starts right there |
| RoundTrip.ReadMarkedPrinted | my-js/reader.js:66-84 | A reader macro mark (`'`, a backquote, `~`, `~@`, `@`) followed by the printed text of a readable tree reads as that mark's quote-family node around the tree's canonical form, consuming the whole text |
| RoundTrip.PrintMarked | my-js/printer.js:85-87 | That node prints as `(`, the mark's name, a space, the text that followed the mark, `)` |
| RoundTrip.PrintedAfterMark | my-js/reader.js:66-84 | The printed text of a readable tree, written right after a mark, does not start with `@` and reads back as the tree's canonical form up to the end of the input |
| RoundTrip.MarkThenForm | my-js/reader.js:66-84 | A mark, then a form that reads up to the end, reads as the mark's node around that form |
| RoundTrip.PrintedStartsNoDeref | my-js/printer.js:11-50 | No printed form starts with `@`, so a `~` written before one is an unquote and not `~@` |
| RoundTrip.LexMark | my-js/token_stream.js:243-249 | A mark followed by a form that does not start with `@` is lexed as the mark alone |
| RoundTrip.ReadFormMark | my-js/reader.js:66-84 | After a mark the reader reads exactly one form and wraps it in the mark's node |
| RoundTrip.ReadMetaMarked | my-js/reader.js:86-88 | `^`, a printed form, a space and a second printed form read as the with-meta node holding the first form's canonical tree and then the second's, consuming the whole text |
| RoundTrip.PrintMetaMarked | my-js/printer.js:108-114 | That node prints as `(with-meta`, the second text, then the first `)` |
| RoundTrip.MetaThenForms | my-js/reader.js:86-88 | `^`, then a form and a second form read up to the end, reads as the with-meta node of the two, in read order |
| RoundTrip.MetaOperandsRead | my-js/reader.js:166-170 | The two forms after `^` read back one after the other, the first ending at the separator |
| RoundTrip.MetaFirstRead | my-js/reader.js:166-170 | The first form after `^` reads back and ends at the separator |
| RoundTrip.MetaSecondRead | my-js/reader.js:166-170 | The second form reads back from the separator to the end of the text |
| RoundTrip.ReadFormMeta | my-js/reader.js:86-88 | After `^` the reader reads two forms and stores them in read order |
| RoundTrip.LexMeta | my-js/token_stream.js:79-81 | `^` is lexed as a token by itself |
| RoundTrip.FormAfterSeparator | my-js/reader.js:34-40 | A form after a space reads as from the space |
| RoundTrip.QuoteOneReads | my-js/tests/step1_read_print.js:7-11 | `'1` reads as the quote of the number 1, consuming both characters |
| RoundTrip.QuoteOnePrints | my-js/tests/step1_read_print.js:7-11 | The quote of 1 prints as `(quote 1)` |
| RoundTrip.IdentifierRun | my-js/token_stream.js:288-294 | `read_until` over an atom text followed by a delimiter stops exactly at its end |

## Left out

- The REPL files (`step0_repl.js` to `step4_if_fn_do.js`) and `println` in `printer.js`: console I/O and `process.exit`, with no logic of their own.
- `eval_ast.js`, `type.js`, `helpers.js` and `ast.js` are not part of this model. The `{type, value}` records of `ast.js` become the `Ast.Node` datatype, one constructor per tag.
- `/` in `core.js` and `repl_environment.js` (`div`, `divide`): JavaScript floating-point division.
- `%` in `core.js`: it is bound to the raw `mod`, not lifted over nodes, so on nodes it gives NaN.
- Reader.AtomOf, Core.ReduceMathFn, ReplEnvironment.Invoke: values here are exact, unbounded integers. JavaScript numbers are doubles: beyond 2^53 `parseInt` rounds when reading (`9007199254740993` reads as 9007199254740992), and so do `+ - * %` (`(+ 9007199254740992 1)` is 9007199254740992 in JavaScript and 9007199254740993 here). A numeric token is an optional sign, digits, and optionally a point and more digits; its value here is the exact signed leading digits.
- Decimal.IntToStringRoundTrip: the printed text reads back as the same integer for every integer here. In JavaScript this holds only for integers that a double holds exactly and that print without exponent notation (below 1e21 in magnitude).
- Reader.AtomOf: tokens that `isNaN` accepts but that are not sign-digits-point numerals are symbols here. In the source, `.5`, `-.5` and `Infinity` become number nodes whose value `parseInt` makes NaN, and `-1e5` becomes the number -1. Symbols in the round trip are kept away from every such token.
- Tokenizer.IsNumber: the number class is ASCII digits and the point. In the source, `is_number` also accepts every character that `isNaN` reads as numeric whitespace and that is not a separator: tab, vertical tab, form feed, no-break space, U+FEFF, U+2028, U+2029 and the other Unicode spaces. Here those characters are not number characters.
- Tokenizer.LexToken, Tokenizer.TokenStream.ReadString: an unterminated string literal is an `unterminated string` error. The source instead concatenates `undefined` onto the token.
- Printer.PrStr: the quote-family test is membership in the five quote tags, not the source's substring test. The two agree on every tag the reader produces.
- Printer.PrStr: a boolean prints as the text `true`/`false`. The source returns the boolean value itself, which becomes that text once joined or concatenated.
- Printer.PrNumber: integers are unbounded. JavaScript's exponent notation for very large numbers is not modelled.
- CharStream.Track, CharStream.InputStream.Next: positions and columns count code points, one `char` each. The source's `input[pos++]` indexes UTF-16 code units, so a character outside the Basic Multilingual Plane (such as U+1F600) takes two `next()` calls, two positions and two columns there. Every later column in an error message, and every later position on that line, differs by one for each such character.
- CharStream.ErrorMessage: the message is `msg (line:col) ` with decimal line and column; the stack and the `Error` object are not modelled.
- Filter.Filter: the `TypeError` for a predicate that is not a function cannot arise, because the predicate's type is a function.
- Filter.Filter, Map.Map: the returned curried JavaScript function is modelled as a datatype case holding the predicate or transform, applied with `ApplyCurried`. The collection is an array that is only read.
- Environment.ZipObj, Environment.Env: a frame's bindings are a `map` from names to values, but the source's `data` is a plain JavaScript object, and two names behave differently there. Assigning `__proto__` (in `set` or in `zipObj`) creates no own property, so after `set('__proto__', 1)` the source's `find` goes on to the outer frame or returns null, where the model binds the name in the local frame. Once a frame binds `hasOwnProperty`, the call `data.hasOwnProperty(key)` in `find` throws a `TypeError` on every lookup through that frame (unless the bound value is a function), where the model looks the name up normally.
- Environment.InitialBindingsZip: a `__proto__` name among the names is bound here to its value. In the source's object it gives no own property, so it is not bound.
- Environment.InitialBindingsUndefined: a `__proto__` name among the names is bound here to undefined. In the source's object it is not bound.
- Environment.ZipObj: follows Ramda's `zipObj`, which pairs names and values up to the shorter length. Names without a value at their index are left unbound.
- Environment.CopyExtendEnv: the new frame is built with no names, so the `undefined` binds argument of `env` is `None`. The key order of `forEach` is not modelled: the loop picks keys in any order and the result does not depend on it.
- `getOuterEnv` is modelled as reading the frame's `outer` field directly.
- Closures.NewClosure: body and args are fields of the datatype. That they are hidden behind getters in the source (not exposed as fields) is not captured.
- Core.ReduceMathFn: every argument that is not a number node makes the result `None`. JavaScript instead coerces the node's value: `(+ true 1)` gives 2, `(- 5 false)` gives 5, `(* [] 3)` gives 0, and a string concatenates. An empty argument list gives `None` where JavaScript builds a number node holding `undefined`.
- Core.NsMinusCall, Core.NsPlusCall, Core.NsTimesCall, Core.Apply: they inherit Core.ReduceMathFn's `None` for arguments that are not number nodes (JavaScript coerces them) and for no arguments (JavaScript builds a number node holding `undefined`).
- ReplEnvironment.Minus, ReplEnvironment.Multiplicate: `None` stands for the `undefined` an empty argument list gives.
- ReplEnvironment.Invoke: `%` is called with two direct arguments. With fewer it gives NaN (`None`); extra arguments are ignored.
- Tokenizer.TokenStream: `read_until` takes a predicate in the source. Here it takes one of the four character classes the source passes to it.
- RoundTrip.PrintReadPrint: stated for readable trees only. Closures, definitions and function nodes print as text that does not read back. Symbol and string texts must be ones the tokenizer reads back as one atom. Quote and with-meta nodes read back as the lists they print as.
