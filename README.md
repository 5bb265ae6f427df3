# lasagna, modelled in Dafny

lasagna is a Rust library of parser combinators. Its files hold two generations of the
parser interface, and this project models both separately, as the library never
unifies them.

- **The lexer generation.** A `Lexer` yields characters or tokens with source spans. A
  `Parser` lexes tokens on demand and reports errors as a spanned `ParseError`.
  - `src/parser.rs`: start-token sets, `is_next`, `try_parse` and the whitespace-skipping
    parser.
  - `src/vec.rs`: `VecTerminated` and `Punctuated`.
  - `src/parser_lexer.rs`: `LexerParser` and `ParserLexer`.
  - `src/number.rs`: the integer token.
  - `examples/json.rs`: the JSON string token.
  - `src/error.rs`: the error type.
  - `src/span.rs`: span arithmetic.
- **The token-stream generation.** A `Parser<Token, Error>` has `next`, `peek`, `expect`
  and a closure-taking `try_parse_with`. Its errors come from a `ParseError<Token>`
  constructor interface.
  - `src/parse_buffer.rs`: `ParseBuffer`.
  - `src/chars_parser.rs`: `CharsParser`.
  - `src/punctuated.rs`: `Punctuated`.
  - `src/delimited.rs`: `Delimited`.
  - `src/whitespace.rs`: `Whitespace`.
  - `src/token_parser.rs`: `TokenParser`.

How the Rust code maps to Dafny:

- A Rust trait implementation is a record of function values over the parser's state. A
  `&mut self` operation is a function from a state to its result and the state it leaves.
- A type whose methods update fields is also a Dafny `class`. Each method is proved equal to
  its state function. Those types are `ParseBuffer`, `CharsParser`, `SkipWhitespace`,
  `ParserLexer` and `TokenParser`.
- The loops of the lexers, parsers and combinators are `while` loops in Dafny. Each is
  proved equal to a recursive function, and the lemmas are about that function.
- Three loops that only compute a value are written differently. `StartTokens::contains`
  (src/parser.rs:18-22) is the recursive `StartSets.ContainsAny`. The `ExpectedOne` arm of
  `Display` (src/error.rs:49-55) is the recursive `Errors.JoinFrom`. `append_vec`
  (src/parser.rs:34-36) is a `for` loop in `StartSets.AppendVec`, whose invariants are
  about the set of kinds collected so far.
- In the token-stream generation, a parser's state is the sequence of tokens it still
  holds. A fork is a copy of that sequence, and committing a fork replaces it.

## Reading of the source

Where the code and its comments or the natural reading differ, the model follows the code:

- `VecTerminated` consumes the terminator, even though its doc comment says it does not.
  It commits the fork on which the terminator lexed (src/vec.rs:8, 38-45).
- In `try_parse`, when the start set cannot decide, a failed speculative parse returns
  its error rather than `None`. The parser is left as it was before the fork
  (src/parser.rs:93-101).
- A start set holding `All` accepts every kind. It therefore never reaches the
  speculative branch of `try_parse` when a token can be peeked.
- The `Expected` and `UnexpectedEof` renderings end with the quoted expectation, not
  with the line and column (src/error.rs:64-75).
- The integer lexer reads to the end of its input. It skips characters that are not digits
  in the current radix, rather than stopping at them (src/number.rs:30-54).
- `TokenParser::next` clears the peek cache and parses a new value. After a `peek`, the
  peeked value is therefore skipped, not returned (src/token_parser.rs:65-73).
- A value peeked inside `TokenParser::try_parse_with` is lost when the closure succeeds.
  The inner parser has moved past it, and the fork's cache is dropped
  (src/token_parser.rs:99-108).
- `ParserLexer::next` never propagates a parse error. It reports "no value" at the
  current span (src/parser_lexer.rs:74-78).
- `SkipWhitespace::next` lexes at the lexer's position without skipping whitespace first,
  unlike `span`, `peek` and `is_empty` (src/parser.rs:146-152; `SkipNext`).
- `SkipWhitespace::is_empty` does not look at the cache. With a cached token and only
  whitespace left, it says empty while `next` still returns the token
  (src/parser.rs:166-170; `EmptyDespiteCachedToken`).
- `SkipWhitespace::fork` starts with an empty cache, so a peeked token is not carried into
  the fork (src/parser.rs:172-174; `SkipFork`).
- `TokenParser::next` on an empty inner parser returns `None` and leaves the cache as it
  was. After peeking the last value, `next` gives `None` while `peek` still reports that
  value (src/token_parser.rs:65-68; `NextIgnoresCache`, `StaleCacheAfterLastPeek`).
- `Whitespace` never fails and may consume nothing. `SeparateWhitespace` therefore accepts
  adjacent values with no space between them (src/whitespace.rs:12-24;
  `SeparateWhitespaceAdjacent`).
- In `Delimited` with the same token on both sides, each occurrence raises the depth and
  lowers it again at once. The scan therefore never closes and always ends in
  `unexpected_eof` (src/delimited.rs:27-50).

## Model

| member | source | states |
|---|---|---|
| Spans.Merge | src/span.rs:22-48 | the merged offset is the smaller offset and the merged end the larger end; line and column come from the operand with the smaller offset, the left one on a tie |
| Spans.MergeIsLeastCover | src/span.rs:22-48 | the merge covers both operands, and every span covering both covers the merge |
| Spans.MergeCommutes | src/span.rs:28-46 | swapping the operands covers the same interval, and gives the same span when the offsets differ |
| Spans.MergeAssociates | src/span.rs:22-48 | merging `a` with `b` and then `c` equals merging `a` with the merge of `b` and `c` |
| Spans.MergeIdempotent | src/span.rs:51-56 | a span merged with itself is itself, and the in-place merge with `b` done twice equals done once |
| Digits.DigitValue | src/number.rs:48 | a digit's value is below 37, and a decimal digit has its usual value |
| Digits.Decimal | src/error.rs:57 | the rendering of a `usize` is a non-empty string of decimal digits |
| Digits.DecimalRoundTrip | src/number.rs:60 | reading a decimal rendering in base 10 gives back the number |
| StartSets.ContainsCases | src/parser.rs:14-29 | `All` holds every kind; `Token(t)` holds exactly `t`; `Any` holds what some alternative holds; `One` holds what its tree holds |
| StartSets.ContainsAnyExists | src/parser.rs:17-25 | the alternatives loop returns true exactly when some alternative from its position on holds the kind |
| StartSets.ContainsIsLeavesOrAll | src/parser.rs:14-46 | a tree holds a kind exactly when it has an `All` leaf or the kind is one of its token leaves |
| StartSets.AppendVec | src/parser.rs:31-46 | the old vector is a prefix of the new one; no duplicates are introduced; the elements become the old ones plus the tree's leaves (the left-to-right order of the new kinds is not stated: callers use the list as a set of kinds) |
| StartSets.ToVec | src/parser.rs:48-52 | the list has no duplicates; every listed kind is contained; without an `All` leaf every contained kind is listed (the order is not stated) |
| Parsing.IsNext | src/parser.rs:62-65 | `None` exactly when peeking fails or finds nothing; otherwise whether the peeked kind is in the start set; the state is what `peek` leaves |
| Parsing.TryParse | src/parser.rs:86-103 | a decisive no returns `Ok(None)` without parsing; a decisive yes parses in place and propagates its error; an undecided lookahead parses a fork, committing it on success and leaving the state on failure |
| Parsing.AllNeverSpeculates | src/parser.rs:63-92 | with the `All` set, a peeked token always commits and a decisive no never happens |
| Parsing.PreciseStartDecides | src/parser.rs:63-65 | without `All`, a peeked token commits exactly when its kind is one of the set's leaves |
| SkipWhitespaceParser.SkipSpaceIsMaximal | src/parser.rs:120-132 | skipping consumes exactly the maximal whitespace prefix and moves the offset by its length |
| SkipWhitespaceParser.SkipSpaceNoLeading | src/parser.rs:124-131 | input not starting with whitespace is left alone |
| SkipWhitespaceParser.SkipSpan | src/parser.rs:140-144 | whitespace is skipped, then the span starts at the lexer's position; the cache is kept |
| SkipWhitespaceParser.SkipNext | src/parser.rs:146-152 | a cached token is taken and the cache emptied; otherwise a token is lexed at the current position |
| SkipWhitespaceParser.SkipPeek | src/parser.rs:154-164 | a cached token is returned unchanged; otherwise whitespace is skipped and a token lexed and cached; a lex error leaves the cache empty |
| SkipWhitespaceParser.SkipIsEmpty | src/parser.rs:166-170 | true exactly when all remaining characters are whitespace; the whitespace is consumed and the cache kept |
| SkipWhitespaceParser.EmptyDespiteCachedToken | src/parser.rs:146-170 | with a cached token and only whitespace in the lexer, `is_empty` says empty and `next` still returns the cached token |
| SkipWhitespaceParser.SkipFork | src/parser.rs:172-174 | the fork has the same lexer and an empty cache |
| SkipWhitespaceParser.SkipIsNext | src/parser.rs:63-65 | `is_next` on a `SkipWhitespace` with an empty cache skips whitespace, lexes and caches one token and tests its kind against the start set; a lex error gives `None` |
| SkipWhitespaceParser.PeekTwice | src/parser.rs:154-164 | a second peek returns the first peek's token and changes nothing |
| SkipWhitespaceParser.NextAfterPeek | src/parser.rs:146-164 | `next` after a successful peek returns the peeked token and empties the cache |
| SkipWhitespaceParser.SkipWhitespace.constructor | src/parser.rs:115-117 | the lexer as given and an empty cache |
| SkipWhitespaceParser.SkipWhitespace.SkipSpaces | src/parser.rs:120-132 | the loop leaves the lexer past the leading whitespace and the cache unchanged |
| SkipWhitespaceParser.SkipWhitespace.Span | src/parser.rs:140-144 | the method's result and new state are `SkipSpan`'s |
| SkipWhitespaceParser.SkipWhitespace.Next | src/parser.rs:146-152 | the method's result and new state are `SkipNext`'s |
| SkipWhitespaceParser.SkipWhitespace.Peek | src/parser.rs:154-164 | the method's result and new state are `SkipPeek`'s |
| SkipWhitespaceParser.SkipWhitespace.IsEmpty | src/parser.rs:166-170 | the method's result and new state are `SkipIsEmpty`'s |
| SkipWhitespaceParser.SkipWhitespace.Fork | src/parser.rs:172-174 | a fresh parser in `SkipFork`'s state |
| Errors.Eof | src/error.rs:26-31 | an `UnexpectedEof` with exactly the given span and expectation |
| Errors.Msg | src/error.rs:34-39 | a `Message` with exactly the given span and text |
| Errors.JoinFromIsJoin | src/error.rs:49-55 | the rendering loop produces the ", "-separated list of the remaining items |
| Errors.JoinAppend | src/error.rs:49-55 | the list of no items is empty, of one item is that item, and each further item follows a single ", " with no trailing separator |
| Errors.RenderExpectedOne | src/error.rs:46-57 | the `ExpectedOne` message quotes the items in order, ", "-separated, then gives the line and column |
| Errors.RenderEnding | src/error.rs:45-80 | `ExpectedOne` and `Message` renderings end with the column; `Expected` and `UnexpectedEof` end with line, column and the quoted expectation |
| VecParsing.TryParse | src/vec.rs:105-109 | a parse on a fork is committed when it succeeds; otherwise `None` and the state unchanged |
| VecParsing.TermLoop | src/vec.rs:35-48 | on success the elements collected so far are a prefix of the result |
| VecParsing.ParseVecTerminated | src/vec.rs:31-55 | the result is the loop's, with the span merged from the start to where the loop stopped |
| VecParsing.TermLoopStops | src/vec.rs:37-47 | no terminator means the parser was empty; a terminator means it lexed on a fork that was committed; an error comes from an element parse |
| VecParsing.TermLoopFirstStep | src/vec.rs:37-45 | the terminator is tried before any element |
| VecParsing.PunctLoop | src/vec.rs:101-111 | on success at least one value is added and the values and punctuation collected so far are prefixes |
| VecParsing.ParsePunctuated | src/vec.rs:96-118 | empty input gives no values and no punctuation; otherwise the loop's result; the span is merged from start to stop |
| VecParsing.PunctLoopCounts | src/vec.rs:102-110 | on success there is exactly one more value than punctuation |
| VecParsing.CharTermTurn | src/vec.rs:37-47 | over characters with `;` as terminator, a character other than `;` is pushed and the loop continues after it |
| VecParsing.CharTermStop | src/vec.rs:38-44 | a `;` ends the loop with the collected list, and the terminator is consumed |
| VecParsing.TerminatedExample | src/vec.rs:31-55 | `ab;c` gives `a`, `b`, a consumed terminator and `c` left over |
| SourceParsing.LexerParser | src/parser_lexer.rs:20-38 | `span`, `is_empty` and `fork` are the lexer's own |
| SourceParsing.PlSpan | src/parser_lexer.rs:60-63 | the wrapped parser's span, with the cache untouched |
| SourceParsing.PlNext | src/parser_lexer.rs:65-80 | a cached value is taken first; an empty parser or a failed parse gives no value at the current span; a parsed value comes with its own span; the cache ends empty |
| SourceParsing.PlPeek | src/parser_lexer.rs:82-96 | a cached value is returned unchanged; otherwise `next`, with a found value stored in the cache |
| SourceParsing.PlExpect | src/parser_lexer.rs:98-114 | `Ok` exactly when the next value is the expected one; a different value gives `Expected` at its span; nothing gives `UnexpectedEof` |
| SourceParsing.PlFork | src/parser_lexer.rs:116-122 | a fork of the parser with a copy of the cache |
| SourceParsing.PeekTwice | src/parser_lexer.rs:82-96 | a second peek returns the first peek's value and changes nothing |
| SourceParsing.NextAfterPeek | src/parser_lexer.rs:65-96 | `next` after a peek that found a value returns it with its span and empties the cache |
| SourceParsing.NextSwallowsErrors | src/parser_lexer.rs:71-78 | a parse error on a non-empty parser becomes "no value" |
| SourceParsing.ParserLexer.constructor | src/parser_lexer.rs:47-50 | the parser as given and an empty cache |
| SourceParsing.ParserLexer.Span | src/parser_lexer.rs:60-63 | the method's result and new state are `PlSpan`'s |
| SourceParsing.ParserLexer.Next | src/parser_lexer.rs:65-80 | the method's result and new state are `PlNext`'s |
| SourceParsing.ParserLexer.Peek | src/parser_lexer.rs:82-96 | the method's result and new state are `PlPeek`'s |
| SourceParsing.ParserLexer.Expect | src/parser_lexer.rs:98-114 | the method's result and new state are `PlExpect`'s |
| SourceParsing.ParserLexer.Fork | src/parser_lexer.rs:116-122 | a fresh lexer in `PlFork`'s state |
| Numbers.FindSwitchIsFirst | src/number.rs:34-47 | the radix switch found is at the first `b` or `x` that follows exactly the digit `0`; `None` means there is no such position |
| Numbers.NoSwitchWithoutMarker | src/number.rs:34-47 | input with no `b` and no `x` stays decimal |
| Numbers.Scan | src/number.rs:30-54 | without a switch, decimal and the decimal digits of the input; with one, the switched format and the digits after it in that radix |
| Numbers.LexInteger | src/number.rs:22-70 | the whole input is consumed; on success the span runs from the start over all of the input |
| Numbers.Lex | src/number.rs:22-70 | the loop's result and final lexer are `LexInteger`'s |
| Numbers.SwitchStep | src/number.rs:34-47 | reading `b` or `x` after exactly the digit `0`, before any switch, selects that format and radix and empties the digit string |
| Numbers.KeepStep | src/number.rs:48-50 | any other character is appended to the digit string exactly when it is a digit in the current radix, and the lexer's variables stay what `Scan` describes of the input read so far |
| Numbers.LexStateEnd | src/number.rs:30-54 | when the input is exhausted the format and digit string are `Scan`'s of the whole input |
| Numbers.LexIntegerValue | src/number.rs:56-69 | success exactly when digits were collected, with the format and the base-radix value of the digits; otherwise the "at least one digit" message |
| Numbers.ScanAllDecimal | src/number.rs:30-54 | a string of decimal digits stays decimal and is collected whole |
| Numbers.DecimalLexRoundTrip | src/number.rs:56-63 | the decimal rendering of `n` lexes to the decimal integer `n` |
| Numbers.HexExample | src/number.rs:41-63 | `0x1f` lexes to the hexadecimal integer 31 |
| Numbers.EmptyHexExample | src/number.rs:64-69 | `0x` lexes to the "integers must contain at least one digit" message |
| Numbers.SkipsNonDigits | src/number.rs:48-50 | `1_0` lexes to ten: the underscore is skipped |
| JsonTokens.LexLitStr | examples/json.rs:32-59 | no opening quote gives `expect`'s error; success means the input starts with a quote, the text and a quote, the text has no quote, and the rest follows; a missing closing quote gives "expected end to string" at the start |
| JsonTokens.LexLitStrLoop | examples/json.rs:32-59 | the loop's result and final lexer are `LexLitStr`'s |
| JsonTokens.LitStrRoundTrip | examples/json.rs:39-58 | a quoted text without quotes lexes back to that text, leaving what follows |
| JsonTokens.MatchString | lasagna-derive/src/derive_token.rs:92-113 | succeeds exactly when the input starts with the string, and then consumes exactly it |
| JsonTokens.LexJsonToken | lasagna-derive/src/derive_token.rs:138-156 | each punctuation variant is tried in declaration order and committed on its character; a string literal is committed when it lexes; when none lexes, an end-of-input error naming the token at the start, with nothing consumed |
| Streams.Next | src/parse_buffer.rs:43-49 | the first token and the tail, or `None` and no change on an empty buffer |
| Streams.Peek | src/parse_buffer.rs:51-57 | the token `next` would return, with nothing consumed |
| Streams.TryParseWith | src/parse_buffer.rs:73-87 | the closure's result; on `Ok` the fork's state is committed, on `Err` the state is unchanged |
| Streams.TryParse | src/delimited.rs:46-48 | a successful rule gives its value and commits; a failing one gives `None` and leaves the state |
| Streams.Probe | src/delimited.rs:28-34 | reports whether the rule parses at this point and never moves the parser |
| Buffers.BufferExpect | src/parse_buffer.rs:59-71 | one token is consumed whenever there is one; `Ok` exactly when it is the expected token; a different token gives `expected`; an empty buffer gives `unexpected_eof` |
| Buffers.ParseBuffer.constructor | src/parse_buffer.rs:12-14 | an empty buffer |
| Buffers.ParseBuffer.FromIter | src/parse_buffer.rs:31-35 | the tokens in iteration order |
| Buffers.ParseBuffer.Push | src/parse_buffer.rs:17-19 | the token is appended at the end |
| Buffers.ParseBuffer.Next | src/parse_buffer.rs:43-49 | the method's result and new tokens are `Streams.Next`'s |
| Buffers.ParseBuffer.Peek | src/parse_buffer.rs:51-57 | the first token, or `None` exactly when the buffer is empty |
| Buffers.ParseBuffer.Expect | src/parse_buffer.rs:59-71 | the method's result and new tokens are `BufferExpect`'s |
| Buffers.ParseBuffer.TryParseWith | src/parse_buffer.rs:73-87 | the method's result and new tokens are `Streams.TryParseWith`'s |
| Buffers.Collect | src/parse_buffer.rs:99-105 | on success nothing is left and the values so far are a prefix; an error is one the element rule produced |
| Buffers.ParseBufferOf | src/parse_buffer.rs:94-106 | the loop's result and final state are `Collect`'s |
| Buffers.CollectTokens | src/parse_buffer.rs:94-106 | buffering a buffer token by token gives back the same tokens and consumes them all |
| CharsParsing.CharsExpect | src/chars_parser.rs:30-38 | one character is consumed whenever there is one; `Ok` exactly when it is the expected one; otherwise `expected` with what was found, `None` at the end |
| CharsParsing.CharsParser.constructor | src/chars_parser.rs:10-15 | the string's characters |
| CharsParsing.CharsParser.Next | src/chars_parser.rs:22-24 | never fails; returns the current character and advances by one, or `None` at the end |
| CharsParsing.CharsParser.Peek | src/chars_parser.rs:26-28 | never fails; the current character without advancing |
| CharsParsing.CharsParser.Expect | src/chars_parser.rs:30-38 | the method's result and new state are `CharsExpect`'s |
| CharsParsing.CharsParser.TryParseWith | src/chars_parser.rs:40-54 | the method's result and new state are `Streams.TryParseWith`'s: commit on `Ok`, untouched on `Err` |
| CharsParsing.PeekThenNext | src/chars_parser.rs:22-28 | on one `CharsParser`, `peek` and the following `next` return the same character, and only `next` advances |
| CharsParsing.ExpectAtEnd | src/chars_parser.rs:30-38 | at the end the character parser reports `expected(None, [c])` while the buffer reports `unexpected_eof`; on non-empty input the two agree |
| WhitespaceSkipping.SkipLeading | src/whitespace.rs:12-18 | what is left is a suffix; everything removed is whitespace; what is left is empty or starts with a non-whitespace character |
| WhitespaceSkipping.SkipLeadingNone | src/whitespace.rs:12-18 | with no leading whitespace nothing is consumed |
| WhitespaceSkipping.SkipLeadingIdempotent | src/whitespace.rs:12-18 | skipping twice is skipping once |
| WhitespaceSkipping.ParseWhitespace | src/whitespace.rs:7-21 | always `Ok`, and the state is what `SkipLeading` leaves |
| PunctuatedLists.PunctLoop | src/punctuated.rs:22-30 | on success nothing is left and the values and punctuation so far are prefixes; an error is one the value rule or the punctuation rule produced |
| PunctuatedLists.ParsePunctuated | src/punctuated.rs:14-36 | the loop's result and final state are `PunctLoop`'s from empty lists |
| PunctuatedLists.PunctLoopCounts | src/punctuated.rs:22-30 | on success the punctuation count is the value count or one fewer |
| PunctuatedLists.PunctuatedEmpty | src/punctuated.rs:22 | empty input gives no values and no punctuation |
| PunctuatedLists.ThreeValues | src/punctuated.rs:22-30 | `a,b,c` gives three values and two commas |
| PunctuatedLists.TrailingComma | src/punctuated.rs:22-30 | `a,b,c,` gives three values and three commas |
| PunctuatedLists.SeparateWhitespaceExample | src/whitespace.rs:24 | `SeparateWhitespace` over `a b` gives two values and one separator |
| PunctuatedLists.SeparateWhitespaceAdjacent | src/whitespace.rs:12-24 | since `Whitespace` never fails and may consume nothing, `ab` also gives two values and one separator |
| Delimiters.DelimLoop | src/delimited.rs:25-57 | the scan fails only with `unexpected_eof`, having consumed everything |
| Delimiters.LoopTurn | src/delimited.rs:27-56 | one turn of the scan: at depth zero after the left probe a right delimiter ends it; otherwise the depth is adjusted by both probes and the next token is buffered, or the scan fails with `unexpected_eof` at the end of input |
| Delimiters.Step | src/delimited.rs:52-56 | at the end of input, `unexpected_eof`; otherwise the token is buffered and the scan goes on |
| Delimiters.ParseSpec | src/delimited.rs:17-64 | the left delimiter is parsed first and its error propagated; a scan failure gives `unexpected_eof`; after a successful scan the buffered tokens parsed as `T` become `content` and the closing delimiter `right`, with the content's parse error propagated, in the state the scan left |
| Delimiters.ParseDelimited | src/delimited.rs:17-64 | the method's result and final state are `ParseSpec`'s |
| Delimiters.DelimitedMatches | src/delimited.rs:17-64 | with distinct one-token delimiters, input `l` then `t` gives `l`, the tokens before the `r` that closes depth zero parsed as the content (its error propagated), `r`, and the rest after that `r`; without such an `r`, `unexpected_eof` |
| Delimiters.DelimLoopMatches | src/delimited.rs:25-57 | with distinct one-token delimiters, the scan matches brackets: it stops just after the right delimiter that closes depth zero, with everything before it as content, and fails with `unexpected_eof` when there is none |
| Delimiters.SameDelimiterNeverCloses | src/delimited.rs:27-50 | with the same token as both delimiters, the scan always fails with `unexpected_eof` |
| Delimiters.NestedExample | src/delimited.rs:17-64 | `{{}}` gives the left brace, the content `{}` and the right brace |
| TokenParsing.TpNext | src/token_parser.rs:65-73 | an empty inner parser gives `None` and changes nothing; otherwise the cache is cleared and a fresh value parsed, with its error propagated |
| TokenParsing.TpPeek | src/token_parser.rs:75-83 | a cached value is returned without touching the inner parser; otherwise `next`, whose value is stored in the cache |
| TokenParsing.TpExpect | src/token_parser.rs:85-97 | the state is what `next` leaves; `Ok` exactly when `next` gives the token; another value gives `expected`, none gives `unexpected_eof`, and a parse error is propagated |
| TokenParsing.TpTryParseWith | src/token_parser.rs:99-108 | the closure runs on the inner parser with an empty cache; on `Ok` the inner parser is committed and the outer cache kept; on `Err` nothing changes |
| TokenParsing.NextIgnoresCache | src/token_parser.rs:65-73 | `next` on a non-empty parser does not depend on the cache; on an empty one it leaves the cache as it was |
| TokenParsing.StaleCacheAfterLastPeek | src/token_parser.rs:65-83 | after peeking the last value, `next` returns `None` and a following `peek` still reports the peeked value |
| TokenParsing.PeekTwice | src/token_parser.rs:75-83 | a second peek returns the first peek's value and changes nothing |
| TokenParsing.NextAfterPeekSkips | src/token_parser.rs:65-83 | after a peek that parsed a value, `next` returns the value after it |
| TokenParsing.CommittedPeekIsConsumed | src/token_parser.rs:99-108 | a closure that only peeks and succeeds moves the inner parser past the peeked value |
| TokenParsing.TokenParser.constructor | src/token_parser.rs:39-57 | the inner parser as given and an empty cache |
| TokenParsing.TokenParser.Next | src/token_parser.rs:65-73 | the method's result and new state are `TpNext`'s |
| TokenParsing.TokenParser.Peek | src/token_parser.rs:75-83 | the method's result and new state are `TpPeek`'s |
| TokenParsing.TokenParser.Expect | src/token_parser.rs:85-97 | the method's result and new state are `TpExpect`'s |
| TokenParsing.TokenParser.TryParseWith | src/token_parser.rs:99-108 | the method's result and new state are `TpTryParseWith`'s |

## Left out

- The proc-macro crate `lasagna-derive` is left out, because it manipulates token streams. The model only mirrors what the generated `Token` code does for the JSON token, in `JsonTokens.MatchString` and `JsonTokens.LexJsonToken`. The derived `Parse` dispatch over `is_next` is not modelled.
- `src/token.rs` is left out, because it is made of `macro_rules!` definitions. A token type's parse appears only as the one-token rule `Streams.TokenRule`.
- `src/string_allocator.rs` is left out, because it is a global concurrent set with leaked strings.
- `src/parser_ext.rs` and `MutOrOwned` are left out, because they are ownership plumbing. Both `TokenParser::new` and `From<&mut P>` are the one constructor.
- The `Lexer` trait and the character lexer behind `Lexer<Output = char>` are not part of this model's sources. `CharLexing.CharLexer` is a concrete stand-in: `next` advances the offset by one and starts a new line after `'\n'`, and `span(length)` is a span at the cursor. `expect` consumes one character and reports `Expected` or `UnexpectedEof`.
- `char::is_whitespace` is the Unicode White_Space set, written out by code point. `char::is_digit(radix)` reads ASCII digits and letters.
- `Numbers.LexInteger`: the `i64` value is an unbounded integer. The model therefore does not capture the panic of `from_str_radix(..).unwrap()` on overflow.
- `ParserLexer` has no `is_empty` of its own (src/parser_lexer.rs:53-123), and the `Lexer` trait's default is not part of this model's sources. It is therefore not modelled; only the wrapped parser's `is_empty` inside `next` is.
- `SourceParsing.PlExpect`: src/parser_lexer.rs:105-108 builds `ParseError::Expected` with a `found: Spanned<String>`, which does not match the variant's fields in src/error.rs:9-13 (`span`, `found: String`, `expected`). It is read as `Expected` with the found value's span, its rendering as `found`, and the rendering of the expected value.
- Spans and lexer counters are unbounded naturals. The `usize` overflow of `offset + length` in `Span::bitor` (src/span.rs:24-25) is not modelled, nor the overflow of the lexer's offset, line and column counters.
- `examples/json.rs` calls `Error::spanned`, which is not in the error type shown. It is read as `ParseError::msg`.
- The body of the lexer generation's `Parser::try_parse`, which `src/vec.rs` calls, is not part of this model's sources. `VecParsing.TryParse` reads it as a parse on a fork, committed when it succeeds.
- The token-stream generation's default `is_empty`, `consume`, `parse` and `try_parse` are not part of this model's sources. On the token-sequence state they are "no tokens left", `next`, the rule itself, and `Streams.TryParse`.
- The token-stream combinators are modelled over the token-sequence state, not over every `Parser` implementation. The `dyn DynParser` handed to a closure is that state too.
- `VecParsing.TermLoop`, `VecParsing.PunctLoop`, `Buffers.Collect` and `PunctuatedLists.PunctLoop` require that parsing makes progress. Those requirements are `Progress`, `Consumes` and `NoGrowth`. The non-terminating runs the Rust loops allow without progress are not modelled.
- Punctuated `into_iter` is the `values` field itself.
- The `Named::NAME` string of a derived token is a parameter.
- `Display` of found and expected tokens is a parameter (`show`).
- `Delimited` parses its content by running the content rule on the buffered tokens. Tokens the rule leaves unparsed are dropped, as in the source.
- `ParseBuffer`'s own `Parse` impl returns the parsed sequence, not a new buffer object.
- The two interface generations do not type-check against each other, so the model does not relate them. The one exception is `CharsParsing.ExpectAtEnd`, which compares the two `expect`s.
