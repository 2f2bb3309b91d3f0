# Impala front end, modelled in Dafny

This project models the front end of the Impala compiler: the lexer, the
token type, the recursive-descent parser with the AST builders it uses, the
name binder, the compiler's error counters, and how the driver reads its
command line. Each model is proved against a specification.

The C++ classes that change state step by step become Dafny classes:

- `Lexer` becomes `LexerImpl.Lexer`.
- `Parser` becomes `ParserImpl.Parser`.
- `Scopes` becomes `Bind.Scopes`.
- `Compiler` becomes `Diagnostics.Compiler`.

Each method of these classes is proved to compute exactly a function of a
value state: `LexSpec` for the lexer, `ParserSpec` for the parser, `BindSpec`
for the binder. The properties the code promises are then proved about those
functions, in `LexDecode`, `LexProperties`, `ParserProperties` and
`BindProperties`. Tokens, AST nodes, locations and diagnostics are values:
`Tokens`, `Ast`, `Basics`, `Diagnostics`. The command line is pure logic:
`Driver`.

Some inputs are parameters of the model:

- **Source text.** The lexer reads a finite sequence of bytes. Reading past
  its end yields `EOF` (the unsigned 32-bit `-1` of `std::istream::get`).
- **Tokens.** The parser reads the lexer's whole output: a finite sequence of
  tokens that ends in `M_eof`.
- **Diagnostics.** Each error, warning and note is recorded as a
  `Diag(kind, location)` in a `Report`, alongside the two counters.
- **Command line.** The driver's command line is a sequence of strings.
  Whether it is a debug build (`NDEBUG` not defined) is a parameter.

## Model

| member | source | states |
|---|---|---|
| Basics.Join | impala/parser.h:119 | `a + b` of two spans starts at the earlier front and ends at the later back, and each end is one of the two given |
| Diagnostics.Compiler.constructor | impala/compiler.h:15-18 | a new compiler has no errors and no warnings |
| Diagnostics.Compiler.Error | impala/compiler.h:20-25 | `error` adds exactly one error diagnostic at the location and one to the error count; the warning count is unchanged |
| Diagnostics.Compiler.Warn | impala/compiler.h:26-31 | `warn` adds exactly one warning and one to the warning count; the error count is unchanged |
| Diagnostics.Compiler.Note | impala/compiler.h:32-36 | `note` adds a note and changes neither counter |
| Diagnostics.OperationEffects | impala/compiler.h:20-36 | `error` and `warn` each add one to their own counter and leave the other alone, `note` leaves both alone, and each writes exactly one diagnostic of its kind at the location after what was written before |
| Diagnostics.OperationsKeepConsistent | impala/compiler.h:20-42 | each of the three operations keeps both counters equal to the number of errors and warnings in the output |
| Tokens.KeywordTagsAreTheKeywords | impala/token.h:16-33 | the keyword list holds exactly the tags of the keyword block |
| Tokens.KeywordCount | impala/token.h:35-36 | there are 17 keywords (`Num_Keywords`), pairwise distinct |
| Tokens.KeywordSpellingsDistinct | impala/token.h:16-33 | no two keywords share a spelling, so the keyword table is a function from spelling to tag |
| Tokens.KeywordLookup | impala/lexer.cpp:226-228 | a spelling found in the keyword table gives a keyword tag spelled that way, never a literal tag |
| Tokens.FirstSpelledAs | impala/lexer.cpp:226-228 | the search finds a tag of the list spelled `s`, or reports that no tag of the list is spelled `s` |
| Tokens.FirstSpelledAsFinds | impala/lexer.cpp:226-228 | in a list with distinct spellings, searching for a tag's spelling finds that tag |
| Tokens.KeywordLookupFindsKeyword | impala/lexer.cpp:226-228 | looking up any keyword's spelling finds that keyword |
| Tokens.KeywordLookupMissesNonKeywords | impala/lexer.cpp:226-227 | a spelling that no keyword has is not found |
| Tokens.TagToken | impala/token.h:108-112 | `Token(Location, Tag)` keeps the location and the tag, and its symbol is the tag's spelling |
| Tokens.SignedToken | impala/token.h:113-117 | `Token(Location, s64)` is tagged `L_s` and carries a signed payload |
| Tokens.UnsignedToken | impala/token.h:118-122 | `Token(Location, u64)` is tagged `L_u` and carries an unsigned payload |
| Tokens.FloatToken | impala/token.h:123-127 | `Token(Location, f64)` is tagged `L_f` and carries a floating-point payload |
| Tokens.IdToken | impala/token.h:128-132 | `Token(Location, Symbol)` is tagged `M_id` and carries a symbol |
| Tokens.AccessorsInvertConstructors | impala/token.h:134-140 | `s64()`, `u64()`, `f64()` and `symbol()` give back what the matching constructor stored |
| Tokens.IsLiteralExactly | impala/token.h:141-148 | `is_literal` holds for every token made by the signed, unsigned and floating-point constructors, and for no identifier and no other tag token |
| Tokens.IsaOfConstructors | impala/token.h:150 | `isa(tag)` holds for exactly one tag, the one the token was constructed with (`M_id` for an identifier, `L_s` for a signed literal) |
| Tokens.TagToString | impala/token.h:155-164 | every tag has a non-empty spelling |
| Tokens.KeywordSpelledWithLetters | impala/token.h:16-33 | a keyword is spelled with letters only, so the lexer reads it as a word |
| Tokens.PrecAndNamesAsTested | test/parser.cpp:30-41 | `*` binds tighter than `+`, `+` tighter than `==` and `=`; `+`, `*` and `==` are called `add`, `mul` and `eq`, and `=` has no name |
| Tokens.InfixTagsAreOperators | impala/parser.cpp:210-211 | a tag with a precedence above `Bottom` is an operator above `Arrow`, never end of file, `;` or a closing delimiter |
| Ast.IdOfToken | impala/ast.h:30-33 | `Id(Token)` takes the token's location and symbol, and rebuilding the token from the `Id` gives the token back |
| Ast.EmptyTuple | impala/ast.h:106-108 | `TupleExpr(location)` has no elements |
| Ast.EmptySigma | impala/ast.h:118-120 | `SigmaExpr(location)` has no binders |
| Builders.Track | impala/parser.h:15-27 | a tracker's location runs from the front of where it started to the back of `prev_` |
| Builders.MakeBottom | impala/parser.h:108 | a `⊥` node at `prev_` |
| Builders.MakeEmptyBlock | impala/parser.h:109 | a block at `prev_` with no statements and the unit tuple as its value |
| Builders.MakeError | impala/parser.h:110 | an error node at `prev_` |
| Builders.MakeUnitTuple | impala/parser.h:111 | a tuple at `prev_` with no elements and a type left unknown |
| Builders.MakeUnknown | impala/parser.h:112 | an unknown-type node at `prev_` |
| Builders.MakeTupleElem | impala/parser.h:114-117 | an anonymous element that spans the expression it wraps |
| Builders.MakeTuple | impala/parser.h:118-122 | a pair of anonymous elements, the left and then the right operand, spanning both operands |
| Builders.MakeId | impala/parser.h:123 | `make_id(s)` gives an identifier located at `prev_` whose symbol is `s` |
| Builders.MakeTypedIdPtrn | impala/parser.h:124-127 | a pattern with a mandatory ascription that spans its type |
| Builders.MakeIdPtrn | impala/parser.h:128-131 | a pattern with no ascription, an unknown type, spanning its identifier |
| Builders.MakeCnType | impala/parser.h:132-135 | the continuation type `\/ domain -> ⊥` that spans its domain |
| LexSpec.Error | impala/lexer.cpp:94 | `error` adds exactly one error |
| LexSpec.Get | impala/lexer.cpp:36-43 | `get()` yields a byte, or `EOF` exactly when the input is used up |
| LexSpec.Continuation | impala/lexer.cpp:46-52 | a continuation byte gives a six-bit value; only the read position and the report change |
| LexSpec.Decode | impala/lexer.cpp:62-91 | decoding from a valid lead byte returns the old look-ahead and consumes at least one byte |
| LexSpec.Next | impala/lexer.cpp:34-96 | `next()` never moves backwards, consumes input unless the look-ahead is `EOF`, and makes `EOF` the new look-ahead exactly when the input was used up |
| LexSpec.NextAsWritten | impala/lexer.cpp:34-96 | `next()` as written, including the invalid-lead path that keeps the old look-ahead |
| LexSpec.Consume | impala/lexer.cpp:220-221 | consuming appends the look-ahead to the token text exactly when asked, and consumes input unless the look-ahead is `EOF` |
| LexSpec.Take | impala/lexer.cpp:220 | consuming an ASCII look-ahead always makes progress |
| LexSpec.Accept | impala/lexer.cpp:124 | `accept(c)` succeeds exactly when the look-ahead is `c`, and only then consumes it |
| LexSpec.AcceptIf | impala/lexer.cpp:113-114 | `accept_if(class)` succeeds exactly when the look-ahead is in the class, and only then consumes it |
| LexSpec.AcceptStr | impala/lexer.cpp:300-303 | accepting a string consumes code points but leaves the token text unchanged |
| LexSpec.SkipSpaces | impala/lexer.cpp:113-116 | skipping white space stops at a look-ahead that is not white space |
| LexSpec.SkipUntil | impala/lexer.cpp:100 | skipping stops at `c` or at the end of the input |
| LexSpec.EatComments | impala/lexer.cpp:98-108 | skipping a block comment never moves backwards |
| LexSpec.IdentRest | impala/lexer.cpp:221 | the identifier loop stops at a look-ahead that is neither alphanumeric nor `_` |
| LexSpec.Digits | impala/lexer.cpp:258-265 | `parse_digits` extends the token text with characters of the class only, and stops at one outside it |
| LexSpec.DigitRun | impala/lexer.cpp:300-311 | what `strto*` reads is the longest prefix made of digits of the base |
| LexSpec.StrToL | impala/lexer.cpp:300-303 | `strtol` gives a signed 64-bit value |
| LexSpec.StrToUL | impala/lexer.cpp:308-311 | `strtoul` gives an unsigned 64-bit value |
| LexSpec.WrapSigned | impala/lexer.cpp:300-302 | a cast to `s8`, `s16` or `s32` gives a value in that type's range |
| LexSpec.WrapUnsigned | impala/lexer.cpp:308-310 | a cast to `u8`, `u16` or `u32` gives a value in that type's range |
| LexSpec.MakeLiteral | impala/lexer.cpp:299-331 | a literal carries the kind it was asked for, and is real exactly for the `r` kinds |
| LexSpec.SignAndBase | impala/lexer.cpp:267-277 | the base is 2, 8, 10 or 16; without a sign and a leading `0` nothing is consumed and the base is 10 |
| LexSpec.ScanNumber | impala/lexer.cpp:279-295 | a fraction or exponent is read only in base 10; a literal's first character is always consumed |
| LexSpec.FractionAndExponent | impala/lexer.cpp:281-295 | only the fraction and exponent flags change |
| LexSpec.FractionPart | impala/lexer.cpp:284-287 | a fraction is read exactly when `.` follows |
| LexSpec.ExponentPart | impala/lexer.cpp:290-294 | an exponent is read exactly when `e` or `E` follows |
| LexSpec.FirstSuffix | impala/lexer.cpp:300-303 | a suffix found comes from the table; `LexProperties.FirstSuffixFinds` and `LexProperties.FirstSuffixMisses` state which entry wins |
| LexSpec.SignedSuffix | impala/lexer.cpp:299-304 | an `s` suffix gives a signed kind; `LexProperties.SignedSuffixWidth` gives the width the text names |
| LexSpec.UnsignedSuffix | impala/lexer.cpp:307-312 | a `u` suffix gives an unsigned kind; `LexProperties.UnsignedSuffixWidth` gives the width the text names |
| LexSpec.RealSuffix | impala/lexer.cpp:323-327 | an `r` suffix gives a real kind; `LexProperties.RealSuffixWidth` gives the width the text names |
| LexSpec.IntSuffix | impala/lexer.cpp:298-321 | an integer suffix is never real or untyped, and an unsigned one only appears without a sign; the converse, that a spelled suffix is taken, is `LexProperties.SignedSuffixWidth` and `LexProperties.UnsignedSuffixWidth` |
| LexSpec.UnsignedKinds | impala/lexer.cpp:306-320 | gives `u8`…`u64`, arity or index; `LexProperties.UnsignedSuffixWidth`, `LexProperties.AritySuffix` and `LexProperties.IndexSuffix` state when each one results |
| LexSpec.Suffix | impala/lexer.cpp:297-335 | signed suffixes come only without fraction and exponent, unsigned ones also without sign, real ones only in base 10, untyped only for plain base-10 integers; no literal means a non-10 base, a fraction or an exponent; the lemmas `LexProperties.*SuffixWidth`, `AritySuffix`, `IndexSuffix`, `UntypedWithoutSuffix` and `InvalidWithoutSuffix` give the converse, from the text to the kind |
| LexSpec.RealOrUntyped | impala/lexer.cpp:323-334 | a real literal needs base 10, an untyped one a plain base-10 integer; anything else is the invalid-literal error; `LexProperties.UntypedWithoutSuffix` states that a plain base-10 literal without a suffix is untyped |
| LexSpec.ParseLiteral | impala/lexer.cpp:255-335 | `parse_literal` consumes the digit, `.` or sign it starts on; `LexProperties.SignedDecimalLiteral`, `UnsignedDecimalLiteral` and `UntypedDecimalLiteral` tie the input text to the literal |
| LexSpec.LiteralToken | impala/lexer.cpp:214-217 | a literal token is `L_s`, `L_u` or `L_f` with a fitting payload, or an error token |
| LexSpec.Either | impala/lexer.cpp:146-147 | a one-character choice yields one of its two tokens |
| LexSpec.Delimiter | impala/lexer.cpp:124-129 | the delimiter rule applies exactly to `( ) { } [ ]` and consumes them |
| LexSpec.Punctuation | impala/lexer.cpp:131-144 | the punctuation rule applies exactly to `. , ; :` |
| LexSpec.Comparison | impala/lexer.cpp:145-164 | the comparison rule applies exactly to `= < >` |
| LexSpec.Arithmetic | impala/lexer.cpp:165-193 | the arithmetic rule applies exactly to `+ - * / %` |
| LexSpec.Bitwise | impala/lexer.cpp:194-212 | the bitwise rule applies exactly to `& \| ^ !` |
| LexSpec.WordToken | impala/lexer.cpp:223-228 | a word's token keeps its location, fits its payload and is never end of file |
| LexSpec.Word | impala/lexer.cpp:214-236 | the word rule applies exactly to a digit, `.`, a letter, `_` or a sign |
| LexSpec.LiteralStep | impala/lexer.cpp:214-217 | a literal always yields a token and consumes input |
| LexSpec.Symbols | impala/lexer.cpp:124-212 | the symbol rules apply exactly to the 22 characters that start a symbol |
| LexSpec.LexStep | impala/lexer.cpp:111-252 | one turn of `lex` always decides; a skip and any token but end of file consume input; end of file leaves `EOF` as look-ahead |
| LexSpec.Lex | impala/lexer.cpp:110-253 | `lex()` terminates; any token but `M_eof` consumes input; `M_eof` comes only at the end |
| LexSpec.Start | impala/lexer.cpp:17-28 | the constructor yields a valid state over the given input |
| LexDecode.Encode | impala/lexer.cpp:62-91 | the UTF-8 encoding of a scalar value is 1 to 4 bytes, according to its range, with continuation bytes `10xxxxxx` |
| LexDecode.AsciiDecodesToItself | impala/lexer.cpp:62-73 | an ASCII byte becomes the look-ahead; a newline starts a new line, anything else a new column; no error |
| LexDecode.GoodContinuation | impala/lexer.cpp:46-52 | a well-formed continuation byte gives its low six bits and reports nothing |
| LexDecode.DecodeTwo | impala/lexer.cpp:75-79 | a two-byte sequence decodes to five plus six payload bits |
| LexDecode.DecodeThree | impala/lexer.cpp:80-84 | a three-byte sequence decodes to four plus six plus six bits |
| LexDecode.DecodeFour | impala/lexer.cpp:85-90 | a four-byte sequence decodes to three plus three times six bits |
| LexDecode.EncodedTwo | impala/lexer.cpp:75-79 | the two-byte encoding of a code point decodes to that code point |
| LexDecode.EncodedThree | impala/lexer.cpp:80-84 | the three-byte encoding decodes to its code point |
| LexDecode.EncodedFour | impala/lexer.cpp:85-90 | the four-byte encoding decodes to its code point |
| LexDecode.DecodesEncoding | impala/lexer.cpp:34-96 | round trip: `next()` on the UTF-8 encoding of any scalar value yields that value, consumes exactly its bytes and reports nothing |
| LexDecode.OverlongFormIsAccepted | impala/lexer.cpp:75-79 | the overlong form `C1 81` decodes to `A` without error |
| LexDecode.BadContinuationIsAnError | impala/lexer.cpp:46-52 | a two-byte lead followed by a non-continuation byte costs exactly one error |
| LexDecode.InvalidLeadRepeatsLookahead | impala/lexer.cpp:94-95 | as written, an invalid lead byte is reported and consumed and `next()` returns 0, but the previous look-ahead stays |
| LexDecode.InvalidLeadAfterA | impala/lexer.cpp:94-95 | after `a` and the byte `0x80`, the code as written sees `a` again; the corrected decoder sees 0 |
| LexDecode.InvalidLeadIsConsumed | impala/lexer.cpp:94-95 | corrected: an invalid lead byte is reported, consumed and decoded to 0 |
| LexerImpl.Lexer.constructor | impala/lexer.cpp:17-28 | the lexer starts in the state `Start` gives |
| LexerImpl.Lexer.Error | impala/lexer.cpp:94 | the state becomes `LexSpec.Error` of the old one |
| LexerImpl.Lexer.Get | impala/lexer.cpp:36 | returns and moves to what `LexSpec.Get` gives |
| LexerImpl.Lexer.Continuation | impala/lexer.cpp:46-52 | as `LexSpec.Continuation` |
| LexerImpl.Lexer.UpdatePeek | impala/lexer.cpp:54-60 | shifts the positions and sets the look-ahead |
| LexerImpl.Lexer.Next | impala/lexer.cpp:34-96 | as `LexSpec.Next` |
| LexerImpl.Lexer.Consume | impala/lexer.cpp:220-221 | as `LexSpec.Consume` |
| LexerImpl.Lexer.Accept | impala/lexer.cpp:124 | as `LexSpec.Accept` |
| LexerImpl.Lexer.AcceptIf | impala/lexer.cpp:113-114 | as `LexSpec.AcceptIf` |
| LexerImpl.Lexer.AcceptStr | impala/lexer.cpp:300-303 | as `LexSpec.AcceptStr`, character by character in a loop |
| LexerImpl.Lexer.SkipSpaces | impala/lexer.cpp:113-116 | the white-space loop, as `LexSpec.SkipSpaces` |
| LexerImpl.Lexer.SkipUntil | impala/lexer.cpp:184 | the skip loop, as `LexSpec.SkipUntil` |
| LexerImpl.Lexer.EatComments | impala/lexer.cpp:98-108 | the comment loop, as `LexSpec.EatComments` |
| LexerImpl.Lexer.ParseDigits | impala/lexer.cpp:258-265 | the digit loop, as `LexSpec.Digits` for the base's class |
| LexerImpl.Lexer.SignAndBase | impala/lexer.cpp:267-277 | as `LexSpec.SignAndBase` |
| LexerImpl.Lexer.ScanNumber | impala/lexer.cpp:279-295 | as `LexSpec.ScanNumber` |
| LexerImpl.Lexer.FractionAndExponent | impala/lexer.cpp:281-295 | as `LexSpec.FractionAndExponent` |
| LexerImpl.Lexer.FractionPart | impala/lexer.cpp:284-287 | as `LexSpec.FractionPart` |
| LexerImpl.Lexer.ExponentPart | impala/lexer.cpp:290-294 | as `LexSpec.ExponentPart` |
| LexerImpl.Lexer.FirstSuffix | impala/lexer.cpp:300-303 | the chain of suffix tests, as `LexSpec.FirstSuffix` |
| LexerImpl.Lexer.SignedSuffix | impala/lexer.cpp:299-304 | as `LexSpec.SignedSuffix` |
| LexerImpl.Lexer.UnsignedSuffix | impala/lexer.cpp:307-312 | as `LexSpec.UnsignedSuffix` |
| LexerImpl.Lexer.RealSuffix | impala/lexer.cpp:323-327 | as `LexSpec.RealSuffix` |
| LexerImpl.Lexer.IntSuffix | impala/lexer.cpp:298-321 | as `LexSpec.IntSuffix` |
| LexerImpl.Lexer.UnsignedKinds | impala/lexer.cpp:306-320 | as `LexSpec.UnsignedKinds` |
| LexerImpl.Lexer.Suffix | impala/lexer.cpp:297-335 | as `LexSpec.Suffix` |
| LexerImpl.Lexer.ParseLiteral | impala/lexer.cpp:255-335 | as `LexSpec.ParseLiteral` |
| LexerImpl.Lexer.Either | impala/lexer.cpp:146-147 | as `LexSpec.Either` |
| LexerImpl.Lexer.Delimiter | impala/lexer.cpp:124-129 | as `LexSpec.Delimiter` |
| LexerImpl.Lexer.Punctuation | impala/lexer.cpp:131-144 | as `LexSpec.Punctuation` |
| LexerImpl.Lexer.Comparison | impala/lexer.cpp:145-164 | as `LexSpec.Comparison` |
| LexerImpl.Lexer.Arithmetic | impala/lexer.cpp:165-193 | as `LexSpec.Arithmetic` |
| LexerImpl.Lexer.Bitwise | impala/lexer.cpp:194-212 | as `LexSpec.Bitwise` |
| LexerImpl.Lexer.Identifier | impala/lexer.cpp:219-228 | reads the whole word and returns the token `WordToken` gives for it |
| LexerImpl.Lexer.IdentRest | impala/lexer.cpp:221 | the identifier loop, as `LexSpec.IdentRest` |
| LexerImpl.Lexer.Word | impala/lexer.cpp:214-236 | as `LexSpec.Word` |
| LexerImpl.Lexer.Symbols | impala/lexer.cpp:124-212 | as `LexSpec.Symbols` |
| LexerImpl.Lexer.Step | impala/lexer.cpp:111-252 | one turn, as `LexSpec.LexStep` |
| LexerImpl.Lexer.Lex | impala/lexer.cpp:110-253 | the loop of `lex()`, as `LexSpec.Lex` |
| LexProperties.ConsumeAscii | impala/lexer.cpp:62-73 | consuming before an ASCII byte makes that byte the look-ahead, with no error |
| LexProperties.ConsumeExtendsLocation | impala/lexer.cpp:34-72 | `location()` spans the current token: consuming keeps its start and moves its end to where the consumed code point was read; at the end of the input the location stays |
| LexProperties.StartTokenLooksAhead | impala/lexer.cpp:118-120 | starting a token moves nothing in the input |
| LexProperties.LexOfEmit | impala/lexer.cpp:111-122 | a turn that yields a token ends `lex()` with that token |
| LexProperties.LexOfSkip | impala/lexer.cpp:113-116 | a turn that skips is followed by another turn |
| LexProperties.StepOfSymbol | impala/lexer.cpp:124-212 | a look-ahead that starts a symbol is handled by the symbol rules |
| LexProperties.EofIsSticky | impala/lexer.cpp:122 | at the end of the input `lex()` gives `M_eof` and stays there |
| LexProperties.EofForever | impala/lexer.cpp:122 | from the end of the input on, every one of `n` calls gives `M_eof` |
| LexProperties.EmptyInputGivesEof | test/lexer.cpp:35-42 | an empty input lexes to `M_eof` a hundred times, with no error |
| LexProperties.SpaceSkipped | impala/lexer.cpp:113-116 | a single space is skipped |
| LexProperties.SpaceThenPunct | impala/lexer.cpp:113-144 | a space and then a delimiter or punctuation character yields that character's token |
| LexProperties.PunctLineLexes | test/lexer.cpp:12-27 | `{ } ( ) [ ] : , .` lexes to its nine tokens and then `M_eof` |
| LexProperties.SymbolsComparison | impala/lexer.cpp:145-164 | comparison characters are handled by the comparison rule |
| LexProperties.SymbolsArithmetic | impala/lexer.cpp:165-193 | arithmetic characters are handled by the arithmetic rule |
| LexProperties.LessThanLongestMatch | impala/lexer.cpp:149-156 | `<` followed by ASCII gives the longest of `<<=`, `<<`, `<=`, `<` |
| LexProperties.MinusLongestMatch | impala/lexer.cpp:170-175 | `-` followed by ASCII gives `->`, `--`, `-=` or `-` |
| LexProperties.SkipUntilFirst | impala/lexer.cpp:184 | skipping stops at the first `c`, with `c` as the look-ahead |
| LexProperties.SkipUntilEnd | impala/lexer.cpp:184 | with no `c` left, skipping runs to the end of the input |
| LexProperties.LineComment | impala/lexer.cpp:183-186 | a line comment yields no token and runs to the newline |
| LexProperties.EatCommentsFirstClose | impala/lexer.cpp:98-108 | a block comment ends at the first `*/`; comments do not nest |
| LexProperties.BlockComment | impala/lexer.cpp:182 | a block comment yields no token, and lexing goes on after it |
| LexProperties.UnterminatedBlockComment | impala/lexer.cpp:101-103 | a block comment with no `*` after its opening costs one error, and `lex()` gives `M_eof` |
| LexProperties.IdentRestTakesOne | impala/lexer.cpp:221 | one identifier character is appended, and the next byte becomes the look-ahead |
| LexProperties.IdentRestRun | impala/lexer.cpp:221 | the rest of an identifier is the longest run of letters, digits and `_` |
| LexProperties.WordStep | impala/lexer.cpp:219-229 | a letter or `_` starts a word, whose token comes from the whole run |
| LexProperties.StepOfWord | impala/lexer.cpp:214-236 | a letter, `_` or a digit in front is handled by the word rule |
| LexProperties.WordIsLongestRun | impala/lexer.cpp:219-221 | an identifier or keyword is the longest run of word characters, read with no error |
| LexProperties.WordLexed | impala/lexer.cpp:219-229 | the turn on a letter or `_` emits the word that `IdentRest` read |
| LexProperties.KeywordIsRetagged | impala/lexer.cpp:223-228 | a keyword's spelling is lexed as that keyword, including `true` and `false` |
| LexProperties.OtherWordIsIdentifier | impala/lexer.cpp:226-227 | any other word is an identifier carrying its text |
| LexProperties.StartAscii | impala/lexer.cpp:24-27 | an input starting with an ASCII byte starts with it as the look-ahead |
| LexProperties.WholeInputWord | impala/lexer.cpp:219-228 | an input that is one word lexes to that word's token |
| LexProperties.IfIsKeyword | impala/lexer.cpp:226-228 | the input `if` is the keyword `if` |
| LexProperties.IffyIsIdentifier | impala/lexer.cpp:219-227 | `iffy` is one identifier, not `if` and a rest |
| LexProperties.PrefixSelectsBase | impala/lexer.cpp:273-277 | `0b`, `0x` and `0o` select the base, and are not part of the text |
| LexProperties.DigitRunOfDigits | impala/lexer.cpp:331 | `strto*` reads the whole of a text made only of digits |
| LexProperties.UntypedValue | impala/lexer.cpp:330-331 | an unsuffixed literal has its decimal value, as long as that fits in 64 bits |
| LexProperties.SignedWidthWraps | impala/lexer.cpp:300 | `200s8` wraps around to -56 |
| LexProperties.HexUnsigned | impala/lexer.cpp:308 | `0xffu8` is 255, read in base 16 |
| LexProperties.SpellsConsume | impala/lexer.cpp:300 | consuming the first character of a spelled text leaves the rest spelled, with no error |
| LexProperties.AcceptStrSpelled | impala/lexer.cpp:300 | `accept(str, false)` succeeds on a text that spells `str` |
| LexProperties.FirstSuffixFinds | impala/lexer.cpp:300-303 | the chain of suffix tests takes the entry the text spells, when the entries before it start with another character |
| LexProperties.FirstSuffixMisses | impala/lexer.cpp:300-303 | when the look-ahead starts no entry, no suffix is taken and nothing is consumed |
| LexProperties.SignedSuffixWidth | impala/lexer.cpp:298-304 | without fraction or exponent, `s8`, `s16`, `s32`, `s64` give `Lit_s8` … `Lit_s64`, read from the text before the suffix |
| LexProperties.UnsignedSuffixWidth | impala/lexer.cpp:306-312 | without sign, fraction or exponent, `u8` … `u64` give `Lit_u8` … `Lit_u64` |
| LexProperties.RealSuffixWidth | impala/lexer.cpp:323-327 | in base 10, `r16`, `r32`, `r64` give `Lit_r16` … `Lit_r64`, with or without fraction and exponent |
| LexProperties.RIsNoIntSuffix | impala/lexer.cpp:298-321 | an `r` in front takes none of the integer suffixes and consumes nothing |
| LexProperties.AritySuffix | impala/lexer.cpp:314-315 | without sign, fraction or exponent, U+2090 gives `Lit_arity` and is consumed |
| LexProperties.IndexSuffix | impala/lexer.cpp:317-319 | without sign, fraction or exponent, U+2081 … U+208F give `Lit_index` and stay the look-ahead |
| LexProperties.UntypedWithoutSuffix | impala/lexer.cpp:330-332 | a base-10 literal without fraction, exponent or suffix is `Lit_untyped`, and nothing more is consumed |
| LexProperties.InvalidWithoutSuffix | impala/lexer.cpp:334 | any other literal without a suffix is the `invalid literal` error |
| LexProperties.DigitsRun | impala/lexer.cpp:262 | `parse_digits` reads a run of decimal digits whole and stops in front of the first other byte |
| LexProperties.DigitsTakesOne | impala/lexer.cpp:262 | one decimal digit is appended and the next byte becomes the look-ahead |
| LexProperties.PlainDecimalStart | impala/lexer.cpp:267-276 | a digit 1 … 9 in front means no sign and base 10, with nothing consumed |
| LexProperties.PlainDecimalScan | impala/lexer.cpp:267-279 | such a literal reads its decimal digits next |
| LexProperties.NoFractionNoExponent | impala/lexer.cpp:281-293 | without `.`, `e` or `E` in front there is no fraction and no exponent |
| LexProperties.DecimalScan | impala/lexer.cpp:255-293 | a decimal run that is not followed by `.`, `e` or `E` is a plain base-10 number whose suffix is read after the digits |
| LexProperties.DecimalLiteralReadsDigits | impala/lexer.cpp:255-293 | the same, with the text and the position the digits leave |
| LexProperties.SpellsOfText | impala/lexer.cpp:300 | a text in the input after the look-ahead is spelled |
| LexProperties.SignedDecimalLiteral | impala/lexer.cpp:255-304 | decimal digits followed by `s8` … `s64` are the signed literal of that width, read from the digits |
| LexProperties.UnsignedDecimalLiteral | impala/lexer.cpp:255-312 | decimal digits followed by `u8` … `u64` are the unsigned literal of that width |
| LexProperties.UntypedDecimalLiteral | impala/lexer.cpp:255-332 | decimal digits followed by no suffix, `.`, `e` or `E` are the untyped literal of the digits |
| ParserSpec.Front | impala/parser.h:138 | `ahead()` is a well-formed token |
| ParserSpec.Ahead | impala/parser.h:138 | `ahead(i)` looks only into the three-token buffer; `ahead(0)` is the front |
| ParserSpec.Lex | impala/parser.cpp:49-56 | `lex()` returns the front token and sets `prev_` to its location; it moves on one token unless at `M_eof`, which it never passes |
| ParserSpec.Eat | impala/parser.h:139 | `eat(tag)` on a matching front token is `lex()`, and consumes it |
| ParserSpec.ErrorAt | impala/compiler.h:20-25 | an error adds one diagnostic at the location and moves no token |
| ParserSpec.Complain | impala/parser.cpp:76-78 | `error` reports one more diagnostic and moves no token |
| ParserSpec.Accept | impala/parser.cpp:58-63 | `accept(tag)` succeeds exactly on a matching front token; then it is `lex()`, otherwise nothing changes |
| ParserSpec.Expect | impala/parser.cpp:65-74 | `expect(tag)` is `accept`, except that a mismatch reports one error at the front token |
| ParserSpec.ParseId | impala/parser.cpp:154 | `parse_id` consumes the identifier at the front and makes an `Id` of it |
| ParserSpec.TryId | impala/parser.cpp:93-97 | an identifier, or else one error, nothing consumed, and `<error>` at `prev_` |
| ParserSpec.ParseTypeAscription | impala/parser.cpp:156-163 | an optional ascription that is absent is unknown and consumes nothing; a present `:` is consumed |
| ParserSpec.TryExpr | impala/parser.cpp:84-91 | a token that cannot start an expression gives one error, an error node at `prev_`, and consumes nothing |
| ParserSpec.TryPtrn | impala/parser.cpp:99-108 | an identifier or `(` is consumed as a pattern; anything else gives one error and an error pattern |
| ParserSpec.TryPtrnT | impala/parser.cpp:110-118 | unless an `id :` or a `(` is in front, the pattern is a type bound to the anonymous name |
| ParserSpec.TypePtrn | impala/parser.cpp:115-117 | the fallback is an identifier pattern named `_` with a mandatory ascription |
| ParserSpec.TryTuplePtrn | impala/parser.cpp:120-125 | `(` gives a tuple pattern; anything else gives one error and an empty tuple pattern at `prev_` |
| ParserSpec.TryBlockExpr | impala/parser.cpp:127-131 | `{` gives a block; anything else gives one error and an empty block at `prev_` |
| ParserSpec.ParsePtrn | impala/parser.cpp:169-176 | `parse_ptrn` on an identifier or `(` consumes a token |
| ParserSpec.ParseIdPtrn | impala/parser.cpp:178-183 | an identifier pattern on the front identifier, with the ascription mandatory exactly when asked |
| ParserSpec.ParseTuplePtrn | impala/parser.cpp:185-190 | a tuple pattern, with the ascription mandatory exactly when asked; `ParserProperties.TuplePtrnParts` gives the sub-patterns and the ascription |
| ParserSpec.NoItems | impala/parser.h:147 | a list starts empty |
| ParserSpec.Push | impala/parser.h:150 | appending adds one element |
| ParserSpec.ParseItem | impala/parser.h:150 | an element of the kind the list is called with |
| ParserSpec.ParseTupleElem | impala/parser.cpp:370-381 | `id = expr` names the element by `id`; any other element is anonymous |
| ParserSpec.ParseList | impala/parser.h:146-154 | an empty list when the closing delimiter is in front; otherwise at least one element, ending where no separator or a closing delimiter follows |
| ParserSpec.ListLoop | impala/parser.h:149-151 | each round adds an element, and the loop ends where no separator or a closing delimiter follows |
| ParserSpec.ListStep | impala/parser.h:150-151 | one element, then the separator if present |
| ParserSpec.ParseDelimitedList | impala/parser.h:156-161 | eats the opening delimiter, reads the list, expects the closing one |
| ParserSpec.ParseExpr | impala/parser.cpp:196-217 | `parse_expr(p)` stops in front of a token that neither is postfix nor binds tighter than `p` |
| ParserSpec.ExprLoop | impala/parser.cpp:200-214 | the loop stops only in front of a token that does not extend the expression, and does nothing if one is already in front |
| ParserSpec.PostfixStep | impala/parser.cpp:202-206 | each postfix form consumes its token |
| ParserSpec.ParsePrefixExpr | impala/parser.cpp:219-225 | a prefix node whose operator is the front token |
| ParserSpec.ParseInfixExpr | impala/parser.cpp:227-236 | the operator token is consumed |
| ParserSpec.ParsePostfixExpr | impala/parser.cpp:238-241 | a postfix node over `lhs` with the front operator |
| ParserSpec.ParseAppExpr | impala/parser.cpp:243-251 | an application of the callee, in CPS form exactly for `(` |
| ParserSpec.ParseFieldExpr | impala/parser.cpp:253-257 | a field access on `lhs` |
| ParserSpec.ParsePrimary | impala/parser.cpp:263-286 | dispatches on the front token and never moves backwards |
| ParserSpec.ParseIdExpr | impala/parser.cpp:335-337 | an identifier expression at the identifier's location, one token consumed |
| ParserSpec.ParseBlockExpr | impala/parser.cpp:288-333 | `parse_block_expr` yields a block and consumes the `{` |
| ParserSpec.BlockLoop | impala/parser.cpp:293-332 | the block loop yields a block |
| ParserSpec.BlockExprStmnt | impala/parser.cpp:306-324 | reading an expression inside a block still yields a block |
| ParserSpec.ParseStmntExpr | impala/parser.cpp:309-316 | statement-like forms are parsed by their own parsers, and consume input |
| ParserSpec.BlockEnd | impala/parser.cpp:326-330 | the block keeps its statements; the value is the final expression, or the unit tuple; `}` is consumed, or else one error |
| ParserSpec.ParseUnimplemented | impala/parser.cpp:359-365 | `for`, `match`, `while`: the keyword is consumed with one error at it |
| ParserSpec.ParseIfExpr | impala/parser.cpp:339-357 | an if expression, `if` consumed |
| ParserSpec.ParseTupleExpr | impala/parser.cpp:367-385 | a tuple expression |
| ParserSpec.ParseSigmaExpr | impala/parser.cpp:387-391 | a sigma expression |
| ParserSpec.ParseDependent | impala/parser.cpp:393-415 | the common part of `pk` and `ar` consumes the keyword |
| ParserSpec.ParsePackExpr | impala/parser.cpp:393-403 | a pack expression |
| ParserSpec.ParseVariadicExpr | impala/parser.cpp:405-415 | a variadic expression |
| ParserSpec.ParseLambdaHead | impala/parser.cpp:425-439 | a name is kept exactly for items; `ParserProperties.LambdaHeadParts` and `ParserProperties.NamedExpressionIsReported` give the name, the outer domain and the error |
| ParserSpec.Lambda | impala/parser.cpp:444-451 | the lambda is named as given, and wrapped in an outer lambda over the `[...]` domain when there is one |
| ParserSpec.ParseCnExpr | impala/parser.cpp:425-452 | a lambda that has a name exactly when it is an item; `ParserProperties.CnExprParts` gives the domain, codomain ⊥ and the body |
| ParserSpec.ReturnPtrn | impala/parser.cpp:471-473 | the return pattern is a continuation type over the codomain, bound to `return` |
| ParserSpec.ParseFnExpr | impala/parser.cpp:454-488 | a lambda that has a name exactly when it is an item; `ParserProperties.FnExprParts` gives the domain with its `return` continuation, codomain ⊥ and the body |
| ParserSpec.ParseLambdaExpr | impala/parser.cpp:490-498 | an unnamed lambda; `ParserProperties.LambdaExprParts` gives the domain, the codomain and the body |
| ParserSpec.ParseCnTypeExpr | impala/parser.cpp:504-510 | a for-all type with codomain `⊥` |
| ParserSpec.ParseFnTypeExpr | impala/parser.cpp:512-526 | a for-all type with codomain `⊥`; `ParserProperties.FnTypeExprParts` gives the sigma domain |
| ParserSpec.ParseForallExpr | impala/parser.cpp:528-536 | a for-all type; `ParserProperties.ForallExprParts` gives the domain, the expected `->` and the codomain |
| ParserSpec.ParseLetStmnt | impala/parser.cpp:542-550 | a let statement |
| ParserSpec.ParseItemStmnt | impala/parser.cpp:552-571 | an item whose lambda is named by the item's identifier |
| ParserSpec.ParsePrg | impala/parser.cpp:137-152 | `parse_prg` runs to `M_eof` |
| ParserSpec.PrgLoop | impala/parser.cpp:140-149 | the loop runs to `M_eof` and never drops a statement |
| ParserSpec.Init | impala/parser.cpp:38-43 | the buffer holds the first three tokens and `prev_` is the start location |
| ParserImpl.Parser.constructor | impala/parser.cpp:38-43 | the parser starts in the state `Init` gives |
| ParserImpl.Parser.Peek | impala/parser.h:138 | the array buffer holds the three tokens the spec looks at |
| ParserImpl.Parser.Lex | impala/parser.cpp:49-56 | shifts the buffer, as `ParserSpec.Lex` |
| ParserImpl.Parser.Eat | impala/parser.h:139 | as `ParserSpec.Eat` |
| ParserImpl.Parser.Error | impala/parser.h:142 | as `ParserSpec.Complain` |
| ParserImpl.Parser.Accept | impala/parser.cpp:58-63 | as `ParserSpec.Accept` |
| ParserImpl.Parser.Expect | impala/parser.cpp:65-74 | as `ParserSpec.Expect` |
| ParserImpl.Parser.ParseId | impala/parser.cpp:154 | as `ParserSpec.ParseId` |
| ParserImpl.Parser.TryId | impala/parser.cpp:93-97 | as `ParserSpec.TryId` |
| ParserImpl.Parser.ParseTypeAscription | impala/parser.cpp:156-163 | as `ParserSpec.ParseTypeAscription` |
| ParserImpl.Parser.TryExpr | impala/parser.cpp:84-91 | as `ParserSpec.TryExpr` |
| ParserImpl.Parser.TryPtrn | impala/parser.cpp:99-108 | as `ParserSpec.TryPtrn` |
| ParserImpl.Parser.TryPtrnT | impala/parser.cpp:110-118 | as `ParserSpec.TryPtrnT` |
| ParserImpl.Parser.TypePtrn | impala/parser.cpp:115-117 | as `ParserSpec.TypePtrn` |
| ParserImpl.Parser.TryTuplePtrn | impala/parser.cpp:120-125 | as `ParserSpec.TryTuplePtrn` |
| ParserImpl.Parser.TryBlockExpr | impala/parser.cpp:127-131 | as `ParserSpec.TryBlockExpr` |
| ParserImpl.Parser.ParsePtrn | impala/parser.cpp:169-176 | as `ParserSpec.ParsePtrn` |
| ParserImpl.Parser.ParseIdPtrn | impala/parser.cpp:178-183 | as `ParserSpec.ParseIdPtrn` |
| ParserImpl.Parser.ParseTuplePtrn | impala/parser.cpp:185-190 | as `ParserSpec.ParseTuplePtrn` |
| ParserImpl.Parser.ParseItem | impala/parser.h:150 | as `ParserSpec.ParseItem` |
| ParserImpl.Parser.ParseTupleElem | impala/parser.cpp:370-381 | as `ParserSpec.ParseTupleElem` |
| ParserImpl.Parser.ParseList | impala/parser.h:146-154 | the `do … while` loop, as `ParserSpec.ParseList` |
| ParserImpl.Parser.ListStep | impala/parser.h:150-151 | as `ParserSpec.ListStep` |
| ParserImpl.Parser.ParseDelimitedList | impala/parser.h:156-161 | as `ParserSpec.ParseDelimitedList` |
| ParserImpl.Parser.ParseExpr | impala/parser.cpp:196-217 | the precedence-climbing loop, as `ParserSpec.ParseExpr` |
| ParserImpl.Parser.PostfixStep | impala/parser.cpp:202-206 | as `ParserSpec.PostfixStep` |
| ParserImpl.Parser.ParsePrefixExpr | impala/parser.cpp:219-225 | as `ParserSpec.ParsePrefixExpr` |
| ParserImpl.Parser.ParseInfixExpr | impala/parser.cpp:227-236 | as `ParserSpec.ParseInfixExpr` |
| ParserImpl.Parser.ParsePostfixExpr | impala/parser.cpp:238-241 | as `ParserSpec.ParsePostfixExpr` |
| ParserImpl.Parser.ParseCpsAppExpr | impala/parser.cpp:243-246 | as `ParserSpec.ParseAppExpr` on `(` |
| ParserImpl.Parser.ParseDsAppExpr | impala/parser.cpp:248-251 | as `ParserSpec.ParseAppExpr` on `[` |
| ParserImpl.Parser.ParseFieldExpr | impala/parser.cpp:253-257 | as `ParserSpec.ParseFieldExpr` |
| ParserImpl.Parser.ParsePrimary | impala/parser.cpp:263-286 | as `ParserSpec.ParsePrimary` |
| ParserImpl.Parser.ParseIdExpr | impala/parser.cpp:335-337 | as `ParserSpec.ParseIdExpr` |
| ParserImpl.Parser.ParseStmntExpr | impala/parser.cpp:309-316 | as `ParserSpec.ParseStmntExpr` |
| ParserImpl.Parser.ParseBlockExpr | impala/parser.cpp:288-333 | the statement loop, as `ParserSpec.ParseBlockExpr` |
| ParserImpl.Parser.ParseUnimplemented | impala/parser.cpp:359-365 | as `ParserSpec.ParseUnimplemented` |
| ParserImpl.Parser.ParseIfExpr | impala/parser.cpp:339-357 | as `ParserSpec.ParseIfExpr` |
| ParserImpl.Parser.ParseTupleExpr | impala/parser.cpp:367-385 | as `ParserSpec.ParseTupleExpr` |
| ParserImpl.Parser.ParseSigmaExpr | impala/parser.cpp:387-391 | as `ParserSpec.ParseSigmaExpr` |
| ParserImpl.Parser.ParseDependent | impala/parser.cpp:393-415 | as `ParserSpec.ParseDependent` |
| ParserImpl.Parser.ParsePackExpr | impala/parser.cpp:393-403 | as `ParserSpec.ParsePackExpr` |
| ParserImpl.Parser.ParseVariadicExpr | impala/parser.cpp:405-415 | as `ParserSpec.ParseVariadicExpr` |
| ParserImpl.Parser.ParseLambdaHead | impala/parser.cpp:425-439 | as `ParserSpec.ParseLambdaHead` |
| ParserImpl.Parser.ParseCnExpr | impala/parser.cpp:425-452 | as `ParserSpec.ParseCnExpr` |
| ParserImpl.Parser.ParseFnExpr | impala/parser.cpp:454-488 | as `ParserSpec.ParseFnExpr` |
| ParserImpl.Parser.ParseLambdaExpr | impala/parser.cpp:490-498 | as `ParserSpec.ParseLambdaExpr` |
| ParserImpl.Parser.ParseCnTypeExpr | impala/parser.cpp:504-510 | as `ParserSpec.ParseCnTypeExpr` |
| ParserImpl.Parser.ParseFnTypeExpr | impala/parser.cpp:512-526 | as `ParserSpec.ParseFnTypeExpr` |
| ParserImpl.Parser.ParseForallExpr | impala/parser.cpp:528-536 | as `ParserSpec.ParseForallExpr` |
| ParserImpl.Parser.ParseLetStmnt | impala/parser.cpp:542-550 | as `ParserSpec.ParseLetStmnt` |
| ParserImpl.Parser.ParseItemStmnt | impala/parser.cpp:552-571 | as `ParserSpec.ParseItemStmnt` |
| ParserImpl.Parser.ParsePrg | impala/parser.cpp:137-152 | the program loop, as `ParserSpec.ParsePrg` |
| ParserImpl.ParseExpression | impala/parser.cpp:575-578 | a fresh parser over the tokens, asked for one expression, gives `ParseExpr` at `Bottom` and its diagnostics |
| ParserImpl.Parse | impala/parser.cpp:585-588 | a fresh parser asked for a program gives `ParsePrg` and its diagnostics |
| ParserProperties.CombinedShape | impala/parser.cpp:230-235 | a named operator becomes a call `name(lhs, rhs)` and an unnamed one an infix node; both have the shape `op(lhs, rhs)` |
| ParserProperties.InfixShape | impala/parser.cpp:227-236 | `parse_infix_expr` builds `op(lhs, rhs)` over what `parse_expr` at the operator's precedence returns |
| ParserProperties.CallOpsAreNamed | impala/parser.cpp:230 | an operator has a call name exactly when it is one of the arithmetic, bit, shift and comparison operators `parse_infix_expr` turns into calls |
| ParserProperties.ExprStartTags | impala/parser.cpp:5-33 | `EXPR` holds the literal and identifier tags, the prefix operators, and exactly the keywords other than `else`, `impl`, `let`, `mut`, `Self`, `struct` and `trait`; it excludes `let`, `;`, `}` and the end of the input |
| ParserProperties.StmntLikeReachesSwitch | impala/parser.cpp:299-316 | every statement-like form (`if`, `match`, `for`, `while`, a block) is in `EXPR` and is no item keyword, so it reaches the inner `switch` of the block loop |
| ParserProperties.DelimitedListParts | impala/parser.h:156-161 | the list is read from the token after the opening delimiter; when it stops in front of the closing delimiter that is consumed, otherwise one error at the token in front and nothing more is consumed |
| ParserProperties.IfExprParts | impala/parser.cpp:339-357 | the condition and then the consequence; without `else`, or with `else` followed by neither `if` nor `{` (one error), the alternative is the empty block at `prev_` |
| ParserProperties.TupleExprParts | impala/parser.cpp:367-385 | the elements are the delimited list's and the type is the optional ascription after it |
| ParserProperties.SigmaExprParts | impala/parser.cpp:387-391 | the binders are those of the `[`...`]` list |
| ParserProperties.DependentParts | impala/parser.cpp:393-415 | the domains are the list read after the expected opening delimiter, the body follows the expected `;`, and the closing delimiter is expected last |
| ParserProperties.PackExprParts | impala/parser.cpp:393-403 | a pack expression carries the domains and the body of `pk(`...`)` |
| ParserProperties.VariadicExprParts | impala/parser.cpp:405-415 | a variadic expression carries the domains and the body of `ar[`...`]` |
| ParserProperties.LetStmntParts | impala/parser.cpp:542-550 | the pattern follows `let`, and there is an initializer exactly when `=` follows the pattern |
| ParserProperties.TuplePtrnParts | impala/parser.cpp:185-190 | the sub-patterns are those of the delimited list, and the type is the ascription after it |
| ParserProperties.NamedExpressionIsReported | impala/parser.cpp:430-433 | a named `cn` or `fn` that is not an item gets one error at the name's location, and the name is dropped |
| ParserProperties.LambdaHeadParts | impala/parser.cpp:425-439 | an item takes the name after the keyword, or `_`; the outer domain is there exactly when `[` follows the name |
| ParserProperties.CnExprParts | impala/parser.cpp:425-452 | the tuple-pattern domain, codomain ⊥ and the body, under the head's name and outer domain |
| ParserProperties.FnExprParts | impala/parser.cpp:454-488 | the domain is the pair of the given pattern and a `return` continuation taking the `->` codomain, unknown without `->`; the codomain is ⊥ |
| ParserProperties.LambdaExprParts | impala/parser.cpp:490-498 | the domain pattern, the `->` codomain at `Arrow` precedence or unknown, and the body |
| ParserProperties.FnTypeExprParts | impala/parser.cpp:512-526 | `->` is expected; the domain is `_` typed by the sigma of the given domain and a continuation taking the codomain; the codomain is ⊥ |
| ParserProperties.ForallExprParts | impala/parser.cpp:528-536 | the domain, the expected `->`, and the codomain at `Arrow` precedence |
| ParserProperties.LexAt | impala/parser.cpp:49-56 | a token that is not `M_eof` is followed by another, and `lex()` moves on to it |
| ParserProperties.PrimaryId | impala/parser.cpp:279 | `parse_primary_expr` on an identifier yields that identifier and consumes one token |
| ParserProperties.ExprOfId | impala/parser.cpp:196-198 | `parse_expr` from an identifier enters its loop after it, with the identifier as the left operand |
| ParserProperties.InfixRound | impala/parser.cpp:210-211 | one round of the loop on an operator binding tighter than `p` applies `parse_infix_expr` |
| ParserProperties.Operand | impala/parser.cpp:196-217 | an identifier followed by a token that does not extend it is the identifier alone |
| ParserProperties.InfixAt | impala/parser.cpp:210-211 | one round on an operator further along the tokens |
| ParserProperties.InfixWithOperand | impala/parser.cpp:227-236 | an operator followed by an identifier and a looser operator takes just that identifier as its right operand |
| ParserProperties.Tail | impala/parser.cpp:200-214 | the loop on `op b` and then an ending token builds `lhs op b` |
| ParserProperties.Binary | impala/parser.cpp:196-236 | `a op b` followed by an ending token is one operator node |
| ParserProperties.NestedTail | impala/parser.cpp:210-236 | `op1 b op2 c`, with `op2` tighter, builds `lhs op1 (b op2 c)` |
| ParserProperties.GroupedTail | impala/parser.cpp:210-236 | `op1 b op2 c`, with `op2` no tighter, builds `(lhs op1 b) op2 c` |
| ParserProperties.TighterOperatorNests | impala/parser.cpp:196-236 | `a op1 b op2 c` with `op2` tighter parses as `a op1 (b op2 c)` |
| ParserProperties.LooserOperatorGroupsLeft | impala/parser.cpp:196-236 | `a op1 b op2 c` with `op2` no tighter parses as `(a op1 b) op2 c`: left associativity |
| ParserProperties.PostfixNodesShape | impala/parser.cpp:238-241 | a run of postfix nodes has the operand's shape with the operators applied in order |
| ParserProperties.PostfixAt | impala/parser.cpp:205-206 | one `++`/`--` after the expression applies `parse_postfix_expr`, and the loop goes on |
| ParserProperties.LoopStops | impala/parser.cpp:207-213 | at a token that does not extend the expression, the loop applies nothing more |
| ParserProperties.PostfixRunStep | impala/parser.cpp:205-206 | the first step of a run of postfix operators |
| ParserProperties.PostfixRun | impala/parser.cpp:200-216 | a run of `++`/`--` builds exactly the postfix nodes in order, and the loop stops after the run |
| ParserProperties.UnaryIsTop | impala/parser.cpp:222 | no infix operator binds tighter than the operand of a prefix operator |
| ParserProperties.PostfixOperand | impala/parser.cpp:222 | at unary precedence, an identifier and its postfix operators form the operand |
| ParserProperties.PrefixOperand | impala/parser.cpp:219-225 | a prefix operator's operand is the identifier with all its postfix operators |
| ParserProperties.PrefixPrimary | impala/parser.cpp:263-268 | `parse_primary_expr` on a prefix operator yields that prefix applied to the identifier and its postfix operators |
| ParserProperties.PrefixAppliesLast | impala/parser.cpp:219-241 | a prefix operator applies after every postfix operator of its operand |
| ParserProperties.PrefixBindsTighterThanInfix | impala/parser.cpp:219-236 | `op1 a … op2 b` groups the prefix before any infix operator |
| ParserProperties.IncrementsAsPrinted | test/parser.cpp:21-32 | `++a++++` parses as `(++((a++)++))` |
| ParserProperties.AddAddAsPrinted | test/parser.cpp:22-33 | `a + b + c` parses as `add(add(a, b), c)` |
| ParserProperties.AddMulAsPrinted | test/parser.cpp:23-34 | `a + b * c` parses as `add(a, mul(b, c))` |
| ParserProperties.MulAddAsPrinted | test/parser.cpp:24-35 | `a * b + c` parses as `add(mul(a, b), c)` |
| ParserProperties.AddAssignAsPrinted | test/parser.cpp:25-36 | `a + b = c` parses as `(add(a, b) = c)` |
| ParserProperties.AssignAddAsPrinted | test/parser.cpp:26-37 | `a = b + c` parses as `(a = add(b, c))` |
| ParserProperties.IncrementEqAsPrinted | test/parser.cpp:27-38 | `++a == b` parses as `eq((++a), b)` |
| ParserProperties.StrayDiags | impala/parser.cpp:145-147 | one error at each skipped token, in order |
| ParserProperties.SkipOne | impala/parser.cpp:145-147 | reporting and skipping one more stray token |
| ParserProperties.StrayTokensSkipped | impala/parser.cpp:140-149 | a run of tokens other than `cn`, `fn` and `let` is skipped, one error each |
| ParserProperties.NothingUsable | impala/parser.cpp:137-152 | a program with no `cn`, `fn` or `let` gives no statements and exactly one error per token, in order; warnings are unchanged |
| ParserProperties.ProgramHoldsDeclarations | impala/parser.cpp:140-149 | a program only ever holds items and `let` statements |
| ParserProperties.SemicolonsSkipped | impala/parser.cpp:295 | a run of `;` in a block adds no statement |
| ParserProperties.StatementLikeNeedsNoSemicolon | impala/parser.cpp:309-321 | an `if`, `match`, `for`, `while` or block followed by neither `;` nor `}` is a statement; before `}` it is the block's value |
| ParserProperties.ExpressionEndsBlock | impala/parser.cpp:315-330 | an expression that starts with an identifier and is not followed by `;` is the block's value; `}` is then consumed, or else one error |
| ParserProperties.ExpressionStatement | impala/parser.cpp:315-320 | an expression followed by `;` is a statement, and the block goes on after the `;` |
| ParserProperties.ListRound | impala/parser.h:149-151 | a trailing separator before the closing delimiter ends the list; a separator before anything else continues it; no separator ends it |
| BindSpec.DeclSymbol | impala/bind.cpp:9-17 | a declaration's symbol is that of its identifier |
| BindSpec.GrowsTransitive | impala/bind.cpp:44-173 | the binder only ever adds diagnostics and resolutions, and this is transitive |
| BindSpec.Push | impala/bind.h:26 | `push` adds one empty innermost scope and changes nothing else |
| BindSpec.Pop | impala/bind.h:27 | `pop` drops the innermost scope and nothing else |
| BindSpec.PopAfterPush | impala/bind.h:26-27 | `pop` after `push` gives back the state |
| BindSpec.FindIsInnermost | impala/bind.cpp:21-28 | `find` gives the declaration of the innermost scope holding the symbol, or the invalid declaration when none does |
| BindSpec.FindValidIffDeclared | impala/bind.cpp:21-28 | `find` gives a valid declaration exactly when some scope holds the symbol, and it declares that symbol |
| BindSpec.Insert | impala/bind.cpp:30-40 | `insert` changes nothing for the anonymous symbol; otherwise it adds the declaration to the innermost scope only, keeps an existing entry, reports one error exactly on a redefinition, and reports nothing for a new symbol |
| BindSpec.InsertThenFind | impala/bind.cpp:30-40 | after `insert`, `find` sees the new declaration, or the earlier one in the same scope; other symbols are unaffected |
| BindSpec.InsertRedefinition | impala/bind.cpp:36-39 | a redefinition changes no scope, reports an error at the new site and a note at the old one |
| BindSpec.BindUse | impala/bind.cpp:93-101 | binding a use only adds diagnostics and resolutions |
| BindSpec.BindUseResolves | impala/bind.cpp:93-101 | `_` is one error; any other use records what `find` gives, and is an error exactly when it is undeclared; no scope changes |
| BindSpec.BindPtrn | impala/bind.cpp:52-63 | binding a pattern only adds declarations, diagnostics and resolutions |
| BindSpec.BindPtrns | impala/bind.cpp:139-140 | binding patterns in order only adds |
| BindSpec.BindExpr | impala/bind.cpp:69-155 | binding an expression only adds, and a block leaves the scope stack as it was |
| BindSpec.BindElem | impala/bind.cpp:126-128 | binding a tuple element only adds |
| BindSpec.BindElems | impala/bind.cpp:131-132 | binding the elements in order only adds |
| BindSpec.BindStmnt | impala/bind.cpp:161-173 | binding a statement only adds |
| BindSpec.BindStmnts | impala/bind.cpp:76-77 | binding statements in order only adds |
| BindSpec.BindItem | impala/bind.cpp:44-46 | binding an item only adds |
| Bind.Scopes.constructor | impala/bind.h:16-18 | the binder starts with no scope and no resolution |
| Bind.Scopes.Push | impala/bind.h:26 | as `BindSpec.Push` |
| Bind.Scopes.Pop | impala/bind.h:27 | as `BindSpec.Pop` |
| Bind.Scopes.Find | impala/bind.cpp:21-28 | the loop from the innermost scope outwards returns `BindSpec.Find` |
| Bind.Scopes.Insert | impala/bind.cpp:30-40 | as `BindSpec.Insert` |
| Bind.Scopes.BindUse | impala/bind.cpp:93-101 | as `BindSpec.BindUse` |
| Bind.Scopes.BindPtrn | impala/bind.cpp:52-63 | as `BindSpec.BindPtrn` |
| Bind.Scopes.BindExpr | impala/bind.cpp:69-155 | as `BindSpec.BindExpr` |
| Bind.Scopes.BindParts | impala/bind.cpp:69-112 | application, `if` and infix bind their parts in order, as `BindSpec.BindExpr` |
| Bind.Scopes.BindBinders | impala/bind.cpp:88-153 | for-all, pack and variadic bind their domains, then the rest |
| Bind.Scopes.BindBlock | impala/bind.cpp:74-80 | a block binds inside a scope of its own |
| Bind.Scopes.BindTuple | impala/bind.cpp:130-134 | a tuple binds its elements, then its type |
| Bind.Scopes.BindPtrnList | impala/bind.cpp:139-140 | the domain loop, as `BindSpec.BindPtrns` |
| Bind.Scopes.BindStmnt | impala/bind.cpp:161-173 | as `BindSpec.BindStmnt` |
| BindProperties.LetNoInitInserts | impala/bind.cpp:165-169 | `let x` inserts `x` and does nothing else |
| BindProperties.BlockWalk | impala/bind.cpp:74-80 | a block is push, the statements, the value, pop |
| BindProperties.UnitTupleBindsNothing | impala/bind.cpp:130-136 | the unit tuple binds nothing |
| BindProperties.OneStmnt | impala/bind.cpp:76-77 | one statement binds as itself |
| BindProperties.SecondStmnt | impala/bind.cpp:76-77 | a second statement binds after the first |
| BindProperties.TwoStmnts | impala/bind.cpp:76-77 | two statements bind one after the other |
| BindProperties.LetWithInitBinds | impala/bind.cpp:165-169 | a `let` binds its initializer first, then its pattern |
| BindProperties.UntypedIdPtrnInserts | impala/bind.cpp:52-55 | an unascribed identifier pattern inserts its name and nothing else |
| BindProperties.UnknownBindsNothing | impala/bind.cpp:136 | an unknown type binds nothing |
| BindProperties.LetInitializerCannotSeeItsPattern | impala/bind.cpp:165-169 | in `let x = x`, the use is unresolved (one error) and `x` is declared afterwards |
| BindProperties.IdPtrnAscriptionSeesItsName | impala/bind.cpp:52-55 | in `x: x`, the ascription resolves to the pattern itself, with no error |
| BindProperties.RedefinitionInOneBlock | impala/bind.cpp:36-39 | `{ let x; let x; }` gives one error at the second `x` and a note at the first, and leaves the stack as it was |
| BindProperties.TwoLetsBind | impala/bind.cpp:165-169 | two `let`s insert their names in order |
| BindProperties.ExprStmntBinds | impala/bind.cpp:161-163 | an expression statement binds its expression |
| BindProperties.BlockUsesItsOwnLet | impala/bind.cpp:74-101 | `{ let x; x }` resolves the use to that `let`, with no error, and leaves the scopes as they were |
| BindProperties.ShadowingInNestedBlock | impala/bind.cpp:21-28 | an inner `let x` shadows an outer one for a use in the inner block |
| Driver.LogLevelOf | driver/main.cpp:88-96 | exactly the five names are accepted, each for its level |
| Driver.LogLevelNamesRoundTrip | driver/main.cpp:91-95 | round trip: each level is accepted under its own name and no other |
| Driver.Shift | driver/main.cpp:111 | `num*10 + c - '0'` wraps around modulo 2^64 |
| Driver.Breakpoints | driver/main.cpp:100-118 | the `-b` argument is refused exactly when it holds a character that is neither a digit nor `_` |
| Driver.ParseBreakpoints | driver/main.cpp:103-118 | the character loop computes `Breakpoints` |
| Driver.Pieces | driver/main.cpp:105 | a valid argument splits into at least one piece, each made of digits |
| Driver.Number | driver/main.cpp:111 | a piece's value fits in `size_t` |
| Driver.ScanReadsPieces | driver/main.cpp:103-115 | the loop reads the pieces: the non-zero numbers before the last `_`, and the last piece pending |
| Driver.BreakpointsAreNonZeroPieces | driver/main.cpp:100-118 | a valid argument registers exactly the non-zero numbers between its `_`s, in order |
| Driver.ScanSnoc | driver/main.cpp:103-115 | one more character is one more step of the loop |
| Driver.BreakpointExample | driver/main.cpp:100-118 | `12_0__3_` registers 12 and 3 |
| Driver.LastIndexOf | driver/main.cpp:126 | `find_last_of` finds the last occurrence, or reports that there is none |
| Driver.After | driver/main.cpp:127 | what follows the last `c` is a suffix without `c` |
| Driver.Before | driver/main.cpp:129 | what precedes the last `c` is a prefix |
| Driver.CheckInputFileAsWritten | driver/main.cpp:125-134 | as written, an accepted file gives a non-empty module name without `/` |
| Driver.BareImpalaIsAccepted | driver/main.cpp:126-128 | as written, the name `impala` with no `.` passes the extension check |
| Driver.CheckInputFile | driver/main.cpp:125-134 | corrected: an accepted file gives a non-empty module name without `/` |
| Driver.CheckInputFileAgrees | driver/main.cpp:126-128 | the two checks differ only on the name `impala` |
| Driver.ExtensionIsImpala | driver/main.cpp:126-128 | corrected: the extension test passes exactly for names ending in `.impala` |
| Driver.ModuleNameOfPath | driver/main.cpp:129-136 | `dir/name.impala` gives module `name` |
| Driver.LastIndexOfSuffix | driver/main.cpp:126 | when nothing after `s[i] == c` is `c`, `i` is the last index |
| Driver.Classify | driver/main.cpp:122-125 | a word is an input file exactly when it is empty or does not start with `-` |
| Driver.WithArgument | driver/main.cpp:86-98 | `-o` sets the module name; no option with an argument touches the input files |
| Driver.WithInputFile | driver/main.cpp:125-137 | a file is taken exactly when its name passes the check; it is appended and names the module unless one is named already |
| Driver.Options | driver/main.cpp:62-145 | a configuration that proceeds has at least one input file |
| Driver.CommandLine | driver/main.cpp:53-145 | `main` goes on only with at least one input file |
| Driver.ParseCommandLine | driver/main.cpp:62-145 | the option loop computes `CommandLine` |
| Driver.InputFileStep | driver/main.cpp:124-137 | one accepted input file is one step of the loop |
| Driver.OptionsEnd | driver/main.cpp:144-145 | with no word left, no input file is the error `no input files` |
| Driver.SingleFileNamesModule | driver/main.cpp:135-137 | `impala prog.impala` takes the file, which names the module |
| Driver.OutputNamesModule | driver/main.cpp:97-98 | `-o name` before the file wins over the name the file would give |
| Driver.FirstFileNamesModule | driver/main.cpp:135-136 | the first file names the module, and a later one does not rename it |
| Driver.BadLogLevelIsRejected | driver/main.cpp:96 | an unknown level name stops the driver, whatever follows |
| Driver.MissingLogLevel | driver/main.cpp:73-75 | `--log-level` as the last word lacks its argument |
| Driver.UnknownOptionIsRejected | driver/main.cpp:122-123 | a word starting with `-` that names no option stops the driver |
| Driver.BreakNeedsDebugBuild | driver/main.cpp:99-121 | without the debug options, `-b` is an unrecognized option |

## Left out

- Input and output. The byte stream, the printing of diagnostic text, the log stream and the files `main` opens are not modelled. A diagnostic is its kind and location; its message text is left out.
- The `Literal` type, `thorin::Loc`, `Symbol`, `World` and the token constructors the lexer uses come from code outside this model. `lexer.h` is not part of this model. So the model fills in these points:
  - `accept(c, append)` consumes a matching look-ahead, and appends it to the token text when `append` is set.
  - Accepting a string works character by character, and a matched prefix stays consumed.
  - Locations start at line 1, column 0.
  - `loc_`, which the identifier branch of `lex` reads (lexer.cpp:223-228), is defined outside this model. The model uses the token's location from `location()` there.
  - The keyword table holds the 17 keywords of `token.h`.
- Literal tokens. A literal becomes a token of `token.h`:
  - signed kinds become `L_s`;
  - unsigned, untyped, arity and index kinds become `L_u`;
  - real kinds become `L_f`.

  The width is kept in the `Literal` only.
- Floating-point values are not computed. A real literal carries its text, and `strtof` and `strtod` are not modelled.
- `strtol` and `strtoul` saturate on overflow. The model has them saturate but does not set `errno`.
- LexSpec.Word: the second literal branch of `lex` (a digit or a sign after the word tests) is kept as written, but it is dead code: the first literal branch has already taken every digit, and `+` and `-` are consumed by the operator rules before it.
- LexSpec.ParseLiteral: after the error `invalid literal`, the source falls off the end of a function that returns a value. The model returns no literal, and the lexer makes an `M_error` token.
- The error token of `..`, built by `Token(Location)`, is given the tag `M_error`. The source leaves its tag unspecified.
- UTF-8 decoding follows `next()` except for an invalid lead byte (see the next line). Overlong forms and surrogates are not rejected, although section 3 of RFC 3629 requires it (see `LexDecode.OverlongFormIsAccepted`).
- LexSpec.Next: on an invalid lead byte the model follows the corrected decoder of the Findings table, so the byte becomes a look-ahead of 0. As written, `next()` leaves the old look-ahead in place and the code point before the byte is read twice: the bytes `a`, `0x80`, `b` give the identifier `aab` with one error, while the model gives `a`, an invalid character and `b`. `LexSpec.NextAsWritten` and `LexDecode.InvalidLeadRepeatsLookahead` state the written behaviour; the lexer built on `LexSpec.Next` does not.
- LexerImpl.Lexer.Next: the same corrected invalid-lead behaviour as `LexSpec.Next`.
- Driver.WithInputFile: takes a file by the corrected check `Driver.CheckInputFile` of the Findings table. As written, `main` also accepts the bare name `impala` as module `impala` (`Driver.BareImpalaIsAccepted`); the model's `Options`, `CommandLine` and `ParseCommandLine` reject it as lacking the extension.
- The `tag2prec` and `tag2name` tables and the `Prec` order are not defined in `token.h`. The model gives them as concrete tables. It claims only what `test/parser.cpp` fixes about them (`Tokens.PrecAndNamesAsTested`).
- Tag names. The parser uses `D_brace_l`, `O_assign`, `P_semicolon`, `K_ar`, `K_pk`, `O_lambda`, `O_forall` and `O_tilde`, which `token.h` spells differently or does not list. They are modelled as tags of one enumeration: `O_assign` is `O_eq`, and `D_brace_l` is `D_l_brace`. The lexer never produces `K_ar`, `K_pk`, `O_lambda`, `O_forall` or `O_tilde`.
- The numeric values of the tags are not modelled. Only their identity is.
- The parser reads the lexer's finished output as a token sequence ending in `M_eof`. It does not call a lexer object. The two are connected only by `LexProperties.EofForever`: `M_eof` repeats forever.
- `parse_for_expr`, `parse_match_expr` and `parse_while_expr` return `nullptr`, and a block holding one of them would never advance. The model consumes the keyword, reports one error and yields an error node instead.
- ParserSpec.ParseItemStmnt: the `THORIN_UNREACHABLE` branch of `parse_item_stmnt` is left out. Its precondition says that `cn` or `fn` is in front, as it is at every call.
- ParserSpec.ParsePtrn: the `THORIN_UNREACHABLE` default is left out in the same way. Its precondition is an identifier or `(` in front.
- `parser.h` declares `parse_stmnt` and `parse_bottom_expr`, but `parser.cpp` never defines them, so they are not modelled.
- `parser.h` declares `parse` as returning an expression, while `parser.cpp` defines it for a program. The model follows `parser.cpp`: `ParserImpl.Parse` parses a program and `ParserImpl.ParseExpression` parses an expression.
- The tests hand `parse` inputs such as `()` and a block, and expect no errors. As defined, `parse_prg` reports one error for every token that does not start an item or a `let` (`ParserProperties.NothingUsable`). The precedence lemmas follow the tests' intent and are stated for `parse_expr`.
- Literals, `true` and `false` are listed as starting an expression (`EXPR`), but `parse_primary_expr` has no case for them. The model keeps this, so they give the error `expected expression`.
- ParserSpec.PostfixStep: `.`, `(` and `[` in the loop of `parse_expr` are handled here together with `++` and `--`. This is one function for the four `case`s.
- ParserProperties.ExpressionStatement: stated only for fronts other than `cn` and `fn`. With an identifier right behind them, those fronts are items.
- ParserProperties.ExpressionEndsBlock: stated only for an identifier in front.
- `bind.h` declares `Scopes::run` and `Scopes::bind`, but `bind.cpp` does not define them, so they are not modelled.
- `bind.h` declares `find` as returning an `Entry*`, while `bind.cpp` returns a `Decl`. The model follows `bind.cpp`, and the `Decl` built from a null pattern is one distinguished invalid value.
- `LambdaExpr::bind` binds only the domain, and `SigmaExpr::bind` only its elements, as written. The model keeps both. An item's own name is not inserted (`Item::bind`).
- What `main` does after reading its options is not modelled: the log file, opening the input, parsing, binding and printing. It also warns when there is more than one input file. `-h` is a successful stop; `--emit-ast`, `--fancy`, `--log` and `--track-history` only set flags.
- `argc < 1`: `Driver.CommandLine` and `Driver.ParseCommandLine` take an empty argument list and give `Failed(NoInputFiles)`, as the `no input files` error of `main` does.

## Findings

| source | as written | input that shows it | evidently intended | confidence | as-written member | corrected member |
|---|---|---|---|---|---|---|
| driver/main.cpp:126-128 | with no `.` in the name, `find_last_of` gives `npos`, and `substr(npos + 1)` is the whole name, which is then compared with `impala` | the input file `impala` is accepted, as module `impala` | a file must end in `.impala`, as the error message says | not executed | Driver.BareImpalaIsAccepted | Driver.ExtensionIsImpala |
| impala/lexer.cpp:94-95 | an invalid lead byte (`10xxxxxx` or `11111xxx`) is reported and consumed and `next()` returns 0, but `peek_` keeps the previous code point, which is then read again | the bytes `a`, `0x80`: after the error the look-ahead is still `a`, so the lexer sees `a` a second time | the invalid byte replaces the look-ahead, as every other path of `next()` does | not executed | LexDecode.InvalidLeadRepeatsLookahead | LexDecode.InvalidLeadIsConsumed |
