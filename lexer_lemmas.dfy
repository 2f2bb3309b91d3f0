/**
  What the lexer of lexer.cpp does on whole inputs: the end of the input,
  a line of punctuation, the longest match among operators, comments,
  identifiers and keywords, and the rules of literals.

  Most of these are stated for ASCII input, where every byte is one code
  point; `Ahead(st, k)` is the byte `k` places after the look-ahead.
 */
module LexProperties {
  import opened Basics
  import opened Diagnostics
  import opened Tokens
  import opened LexSpec

  /** The byte `k` places after the look-ahead, or `EOF` past the end. */
  function Ahead(st: LexState, k: nat): nat {
    if st.pos + k < |st.input| then st.input[st.pos + k] else EOF
  }

  /** The `k` bytes after the look-ahead, as far as they exist, are ASCII. */
  predicate AsciiAhead(st: LexState, k: nat) {
    forall j :: st.pos <= j < st.pos + k && j < |st.input| ==> st.input[j] < 128
  }

  /** Consuming in front of an ASCII byte makes that byte the look-ahead, without any error. */
  lemma ConsumeAscii(st: LexState, append: bool)
    requires Valid(st) && (append ==> IsScalar(st.peek)) && AsciiAhead(st, 1)
    ensures var r := Consume(st, append);
      && r.peek == Ahead(st, 0)
      && r.pos == (if st.pos < |st.input| then st.pos + 1 else st.pos)
      && r.report == st.report
      && Ahead(r, 0) == Ahead(st, 1)
  {
  }

  /**
    `location()` spans the current token: consuming the look-ahead keeps where
    the token started and moves the end to where that code point was read. At
    the end of the input nothing is read and the location stays.
   */
  lemma ConsumeExtendsLocation(st: LexState, append: bool)
    requires Valid(st) && (append ==> IsScalar(st.peek))
    ensures Location(Consume(st, append)).front == Location(st).front
    ensures st.pos < |st.input| ==> Location(Consume(st, append)).back == st.peekPos
    ensures st.pos == |st.input| ==> Location(Consume(st, append)) == Location(st)
  {
  }

  /** Starting a token changes neither the input, the read position nor the look-ahead. */
  lemma StartTokenLooksAhead(st: LexState)
    ensures var s := StartToken(st);
      && s.input == st.input && s.pos == st.pos && s.peek == st.peek && s.report == st.report
      && (forall k :: Ahead(s, k) == Ahead(st, k))
      && (Valid(s) <==> Valid(st))
      && (forall k :: AsciiAhead(s, k) <==> AsciiAhead(st, k))
  {
  }

  /** `n` calls of `lex()`, and the tokens they return. */
  function LexTokens(st: LexState, n: nat): (r: seq<Token>)
    requires Valid(st)
    ensures |r| == n
    decreases n
  {
    if n == 0 then [] else var l := Lex(st); [l.token] + LexTokens(l.st, n - 1)
  }

  function Tags(ts: seq<Token>): (r: seq<Tag>)
    ensures |r| == |ts| && forall i :: 0 <= i < |ts| ==> r[i] == ts[i].tag
  {
    if ts == [] then [] else [ts[0].tag] + Tags(ts[1..])
  }

  // ---------------------------------------------------------------- single turns of lex()

  /** A turn that yields a token ends `lex()`. */
  lemma LexOfEmit(st: LexState)
    requires Valid(st) && LexStep(st).Emit?
    ensures Lex(st) == Lexed(LexStep(st).token, LexStep(st).st)
  {
  }

  /** A turn that skips is followed by another. */
  lemma LexOfSkip(st: LexState)
    requires Valid(st) && LexStep(st).Skip?
    ensures Lex(st) == Lex(LexStep(st).st)
  {
  }

  /** A look-ahead that starts a symbol is handled by the symbol rules. */
  lemma StepOfSymbol(st: LexState)
    requires Valid(st) && st.peek in SymbolStarts
    ensures LexStep(st) == Symbols(StartToken(st))
  {
  }

  /** The tags of `n` calls of `lex()`: the first call's, then those of the rest. */
  lemma TagsOfLex(st: LexState, n: nat)
    requires Valid(st) && n > 0
    ensures Tags(LexTokens(st, n)) == [Lex(st).token.tag] + Tags(LexTokens(Lex(st).st, n - 1))
  {
    var ts := LexTokens(Lex(st).st, n - 1);
    assert LexTokens(st, n) == [Lex(st).token] + ts;
    assert ([Lex(st).token] + ts)[1..] == ts;
  }

  lemma SliceCons<T>(s: seq<T>, k: nat)
    requires k < |s|
    ensures s[k..] == [s[k]] + s[k + 1..]
  {
  }

  // ---------------------------------------------------------------- the end of the input

  /** At the end of the input `lex()` gives `M_eof`, and gives it again if called again. */
  lemma EofIsSticky(st: LexState)
    requires Valid(st) && st.peek == EOF
    ensures Lex(st).token.tag == M_eof && Lex(st).st.peek == EOF
    ensures Lex(st).st.report == st.report
    ensures Lex(Lex(st).st) == Lex(st)
  {
  }

  /** From the end of the input on, every call of `lex()` gives `M_eof`. */
  lemma {:induction false} EofForever(st: LexState, n: nat)
    requires Valid(st) && st.peek == EOF
    ensures forall i :: 0 <= i < n ==> LexTokens(st, n)[i].tag == M_eof
    decreases n
  {
    if n > 0 {
      EofIsSticky(st);
      EofForever(Lex(st).st, n - 1);
      assert LexTokens(st, n) == [Lex(st).token] + LexTokens(Lex(st).st, n - 1);
    }
  }

  /** An empty input lexes to `M_eof` a hundred times over, without any error. */
  lemma EmptyInputGivesEof(report: Report)
    ensures Start([], report).peek == EOF && Start([], report).report == report
    ensures forall i :: 0 <= i < 100 ==> LexTokens(Start([], report), 100)[i].tag == M_eof
  {
    EofForever(Start([], report), 100);
  }

  // ---------------------------------------------------------------- a line of punctuation

  /** The single-character delimiters and punctuation, and their tags. */
  const Puncts: seq<nat> := [Cp('{'), Cp('}'), Cp('('), Cp(')'), Cp('['), Cp(']'), Cp(':'), Cp(','), Cp('.')]
  const PunctTags: seq<Tag> := [D_l_brace, D_r_brace, D_l_paren, D_r_paren, D_l_bracket, D_r_bracket, P_colon, P_comma, P_dot]

  /**
    A delimiter or a punctuation character that is not followed by the
    character that would lengthen it (':' after ':', '.' after '.') is one
    token, and consumes exactly that character.
   */
  lemma SinglePunct(st: LexState, j: nat)
    requires Valid(st) && j < |Puncts| && st.peek == Puncts[j] && AsciiAhead(st, 1)
    requires Ahead(st, 0) != Cp(':') && Ahead(st, 0) != Cp('.')
    ensures var r := Lex(st);
      && r.token.tag == PunctTags[j]
      && r.st.peek == Ahead(st, 0)
      && r.st.pos == (if st.pos < |st.input| then st.pos + 1 else st.pos)
      && r.st.report == st.report
  {
    var s := StartToken(st);
    StartTokenLooksAhead(st);
    ConsumeAscii(s, true);
    if j < 6 {
      DelimiterStep(s, j);
    } else {
      PunctuationStep(s, j);
    }
    StepOfSymbol(st);
    LexOfEmit(st);
  }

  lemma DelimiterStep(s: LexState, j: nat)
    requires Valid(s) && j < 6 && s.peek == Puncts[j]
    ensures Symbols(s) == Tok(Take(s), PunctTags[j])
  {
    var d := Delimiter(s);
    assert !d.NoMatch? && Symbols(s) == d;
  }

  lemma PunctuationStep(s: LexState, j: nat)
    requires Valid(s) && 6 <= j < 9 && s.peek == Puncts[j] && AsciiAhead(s, 1)
    requires Ahead(s, 0) != Cp(':') && Ahead(s, 0) != Cp('.')
    ensures Symbols(s) == Tok(Take(s), PunctTags[j])
  {
    ConsumeAscii(s, true);
    assert Delimiter(s).NoMatch?;
  }

  /** A space in front of something that is not white space is skipped. */
  lemma SpaceSkipped(st: LexState)
    requires Valid(st) && st.peek == Cp(' ') && AsciiAhead(st, 1) && !IsSp(Ahead(st, 0))
    ensures Lex(st) == Lex(Consume(st, false))
  {
    ConsumeAscii(st, false);
  }

  /** The input `{ } ( ) [ ] : , .`, as bytes. */
  const PunctLine: seq<nat> := [123, 32, 125, 32, 40, 32, 41, 32, 91, 32, 93, 32, 58, 32, 44, 32, 46]

  /** What `lex()` gives for that line: the nine tokens and then the end of the input. */
  const PunctLineTags: seq<Tag> := PunctTags + [M_eof]

  /** The state before the `k`-th token of the line: after the punctuation, the look-ahead is a space. */
  predicate BeforeToken(st: LexState, k: nat, report: Report) {
    && Valid(st) && st.input == PunctLine && st.report == report
    && (if k == 0 then st.peek == 123 && st.pos == 1
        else if k <= 8 then st.peek == 32 && st.pos == 2 * k
        else st.peek == EOF && st.pos == 17)
  }

  lemma PunctLineFacts()
    ensures AsciiBytes(PunctLine)
    ensures forall k :: 1 <= k <= 8 ==> PunctLine[2 * k] == Puncts[k]
    ensures forall k :: 0 <= k < 8 ==> PunctLine[2 * k + 1] == 32
  {
  }

  predicate AsciiBytes(s: seq<nat>) {
    forall i :: 0 <= i < |s| ==> s[i] < 128
  }

  /** A space and then a delimiter or punctuation character: the space is skipped, the character is the token. */
  lemma SpaceThenPunct(st: LexState, j: nat)
    requires Valid(st) && st.peek == Cp(' ') && j < |Puncts| && Ahead(st, 0) == Puncts[j] && AsciiAhead(st, 2)
    requires Ahead(st, 1) != Cp(':') && Ahead(st, 1) != Cp('.')
    ensures var r := Lex(st);
      && r.token.tag == PunctTags[j]
      && r.st.peek == Ahead(st, 1)
      && r.st.pos == (if st.pos + 2 <= |st.input| then st.pos + 2 else |st.input|)
      && r.st.report == st.report
  {
    SpaceSkipped(st);
    ConsumeAscii(st, false);
    var c := Consume(st, false);
    SinglePunct(c, j);
  }

  /** The first token of the line. */
  lemma PunctLineFirst(st: LexState, report: Report)
    requires BeforeToken(st, 0, report)
    ensures Lex(st).token.tag == PunctTags[0] && BeforeToken(Lex(st).st, 1, report)
  {
    SinglePunct(st, 0);
  }

  /** One turn: the `k`-th token of the line is the `k`-th punctuation, without any error. */
  lemma PunctLineStep(st: LexState, k: nat, report: Report)
    requires k < 9 && BeforeToken(st, k, report)
    ensures Lex(st).token.tag == PunctTags[k] && BeforeToken(Lex(st).st, k + 1, report)
  {
    if k == 0 {
      PunctLineFirst(st, report);
    } else {
      PunctLineFacts();
      assert Ahead(st, 0) == Puncts[k];
      assert Ahead(st, 1) == if k < 8 then 32 else EOF;
      SpaceThenPunct(st, k);
    }
  }

  /** After the last punctuation, the end of the input. */
  lemma PunctLineEnd(st: LexState, report: Report)
    requires BeforeToken(st, 9, report)
    ensures Tags(LexTokens(st, 1)) == PunctLineTags[9..]
  {
    TagsOfLex(st, 1);
    EofIsSticky(st);
  }

  lemma {:induction false} PunctLineRest(st: LexState, k: nat, report: Report)
    requires k <= 9 && BeforeToken(st, k, report)
    ensures Tags(LexTokens(st, 10 - k)) == PunctLineTags[k..]
    decreases 9 - k
  {
    if k == 9 {
      PunctLineEnd(st, report);
    } else {
      PunctLineCons(st, k, report);
      PunctLineRest(Lex(st).st, k + 1, report);
      PunctLineJoin(st, k, report);
    }
  }

  /** The tags of the line from the `k`-th token on, once those from the next token on are known. */
  lemma PunctLineJoin(st: LexState, k: nat, report: Report)
    requires k < 9 && BeforeToken(st, k, report)
    requires Tags(LexTokens(Lex(st).st, 9 - k)) == PunctLineTags[k + 1..]
    ensures Tags(LexTokens(st, 10 - k)) == PunctLineTags[k..]
  {
    PunctLineCons(st, k, report);
    SliceCons(PunctLineTags, k);
  }

  /** The punctuation in front heads the tags of the rest of the line. */
  lemma PunctLineCons(st: LexState, k: nat, report: Report)
    requires k < 9 && BeforeToken(st, k, report)
    ensures BeforeToken(Lex(st).st, k + 1, report)
    ensures Tags(LexTokens(st, 10 - k)) == [PunctLineTags[k]] + Tags(LexTokens(Lex(st).st, 9 - k))
  {
    TagsOfLex(st, 10 - k);
    PunctLineStep(st, k, report);
  }

  /** `{ } ( ) [ ] : , .` lexes to its nine tokens and `M_eof`. */
  lemma PunctLineLexes(report: Report)
    ensures Tags(LexTokens(Start(PunctLine, report), 10)) == PunctLineTags
  {
    var st := Start(PunctLine, report);
    assert BeforeToken(st, 0, report);
    PunctLineRest(st, 0, report);
  }

  // ---------------------------------------------------------------- the longest match

  /** Comparison operators are handled by their own rule. */
  lemma SymbolsComparison(s: LexState)
    requires Valid(s) && s.peek in {Cp('='), Cp('<'), Cp('>')}
    ensures Symbols(s) == Comparison(s)
  {
  }

  /** Arithmetic operators and comments are handled by their own rule. */
  lemma SymbolsArithmetic(s: LexState)
    requires Valid(s) && s.peek in {Cp('+'), Cp('-'), Cp('*'), Cp('/'), Cp('%')}
    ensures Symbols(s) == Arithmetic(s)
  {
  }

  /** `<` and the two ASCII bytes after it: `<<=`, `<<`, `<=` or `<`, whichever is longest. */
  lemma LessThanLongestMatch(st: LexState)
    requires Valid(st) && st.peek == Cp('<') && AsciiAhead(st, 2)
    ensures Lex(st).token.tag ==
              if Ahead(st, 0) == Cp('<') then (if Ahead(st, 1) == Cp('=') then O_l_shift_eq else O_l_shift)
              else if Ahead(st, 0) == Cp('=') then O_cmp_le
              else O_cmp_lt
  {
    var s := StartToken(st);
    StartTokenLooksAhead(st);
    LessRule(s);
    SymbolsComparison(s);
    StepOfSymbol(st);
    LexOfEmit(st);
  }

  /** The comparison rule on `<`. */
  lemma LessRule(s: LexState)
    requires Valid(s) && s.peek == Cp('<') && AsciiAhead(s, 2)
    ensures Comparison(s).Emit?
    ensures Comparison(s).token.tag ==
              if Ahead(s, 0) == Cp('<') then (if Ahead(s, 1) == Cp('=') then O_l_shift_eq else O_l_shift)
              else if Ahead(s, 0) == Cp('=') then O_cmp_le
              else O_cmp_lt
  {
    ConsumeAscii(s, true);
    var s1 := Take(s);
    if s1.peek == Cp('<') {
      assert AsciiAhead(s1, 1);
      ConsumeAscii(s1, true);
      assert Comparison(s) == Either(Take(s1), '=', O_l_shift_eq, O_l_shift);
    } else {
      assert Comparison(s) == Either(s1, '=', O_cmp_le, O_cmp_lt);
    }
  }

  /** `-` and the ASCII byte after it: `->`, `--`, `-=` or `-`. */
  lemma MinusLongestMatch(st: LexState)
    requires Valid(st) && st.peek == Cp('-') && AsciiAhead(st, 1)
    ensures Lex(st).token.tag ==
              if Ahead(st, 0) == Cp('>') then O_arrow
              else if Ahead(st, 0) == Cp('-') then O_dec
              else if Ahead(st, 0) == Cp('=') then O_sub_eq
              else O_sub
  {
    var s := StartToken(st);
    StartTokenLooksAhead(st);
    StepOfSymbol(st);
    SymbolsArithmetic(s);
    ConsumeAscii(s, true);
    LexOfEmit(st);
  }

  // ---------------------------------------------------------------- comments

  /** `SkipUntil` stops at the first `c` in ASCII input, with `c` as the look-ahead. */
  lemma {:induction false} SkipUntilFirst(st: LexState, c: nat, k: nat)
    requires Valid(st) && c < 128 && st.peek != c && st.pos <= k < |st.input| && st.input[k] == c
    requires forall j :: st.pos <= j < k ==> st.input[j] < 128 && st.input[j] != c
    ensures var r := SkipUntil(st, c); r.peek == c && r.pos == k + 1 && r.report == st.report
    decreases k - st.pos
  {
    ConsumeAscii(st, false);
    var s1 := Consume(st, false);
    assert SkipUntil(st, c) == SkipUntil(s1, c);
    if st.pos < k {
      SkipUntilFirst(s1, c, k);
    }
  }

  /** Without any `c` left in ASCII input, `SkipUntil` runs to the end of the input. */
  lemma {:induction false} SkipUntilEnd(st: LexState, c: nat)
    requires Valid(st) && c < 128 && st.peek != c
    requires forall j :: st.pos <= j < |st.input| ==> st.input[j] < 128 && st.input[j] != c
    ensures var r := SkipUntil(st, c); r.peek == EOF && r.report == st.report
    decreases Remaining(st)
  {
    if st.peek != EOF {
      ConsumeAscii(st, false);
      var s1 := Consume(st, false);
      assert SkipUntil(st, c) == SkipUntil(s1, c);
      SkipUntilEnd(s1, c);
    }
  }

  /**
    `//` runs to the end of the line: no token, and the newline is the next
    look-ahead, which the following turn skips as white space.
   */
  lemma LineComment(st: LexState, k: nat)
    requires Valid(st) && st.peek == Cp('/') && st.pos < k < |st.input|
    requires st.input[st.pos] == Cp('/') && st.input[k] == 10
    requires forall j :: st.pos <= j < k ==> st.input[j] < 128 && st.input[j] != 10
    ensures var s := SkipUntil(Take(Take(StartToken(st))), 10);
      && s.peek == 10 && s.pos == k + 1 && s.report == st.report
      && Lex(st) == Lex(s)
  {
    var s0 := StartToken(st);
    ConsumeAscii(s0, true);
    var s1 := Take(s0);
    assert AsciiAhead(s1, 1);
    ConsumeAscii(s1, true);
    var s2 := Take(s1);
    if st.pos + 1 < k {
      SkipUntilFirst(s2, 10, k);
    }
    StepOfSymbol(st);
    SymbolsArithmetic(s0);
    LexOfSkip(st);
  }

  /** Inside a block comment, one step of reading that does not close it changes nothing of `EatComments`. */
  lemma EatCommentsStep(t: LexState)
    requires Valid(t) && t.peek != EOF && AsciiAhead(t, 1)
    requires !(t.peek == Cp('*') && Ahead(t, 0) == Cp('/'))
    ensures EatComments(t) == EatComments(Consume(t, false))
  {
    ConsumeAscii(t, false);
    if t.peek != Cp('*') {
      assert SkipUntil(t, Cp('*')) == SkipUntil(Consume(t, false), Cp('*'));
    }
  }

  // A block comment ends at the first star-slash (block comments do not nest):
  // with the look-ahead at index `t.pos - 1` and the first star-slash at `k - 1`
  // and `k`, `EatComments` consumes through index `k`.
  lemma {:induction false} EatCommentsFirstClose(t: LexState, k: nat)
    requires Valid(t) && 1 <= t.pos <= k < |t.input| && t.peek == t.input[t.pos - 1]
    requires t.input[k - 1] == Cp('*') && t.input[k] == Cp('/')
    requires forall j :: t.pos - 1 <= j <= k + 1 && j < |t.input| ==> t.input[j] < 128
    requires forall j :: t.pos - 1 <= j < k - 1 ==> !(t.input[j] == Cp('*') && t.input[j + 1] == Cp('/'))
    ensures var r := EatComments(t);
      && r.pos == (if k + 2 <= |t.input| then k + 2 else |t.input|)
      && r.peek == (if k + 1 < |t.input| then t.input[k + 1] else EOF)
      && r.report == t.report
    decreases k - t.pos
  {
    ConsumeAscii(t, false);
    var s1 := Consume(t, false);
    if t.pos == k {
      assert SkipUntil(t, Cp('*')) == t;
      assert AsciiAhead(s1, 1);
      ConsumeAscii(s1, true);
    } else {
      EatCommentsStep(t);
      EatCommentsFirstClose(s1, k);
    }
  }

  // A block comment whose first star-slash is at `k - 1` and `k`: no token, and
  // lexing goes on after it.
  lemma BlockComment(st: LexState, k: nat)
    requires Valid(st) && st.peek == Cp('/') && st.pos + 2 <= k < |st.input|
    requires st.input[st.pos] == Cp('*') && st.input[k - 1] == Cp('*') && st.input[k] == Cp('/')
    requires forall j :: st.pos <= j <= k + 1 && j < |st.input| ==> st.input[j] < 128
    requires forall j :: st.pos + 1 <= j < k - 1 ==> !(st.input[j] == Cp('*') && st.input[j + 1] == Cp('/'))
    ensures var s := EatComments(Take(Take(StartToken(st))));
      && s.pos == (if k + 2 <= |st.input| then k + 2 else |st.input|)
      && s.report == st.report
      && Lex(st) == Lex(s)
  {
    var s0 := StartToken(st);
    ConsumeAscii(s0, true);
    var s1 := Take(s0);
    assert AsciiAhead(s1, 1);
    ConsumeAscii(s1, true);
    EatCommentsFirstClose(Take(s1), k);
    StepOfSymbol(st);
    SymbolsArithmetic(s0);
    LexOfSkip(st);
  }

  // A block comment opened with no star after it: one error, and `lex()` gives `M_eof`.
  lemma UnterminatedBlockComment(st: LexState)
    requires Valid(st) && st.peek == Cp('/') && st.pos < |st.input| && st.input[st.pos] == Cp('*')
    requires forall j :: st.pos < j < |st.input| ==> st.input[j] < 128 && st.input[j] != Cp('*')
    ensures Lex(st).token.tag == M_eof
    ensures Lex(st).st.report.numErrors == st.report.numErrors + 1
  {
    var s0 := StartToken(st);
    ConsumeAscii(s0, true);
    var s1 := Take(s0);
    assert AsciiAhead(s1, 1);
    ConsumeAscii(s1, true);
    var t := Take(s1);
    SkipUntilEnd(t, Cp('*'));
    var u := SkipUntil(t, Cp('*'));
    StepOfSymbol(st);
    SymbolsArithmetic(s0);
    LexOfSkip(st);
    EofIsSticky(LexSpec.Error(u));
  }

  // ---------------------------------------------------------------- identifiers and keywords

  predicate IsIdentChar(c: nat) {
    IsAlnum(c) || c == Cp('_')
  }

  /** A byte as a character; only ASCII bytes are ever given to it. */
  function AsciiChar(b: nat): char {
    if b < 128 then b as char else '?'
  }

  /** ASCII bytes as text. */
  function Chars(bs: seq<nat>): (r: string)
    ensures |r| == |bs| && forall i :: 0 <= i < |bs| && bs[i] < 128 ==> r[i] as nat == bs[i]
  {
    if bs == [] then [] else [AsciiChar(bs[0])] + Chars(bs[1..])
  }

  lemma CharsCons(bs: seq<nat>)
    requires |bs| > 0 && bs[0] < 128
    ensures Chars(bs) == [bs[0] as char] + Chars(bs[1..])
  {
  }

  /** Appending the first byte of a run and then the text of the rest appends the text of the whole run. */
  lemma CharsAfter(head: string, run: seq<nat>)
    requires |run| > 0 && run[0] < 128
    ensures head + [run[0] as char] + Chars(run[1..]) == head + Chars(run)
  {
    CharsCons(run);
    assert head + [run[0] as char] + Chars(run[1..]) == head + ([run[0] as char] + Chars(run[1..]));
  }

  /** One identifier character is appended to the text and the next byte becomes the look-ahead. */
  lemma IdentRestTakesOne(st: LexState)
    requires Valid(st) && IsIdentChar(st.peek) && AsciiAhead(st, 1)
    ensures var t := Take(st);
      && IdentRest(st) == IdentRest(t)
      && t.str == st.str + [st.peek as char]
      && t.peek == Ahead(st, 0)
      && t.pos == (if st.pos < |st.input| then st.pos + 1 else st.pos)
      && t.report == st.report
  {
    ConsumeAscii(st, true);
  }

  /** The rest of an identifier is the longest run of letters, digits and underscores. */
  lemma {:induction false} IdentRestRun(st: LexState, k: nat)
    requires IdentRunAhead(st, k)
    ensures IdentRestReads(st, k)
    decreases k - st.pos
  {
    IdentRestTakesOne(st);
    if st.pos == k {
      IdentRestRunEnds(st, k);
    } else {
      IdentRestRunContinues(st, k);
      IdentRestRun(Take(st), k);
      IdentRestRunStep(st, k);
    }
  }

  /** The look-ahead is an identifier character, and so are the bytes up to index `k`, and not the one at `k`. */
  predicate IdentRunAhead(st: LexState, k: nat) {
    && Valid(st) && IsIdentChar(st.peek) && st.pos <= k <= |st.input|
    && (forall j :: st.pos <= j < k ==> st.input[j] < 128 && IsIdentChar(st.input[j]))
    && (k < |st.input| ==> st.input[k] < 128 && !IsIdentChar(st.input[k]))
  }

  /** `IdentRest` appends the look-ahead and the bytes up to `k`, and stops in front of the byte at `k`. */
  predicate IdentRestReads(st: LexState, k: nat)
    requires IdentRunAhead(st, k)
  {
    var r := IdentRest(st);
    && r.str == st.str + [st.peek as char] + Chars(st.input[st.pos..k])
    && r.pos == (if k < |st.input| then k + 1 else k)
    && r.peek == (if k < |st.input| then st.input[k] else EOF)
    && r.report == st.report
  }

  lemma IdentRestRunEnds(st: LexState, k: nat)
    requires IdentRunAhead(st, k) && st.pos == k
    ensures IdentRestReads(st, k)
  {
    IdentRestTakesOne(st);
    var t := Take(st);
    assert st.input[st.pos..k] == [];
    assert IdentRest(t) == t;
  }

  lemma IdentRestRunContinues(st: LexState, k: nat)
    requires IdentRunAhead(st, k) && st.pos < k
    ensures IdentRunAhead(Take(st), k) && Take(st).pos == st.pos + 1
  {
    IdentRestTakesOne(st);
  }

  lemma IdentRestRunStep(st: LexState, k: nat)
    requires IdentRunAhead(st, k) && st.pos < k
    requires IdentRunAhead(Take(st), k) && IdentRestReads(Take(st), k)
    ensures IdentRestReads(st, k)
  {
    IdentRestTakesOne(st);
    var t := Take(st);
    var run := st.input[st.pos..k];
    assert run[0] == t.peek && run[1..] == st.input[t.pos..k];
    CharsAfter(st.str + [st.peek as char], run);
  }

  /** A letter or an underscore starts a word; the word's token is computed from the whole run. */
  lemma WordStep(st: LexState)
    requires Valid(st) && (IsAlpha(st.peek) || st.peek == Cp('_'))
    ensures var s := IdentRest(StartToken(st));
      LexStep(st) == Emit(WordToken(Location(s), s.str), s)
  {
    var s0 := StartToken(st);
    StepOfWord(st);
    WordRule(s0);
  }

  /** A look-ahead that starts no symbol and is no space is handled by the word rule. */
  lemma StepOfWord(st: LexState)
    requires Valid(st) && (IsAlpha(st.peek) || st.peek == Cp('_') || IsDec(st.peek))
    ensures LexStep(st) == Word(StartToken(st))
  {
    assert Symbols(StartToken(st)).NoMatch?;
  }

  /** The word rule on a letter or an underscore. */
  lemma WordRule(s: LexState)
    requires Valid(s) && (IsAlpha(s.peek) || s.peek == Cp('_'))
    ensures var r := IdentRest(s); Word(s) == Emit(WordToken(Location(r), r.str), r)
  {
    assert IdentRest(s) == IdentRest(Take(s));
  }

  /** An identifier or keyword is the longest run of letters, digits and underscores, read without error. */
  lemma WordIsLongestRun(st: LexState, k: nat)
    requires Valid(st) && (IsAlpha(st.peek) || st.peek == Cp('_')) && st.pos <= k <= |st.input|
    requires forall j :: st.pos <= j < k ==> st.input[j] < 128 && IsIdentChar(st.input[j])
    requires k < |st.input| ==> st.input[k] < 128 && !IsIdentChar(st.input[k])
    ensures var s := IdentRest(StartToken(st));
      && s.str == [st.peek as char] + Chars(st.input[st.pos..k])
      && s.pos == (if k < |st.input| then k + 1 else k)
      && s.report == st.report
  {
    var s0 := StartToken(st);
    assert Valid(s0) by { StartTokenLooksAhead(st); }
    assert IdentRunAhead(s0, k);
    IdentRestRun(s0, k);
    assert s0.str + [st.peek as char] == [st.peek as char];
  }

  /** The turn on a letter or an underscore emits the word read by `IdentRest`. */
  lemma WordLexed(st: LexState)
    requires Valid(st) && (IsAlpha(st.peek) || st.peek == Cp('_'))
    ensures var s := IdentRest(StartToken(st));
      Lex(st).st == s && Lex(st).token == WordToken(Location(s), s.str)
  {
    WordStep(st);
    LexOfEmit(st);
  }

  /** A keyword's spelling is lexed as that keyword; `true` and `false` included. */
  lemma KeywordIsRetagged(loc: Loc, t: Tag)
    requires IsKeyword(t)
    ensures WordToken(loc, TagToString(t)) == TagToken(loc, t)
  {
    var w := TagToString(t);
    KeywordLookupFindsKeyword(t);
    BooleanSpellings();
    if w == "true" {
      KeywordLookupFindsKeyword(K_true);
    } else if w == "false" {
      KeywordLookupFindsKeyword(K_false);
    }
  }

  /** Any other word is an identifier carrying its text. */
  lemma OtherWordIsIdentifier(loc: Loc, w: string)
    requires forall t :: IsKeyword(t) ==> TagToString(t) != w
    ensures WordToken(loc, w) == IdToken(loc, w)
  {
    BooleanSpellings();
    KeywordLookupMissesNonKeywords(w);
  }

  /** An input that starts with an ASCII byte starts with that byte as the look-ahead. */
  lemma StartAscii(input: seq<nat>, report: Report)
    requires IsBytes(input) && |input| > 0 && input[0] < 128
    ensures Start(input, report).peek == input[0] && Start(input, report).pos == 1
    ensures Start(input, report).report == report
  {
    var u := Unread(input, report);
    assert AsciiAhead(u, 1);
    ConsumeAscii(u, false);
  }

  /** A whole input that is a word: the token for that word. */
  lemma WholeInputWord(input: seq<nat>, report: Report)
    requires |input| > 0 && (IsAlpha(input[0]) || input[0] == Cp('_'))
    requires forall j :: 0 <= j < |input| ==> input[j] < 128 && IsIdentChar(input[j])
    ensures var r := Lex(Start(input, report)); r.token == WordToken(Location(r.st), Chars(input))
  {
    StartAscii(input, report);
    var st := Start(input, report);
    WordFromStart(st);
    WordLexed(st);
  }

  /** Right after the start, the word rule reads the whole input when it is one word. */
  lemma WordFromStart(st: LexState)
    requires Valid(st) && |st.input| > 0 && st.pos == 1 && st.peek == st.input[0]
    requires IsAlpha(st.peek) || st.peek == Cp('_')
    requires forall j :: 0 <= j < |st.input| ==> st.input[j] < 128 && IsIdentChar(st.input[j])
    ensures IdentRest(StartToken(st)).str == Chars(st.input)
  {
    WordIsLongestRun(st, |st.input|);
    CharsCons(st.input);
  }

  /** The input `if` is the keyword `if`. */
  lemma IfIsKeyword(input: seq<nat>, report: Report)
    requires |input| == 2 && input[0] == Cp('i') && input[1] == Cp('f')
    ensures Lex(Start(input, report)).token.tag == K_if
  {
    WholeInputWord(input, report);
    IfText(input);
    KeywordIsRetagged(Location(Lex(Start(input, report)).st), K_if);
  }

  lemma IfText(input: seq<nat>)
    requires |input| == 2 && input[0] == Cp('i') && input[1] == Cp('f')
    ensures Chars(input) == TagToString(K_if)
  {
    CharsCons(input);
    CharsCons(input[1..]);
  }

  /** The input `iffy` is an identifier, not the keyword `if` and a rest. */
  lemma IffyIsIdentifier(input: seq<nat>, report: Report)
    requires |input| == 4 && input[0] == Cp('i') && input[1] == Cp('f') && input[2] == Cp('f') && input[3] == Cp('y')
    ensures var r := Lex(Start(input, report)); r.token == IdToken(Location(r.st), "iffy")
  {
    WholeInputWord(input, report);
    IffyText(input);
    IffyWord(Location(Lex(Start(input, report)).st));
  }

  lemma IffyText(input: seq<nat>)
    requires |input| == 4 && input[0] == Cp('i') && input[1] == Cp('f') && input[2] == Cp('f') && input[3] == Cp('y')
    ensures Chars(input) == "iffy"
  {
    CharsCons(input);
    CharsCons(input[1..]);
    CharsCons(input[2..]);
    CharsCons(input[3..]);
  }

  /** `iffy` is no keyword's spelling. */
  lemma IffyWord(loc: Loc)
    ensures WordToken(loc, "iffy") == IdToken(loc, "iffy")
  {
    OtherWordIsIdentifier(loc, "iffy");
  }

  // ---------------------------------------------------------------- literals

  /** Without a sign, `0b`, `0x` and `0o` select the base; neither the `0` nor the letter is part of the text. */
  lemma PrefixSelectsBase(st: LexState)
    requires Valid(st) && IsDec(st.peek) && AsciiAhead(st, 1)
    ensures var r := SignAndBase(st);
      && !r.num.sign && r.st.str == st.str
      && r.num.base ==
           if st.peek != Cp('0') then 10
           else if Ahead(st, 0) == Cp('b') then 2
           else if Ahead(st, 0) == Cp('x') then 16
           else if Ahead(st, 0) == Cp('o') then 8
           else 10
  {
    ConsumeAscii(st, false);
  }

  predicate AllDigits(d: string, base: nat) {
    forall i :: 0 <= i < |d| ==> DigitValue(d[i]) < base
  }

  /** `strto*` reads the whole of a text made of digits only. */
  lemma {:induction false} DigitRunOfDigits(d: string, base: nat)
    requires AllDigits(d, base)
    ensures DigitRun(d, base) == d
  {
    if d != [] {
      DigitRunOfDigits(d[1..], base);
    }
  }

  /** A literal without suffix has the value of its decimal digits, as long as that fits in 64 bits. */
  lemma UntypedValue(d: string)
    requires AllDigits(d, 10) && (|d| > 0 ==> d[0] != '-' && d[0] != '+') && DigitsValue(d, 10) < TwoTo64
    ensures MakeLiteral(LitUntyped, d, 10) == IntLit(LitUntyped, DigitsValue(d, 10))
  {
    DigitRunOfDigits(d, 10);
  }

  lemma TwoHundred()
    ensures Magnitude("200", 10) == 200
  {
    TwoHundredDigits();
    TwoHundredValue();
  }

  lemma TwoHundredDigits()
    ensures DigitRun("200", 10) == "200"
  {
    var d := "200";
    assert AllDigits(d, 10) by {
      assert d[0] == '2' && d[1] == '0' && d[2] == '0';
    }
    DigitRunOfDigits(d, 10);
  }

  lemma TwoHundredValue()
    ensures DigitsValue("200", 10) == 200
  {
    var d := "200";
    assert DigitsValue(d[..1], 10) == 2 by { assert d[..1][..0] == ""; }
    assert DigitsValue(d[..2], 10) == 20 by { assert d[..2][..1] == d[..1]; }
    assert d[..3] == d;
  }

  /** `200s8` wraps around to -56. */
  lemma SignedWidthWraps()
    ensures MakeLiteral(LitS8, "200", 10) == IntLit(LitS8, -56)
  {
    TwoHundred();
    assert StrToL("200", 10) == 200;
  }

  /** `0xffu8` is 255: the digits are read in base 16. */
  lemma HexUnsigned()
    ensures MakeLiteral(LitU8, "ff", 16) == IntLit(LitU8, 255)
  {
    assert DigitRun("ff", 16) == "ff" by { DigitRunOfDigits("ff", 16); }
    assert DigitsValue("ff", 16) == 255 by {
      assert "ff"[..1] == "f" && "f"[..0] == "";
    }
    assert Magnitude("ff", 16) == 255;
    assert StrToUL("ff", 16) == 255;
  }

  // ---------------------------------------------------------------- literal suffixes

  /** The look-ahead and the bytes after it spell the ASCII text `w`. */
  predicate Spells(st: LexState, w: string) {
    && |w| > 0
    && (forall j :: 0 <= j < |w| ==> w[j] < 128 as char)
    && st.peek == Cp(w[0])
    && (forall j :: 1 <= j < |w| ==> Ahead(st, j - 1) == Cp(w[j]))
  }

  /** Consuming the first character of a spelled text leaves the rest of it spelled, without any error. */
  lemma SpellsConsume(st: LexState, w: string)
    requires Valid(st) && Spells(st, w) && |w| > 1
    ensures var r := Consume(st, false);
      Spells(r, w[1..]) && r.report == st.report && r.str == st.str
  {
    assert Ahead(st, 0) == Cp(w[1]);
    ConsumeAscii(st, false);
    var r := Consume(st, false);
    forall j | 1 <= j < |w[1..]|
      ensures Ahead(r, j - 1) == Cp(w[1..][j])
    {
      assert Ahead(st, j) == Cp(w[j + 1]);
    }
  }

  /** `accept(str, false)` succeeds on a text that spells `str`. */
  lemma {:induction false} AcceptStrSpelled(st: LexState, w: string)
    requires Valid(st) && Spells(st, w)
    ensures AcceptStr(st, w).ok
    decreases |w|
  {
    if |w| > 1 {
      SpellsConsume(st, w);
      AcceptStrSpelled(Consume(st, false), w[1..]);
    } else {
      assert w[1..] == [];
    }
  }

  /**
    The chain of `accept(...)` of a suffix table picks the entry the text spells,
    when the entries before it start with another character.
   */
  lemma {:induction false} FirstSuffixFinds(st: LexState, table: seq<(string, LitKind)>, i: nat)
    requires Valid(st) && i < |table| && Spells(st, table[i].0)
    requires forall j :: 0 <= j < i ==> |table[j].0| > 0 && table[j].0[0] != table[i].0[0]
    ensures FirstSuffix(st, table) == (Some(table[i].1), AcceptStr(st, table[i].0).st)
    decreases i
  {
    if i == 0 {
      AcceptStrSpelled(st, table[0].0);
    } else {
      assert table[0].0[0] != table[i].0[0];
      assert !AcceptStr(st, table[0].0).ok && AcceptStr(st, table[0].0).st == st;
      assert table[1..][i - 1] == table[i];
      FirstSuffixFinds(st, table[1..], i - 1);
    }
  }

  /** No entry is taken, and nothing consumed, when the look-ahead starts none of them. */
  lemma {:induction false} FirstSuffixMisses(st: LexState, table: seq<(string, LitKind)>)
    requires Valid(st)
    requires forall j :: 0 <= j < |table| ==> |table[j].0| > 0 && st.peek != Cp(table[j].0[0])
    ensures FirstSuffix(st, table) == (None, st)
    decreases |table|
  {
    if table != [] {
      assert !AcceptStr(st, table[0].0).ok && AcceptStr(st, table[0].0).st == st;
      FirstSuffixMisses(st, table[1..]);
    }
  }

  const SignedTable: seq<(string, LitKind)> := WidthTable(LitS8, LitS16, LitS32, LitS64)
  const UnsignedTable: seq<(string, LitKind)> := WidthTable(LitU8, LitU16, LitU32, LitU64)

  /** `s8`, `s16`, `s32` and `s64` give the signed kind of that width whenever there is no fraction or exponent. */
  lemma SignedSuffixWidth(num: Number, st: LexState, i: nat)
    requires Valid(st) && !num.fract && !num.exp && i < 4
    requires Spells(st, "s" + SignedTable[i].0)
    ensures var r := Suffix(num, st);
      r.lit == Some(MakeLiteral(SignedTable[i].1, st.str, num.base))
  {
    var w := "s" + SignedTable[i].0;
    SpellsConsume(st, w);
    assert w[1..] == SignedTable[i].0;
    FirstSuffixFinds(Consume(st, false), SignedTable, i);
  }

  /** Without a sign, fraction or exponent, `u8` ... `u64` give the unsigned kind of that width. */
  lemma UnsignedSuffixWidth(num: Number, st: LexState, i: nat)
    requires Valid(st) && !num.fract && !num.exp && !num.sign && i < 4
    requires Spells(st, "u" + UnsignedTable[i].0)
    ensures var r := Suffix(num, st);
      r.lit == Some(MakeLiteral(UnsignedTable[i].1, st.str, num.base))
  {
    var w := "u" + UnsignedTable[i].0;
    SpellsConsume(st, w);
    assert w[1..] == UnsignedTable[i].0;
    FirstSuffixFinds(Consume(st, false), UnsignedTable, i);
  }

  /** In base 10, `r16`, `r32` and `r64` give the real kind of that width, with or without fraction and exponent. */
  lemma RealSuffixWidth(num: Number, st: LexState, i: nat)
    requires Valid(st) && num.base == 10 && i < 3
    requires Spells(st, "r" + RealWidths[i].0)
    ensures var r := Suffix(num, st);
      r.lit == Some(MakeLiteral(RealWidths[i].1, st.str, 10))
  {
    var w := "r" + RealWidths[i].0;
    SpellsConsume(st, w);
    assert w[1..] == RealWidths[i].0;
    FirstSuffixFinds(Consume(st, false), RealWidths, i);
    RIsNoIntSuffix(num, st);
  }

  lemma RIsNoIntSuffix(num: Number, st: LexState)
    requires Valid(st) && st.peek == Cp('r')
    ensures IntSuffix(num, st) == (None, st)
  {
    assert SignedSuffix(st) == (None, st);
    assert UnsignedKinds(st) == (None, st) by {
      assert UnsignedSuffix(st) == (None, st);
    }
  }

  /** Without a sign, fraction or exponent, the arity mark gives an arity literal, and is consumed and appended. */
  lemma AritySuffix(num: Number, st: LexState)
    requires Valid(st) && !num.fract && !num.exp && !num.sign && st.peek == ArityMark
    ensures var r := Suffix(num, st);
      && r.lit == Some(MakeLiteral(LitArity, st.str + [ArityMark as char], num.base))
      && r.st == Consume(st, true)
  {
  }

  /** Without a sign, fraction or exponent, an index mark gives an index literal and stays the look-ahead. */
  lemma IndexSuffix(num: Number, st: LexState)
    requires Valid(st) && !num.fract && !num.exp && !num.sign && 0x2080 < st.peek < ArityMark
    ensures var r := Suffix(num, st);
      r.lit == Some(MakeLiteral(LitIndex, st.str, num.base)) && r.st == st
  {
  }

  /** A look-ahead that starts no suffix. */
  predicate NoSuffixAhead(st: LexState) {
    st.peek !in {Cp('s'), Cp('u'), Cp('r')} && !(0x2080 < st.peek <= ArityMark)
  }

  /** A base-10 literal without fraction, exponent or suffix is untyped, and nothing more is consumed. */
  lemma UntypedWithoutSuffix(num: Number, st: LexState)
    requires Valid(st) && num.base == 10 && !num.fract && !num.exp && NoSuffixAhead(st)
    ensures Suffix(num, st) == LitRead(Some(MakeLiteral(LitUntyped, st.str, 10)), st)
  {
  }

  /** Any other literal without a suffix is the "invalid literal" error. */
  lemma InvalidWithoutSuffix(num: Number, st: LexState)
    requires Valid(st) && (num.base != 10 || num.fract || num.exp) && NoSuffixAhead(st)
    ensures Suffix(num, st) == LitRead(None, LexSpec.Error(st))
  {
  }

  // ---------------------------------------------------------------- decimal literals from the text

  /** The look-ahead is a decimal digit, and so are the bytes up to index `k`, and not the one at `k`. */
  predicate DecimalRunAhead(st: LexState, k: nat) {
    && Valid(st) && IsDec(st.peek) && st.pos <= k <= |st.input|
    && (forall j :: st.pos <= j < k ==> st.input[j] < 128 && IsDec(st.input[j]))
    && (k < |st.input| ==> st.input[k] < 128 && !IsDec(st.input[k]))
  }

  /** `parse_digits` appends the look-ahead and the bytes up to `k`, and stops in front of the byte at `k`. */
  predicate DigitsReads(st: LexState, k: nat)
    requires DecimalRunAhead(st, k)
  {
    var r := Digits(st, Decimal);
    && r.str == st.str + [st.peek as char] + Chars(st.input[st.pos..k])
    && r.pos == (if k < |st.input| then k + 1 else k)
    && r.peek == (if k < |st.input| then st.input[k] else EOF)
    && r.report == st.report
  }

  lemma DigitsTakesOne(st: LexState)
    requires Valid(st) && IsDec(st.peek) && AsciiAhead(st, 1)
    ensures var t := Take(st);
      && Digits(st, Decimal) == Digits(t, Decimal)
      && t.str == st.str + [st.peek as char]
      && t.peek == Ahead(st, 0)
      && t.pos == (if st.pos < |st.input| then st.pos + 1 else st.pos)
      && t.report == st.report
  {
    ConsumeAscii(st, true);
  }

  /** A run of decimal digits is read whole. */
  lemma {:induction false} DigitsRun(st: LexState, k: nat)
    requires DecimalRunAhead(st, k)
    ensures DigitsReads(st, k)
    decreases k - st.pos
  {
    DigitsTakesOne(st);
    var t := Take(st);
    if st.pos == k {
      assert st.input[st.pos..k] == [];
      assert Digits(t, Decimal) == t;
    } else {
      assert DecimalRunAhead(t, k);
      DigitsRun(t, k);
      var run := st.input[st.pos..k];
      assert run[0] == t.peek && run[1..] == st.input[t.pos..k];
      CharsAfter(st.str + [st.peek as char], run);
    }
  }

  /**
    A literal made of a decimal run that starts with 1 ... 9 and is not followed by
    `.`, `e` or `E` has no sign, base 10, no fraction and no exponent; its suffix
    is read in front of the byte at `k`.
   */
  lemma DecimalLiteralReadsDigits(st: LexState, k: nat)
    requires DecimalRunAhead(st, k) && st.peek != Cp('0')
    requires k < |st.input| ==> st.input[k] != Cp('.') && !IsExp(st.input[k])
    ensures ParseLiteral(st) == Suffix(Number(false, 10, false, false), Digits(st, Decimal))
    ensures DigitsReads(st, k)
  {
    DigitsRun(st, k);
    DecimalScan(st);
  }

  /** Digits that start with 1 ... 9 and are not followed by `.`, `e` or `E` are a plain base-10 number. */
  lemma DecimalScan(st: LexState)
    requires Valid(st) && IsDec(st.peek) && st.peek != Cp('0')
    requires var d := Digits(st, Decimal); d.peek != Cp('.') && !IsExp(d.peek)
    ensures ParseLiteral(st) == Suffix(Number(false, 10, false, false), Digits(st, Decimal))
  {
    var num := Number(false, 10, false, false);
    var d := Digits(st, Decimal);
    PlainDecimalScan(st);
    NoFractionNoExponent(num, d);
  }

  lemma PlainDecimalScan(st: LexState)
    requires Valid(st) && IsDec(st.peek) && st.peek != Cp('0')
    ensures ScanNumber(st) == FractionAndExponent(Number(false, 10, false, false), Digits(st, Decimal))
  {
    PlainDecimalStart(st);
    var sb := SignAndBase(st);
    assert sb.num.base == 10 && sb.st == st && DigitClass(sb.num.base) == Decimal;
  }

  lemma PlainDecimalStart(st: LexState)
    requires Valid(st) && IsDec(st.peek) && st.peek != Cp('0')
    ensures SignAndBase(st) == Scanned(Number(false, 10, false, false), st)
  {
  }

  lemma NoFractionNoExponent(num: Number, st: LexState)
    requires Valid(st) && st.peek != Cp('.') && !IsExp(st.peek)
    ensures FractionAndExponent(num, st) == Scanned(num.(fract := false, exp := false), st)
  {
  }

  /** The text `w` lies in the input from index `k` on. */
  predicate TextAt(input: seq<nat>, k: nat, w: string) {
    && k + |w| <= |input|
    && forall j :: 0 <= j < |w| ==> w[j] < 128 as char && input[k + j] == Cp(w[j])
  }

  /** The text in front of the look-ahead's successor, starting with the look-ahead, is spelled. */
  lemma SpellsOfText(st: LexState, k: nat, w: string)
    requires Valid(st) && |w| > 0 && TextAt(st.input, k, w) && st.pos == k + 1 && st.peek == st.input[k]
    ensures Spells(st, w)
  {
    forall j | 1 <= j < |w|
      ensures Ahead(st, j - 1) == Cp(w[j])
    {
      assert st.input[k + j] == Cp(w[j]);
    }
  }

  /** The decimal digits of the text before index `k`. */
  function DecimalText(st: LexState, k: nat): string
    requires DecimalRunAhead(st, k)
  {
    st.str + [st.peek as char] + Chars(st.input[st.pos..k])
  }

  /** A decimal run followed by `s8` ... `s64` is the signed literal of that width, read from the digits. */
  lemma SignedDecimalLiteral(st: LexState, k: nat, i: nat)
    requires DecimalRunAhead(st, k) && st.peek != Cp('0') && i < 4
    requires TextAt(st.input, k, "s" + SignedTable[i].0)
    ensures ParseLiteral(st).lit == Some(MakeLiteral(SignedTable[i].1, DecimalText(st, k), 10))
  {
    var w := "s" + SignedTable[i].0;
    assert st.input[k + 0] == Cp(w[0]);
    DecimalLiteralReadsDigits(st, k);
    var d := Digits(st, Decimal);
    SpellsOfText(d, k, w);
    SignedSuffixWidth(Number(false, 10, false, false), d, i);
  }

  /** A decimal run followed by `u8` ... `u64` is the unsigned literal of that width, read from the digits. */
  lemma UnsignedDecimalLiteral(st: LexState, k: nat, i: nat)
    requires DecimalRunAhead(st, k) && st.peek != Cp('0') && i < 4
    requires TextAt(st.input, k, "u" + UnsignedTable[i].0)
    ensures ParseLiteral(st).lit == Some(MakeLiteral(UnsignedTable[i].1, DecimalText(st, k), 10))
  {
    var w := "u" + UnsignedTable[i].0;
    assert st.input[k + 0] == Cp(w[0]);
    DecimalLiteralReadsDigits(st, k);
    var d := Digits(st, Decimal);
    SpellsOfText(d, k, w);
    UnsignedSuffixWidth(Number(false, 10, false, false), d, i);
  }

  /** A decimal run followed by no suffix at all is the untyped literal of the digits. */
  lemma UntypedDecimalLiteral(st: LexState, k: nat)
    requires DecimalRunAhead(st, k) && st.peek != Cp('0')
    requires k < |st.input| ==> st.input[k] != Cp('.') && !IsExp(st.input[k]) && st.input[k] !in {Cp('s'), Cp('u'), Cp('r')}
    ensures ParseLiteral(st).lit == Some(MakeLiteral(LitUntyped, DecimalText(st, k), 10))
  {
    DecimalLiteralReadsDigits(st, k);
    UntypedWithoutSuffix(Number(false, 10, false, false), Digits(st, Decimal));
  }
}
