/**
  The lexer of lexer.cpp as functions over a value state.

  The input stream is a sequence of bytes (`IsBytes`); reading past its end
  yields `EOF` and leaves the read position where it is. The lexer keeps one
  decoded code point of look-ahead (`peek`) and three positions: where that
  code point was read (`peekPos`), where the last consumed one was read
  (`back`), and where the current token starts (`front`). `str` collects the
  text of the current token; `report` is the compiler's diagnostic record.

  Each function here is what one member of the `Lexer` class does to that
  state; the class in module `LexerImpl` is proved to do exactly this.
 */
module LexSpec {
  import opened Basics
  import opened Diagnostics
  import opened Tokens

  /** What `stream_.get()` yields at the end of the input, as an unsigned 32-bit value. */
  const EOF: nat := 0xFFFF_FFFF

  function Cp(c: char): nat {
    c as nat
  }

  predicate IsBytes(s: seq<nat>) {
    forall i :: 0 <= i < |s| ==> s[i] < 256
  }

  /** A Unicode scalar value: what can be appended to a string. */
  predicate IsScalar(c: nat) {
    c < 0xD800 || 0xE000 <= c < 0x11_0000
  }

  // The character classes of lexer.cpp: space, decimal, hexadecimal, binary,
  // octal, exponent mark and sign.
  predicate IsSp(c: nat) {
    c == 32 || c == 12 || c == 10 || c == 13 || c == 9 || c == 11
  }

  predicate IsDec(c: nat) {
    Cp('0') <= c <= Cp('9')
  }

  predicate IsHex(c: nat) {
    IsDec(c) || Cp('a') <= c <= Cp('f') || Cp('A') <= c <= Cp('F')
  }

  predicate IsBin(c: nat) {
    Cp('0') <= c <= Cp('1')
  }

  predicate IsOct(c: nat) {
    Cp('0') <= c <= Cp('7')
  }

  predicate IsExp(c: nat) {
    c == Cp('e') || c == Cp('E')
  }

  predicate IsSgn(c: nat) {
    c == Cp('+') || c == Cp('-')
  }

  /** `std::isalpha` and `std::isalnum` in the "C" locale. */
  predicate IsAlpha(c: nat) {
    Cp('a') <= c <= Cp('z') || Cp('A') <= c <= Cp('Z')
  }

  predicate IsAlnum(c: nat) {
    IsAlpha(c) || IsDec(c)
  }

  /** The classes `accept_if` is called with. */
  datatype CharClass = Space | Binary | Octal | Decimal | Hexadecimal | Exponent | Sign

  predicate InClass(k: CharClass, c: nat) {
    match k
    case Space => IsSp(c)
    case Binary => IsBin(c)
    case Octal => IsOct(c)
    case Decimal => IsDec(c)
    case Hexadecimal => IsHex(c)
    case Exponent => IsExp(c)
    case Sign => IsSgn(c)
  }

  /** The digit class `parse_digits` uses for a base. */
  function DigitClass(base: nat): CharClass {
    if base == 2 then Binary
    else if base == 8 then Octal
    else if base == 16 then Hexadecimal
    else Decimal
  }

  datatype LexState = LexState(
    input: seq<nat>,
    pos: nat,
    peek: nat,
    peekPos: Pos,
    back: Pos,
    front: Pos,
    str: string,
    report: Report)

  /**
    The input is bytes, the read position lies within it, and the look-ahead is
    `EOF` only once the whole input has been read.
   */
  predicate Valid(st: LexState) {
    st.pos <= |st.input| && IsBytes(st.input) && (st.peek == EOF ==> st.pos == |st.input|)
  }

  /** Decreases with every consumed code point: unread bytes count twice, a pending look-ahead once. */
  function Remaining(st: LexState): nat
    requires st.pos <= |st.input|
  {
    2 * (|st.input| - st.pos) + (if st.peek == EOF then 0 else 1)
  }

  /** `location()`: from the token's start to the last code point consumed. */
  function Location(st: LexState): Loc {
    Loc(st.front, st.back)
  }

  /** `error(...)`: one error, at the current location. */
  function Error(st: LexState): (r: LexState)
    ensures r.report.numErrors == st.report.numErrors + 1
  {
    st.(report := AddError(st.report, Location(st)))
  }

  /** A value read, and the state after reading it. */
  datatype Read = Read(value: nat, st: LexState)

  /** `stream_.get()`. */
  function Get(st: LexState): (r: Read)
    requires Valid(st)
    ensures r.value == EOF || r.value < 256
    ensures r.value == EOF <==> st.pos == |st.input|
  {
    if st.pos < |st.input| then Read(st.input[st.pos], st.(pos := st.pos + 1))
    else Read(EOF, st)
  }

  /**
    `get_next_utf8_byte`: the low six bits of the next byte; a byte that is not
    of the form 10xxxxxx (the end of the input included) is an error.
   */
  function Continuation(st: LexState): (r: Read)
    requires Valid(st)
    ensures r.value < 64
    ensures Valid(r.st) && r.st.input == st.input && r.st.peek == st.peek && r.st.str == st.str
    ensures r.st.front == st.front && r.st.back == st.back && r.st.peekPos == st.peekPos
    ensures r.st.pos == st.pos + 1 || (r.st.pos == st.pos == |st.input|)
  {
    var g := Get(st);
    Read(g.value % 64, if g.value < 128 || (g.value / 64) % 2 == 1 then Error(g.st) else g.st)
  }

  /** `update_peek` and the one-byte case: the look-ahead moves one column (or to the next line). */
  function Shifted(st: LexState, v: nat, newline: bool): LexState {
    st.(back := st.peekPos,
        peekPos := if newline then Pos(st.peekPos.line + 1, 1) else Pos(st.peekPos.line, st.peekPos.col + 1),
        peek := v)
  }

  /** What `next()` does once it has read the lead byte `b1`, except for an invalid lead byte. */
  function Decode(st: LexState, b1: nat, s1: LexState): (r: Read)
    requires Valid(st) && Valid(s1) && s1.input == st.input && s1.peek == st.peek && s1.str == st.str
    requires s1.front == st.front && b1 < 248 && (b1 < 128 || 192 <= b1)
    requires s1.pos == st.pos + 1
    ensures Valid(r.st) && r.st.input == st.input && r.st.str == st.str && r.st.front == st.front
    ensures r.value == st.peek
    ensures Remaining(r.st) < Remaining(st)
  {
    if b1 < 128 then
      Read(st.peek, Shifted(s1, b1, b1 == 10))
    else if b1 < 224 then
      var c2 := Continuation(s1);
      Read(st.peek, Shifted(c2.st, (b1 % 32) * 64 + c2.value, false))
    else if b1 < 240 then
      var c2 := Continuation(s1);
      var c3 := Continuation(c2.st);
      Read(st.peek, Shifted(c3.st, (b1 % 16) * 4096 + c2.value * 64 + c3.value, false))
    else
      var c2 := Continuation(s1);
      var c3 := Continuation(c2.st);
      var c4 := Continuation(c3.st);
      Read(st.peek, Shifted(c4.st, (b1 % 8) * 262144 + c2.value * 4096 + c3.value * 64 + c4.value, false))
  }

  /**
    `next()`: decodes one UTF-8 sequence into the look-ahead and returns the old
    look-ahead. At the end of the input the look-ahead becomes `EOF`. A lead
    byte of the form 10xxxxxx or 11111xxx is an error; it is consumed and
    decodes to 0 (see `NextAsWritten` for what lexer.cpp does instead).
   */
  function Next(st: LexState): (r: Read)
    requires Valid(st)
    ensures Valid(r.st) && r.st.input == st.input && r.st.str == st.str && r.st.front == st.front
    ensures Remaining(r.st) <= Remaining(st)
    ensures st.peek != EOF ==> Remaining(r.st) < Remaining(st)
    ensures r.st.peek == EOF <==> st.pos == |st.input|
  {
    var g := Get(st);
    if g.value == EOF then Read(st.peek, g.st.(peek := EOF))
    else if g.value < 128 || (192 <= g.value < 248) then Decode(st, g.value, g.st)
    else Read(0, Shifted(Error(g.st), 0, false))
  }

  /**
    `next()` as lexer.cpp writes it: on an invalid lead byte it reports the error
    and returns 0 without touching the look-ahead, so the code point before the
    invalid byte is seen a second time.
   */
  function NextAsWritten(st: LexState): (r: Read)
    requires Valid(st)
    ensures Valid(r.st) && r.st.input == st.input
  {
    var g := Get(st);
    if g.value == EOF then Read(st.peek, g.st.(peek := EOF))
    else if g.value < 128 || (192 <= g.value < 248) then Decode(st, g.value, g.st)
    else Read(0, Error(g.st))
  }

  /** Consumes the look-ahead, first appending it to the token text when `append` is set. */
  function Consume(st: LexState, append: bool): (r: LexState)
    requires Valid(st) && (append ==> IsScalar(st.peek))
    ensures Valid(r) && r.input == st.input && r.front == st.front
    ensures r.str == (if append then st.str + [st.peek as char] else st.str)
    ensures Remaining(r) <= Remaining(st)
    ensures st.peek != EOF ==> Remaining(r) < Remaining(st)
  {
    Next(if append then st.(str := st.str + [st.peek as char]) else st).st
  }

  /** Consumes and appends an ASCII look-ahead (the `accept(c)` of the token rules). */
  function Take(st: LexState): (r: LexState)
    requires Valid(st) && st.peek < 128
    ensures Valid(r) && r.input == st.input && Remaining(r) < Remaining(st)
  {
    Consume(st, true)
  }

  /** Whether a code point was accepted, and the state after. */
  datatype Accepted = Accepted(ok: bool, st: LexState)

  /** `accept(c, append)`: consumes the look-ahead when it is `c`. */
  function Accept(st: LexState, c: nat, append: bool): (r: Accepted)
    requires Valid(st) && (append ==> IsScalar(c))
    ensures r.ok <==> st.peek == c
    ensures r.st == if r.ok then Consume(st, append) else st
  {
    if st.peek == c then Accepted(true, Consume(st, append)) else Accepted(false, st)
  }

  /** `accept_if(pred, append)`: consumes the look-ahead when it is in the class. */
  function AcceptIf(st: LexState, k: CharClass, append: bool): (r: Accepted)
    requires Valid(st)
    ensures r.ok <==> InClass(k, st.peek)
    ensures r.st == if r.ok then Consume(st, append) else st
  {
    if InClass(k, st.peek) then Accepted(true, Consume(st, append)) else Accepted(false, st)
  }

  /**
    `accept(s, false)`: the characters of `s` one after the other; a prefix that
    was accepted before a mismatch stays consumed.
   */
  function AcceptStr(st: LexState, s: string): (r: Accepted)
    requires Valid(st)
    ensures Valid(r.st) && r.st.input == st.input && Remaining(r.st) <= Remaining(st)
    ensures r.st.front == st.front && r.st.str == st.str
    decreases |s|
  {
    if s == [] then Accepted(true, st)
    else if st.peek == Cp(s[0]) then AcceptStr(Consume(st, false), s[1..])
    else Accepted(false, st)
  }

  /** Skips white space without appending it to the token text. */
  function SkipSpaces(st: LexState): (r: LexState)
    requires Valid(st)
    ensures Valid(r) && r.input == st.input && Remaining(r) <= Remaining(st)
    ensures r.front == st.front && r.str == st.str && !IsSp(r.peek)
    decreases Remaining(st)
  {
    if IsSp(st.peek) then SkipSpaces(Consume(st, false)) else st
  }

  /** Skips code points until `c` is the look-ahead or the input is used up. */
  function SkipUntil(st: LexState, c: nat): (r: LexState)
    requires Valid(st)
    ensures Valid(r) && r.input == st.input && Remaining(r) <= Remaining(st)
    ensures r.front == st.front && r.str == st.str
    ensures r.peek == EOF || r.peek == c
    decreases Remaining(st)
  {
    if st.peek != EOF && st.peek != c then SkipUntil(Consume(st, false), c) else st
  }

  // `eat_comments`: skips to the star and slash that close a block comment and
  // consumes them, or reports one error when the input ends first.
  function EatComments(st: LexState): (r: LexState)
    requires Valid(st)
    ensures Valid(r) && r.input == st.input && Remaining(r) <= Remaining(st)
    ensures r.front == st.front
    decreases Remaining(st)
  {
    var s1 := SkipUntil(st, Cp('*'));
    if s1.peek == EOF then Error(s1)
    else
      var s2 := Consume(s1, false);
      if s2.peek == Cp('/') then Take(s2) else EatComments(s2)
  }

  /** The rest of an identifier: letters, digits and underscores, appended for as long as one is the look-ahead. */
  function IdentRest(st: LexState): (r: LexState)
    requires Valid(st)
    ensures Valid(r) && r.input == st.input && Remaining(r) <= Remaining(st)
    ensures r.front == st.front && !(IsAlnum(r.peek) || r.peek == Cp('_'))
    decreases Remaining(st)
  {
    if IsAlnum(st.peek) || st.peek == Cp('_') then IdentRest(Take(st)) else st
  }

  /** The digits of `parse_digits`: code points of the class, appended to the token text for as long as one is the look-ahead. */
  function Digits(st: LexState, k: CharClass): (r: LexState)
    requires Valid(st)
    ensures Valid(r) && r.input == st.input && Remaining(r) <= Remaining(st)
    ensures r.front == st.front && !InClass(k, r.peek)
    ensures InClass(k, st.peek) ==> Remaining(r) < Remaining(st)
    ensures |st.str| <= |r.str| && r.str[..|st.str|] == st.str
    ensures forall i :: |st.str| <= i < |r.str| ==> InClass(k, r.str[i] as nat)
    decreases Remaining(st)
  {
    if InClass(k, st.peek) then
      var s1 := Consume(st, true);
      var r := Digits(s1, k);
      assert r.str[..|s1.str|] == s1.str;
      assert r.str[..|st.str|] == s1.str[..|st.str|];
      assert r.str[|st.str|] as nat == st.peek by {
        assert r.str[..|s1.str|][|st.str|] == s1.str[|st.str|];
      }
      r
    else st
  }

  // ---------------------------------------------------------------- literals

  /** `Literal::Tag`. */
  datatype LitKind = LitS8 | LitS16 | LitS32 | LitS64 | LitU8 | LitU16 | LitU32 | LitU64 | LitR16 | LitR32 | LitR64 | LitArity | LitIndex | LitUntyped

  predicate IsSignedKind(k: LitKind) {
    k in {LitS8, LitS16, LitS32, LitS64}
  }

  predicate IsRealKind(k: LitKind) {
    k in {LitR16, LitR32, LitR64}
  }

  /** A literal: an integer value, or the text a floating-point value is read from. */
  datatype Literal = IntLit(kind: LitKind, value: int) | RealLit(kind: LitKind, text: string)

  /** What `parse_literal` found before the suffix: a sign, the base, a fraction and an exponent. */
  datatype Number = Number(sign: bool, base: nat, fract: bool, exp: bool)

  datatype Scanned = Scanned(num: Number, st: LexState)

  /** A literal found (or not), and the state after. */
  datatype LitRead = LitRead(lit: Option<Literal>, st: LexState)

  /** The value of a digit in bases up to 16; 16 for anything else. */
  function DigitValue(c: char): nat {
    if '0' <= c <= '9' then c as nat - '0' as nat
    else if 'a' <= c <= 'f' then c as nat - 'a' as nat + 10
    else if 'A' <= c <= 'F' then c as nat - 'A' as nat + 10
    else 16
  }

  /** The longest prefix of `s` made of digits of `base`. */
  function DigitRun(s: string, base: nat): (r: string)
    ensures |r| <= |s| && r == s[..|r|]
    ensures forall i :: 0 <= i < |r| ==> DigitValue(r[i]) < base
  {
    if s == [] || DigitValue(s[0]) >= base then [] else [s[0]] + DigitRun(s[1..], base)
  }

  /** The value of a string of digits of `base`, most significant first. */
  function DigitsValue(d: string, base: nat): nat {
    if d == [] then 0 else DigitsValue(d[..|d| - 1], base) * base + DigitValue(d[|d| - 1])
  }

  const TwoTo63: int := 0x8000_0000_0000_0000
  const TwoTo64: nat := 0x1_0000_0000_0000_0000

  /** The magnitude `strto*` reads: an optional sign, then the longest run of digits. */
  function Magnitude(s: string, base: nat): nat {
    var rest := if |s| > 0 && (s[0] == '+' || s[0] == '-') then s[1..] else s;
    DigitsValue(DigitRun(rest, base), base)
  }

  predicate Negative(s: string) {
    |s| > 0 && s[0] == '-'
  }

  /** `strtol`/`strtoll` on a 64-bit target: out-of-range values saturate. */
  function StrToL(s: string, base: nat): (r: int)
    ensures -TwoTo63 <= r < TwoTo63
  {
    var m := Magnitude(s, base);
    if Negative(s) then (if m > TwoTo63 then -TwoTo63 else -(m as int))
    else (if m >= TwoTo63 then TwoTo63 - 1 else m)
  }

  /** `strtoul`/`strtoull` on a 64-bit target: saturates, and negates modulo 2^64 after a '-'. */
  function StrToUL(s: string, base: nat): (r: nat)
    ensures r < TwoTo64
  {
    var m := Magnitude(s, base);
    if m >= TwoTo64 then TwoTo64 - 1
    else if Negative(s) then (TwoTo64 - m) % TwoTo64
    else m
  }

  /** Conversion to a signed integer of `2^bits` values: two's-complement wrap-around. */
  function WrapSigned(v: int, modulus: nat): (r: int)
    requires modulus >= 2 && modulus % 2 == 0
    ensures -(modulus / 2) <= r < modulus / 2
  {
    (v + modulus / 2) % modulus - modulus / 2
  }

  /** Conversion to an unsigned integer of `modulus` values. */
  function WrapUnsigned(v: int, modulus: nat): (r: nat)
    requires modulus > 0
    ensures r < modulus
  {
    v % modulus
  }

  /** The literal of a given kind read from the token text `s`. */
  function MakeLiteral(k: LitKind, s: string, base: nat): (r: Literal)
    ensures r.kind == k && (IsRealKind(k) <==> r.RealLit?)
  {
    match k
    case LitS8 => IntLit(LitS8, WrapSigned(StrToL(s, base), 0x100))
    case LitS16 => IntLit(LitS16, WrapSigned(StrToL(s, base), 0x1_0000))
    case LitS32 => IntLit(LitS32, WrapSigned(StrToL(s, base), 0x1_0000_0000))
    case LitS64 => IntLit(LitS64, StrToL(s, base))
    case LitU8 => IntLit(LitU8, WrapUnsigned(StrToUL(s, base), 0x100))
    case LitU16 => IntLit(LitU16, WrapUnsigned(StrToUL(s, base), 0x1_0000))
    case LitU32 => IntLit(LitU32, WrapUnsigned(StrToUL(s, base), 0x1_0000_0000))
    case LitU64 => IntLit(LitU64, StrToUL(s, base))
    case LitArity => IntLit(LitArity, StrToUL(s, base))
    case LitIndex => IntLit(LitIndex, StrToUL(s, base))
    case LitUntyped => IntLit(LitUntyped, StrToUL(s, 10))
    case LitR16 => RealLit(LitR16, s)
    case LitR32 => RealLit(LitR32, s)
    case LitR64 => RealLit(LitR64, s)
  }

  /** The optional sign and the base prefix of `parse_literal`. */
  function SignAndBase(st: LexState): (r: Scanned)
    requires Valid(st)
    ensures Valid(r.st) && r.st.input == st.input && Remaining(r.st) <= Remaining(st) && r.st.front == st.front
    ensures r.num.base in {2, 8, 10, 16} && !r.num.fract && !r.num.exp
    ensures IsSgn(st.peek) || st.peek == Cp('0') ==> Remaining(r.st) < Remaining(st)
    ensures !IsSgn(st.peek) && st.peek != Cp('0') ==> r == Scanned(Number(false, 10, false, false), st)
  {
    var sign := st.peek == Cp('-');
    var s1 := if IsSgn(st.peek) then Take(st) else st;
    if s1.peek == Cp('0') then
      var s2 := Consume(s1, false);
      if s2.peek == Cp('b') then Scanned(Number(sign, 2, false, false), Consume(s2, false))
      else if s2.peek == Cp('x') then Scanned(Number(sign, 16, false, false), Consume(s2, false))
      else if s2.peek == Cp('o') then Scanned(Number(sign, 8, false, false), Consume(s2, false))
      else Scanned(Number(sign, 10, false, false), s2)
    else Scanned(Number(sign, 10, false, false), s1)
  }

  /** The digits, and for base 10 the fraction and the exponent, of `parse_literal`. */
  function ScanNumber(st: LexState): (r: Scanned)
    requires Valid(st)
    ensures Valid(r.st) && r.st.input == st.input && Remaining(r.st) <= Remaining(st) && r.st.front == st.front
    ensures r.num.base in {2, 8, 10, 16}
    ensures r.num.base != 10 ==> !r.num.fract && !r.num.exp
    ensures IsDec(st.peek) || st.peek == Cp('.') || IsSgn(st.peek) ==> Remaining(r.st) < Remaining(st)
  {
    var sb := SignAndBase(st);
    var s1 := Digits(sb.st, DigitClass(sb.num.base));
    if sb.num.base == 10 then FractionAndExponent(sb.num, s1) else Scanned(sb.num, s1)
  }

  /** The fraction (a '.' and digits) and then the exponent of a base-10 literal. */
  function FractionAndExponent(num: Number, st: LexState): (r: Scanned)
    requires Valid(st)
    ensures Valid(r.st) && r.st.input == st.input && Remaining(r.st) <= Remaining(st) && r.st.front == st.front
    ensures r.num == num.(fract := r.num.fract, exp := r.num.exp)
    ensures st.peek == Cp('.') ==> Remaining(r.st) < Remaining(st)
  {
    var f := FractionPart(st);
    var e := ExponentPart(f.st);
    Scanned(num.(fract := f.ok, exp := e.ok), e.st)
  }

  /** An optional fraction: a '.' and decimal digits. */
  function FractionPart(st: LexState): (r: Accepted)
    requires Valid(st)
    ensures Valid(r.st) && r.st.input == st.input && Remaining(r.st) <= Remaining(st) && r.st.front == st.front
    ensures r.ok <==> st.peek == Cp('.')
  {
    if st.peek == Cp('.') then Accepted(true, Digits(Take(st), Decimal)) else Accepted(false, st)
  }

  /** An optional exponent: 'e' or 'E', an optional sign, decimal digits. */
  function ExponentPart(st: LexState): (r: Accepted)
    requires Valid(st)
    ensures Valid(r.st) && r.st.input == st.input && Remaining(r.st) <= Remaining(st) && r.st.front == st.front
    ensures r.ok <==> IsExp(st.peek)
  {
    if IsExp(st.peek) then Accepted(true, Digits(AcceptIf(Take(st), Sign, true).st, Decimal)) else Accepted(false, st)
  }

  /** The table of width suffixes a signed or an unsigned literal may carry. */
  function WidthTable(w8: LitKind, w16: LitKind, w32: LitKind, w64: LitKind): seq<(string, LitKind)> {
    [("8", w8), ("16", w16), ("32", w32), ("64", w64)]
  }

  /** The width suffixes of a real literal. */
  const RealWidths: seq<(string, LitKind)> := [("16", LitR16), ("32", LitR32), ("64", LitR64)]

  /**
    Tries the suffixes of `table` in turn, as the chains of `accept("8", false)`,
    `accept("16", false)`, ... do; what a failed attempt consumed stays consumed.
   */
  function FirstSuffix(st: LexState, table: seq<(string, LitKind)>): (r: (Option<LitKind>, LexState))
    requires Valid(st)
    ensures Valid(r.1) && r.1.input == st.input && Remaining(r.1) <= Remaining(st)
    ensures r.1.front == st.front && r.1.str == st.str
    ensures r.0.Some? ==> exists i :: 0 <= i < |table| && table[i].1 == r.0.value
    decreases |table|
  {
    if table == [] then (None, st)
    else
      var a := AcceptStr(st, table[0].0);
      if a.ok then (Some(table[0].1), a.st)
      else
        var r := FirstSuffix(a.st, table[1..]);
        if r.0.Some? then
          var i :| 0 <= i < |table| - 1 && table[1..][i].1 == r.0.value;
          assert table[i + 1].1 == r.0.value;
          r
        else r
  }

  /** The `s` suffix: `s8` ... `s64`; 's' stays consumed when no width follows. */
  function SignedSuffix(st: LexState): (r: (Option<LitKind>, LexState))
    requires Valid(st)
    ensures Valid(r.1) && r.1.input == st.input && Remaining(r.1) <= Remaining(st)
    ensures r.1.front == st.front && r.1.str == st.str
    ensures r.0.Some? ==> IsSignedKind(r.0.value)
  {
    if st.peek == Cp('s') then FirstSuffix(Consume(st, false), WidthTable(LitS8, LitS16, LitS32, LitS64))
    else (None, st)
  }

  /** The `u` suffix: `u8` ... `u64`. */
  function UnsignedSuffix(st: LexState): (r: (Option<LitKind>, LexState))
    requires Valid(st)
    ensures Valid(r.1) && r.1.input == st.input && Remaining(r.1) <= Remaining(st)
    ensures r.1.front == st.front && r.1.str == st.str
    ensures r.0.Some? ==> r.0.value in {LitU8, LitU16, LitU32, LitU64}
  {
    if st.peek == Cp('u') then FirstSuffix(Consume(st, false), WidthTable(LitU8, LitU16, LitU32, LitU64))
    else (None, st)
  }

  /** The `r` suffix of base-10 literals: `r16`, `r32`, `r64`. */
  function RealSuffix(st: LexState): (r: (Option<LitKind>, LexState))
    requires Valid(st)
    ensures Valid(r.1) && r.1.input == st.input && Remaining(r.1) <= Remaining(st)
    ensures r.1.front == st.front && r.1.str == st.str
    ensures r.0.Some? ==> IsRealKind(r.0.value)
  {
    if st.peek == Cp('r') then FirstSuffix(Consume(st, false), RealWidths) else (None, st)
  }

  /** The code point that marks an arity literal (subscript a). */
  const ArityMark: nat := 0x2090

  /** The suffixes allowed only without fraction or exponent: signed, then (without sign) the unsigned ones. */
  function IntSuffix(num: Number, st: LexState): (r: (Option<LitKind>, LexState))
    requires Valid(st)
    ensures Valid(r.1) && r.1.input == st.input && Remaining(r.1) <= Remaining(st) && r.1.front == st.front
    ensures r.0.Some? ==> !IsRealKind(r.0.value) && r.0.value != LitUntyped
    ensures r.0.Some? && !IsSignedKind(r.0.value) ==> !num.sign
  {
    var s := SignedSuffix(st);
    if s.0.Some? then s
    else if !num.sign then UnsignedKinds(s.1)
    else (None, s.1)
  }

  /** `u8` ... `u64`, the arity mark (consumed and appended), or an index mark (left as look-ahead). */
  function UnsignedKinds(st: LexState): (r: (Option<LitKind>, LexState))
    requires Valid(st)
    ensures Valid(r.1) && r.1.input == st.input && Remaining(r.1) <= Remaining(st) && r.1.front == st.front
    ensures r.0.Some? ==> r.0.value in {LitU8, LitU16, LitU32, LitU64, LitArity, LitIndex}
  {
    var u := UnsignedSuffix(st);
    if u.0.Some? then u
    else if u.1.peek == ArityMark then (Some(LitArity), Consume(u.1, true))
    else if 0x2080 < u.1.peek < 0x2090 then (Some(LitIndex), u.1)
    else (None, u.1)
  }

  /**
    The suffix part of `parse_literal`. The literal's value is read from the
    token text once the suffix is known. No valid suffix and a fraction or an
    exponent (or a base other than 10) is the "invalid literal" error, after
    which lexer.cpp falls off the end of `parse_literal`; here that is `None`.
   */
  function Suffix(num: Number, st: LexState): (r: LitRead)
    requires Valid(st)
    ensures Valid(r.st) && r.st.input == st.input && Remaining(r.st) <= Remaining(st) && r.st.front == st.front
    ensures r.lit.Some? && IsSignedKind(r.lit.value.kind) ==> !num.fract && !num.exp
    ensures r.lit.Some? && !IsSignedKind(r.lit.value.kind) && !IsRealKind(r.lit.value.kind) && r.lit.value.kind != LitUntyped ==>
              !num.fract && !num.exp && !num.sign
    ensures r.lit.Some? && IsRealKind(r.lit.value.kind) ==> num.base == 10
    ensures r.lit.Some? && r.lit.value.kind == LitUntyped ==> num.base == 10 && !num.fract && !num.exp
    ensures r.lit.None? ==> num.base != 10 || num.fract || num.exp
  {
    var i := if !num.exp && !num.fract then IntSuffix(num, st) else (None, st);
    if i.0.Some? then LitRead(Some(MakeLiteral(i.0.value, i.1.str, num.base)), i.1)
    else RealOrUntyped(num, i.1)
  }

  /** The rest of the suffix part once no integer suffix was found: a real suffix, none at all, or the error. */
  function RealOrUntyped(num: Number, st: LexState): (r: LitRead)
    requires Valid(st)
    ensures Valid(r.st) && r.st.input == st.input && Remaining(r.st) <= Remaining(st) && r.st.front == st.front
    ensures r.lit.Some? ==> IsRealKind(r.lit.value.kind) || r.lit.value.kind == LitUntyped
    ensures r.lit.Some? && IsRealKind(r.lit.value.kind) ==> num.base == 10
    ensures r.lit.Some? && r.lit.value.kind == LitUntyped ==> num.base == 10 && !num.fract && !num.exp
    ensures r.lit.None? ==> num.base != 10 || num.fract || num.exp
  {
    var rs := if num.base == 10 then RealSuffix(st) else (None, st);
    if rs.0.Some? then LitRead(Some(MakeLiteral(rs.0.value, rs.1.str, num.base)), rs.1)
    else if num.base == 10 && !num.fract && !num.exp then LitRead(Some(MakeLiteral(LitUntyped, rs.1.str, 10)), rs.1)
    else LitRead(None, Error(rs.1))
  }

  /** `parse_literal`. */
  function ParseLiteral(st: LexState): (r: LitRead)
    requires Valid(st)
    ensures Valid(r.st) && r.st.input == st.input && Remaining(r.st) <= Remaining(st) && r.st.front == st.front
    ensures IsDec(st.peek) || st.peek == Cp('.') || IsSgn(st.peek) ==> Remaining(r.st) < Remaining(st)
  {
    var sc := ScanNumber(st);
    Suffix(sc.num, sc.st)
  }

  /** The token for a literal; an invalid literal gives an error token. */
  function LiteralToken(loc: Loc, lit: Option<Literal>): (r: Token)
    ensures PayloadFits(r) && r.tag in {L_s, L_u, L_f, M_error}
  {
    match lit
    case None => TagToken(loc, M_error)
    case Some(RealLit(_, text)) => FloatToken(loc, Float(text))
    case Some(IntLit(k, v)) =>
      if IsSignedKind(k) then SignedToken(loc, v) else UnsignedToken(loc, if v < 0 then 0 else v)
  }

  // ---------------------------------------------------------------- lex

  /** One turn of `lex`'s loop: a token, a skip (white space, a comment, an invalid character), or no match yet. */
  datatype Step = Emit(token: Token, st: LexState) | Skip(st: LexState) | NoMatch

  /** The step is well behaved: the state stays valid, and a token or a skip consumes something. */
  predicate Progress(st: LexState, r: Step)
    requires Valid(st)
  {
    match r
    case Emit(t, s) => Valid(s) && s.input == st.input && Remaining(s) < Remaining(st) && t.tag != M_eof
    case Skip(s) => Valid(s) && s.input == st.input && Remaining(s) < Remaining(st)
    case NoMatch => true
  }

  function Tok(st: LexState, tag: Tag): Step
    requires tag !in {L_s, L_u, L_f}
  {
    Emit(TagToken(Location(st), tag), st)
  }

  /** Consumes the look-ahead if it is `c` and then gives `yes`, or else gives `no` without consuming. */
  function Either(st: LexState, c: char, yes: Tag, no: Tag): (r: Step)
    requires Valid(st) && c < 128 as char && yes !in {L_s, L_u, L_f, M_eof} && no !in {L_s, L_u, L_f, M_eof}
    ensures r.Emit? && r.token.tag in {yes, no} && Valid(r.st) && r.st.input == st.input && Remaining(r.st) <= Remaining(st)
  {
    if st.peek == Cp(c) then Tok(Take(st), yes) else Tok(st, no)
  }

  /** `( ) { } [ ]`. */
  function Delimiter(st: LexState): (r: Step)
    requires Valid(st)
    ensures Progress(st, r)
    ensures r.NoMatch? <==> st.peek !in {Cp('('), Cp(')'), Cp('{'), Cp('}'), Cp('['), Cp(']')}
  {
    if st.peek == Cp('(') then Tok(Take(st), D_l_paren)
    else if st.peek == Cp(')') then Tok(Take(st), D_r_paren)
    else if st.peek == Cp('{') then Tok(Take(st), D_l_brace)
    else if st.peek == Cp('}') then Tok(Take(st), D_r_brace)
    else if st.peek == Cp('[') then Tok(Take(st), D_l_bracket)
    else if st.peek == Cp(']') then Tok(Take(st), D_r_bracket)
    else NoMatch
  }

  /** `. .. ... , ; : ::`; `..` is an error. */
  function Punctuation(st: LexState): (r: Step)
    requires Valid(st)
    ensures Progress(st, r)
    ensures r.NoMatch? <==> st.peek !in {Cp('.'), Cp(','), Cp(';'), Cp(':')}
  {
    if st.peek == Cp('.') then
      var s1 := Take(st);
      if s1.peek == Cp('.') then
        var s2 := Take(s1);
        if s2.peek == Cp('.') then Tok(Take(s2), P_dots)
        else Tok(Error(s2), M_error)
      else Tok(s1, P_dot)
    else if st.peek == Cp(',') then Tok(Take(st), P_comma)
    else if st.peek == Cp(';') then Tok(Take(st), P_semicolon)
    else if st.peek == Cp(':') then Either(Take(st), ':', P_colon_colon, P_colon)
    else NoMatch
  }

  /** `= == < << <<= <= > >> >>= >=`. */
  function Comparison(st: LexState): (r: Step)
    requires Valid(st)
    ensures Progress(st, r)
    ensures r.NoMatch? <==> st.peek !in {Cp('='), Cp('<'), Cp('>')}
  {
    if st.peek == Cp('=') then Either(Take(st), '=', O_cmp_eq, O_eq)
    else if st.peek == Cp('<') then
      var s1 := Take(st);
      if s1.peek == Cp('<') then Either(Take(s1), '=', O_l_shift_eq, O_l_shift)
      else Either(s1, '=', O_cmp_le, O_cmp_lt)
    else if st.peek == Cp('>') then
      var s1 := Take(st);
      if s1.peek == Cp('>') then Either(Take(s1), '=', O_r_shift_eq, O_r_shift)
      else Either(s1, '=', O_cmp_ge, O_cmp_gt)
    else NoMatch
  }

  /** `+ ++ += - -> -- -= * *= / /= % %=`, and the two kinds of comment after '/'. */
  function Arithmetic(st: LexState): (r: Step)
    requires Valid(st)
    ensures Progress(st, r)
    ensures r.NoMatch? <==> st.peek !in {Cp('+'), Cp('-'), Cp('*'), Cp('/'), Cp('%')}
  {
    if st.peek == Cp('+') then
      var s1 := Take(st);
      if s1.peek == Cp('+') then Tok(Take(s1), O_inc) else Either(s1, '=', O_add_eq, O_add)
    else if st.peek == Cp('-') then
      var s1 := Take(st);
      if s1.peek == Cp('>') then Tok(Take(s1), O_arrow)
      else if s1.peek == Cp('-') then Tok(Take(s1), O_dec)
      else Either(s1, '=', O_sub_eq, O_sub)
    else if st.peek == Cp('*') then Either(Take(st), '=', O_mul_eq, O_mul)
    else if st.peek == Cp('/') then
      var s1 := Take(st);
      if s1.peek == Cp('*') then Skip(EatComments(Take(s1)))
      else if s1.peek == Cp('/') then Skip(SkipUntil(Take(s1), 10))
      else Either(s1, '=', O_div_eq, O_div)
    else if st.peek == Cp('%') then Either(Take(st), '=', O_mod_eq, O_mod)
    else NoMatch
  }

  /** `& && &= | || |= ^ ^= ! !=`. */
  function Bitwise(st: LexState): (r: Step)
    requires Valid(st)
    ensures Progress(st, r)
    ensures r.NoMatch? <==> st.peek !in {Cp('&'), Cp('|'), Cp('^'), Cp('!')}
  {
    if st.peek == Cp('&') then
      var s1 := Take(st);
      if s1.peek == Cp('&') then Tok(Take(s1), O_and_and) else Either(s1, '=', O_and_eq, O_and)
    else if st.peek == Cp('|') then
      var s1 := Take(st);
      if s1.peek == Cp('|') then Tok(Take(s1), O_or_or) else Either(s1, '=', O_or_eq, O_or)
    else if st.peek == Cp('^') then Either(Take(st), '=', O_xor_eq, O_xor)
    else if st.peek == Cp('!') then Either(Take(st), '=', O_cmp_ne, O_not)
    else NoMatch
  }

  /** The token for a complete word: `true`, `false`, a keyword, or an identifier. */
  function WordToken(loc: Loc, word: string): (r: Token)
    ensures PayloadFits(r) && r.loc == loc && r.tag != M_eof
  {
    if word == "true" then TagToken(loc, K_true)
    else if word == "false" then TagToken(loc, K_false)
    else match KeywordLookup(word)
      case Some(k) => TagToken(loc, k)
      case None => IdToken(loc, word)
  }

  /** Literals and identifiers. */
  function Word(st: LexState): (r: Step)
    requires Valid(st)
    ensures Progress(st, r)
    ensures r.NoMatch? <==> !(IsDec(st.peek) || st.peek == Cp('.') || IsAlpha(st.peek) || st.peek == Cp('_') || IsSgn(st.peek))
  {
    if IsDec(st.peek) || st.peek == Cp('.') then LiteralStep(st)
    else if IsAlpha(st.peek) || st.peek == Cp('_') then
      var s := IdentRest(Take(st));
      Emit(WordToken(Location(s), s.str), s)
    else if IsDec(st.peek) || IsSgn(st.peek) then LiteralStep(st)
    else NoMatch
  }

  /** A literal and its token. */
  function LiteralStep(st: LexState): (r: Step)
    requires Valid(st) && (IsDec(st.peek) || st.peek == Cp('.') || IsSgn(st.peek))
    ensures Progress(st, r) && r.Emit?
  {
    var l := ParseLiteral(st);
    Emit(LiteralToken(Location(l.st), l.lit), l.st)
  }

  /** The token state a new token starts from: empty text, starting at the look-ahead. */
  function StartToken(st: LexState): LexState {
    st.(str := [], front := st.peekPos)
  }

  /** The code points a delimiter, punctuation or operator starts with. */
  const SymbolStarts: set<nat> := {
    Cp('('), Cp(')'), Cp('{'), Cp('}'), Cp('['), Cp(']'), Cp('.'), Cp(','), Cp(';'), Cp(':'),
    Cp('='), Cp('<'), Cp('>'), Cp('+'), Cp('-'), Cp('*'), Cp('/'), Cp('%'),
    Cp('&'), Cp('|'), Cp('^'), Cp('!')}

  /** The symbol rules after white space and the end of input, in the order lexer.cpp tries them. */
  function Symbols(st: LexState): (r: Step)
    requires Valid(st)
    ensures Progress(st, r)
    ensures r.NoMatch? <==> st.peek !in SymbolStarts
  {
    var d := Delimiter(st);
    if !d.NoMatch? then d
    else
      var p := Punctuation(st);
      if !p.NoMatch? then p
      else
        var c := Comparison(st);
        if !c.NoMatch? then c
        else
          var a := Arithmetic(st);
          if !a.NoMatch? then a
          else Bitwise(st)
  }

  /** One turn of `lex`'s loop. */
  function LexStep(st: LexState): (r: Step)
    requires Valid(st)
    ensures !r.NoMatch? && Valid(r.st) && r.st.input == st.input && Remaining(r.st) <= Remaining(st)
    ensures r.Skip? ==> Remaining(r.st) < Remaining(st)
    ensures r.Emit? && r.token.tag == M_eof ==> r.st.peek == EOF
    ensures r.Emit? && r.token.tag != M_eof ==> Remaining(r.st) < Remaining(st)
  {
    if IsSp(st.peek) then Skip(SkipSpaces(Consume(st, false)))
    else
      var s := StartToken(st);
      if s.peek == EOF then Tok(s, M_eof)
      else
        var y := Symbols(s);
        if !y.NoMatch? then y
        else
          var w := Word(s);
          if !w.NoMatch? then w
          else Skip(Consume(Error(s), false))
  }

  datatype Lexed = Lexed(token: Token, st: LexState)

  /** `lex()`: turns of the loop until one yields a token. */
  function Lex(st: LexState): (r: Lexed)
    requires Valid(st)
    ensures Valid(r.st) && r.st.input == st.input && Remaining(r.st) <= Remaining(st)
    ensures r.token.tag == M_eof ==> r.st.peek == EOF
    ensures r.token.tag != M_eof ==> Remaining(r.st) < Remaining(st)
    decreases Remaining(st), 1
  {
    AfterStep(st, LexStep(st))
  }

  /** What a turn of the loop `st` took leads to: its token, or the next turn. */
  predicate StepTaken(st: LexState, r: Step)
    requires Valid(st)
  {
    && !r.NoMatch? && Valid(r.st) && r.st.input == st.input && Remaining(r.st) <= Remaining(st)
    && (r.Skip? ==> Remaining(r.st) < Remaining(st))
    && (r.Emit? && r.token.tag == M_eof ==> r.st.peek == EOF)
    && (r.Emit? && r.token.tag != M_eof ==> Remaining(r.st) < Remaining(st))
  }

  function AfterStep(st: LexState, r: Step): (l: Lexed)
    requires Valid(st) && StepTaken(st, r)
    ensures Valid(l.st) && l.st.input == st.input && Remaining(l.st) <= Remaining(st)
    ensures l.token.tag == M_eof ==> l.st.peek == EOF
    ensures l.token.tag != M_eof ==> Remaining(l.st) < Remaining(st)
    decreases Remaining(st), 0
  {
    match r
    case Emit(t, s) => Lexed(t, s)
    case Skip(s) => Lex(s)
  }

  /** The state before the constructor runs: nothing read, look-ahead 0, line 1, column 0. */
  function Unread(input: seq<nat>, report: Report): LexState {
    LexState(input, 0, 0, Pos(1, 0), Pos(1, 0), Pos(1, 0), [], report)
  }

  /** The constructor: reads the first code point and skips a byte order mark (U+FEFF). */
  function Start(input: seq<nat>, report: Report): (r: LexState)
    requires IsBytes(input)
    ensures Valid(r) && r.input == input
  {
    Accept(Next(Unread(input, report)).st, 0xFEFF, false).st
  }
}
