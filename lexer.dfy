/**
  The `Lexer` class of lexer.cpp. Its fields are the input stream (a byte
  sequence and a read position), the look-ahead, the three positions and the
  token text; the `Compiler` it reports to is shared. Every method is proved to
  leave the object in the state the function of the same name in `LexSpec`
  computes.
 */
module LexerImpl {
  import opened Basics
  import opened Diagnostics
  import opened Tokens
  import opened LexSpec

  /** What the token slot holds after a step that yields no token; it is never looked at. */
  const NoToken: Token := Token(StartLoc, M_error, Sym(""))

  /** How one group of token rules ended: a token, a skip, or no rule applied. */
  datatype Outcome = Emitted | Skipped | Unmatched

  /** `kind` and `tok`, with the state reached from `before`, are what the step `r` describes. */
  predicate Realizes(kind: Outcome, tok: Token, now: LexState, before: LexState, r: Step) {
    match r
    case Emit(t, s) => kind == Emitted && tok == t && now == s
    case Skip(s) => kind == Skipped && now == s
    case NoMatch => kind == Unmatched && now == before
  }

  class Lexer {
    const compiler: Compiler
    const input: seq<nat>
    var pos: nat
    var peek: nat
    var peekPos: Pos
    var back: Pos
    var front: Pos
    var str: string

    function State(): LexState
      reads this, compiler
    {
      LexState(input, pos, peek, peekPos, back, front, str, compiler.Value())
    }

    function Location(): Loc
      reads this
    {
      Loc(front, back)
    }

    /** Reads the first code point and skips a byte order mark. */
    constructor (compiler: Compiler, input: seq<nat>)
      requires IsBytes(input)
      modifies compiler
      ensures this.compiler == compiler
      ensures State() == Start(input, old(compiler.Value()))
    {
      this.compiler := compiler;
      this.input := input;
      pos, peek := 0, 0;
      peekPos, back, front := Pos(1, 0), Pos(1, 0), Pos(1, 0);
      str := [];
      new;
      var _ := Next();
      var _ := Accept(0xFEFF, false);
    }

    /** `error(...)`. */
    method Error()
      modifies compiler
      ensures State() == LexSpec.Error(old(State()))
    {
      compiler.Error(Loc(front, back));
    }

    /** `stream_.get()`. */
    method Get() returns (b: nat)
      requires Valid(State())
      modifies this
      ensures Read(b, State()) == LexSpec.Get(old(State()))
    {
      if pos < |input| {
        b := input[pos];
        pos := pos + 1;
      } else {
        b := EOF;
      }
    }

    /** `get_next_utf8_byte`. */
    method Continuation() returns (b: nat)
      requires Valid(State())
      modifies this, compiler
      ensures Read(b, State()) == LexSpec.Continuation(old(State()))
    {
      var g := Get();
      if g < 128 || (g / 64) % 2 == 1 {
        Error();
      }
      b := g % 64;
    }

    /** `update_peek`. */
    method UpdatePeek(v: nat)
      modifies this
      ensures State() == Shifted(old(State()), v, false)
    {
      back := peekPos;
      peekPos := Pos(peekPos.line, peekPos.col + 1);
      peek := v;
    }

    /** `next()`, with an invalid lead byte consumed and decoded to 0. */
    method Next() returns (result: nat)
      requires Valid(State())
      modifies this, compiler
      ensures Read(result, State()) == LexSpec.Next(old(State()))
    {
      result := peek;
      var b1 := Get();
      if b1 == EOF {
        peek := EOF;
        return;
      }
      if b1 < 128 {
        back := peekPos;
        if b1 == 10 {
          peekPos := Pos(peekPos.line + 1, 1);
        } else {
          peekPos := Pos(peekPos.line, peekPos.col + 1);
        }
        peek := b1;
        return;
      }
      if 192 <= b1 {
        if b1 < 224 {
          var b2 := Continuation();
          UpdatePeek((b1 % 32) * 64 + b2);
          return;
        } else if b1 < 240 {
          var b2 := Continuation();
          var b3 := Continuation();
          UpdatePeek((b1 % 16) * 4096 + b2 * 64 + b3);
          return;
        } else if b1 < 248 {
          var b2 := Continuation();
          var b3 := Continuation();
          var b4 := Continuation();
          UpdatePeek((b1 % 8) * 262144 + b2 * 4096 + b3 * 64 + b4);
          return;
        }
      }
      Error();
      UpdatePeek(0);
      result := 0;
    }

    /** Appends the look-ahead to the token text when asked, then `next()`. */
    method Consume(append: bool)
      requires Valid(State()) && (append ==> IsScalar(peek))
      modifies this, compiler
      ensures State() == LexSpec.Consume(old(State()), append)
    {
      if append {
        str := str + [peek as char];
      }
      var _ := Next();
    }

    /** `accept(c, append)`. */
    method Accept(c: nat, append: bool) returns (ok: bool)
      requires Valid(State()) && (append ==> IsScalar(c))
      modifies this, compiler
      ensures Accepted(ok, State()) == LexSpec.Accept(old(State()), c, append)
    {
      ok := peek == c;
      if ok {
        Consume(append);
      }
    }

    /** `accept_if(pred, append)`. */
    method AcceptIf(k: CharClass, append: bool) returns (ok: bool)
      requires Valid(State())
      modifies this, compiler
      ensures Accepted(ok, State()) == LexSpec.AcceptIf(old(State()), k, append)
    {
      ok := InClass(k, peek);
      if ok {
        Consume(append);
      }
    }

    /** `accept(s, false)`: character by character. */
    method AcceptStr(s: string) returns (ok: bool)
      requires Valid(State())
      modifies this, compiler
      ensures Accepted(ok, State()) == LexSpec.AcceptStr(old(State()), s)
    {
      var i := 0;
      while i < |s|
        invariant 0 <= i <= |s| && Valid(State())
        invariant LexSpec.AcceptStr(State(), s[i..]) == LexSpec.AcceptStr(old(State()), s)
        decreases |s| - i
      {
        assert s[i..][0] == s[i] && s[i..][1..] == s[i + 1..];
        if peek != Cp(s[i]) {
          return false;
        }
        Consume(false);
        i := i + 1;
      }
      return true;
    }

    /** Skips white space without appending it to the token text. */
    method SkipSpaces()
      requires Valid(State())
      modifies this, compiler
      ensures State() == LexSpec.SkipSpaces(old(State()))
    {
      while true
        invariant Valid(State()) && LexSpec.SkipSpaces(State()) == LexSpec.SkipSpaces(old(State()))
        decreases Remaining(State())
      {
        var ok := AcceptIf(Space, false);
        if !ok {
          return;
        }
      }
    }

    /** Skips code points until `c` is the look-ahead or the input is used up. */
    method SkipUntil(c: nat)
      requires Valid(State())
      modifies this, compiler
      ensures State() == LexSpec.SkipUntil(old(State()), c)
    {
      while peek != EOF && peek != c
        invariant Valid(State()) && LexSpec.SkipUntil(State(), c) == LexSpec.SkipUntil(old(State()), c)
        decreases Remaining(State())
      {
        var _ := Next();
      }
    }

    /** `eat_comments`. */
    method EatComments()
      requires Valid(State())
      modifies this, compiler
      ensures State() == LexSpec.EatComments(old(State()))
    {
      while true
        invariant Valid(State()) && LexSpec.EatComments(State()) == LexSpec.EatComments(old(State()))
        decreases Remaining(State())
      {
        SkipUntil(Cp('*'));
        if peek == EOF {
          Error();
          return;
        }
        var _ := Next();
        var ok := Accept(Cp('/'), true);
        if ok {
          return;
        }
      }
    }

    /** `parse_digits`. */
    method ParseDigits(base: nat)
      requires Valid(State())
      modifies this, compiler
      ensures State() == Digits(old(State()), DigitClass(base))
    {
      while true
        invariant Valid(State()) && Digits(State(), DigitClass(base)) == Digits(old(State()), DigitClass(base))
        decreases Remaining(State())
      {
        var ok := AcceptIf(DigitClass(base), true);
        if !ok {
          return;
        }
      }
    }

    /** The sign and the base prefix of `parse_literal`. */
    method SignAndBase() returns (num: Number)
      requires Valid(State())
      modifies this, compiler
      ensures Scanned(num, State()) == LexSpec.SignAndBase(old(State()))
    {
      var sign := false;
      var ok := Accept(Cp('+'), true);
      if !ok {
        ok := Accept(Cp('-'), true);
        if ok {
          sign := true;
        }
      }
      var base := 10;
      ok := Accept(Cp('0'), false);
      if ok {
        ok := Accept(Cp('b'), false);
        if ok {
          base := 2;
        } else {
          ok := Accept(Cp('x'), false);
          if ok {
            base := 16;
          } else {
            ok := Accept(Cp('o'), false);
            if ok {
              base := 8;
            }
          }
        }
      }
      num := Number(sign, base, false, false);
    }

    /** `parse_literal` up to the suffix. */
    method ScanNumber() returns (num: Number)
      requires Valid(State())
      modifies this, compiler
      ensures Scanned(num, State()) == LexSpec.ScanNumber(old(State()))
    {
      num := SignAndBase();
      ParseDigits(num.base);
      if num.base == 10 {
        num := FractionAndExponent(num);
      }
    }

    /** The fraction and exponent of a base-10 literal. */
    method FractionAndExponent(num0: Number) returns (num: Number)
      requires Valid(State())
      modifies this, compiler
      ensures Scanned(num, State()) == LexSpec.FractionAndExponent(num0, old(State()))
    {
      var fract := FractionPart();
      var exp := ExponentPart();
      num := num0.(fract := fract, exp := exp);
    }

    method FractionPart() returns (ok: bool)
      requires Valid(State())
      modifies this, compiler
      ensures Accepted(ok, State()) == LexSpec.FractionPart(old(State()))
    {
      ok := Accept(Cp('.'), true);
      if ok {
        ParseDigits(10);
      }
    }

    method ExponentPart() returns (ok: bool)
      requires Valid(State())
      modifies this, compiler
      ensures Accepted(ok, State()) == LexSpec.ExponentPart(old(State()))
    {
      ok := AcceptIf(Exponent, true);
      if ok {
        var _ := AcceptIf(Sign, true);
        ParseDigits(10);
      }
    }

    /** A chain of `accept(s, false)` tests over a suffix table. */
    method FirstSuffix(table: seq<(string, LitKind)>) returns (k: Option<LitKind>)
      requires Valid(State())
      modifies this, compiler
      ensures (k, State()) == LexSpec.FirstSuffix(old(State()), table)
    {
      for i := 0 to |table|
        invariant Valid(State())
        invariant LexSpec.FirstSuffix(State(), table[i..]) == LexSpec.FirstSuffix(old(State()), table)
      {
        assert table[i..][0] == table[i] && table[i..][1..] == table[i + 1..];
        var ok := AcceptStr(table[i].0);
        if ok {
          return Some(table[i].1);
        }
      }
      return None;
    }

    /** The `s` suffix. */
    method SignedSuffix() returns (k: Option<LitKind>)
      requires Valid(State())
      modifies this, compiler
      ensures (k, State()) == LexSpec.SignedSuffix(old(State()))
    {
      k := None;
      var ok := Accept(Cp('s'), false);
      if ok {
        k := FirstSuffix(WidthTable(LitS8, LitS16, LitS32, LitS64));
      }
    }

    /** The `u` suffix. */
    method UnsignedSuffix() returns (k: Option<LitKind>)
      requires Valid(State())
      modifies this, compiler
      ensures (k, State()) == LexSpec.UnsignedSuffix(old(State()))
    {
      k := None;
      var ok := Accept(Cp('u'), false);
      if ok {
        k := FirstSuffix(WidthTable(LitU8, LitU16, LitU32, LitU64));
      }
    }

    /** The `r` suffix. */
    method RealSuffix() returns (k: Option<LitKind>)
      requires Valid(State())
      modifies this, compiler
      ensures (k, State()) == LexSpec.RealSuffix(old(State()))
    {
      k := None;
      var ok := Accept(Cp('r'), false);
      if ok {
        k := FirstSuffix(RealWidths);
      }
    }

    /** The suffixes of a literal without fraction or exponent. */
    method IntSuffix(num: Number) returns (k: Option<LitKind>)
      requires Valid(State())
      modifies this, compiler
      ensures (k, State()) == LexSpec.IntSuffix(num, old(State()))
    {
      k := SignedSuffix();
      if k.Some? {
        return;
      }
      if !num.sign {
        k := UnsignedKinds();
      }
    }

    /** The unsigned suffixes, the arity mark and the index marks. */
    method UnsignedKinds() returns (k: Option<LitKind>)
      requires Valid(State())
      modifies this, compiler
      ensures (k, State()) == LexSpec.UnsignedKinds(old(State()))
    {
      k := UnsignedSuffix();
      if k.Some? {
        return;
      }
      var ok := Accept(ArityMark, true);
      if ok {
        return Some(LitArity);
      }
      if 0x2080 < peek < 0x2090 {
        return Some(LitIndex);
      }
    }

    /** The suffix part of `parse_literal`. */
    method Suffix(num: Number) returns (lit: Option<Literal>)
      requires Valid(State())
      modifies this, compiler
      ensures LitRead(lit, State()) == LexSpec.Suffix(num, old(State()))
    {
      if !num.exp && !num.fract {
        var k := IntSuffix(num);
        if k.Some? {
          return Some(MakeLiteral(k.value, str, num.base));
        }
      }
      if num.base == 10 {
        var k := RealSuffix();
        if k.Some? {
          return Some(MakeLiteral(k.value, str, num.base));
        }
      }
      if num.base == 10 && !num.fract && !num.exp {
        return Some(MakeLiteral(LitUntyped, str, 10));
      }
      Error();
      return None;
    }

    /** `parse_literal`. */
    method ParseLiteral() returns (lit: Option<Literal>)
      requires Valid(State())
      modifies this, compiler
      ensures LitRead(lit, State()) == LexSpec.ParseLiteral(old(State()))
    {
      var num := ScanNumber();
      lit := Suffix(num);
    }

    /** Accepts `c` for the token `yes`, or else gives `no`. */
    method Either(c: char, yes: Tag, no: Tag) returns (tok: Token)
      requires Valid(State()) && c < 128 as char && yes !in {L_s, L_u, L_f, M_eof} && no !in {L_s, L_u, L_f, M_eof}
      modifies this, compiler
      ensures LexSpec.Either(old(State()), c, yes, no) == Emit(tok, State())
    {
      var ok := Accept(Cp(c), true);
      if ok {
        return TagToken(Location(), yes);
      }
      return TagToken(Location(), no);
    }

    method Delimiter() returns (kind: Outcome, tok: Token)
      requires Valid(State())
      modifies this, compiler
      ensures Realizes(kind, tok, State(), old(State()), LexSpec.Delimiter(old(State())))
    {
      var ok := Accept(Cp('('), true);
      if ok {
        return Emitted, TagToken(Location(), D_l_paren);
      }
      ok := Accept(Cp(')'), true);
      if ok {
        return Emitted, TagToken(Location(), D_r_paren);
      }
      ok := Accept(Cp('{'), true);
      if ok {
        return Emitted, TagToken(Location(), D_l_brace);
      }
      ok := Accept(Cp('}'), true);
      if ok {
        return Emitted, TagToken(Location(), D_r_brace);
      }
      ok := Accept(Cp('['), true);
      if ok {
        return Emitted, TagToken(Location(), D_l_bracket);
      }
      ok := Accept(Cp(']'), true);
      if ok {
        return Emitted, TagToken(Location(), D_r_bracket);
      }
      return Unmatched, NoToken;
    }

    method Punctuation() returns (kind: Outcome, tok: Token)
      requires Valid(State())
      modifies this, compiler
      ensures Realizes(kind, tok, State(), old(State()), LexSpec.Punctuation(old(State())))
    {
      var ok := Accept(Cp('.'), true);
      if ok {
        ok := Accept(Cp('.'), true);
        if ok {
          ok := Accept(Cp('.'), true);
          if ok {
            return Emitted, TagToken(Location(), P_dots);
          }
          Error();
          return Emitted, TagToken(Location(), M_error);
        }
        return Emitted, TagToken(Location(), P_dot);
      }
      ok := Accept(Cp(','), true);
      if ok {
        return Emitted, TagToken(Location(), P_comma);
      }
      ok := Accept(Cp(';'), true);
      if ok {
        return Emitted, TagToken(Location(), P_semicolon);
      }
      ok := Accept(Cp(':'), true);
      if ok {
        tok := Either(':', P_colon_colon, P_colon);
        return Emitted, tok;
      }
      return Unmatched, NoToken;
    }

    method Comparison() returns (kind: Outcome, tok: Token)
      requires Valid(State())
      modifies this, compiler
      ensures Realizes(kind, tok, State(), old(State()), LexSpec.Comparison(old(State())))
    {
      kind := Emitted;
      var ok := Accept(Cp('='), true);
      if ok {
        tok := Either('=', O_cmp_eq, O_eq);
        return;
      }
      ok := Accept(Cp('<'), true);
      if ok {
        ok := Accept(Cp('<'), true);
        if ok {
          tok := Either('=', O_l_shift_eq, O_l_shift);
          return;
        }
        tok := Either('=', O_cmp_le, O_cmp_lt);
        return;
      }
      ok := Accept(Cp('>'), true);
      if ok {
        ok := Accept(Cp('>'), true);
        if ok {
          tok := Either('=', O_r_shift_eq, O_r_shift);
          return;
        }
        tok := Either('=', O_cmp_ge, O_cmp_gt);
        return;
      }
      return Unmatched, NoToken;
    }

    method Arithmetic() returns (kind: Outcome, tok: Token)
      requires Valid(State())
      modifies this, compiler
      ensures Realizes(kind, tok, State(), old(State()), LexSpec.Arithmetic(old(State())))
    {
      kind := Emitted;
      var ok := Accept(Cp('+'), true);
      if ok {
        ok := Accept(Cp('+'), true);
        if ok {
          return Emitted, TagToken(Location(), O_inc);
        }
        tok := Either('=', O_add_eq, O_add);
        return;
      }
      ok := Accept(Cp('-'), true);
      if ok {
        ok := Accept(Cp('>'), true);
        if ok {
          return Emitted, TagToken(Location(), O_arrow);
        }
        ok := Accept(Cp('-'), true);
        if ok {
          return Emitted, TagToken(Location(), O_dec);
        }
        tok := Either('=', O_sub_eq, O_sub);
        return;
      }
      ok := Accept(Cp('*'), true);
      if ok {
        tok := Either('=', O_mul_eq, O_mul);
        return;
      }
      ok := Accept(Cp('/'), true);
      if ok {
        ok := Accept(Cp('*'), true);
        if ok {
          EatComments();
          return Skipped, NoToken;
        }
        ok := Accept(Cp('/'), true);
        if ok {
          SkipUntil(10);
          return Skipped, NoToken;
        }
        tok := Either('=', O_div_eq, O_div);
        return;
      }
      ok := Accept(Cp('%'), true);
      if ok {
        tok := Either('=', O_mod_eq, O_mod);
        return;
      }
      return Unmatched, NoToken;
    }

    method Bitwise() returns (kind: Outcome, tok: Token)
      requires Valid(State())
      modifies this, compiler
      ensures Realizes(kind, tok, State(), old(State()), LexSpec.Bitwise(old(State())))
    {
      kind := Emitted;
      var ok := Accept(Cp('&'), true);
      if ok {
        ok := Accept(Cp('&'), true);
        if ok {
          return Emitted, TagToken(Location(), O_and_and);
        }
        tok := Either('=', O_and_eq, O_and);
        return;
      }
      ok := Accept(Cp('|'), true);
      if ok {
        ok := Accept(Cp('|'), true);
        if ok {
          return Emitted, TagToken(Location(), O_or_or);
        }
        tok := Either('=', O_or_eq, O_or);
        return;
      }
      ok := Accept(Cp('^'), true);
      if ok {
        tok := Either('=', O_xor_eq, O_xor);
        return;
      }
      ok := Accept(Cp('!'), true);
      if ok {
        tok := Either('=', O_cmp_ne, O_not);
        return;
      }
      return Unmatched, NoToken;
    }

    /** An identifier, `true`, `false` or a keyword. */
    method Identifier() returns (tok: Token)
      requires Valid(State()) && (IsAlpha(peek) || peek == Cp('_'))
      modifies this, compiler
      ensures var s := LexSpec.IdentRest(Take(old(State()))); tok == WordToken(LexSpec.Location(s), s.str) && State() == s
    {
      Consume(true);
      IdentRest();
      tok := WordToken(Location(), str);
    }

    /** Appends letters, digits and underscores for as long as one is the look-ahead. */
    method IdentRest()
      requires Valid(State())
      modifies this, compiler
      ensures State() == LexSpec.IdentRest(old(State()))
    {
      while IsAlnum(peek) || peek == Cp('_')
        invariant Valid(State()) && LexSpec.IdentRest(State()) == LexSpec.IdentRest(old(State()))
        decreases Remaining(State())
      {
        Consume(true);
      }
    }

    /** Literals and identifiers. */
    method Word() returns (kind: Outcome, tok: Token)
      requires Valid(State())
      modifies this, compiler
      ensures Realizes(kind, tok, State(), old(State()), LexSpec.Word(old(State())))
    {
      if IsDec(peek) || peek == Cp('.') {
        var lit := ParseLiteral();
        return Emitted, LiteralToken(Location(), lit);
      }
      if IsAlpha(peek) || peek == Cp('_') {
        tok := Identifier();
        return Emitted, tok;
      }
      if IsDec(peek) || IsSgn(peek) {
        var lit := ParseLiteral();
        return Emitted, LiteralToken(Location(), lit);
      }
      return Unmatched, NoToken;
    }

    /** The symbol rules, in the order lexer.cpp tries them. */
    method Symbols() returns (kind: Outcome, tok: Token)
      requires Valid(State())
      modifies this, compiler
      ensures Realizes(kind, tok, State(), old(State()), LexSpec.Symbols(old(State())))
    {
      kind, tok := Delimiter();
      if kind != Unmatched {
        return;
      }
      kind, tok := Punctuation();
      if kind != Unmatched {
        return;
      }
      kind, tok := Comparison();
      if kind != Unmatched {
        return;
      }
      kind, tok := Arithmetic();
      if kind != Unmatched {
        return;
      }
      kind, tok := Bitwise();
    }

    /** One turn of `lex`'s loop. */
    method Step() returns (emitted: bool, tok: Token)
      requires Valid(State())
      modifies this, compiler
      ensures var r := LexStep(old(State())); (emitted <==> r.Emit?) && (emitted ==> tok == r.token) && State() == r.st
    {
      var sp := AcceptIf(Space, false);
      if sp {
        SkipSpaces();
        return false, NoToken;
      }
      str, front := [], peekPos;
      if peek == EOF {
        return true, TagToken(Location(), M_eof);
      }
      var kind;
      kind, tok := Symbols();
      if kind == Unmatched {
        kind, tok := Word();
      }
      if kind == Unmatched {
        Error();
        var _ := Next();
        return false, NoToken;
      }
      return kind == Emitted, tok;
    }

    /** `lex()`: the next token. */
    method Lex() returns (tok: Token)
      requires Valid(State())
      modifies this, compiler
      ensures Valid(State())
      ensures Lexed(tok, State()) == LexSpec.Lex(old(State()))
    {
      while true
        invariant Valid(State()) && LexSpec.Lex(State()) == LexSpec.Lex(old(State()))
        decreases Remaining(State())
      {
        var emitted;
        emitted, tok := Step();
        if emitted {
          return;
        }
      }
    }
  }
}
