/**
  Tokens (token.h): a tag from a closed enumeration, a location, and a payload
  whose kind is fixed by the tag.

  The enumeration is token.h's `enum class Tag`, its tags numbered in their
  order of declaration. The lexer and the parser use a few spellings
  that token.h does not declare; they are the same tags here:
  the parser's `D_brace_l`, `D_paren_l`, ... are `D_l_brace`, `D_l_paren`, ...;
  its `O_assign` is `O_eq`; the lexer's `P_semi` is `P_semicolon` and
  `P_colone_colon` is `P_colon_colon`. Tags that the lexer or the parser use
  but token.h does not list are added after its own: `K_ar`, `K_pk`, `M_error`
  for the token the lexer builds from a location alone (its tag is not given
  by the source), `P_dots`, `O_lambda` and `O_forall`.
 */
module Tokens {
  import opened Basics

  /** A tag is its number in the enumeration. */
  newtype Tag = t: int | 0 <= t < 73

  // keywords (token.h's IMPALA_KEYWORDS, 17 of them)
  const K_Cn: Tag := 0
  const K_cn: Tag := 1
  const K_else: Tag := 2
  const K_false: Tag := 3
  const K_fn: Tag := 4
  const K_Fn: Tag := 5
  const K_for: Tag := 6
  const K_if: Tag := 7
  const K_impl: Tag := 8
  const K_let: Tag := 9
  const K_match: Tag := 10
  const K_mut: Tag := 11
  const K_self: Tag := 12
  const K_struct: Tag := 13
  const K_true: Tag := 14
  const K_trait: Tag := 15
  const K_while: Tag := 16

  // literals
  const L_s: Tag := 17
  const L_u: Tag := 18
  const L_f: Tag := 19

  // misc
  const M_eof: Tag := 20
  const M_id: Tag := 21

  // delimiters
  const D_l_brace: Tag := 22
  const D_r_brace: Tag := 23
  const D_l_bracket: Tag := 24
  const D_r_bracket: Tag := 25
  const D_l_paren: Tag := 26
  const D_r_paren: Tag := 27

  // punctuation
  const P_colon: Tag := 28
  const P_colon_colon: Tag := 29
  const P_comma: Tag := 30
  const P_dot: Tag := 31
  const P_semicolon: Tag := 32

  // operators
  const O_arrow: Tag := 33
  const O_inc: Tag := 34
  const O_dec: Tag := 35
  const O_eq: Tag := 36
  const O_add_eq: Tag := 37
  const O_sub_eq: Tag := 38
  const O_mul_eq: Tag := 39
  const O_div_eq: Tag := 40
  const O_mod_eq: Tag := 41
  const O_l_shift_eq: Tag := 42
  const O_r_shift_eq: Tag := 43
  const O_and_eq: Tag := 44
  const O_or_eq: Tag := 45
  const O_xor_eq: Tag := 46
  const O_add: Tag := 47
  const O_sub: Tag := 48
  const O_mul: Tag := 49
  const O_div: Tag := 50
  const O_mod: Tag := 51
  const O_tilde: Tag := 52
  const O_l_shift: Tag := 53
  const O_r_shift: Tag := 54
  const O_and: Tag := 55
  const O_and_and: Tag := 56
  const O_or: Tag := 57
  const O_or_or: Tag := 58
  const O_xor: Tag := 59
  const O_not: Tag := 60
  const O_cmp_le: Tag := 61
  const O_cmp_ge: Tag := 62
  const O_cmp_lt: Tag := 63
  const O_cmp_gt: Tag := 64
  const O_cmp_eq: Tag := 65
  const O_cmp_ne: Tag := 66

  // tags the lexer or the parser use that token.h does not list
  const K_ar: Tag := 67
  const K_pk: Tag := 68
  const M_error: Tag := 69
  const P_dots: Tag := 70
  const O_lambda: Tag := 71
  const O_forall: Tag := 72

  /** The 17 keyword tags of token.h, in its order. */
  const KeywordTags: seq<Tag> :=
    [K_Cn, K_cn, K_else, K_false, K_fn, K_Fn, K_for, K_if, K_impl,
     K_let, K_match, K_mut, K_self, K_struct, K_true, K_trait, K_while]

  /** The keywords are the first tags, `K_Cn` to `K_while`. */
  predicate IsKeyword(t: Tag) {
    t <= K_while
  }

  /** `KeywordTags` lists exactly the keywords. */
  lemma KeywordTagsAreTheKeywords(t: Tag)
    ensures t in KeywordTags <==> IsKeyword(t)
  {
    if IsKeyword(t) {
      assert KeywordTags[t] == t;
    }
  }

  /** `tag_to_string`: the spelling (or description) of every tag. */
  function TagToString(t: Tag): (r: string)
    ensures |r| > 0
  {
    if t == K_Cn then "Cn"
    else if t == K_cn then "cn"
    else if t == K_else then "else"
    else if t == K_false then "false"
    else if t == K_fn then "fn"
    else if t == K_Fn then "Fn"
    else if t == K_for then "for"
    else if t == K_if then "if"
    else if t == K_impl then "impl"
    else if t == K_let then "let"
    else if t == K_match then "match"
    else if t == K_mut then "mut"
    else if t == K_self then "Self"
    else if t == K_struct then "struct"
    else if t == K_true then "true"
    else if t == K_trait then "trait"
    else if t == K_while then "while"
    else if t == L_s then "<signed integer literal>"
    else if t == L_u then "<integer literal>"
    else if t == L_f then "<floating-point literal>"
    else if t == M_eof then "<eof>"
    else if t == M_id then "<identifier>"
    else if t == D_l_brace then "{"
    else if t == D_r_brace then "}"
    else if t == D_l_bracket then "["
    else if t == D_r_bracket then "]"
    else if t == D_l_paren then "("
    else if t == D_r_paren then ")"
    else if t == P_colon then ":"
    else if t == P_colon_colon then "::"
    else if t == P_comma then ","
    else if t == P_dot then "."
    else if t == P_semicolon then ";"
    else if t == O_arrow then "->"
    else if t == O_inc then "++"
    else if t == O_dec then "--"
    else if t == O_eq then "="
    else if t == O_add_eq then "+="
    else if t == O_sub_eq then "-="
    else if t == O_mul_eq then "*="
    else if t == O_div_eq then "/="
    else if t == O_mod_eq then "%="
    else if t == O_l_shift_eq then "<<="
    else if t == O_r_shift_eq then ">>="
    else if t == O_and_eq then "&="
    else if t == O_or_eq then "|="
    else if t == O_xor_eq then "^="
    else if t == O_add then "+"
    else if t == O_sub then "-"
    else if t == O_mul then "*"
    else if t == O_div then "/"
    else if t == O_mod then "%"
    else if t == O_tilde then "~"
    else if t == O_l_shift then "<<"
    else if t == O_r_shift then ">>"
    else if t == O_and then "&"
    else if t == O_and_and then "&&"
    else if t == O_or then "|"
    else if t == O_or_or then "||"
    else if t == O_xor then "^"
    else if t == O_not then "!"
    else if t == O_cmp_le then "<="
    else if t == O_cmp_ge then ">="
    else if t == O_cmp_lt then "<"
    else if t == O_cmp_gt then ">"
    else if t == O_cmp_eq then "=="
    else if t == O_cmp_ne then "!="
    else if t == K_ar then "ar"
    else if t == K_pk then "pk"
    else if t == M_error then "<error>"
    else if t == P_dots then "..."
    else if t == O_lambda then "\\"
    else "\\/" // O_forall, the last tag
  }

  /** The keyword table the lexer consults (`keywords.find`): spelling to keyword tag. */
  function KeywordLookup(s: string): (r: Option<Tag>)
    ensures r.Some? ==> IsKeyword(r.value) && TagToString(r.value) == s
    ensures r.Some? ==> r.value !in {L_s, L_u, L_f}
  {
    var r := FirstSpelledAs(s, KeywordTags);
    if r.Some? then KeywordTagsAreTheKeywords(r.value); r else r
  }

  /** The first tag of `ks` spelled `s`, if any. */
  function FirstSpelledAs(s: string, ks: seq<Tag>): (r: Option<Tag>)
    ensures r.Some? ==> r.value in ks && TagToString(r.value) == s
    ensures r.None? ==> forall t :: t in ks ==> TagToString(t) != s
  {
    if ks == [] then None
    else if TagToString(ks[0]) == s then Some(ks[0])
    else FirstSpelledAs(s, ks[1..])
  }

  /** No two tags of `ks` share a spelling. */
  predicate SpellingsDistinct(ks: seq<Tag>) {
    forall i, j :: 0 <= i < j < |ks| ==> TagToString(ks[i]) != TagToString(ks[j])
  }

  /** Floating-point values are kept opaque: a value is known only by the text it was read from. */
  datatype Float = Float(text: string)

  /** The payload union of a token: a symbol, a signed, an unsigned or a floating-point value. */
  datatype Payload = Sym(symbol: string) | S64(s: int) | U64(u: nat) | F64(f: Float)

  datatype Token = Token(loc: Loc, tag: Tag, payload: Payload)

  /** The payload kind is fixed by the tag. */
  predicate PayloadFits(t: Token) {
    if t.tag == L_s then t.payload.S64?
    else if t.tag == L_u then t.payload.U64?
    else if t.tag == L_f then t.payload.F64?
    else t.payload.Sym?
  }

  /** `Token(Location, Tag)`: the symbol is the tag's spelling. */
  function TagToken(loc: Loc, tag: Tag): (r: Token)
    requires tag !in {L_s, L_u, L_f}
    ensures r.tag == tag && r.loc == loc && PayloadFits(r)
    ensures r.payload == Sym(TagToString(tag))
  {
    Token(loc, tag, Sym(TagToString(tag)))
  }

  /** `Token(Location, s64)`. */
  function SignedToken(loc: Loc, s: int): (r: Token)
    ensures r.tag == L_s && r.loc == loc && PayloadFits(r)
  {
    Token(loc, L_s, S64(s))
  }

  /** `Token(Location, u64)`. */
  function UnsignedToken(loc: Loc, u: nat): (r: Token)
    ensures r.tag == L_u && r.loc == loc && PayloadFits(r)
  {
    Token(loc, L_u, U64(u))
  }

  /** `Token(Location, f64)`. */
  function FloatToken(loc: Loc, f: Float): (r: Token)
    ensures r.tag == L_f && r.loc == loc && PayloadFits(r)
  {
    Token(loc, L_f, F64(f))
  }

  /** `Token(Location, Symbol)`: an identifier. */
  function IdToken(loc: Loc, symbol: string): (r: Token)
    ensures r.tag == M_id && r.loc == loc && PayloadFits(r)
  {
    Token(loc, M_id, Sym(symbol))
  }

  /** `symbol()`: only defined for identifiers. */
  function Symbol(t: Token): string
    requires t.tag == M_id && PayloadFits(t)
  {
    t.payload.symbol
  }

  /** `s64()`: only defined for signed literals. */
  function SignedValue(t: Token): int
    requires t.tag == L_s && PayloadFits(t)
  {
    t.payload.s
  }

  /** `u64()`: only defined for unsigned literals. */
  function UnsignedValue(t: Token): nat
    requires t.tag == L_u && PayloadFits(t)
  {
    t.payload.u
  }

  /** `f64()`: only defined for floating-point literals. */
  function FloatValue(t: Token): Float
    requires t.tag == L_f && PayloadFits(t)
  {
    t.payload.f
  }

  predicate IsLiteral(t: Token) {
    t.tag == L_s || t.tag == L_u || t.tag == L_f
  }

  predicate Isa(t: Token, tag: Tag) {
    t.tag == tag
  }

  /** Each accessor gives back what the matching constructor stored. */
  lemma AccessorsInvertConstructors(loc: Loc, s: int, u: nat, f: Float, sym: string)
    ensures SignedValue(SignedToken(loc, s)) == s
    ensures UnsignedValue(UnsignedToken(loc, u)) == u
    ensures FloatValue(FloatToken(loc, f)) == f
    ensures Symbol(IdToken(loc, sym)) == sym
  {
  }

  /**
    `is_literal` holds for the tokens made by the three literal constructors and
    for no identifier or tag token.
   */
  lemma IsLiteralExactly(loc: Loc, s: int, u: nat, f: Float, sym: string, tag: Tag)
    ensures IsLiteral(SignedToken(loc, s)) && IsLiteral(UnsignedToken(loc, u)) && IsLiteral(FloatToken(loc, f))
    ensures !IsLiteral(IdToken(loc, sym))
    ensures tag !in {L_s, L_u, L_f} ==> !IsLiteral(TagToken(loc, tag))
  {
  }

  /** `isa(tag)` holds for exactly one tag: the one the constructor was given. */
  lemma IsaOfConstructors(loc: Loc, s: int, sym: string, tag: Tag, other: Tag)
    ensures tag !in {L_s, L_u, L_f} ==> (Isa(TagToken(loc, tag), other) <==> other == tag)
    ensures Isa(IdToken(loc, sym), other) <==> other == M_id
    ensures Isa(SignedToken(loc, s), other) <==> other == L_s
  {
  }

  /** A keyword is spelled with letters only, so the lexer reads it as a word. */
  lemma KeywordSpelledWithLetters(t: Tag)
    requires IsKeyword(t)
    ensures forall i :: 0 <= i < |TagToString(t)| ==> 'a' <= TagToString(t)[i] <= 'z' || 'A' <= TagToString(t)[i] <= 'Z'
  {
  }

  /** There are exactly 17 keywords, all different. */
  lemma KeywordCount()
    ensures |KeywordTags| == 17
    ensures forall i, j :: 0 <= i < j < |KeywordTags| ==> KeywordTags[i] != KeywordTags[j]
  {
  }

  /** The 17 keywords are spelled differently from one another. */
  lemma KeywordSpellingsDistinct()
    ensures forall i, j :: 0 <= i < j < |KeywordTags| ==> TagToString(KeywordTags[i]) != TagToString(KeywordTags[j])
  {
  }

  lemma {:induction false} FirstSpelledAsFinds(t: Tag, ks: seq<Tag>)
    requires t in ks && SpellingsDistinct(ks)
    ensures FirstSpelledAs(TagToString(t), ks) == Some(t)
  {
    if ks[0] != t {
      var j :| 0 <= j < |ks| && ks[j] == t;
      assert TagToString(ks[0]) != TagToString(ks[j]);
      assert SpellingsDistinct(ks[1..]) by {
        forall i, k | 0 <= i < k < |ks| - 1
          ensures TagToString(ks[1..][i]) != TagToString(ks[1..][k])
        {
          assert ks[1..][i] == ks[i + 1] && ks[1..][k] == ks[k + 1];
        }
      }
      assert t in ks[1..] by { assert ks[1..][j - 1] == t; }
      FirstSpelledAsFinds(t, ks[1..]);
    }
  }

  /** The spellings of `true` and `false`, which the lexer compares a word with before the keyword table. */
  lemma BooleanSpellings()
    ensures TagToString(K_true) == "true" && TagToString(K_false) == "false"
  {
  }

  /** Looking up a keyword's spelling in the table finds that keyword. */
  lemma KeywordLookupFindsKeyword(t: Tag)
    requires IsKeyword(t)
    ensures KeywordLookup(TagToString(t)) == Some(t)
  {
    KeywordTagsAreTheKeywords(t);
    KeywordSpellingsDistinct();
    FirstSpelledAsFinds(t, KeywordTags);
  }

  /** A spelling that is no keyword's is not found. */
  lemma KeywordLookupMissesNonKeywords(s: string)
    requires forall t :: IsKeyword(t) ==> TagToString(t) != s
    ensures KeywordLookup(s) == None
  {
  }

  /**
    Operator precedence, loosest first. `Bottom` is the level at which a whole
    expression is parsed and the level of every tag that is not an infix operator.
   */
  datatype Prec = Bottom | Arrow | Assign | OrOr | AndAnd | Rel | Or | Xor | And | Shift | Add | Mul | Unary

  function Rank(p: Prec): nat {
    match p
    case Bottom => 0
    case Arrow => 1
    case Assign => 2
    case OrOr => 3
    case AndAnd => 4
    case Rel => 5
    case Or => 6
    case Xor => 7
    case And => 8
    case Shift => 9
    case Add => 10
    case Mul => 11
    case Unary => 12
  }

  predicate PrecLt(p: Prec, q: Prec) {
    Rank(p) < Rank(q)
  }

  /**
    `Token::tag2prec`. The source uses it without defining it; this table follows
    the documented order of levels.
   */
  function TagToPrec(t: Tag): Prec {
    if t == O_eq then Assign
    else if t == O_add_eq then Assign
    else if t == O_sub_eq then Assign
    else if t == O_mul_eq then Assign
    else if t == O_div_eq then Assign
    else if t == O_mod_eq then Assign
    else if t == O_l_shift_eq then Assign
    else if t == O_r_shift_eq then Assign
    else if t == O_and_eq then Assign
    else if t == O_or_eq then Assign
    else if t == O_xor_eq then Assign
    else if t == O_or_or then OrOr
    else if t == O_and_and then AndAnd
    else if t == O_cmp_le then Rel
    else if t == O_cmp_ge then Rel
    else if t == O_cmp_lt then Rel
    else if t == O_cmp_gt then Rel
    else if t == O_cmp_eq then Rel
    else if t == O_cmp_ne then Rel
    else if t == O_or then Or
    else if t == O_xor then Xor
    else if t == O_and then And
    else if t == O_l_shift then Shift
    else if t == O_r_shift then Shift
    else if t == O_add then Add
    else if t == O_sub then Add
    else if t == O_mul then Mul
    else if t == O_div then Mul
    else if t == O_mod then Mul
    else Bottom
  }

  /**
    `Token::tag2name`: the name of the function an infix operator desugars to,
    or "" when it stays an infix node. Also used without a definition in the source.
   */
  function TagToName(t: Tag): string {
    if t == O_add then "add"
    else if t == O_sub then "sub"
    else if t == O_mul then "mul"
    else if t == O_div then "div"
    else if t == O_mod then "mod"
    else if t == O_l_shift then "shl"
    else if t == O_r_shift then "shr"
    else if t == O_and then "and"
    else if t == O_or then "or"
    else if t == O_xor then "xor"
    else if t == O_cmp_le then "le"
    else if t == O_cmp_ge then "ge"
    else if t == O_cmp_lt then "lt"
    else if t == O_cmp_gt then "gt"
    else if t == O_cmp_eq then "eq"
    else if t == O_cmp_ne then "ne"
    else ""
  }

  /** What the parser tests fix about the two tables. */
  lemma PrecAndNamesAsTested()
    ensures PrecLt(TagToPrec(O_add), TagToPrec(O_mul))
    ensures PrecLt(TagToPrec(O_cmp_eq), TagToPrec(O_add)) && PrecLt(TagToPrec(O_eq), TagToPrec(O_add))
    ensures TagToName(O_add) == "add" && TagToName(O_mul) == "mul" && TagToName(O_cmp_eq) == "eq"
    ensures TagToName(O_eq) == ""
  {
  }

  /** Every tag with an infix precedence is an operator, never EOF or a delimiter. */
  lemma InfixTagsAreOperators(t: Tag)
    requires PrecLt(Bottom, TagToPrec(t))
    ensures t != M_eof && t != D_r_brace && t != D_r_paren && t != D_r_bracket && t != P_semicolon
    ensures PrecLt(Arrow, TagToPrec(t))
  {
  }
}
