/**
  The `Parser` class of parser.h and parser.cpp. Its fields are the
  three-slot look-ahead buffer `ahead_`, `prev_`, the compiler it reports to,
  and its lexer. The lexer is represented by its output `input` and the index
  `pos` of the token at the front of the buffer; refilling the buffer's last
  slot takes the lexer's next token, which at the end is its end-of-file
  token again.

  Every method is proved to return the node, and leave the object in the
  state, that the function of the same name in `ParserSpec` computes. The
  loops of `parse_list`, `parse_expr`, `parse_block_expr` and `parse_prg`
  keep the invariant that what is left of the loop computes, from the current
  state, what the whole method computes from the initial state.
 */
module ParserImpl {
  import opened Basics
  import opened Diagnostics
  import opened Tokens
  import opened Ast
  import opened Builders
  import P = ParserSpec

  class Parser {
    const compiler: Compiler
    /** What the lexer delivers, in order. */
    const input: P.Input
    /** The index in `input.tokens` of the token at the front of `ahead`. */
    var pos: nat
    /** `ahead_`: the next `max_ahead` tokens. */
    const ahead: array<Token>
    /** `prev_`: the span of the last consumed token. */
    var prev: Loc

    /** The buffer holds the three tokens from `pos` on. */
    ghost predicate Valid()
      reads this, ahead
    {
      && P.IsTokenStream(input.tokens) && pos < |input.tokens| && ahead.Length == P.MaxAhead
      && ahead[0] == P.Nth(input.tokens, pos) && ahead[1] == P.Nth(input.tokens, pos + 1) && ahead[2] == P.Nth(input.tokens, pos + 2)
    }

    /** The parser's state, as the functions of `ParserSpec` see it. */
    function S(): P.PState
      reads this, compiler
    {
      P.PState(input, pos, prev, compiler.Value())
    }

    /**
      Three calls of `lex()` fill the buffer with the lexer's first three
      tokens; `prev_` then starts at line 1, column 1.
     */
    constructor (compiler: Compiler, tokens: seq<Token>)
      requires P.IsTokenStream(tokens)
      ensures Valid() && this.compiler == compiler && input.tokens == tokens && fresh(ahead)
      ensures S() == P.Init(tokens, compiler.Value())
    {
      this.compiler := compiler;
      this.input := P.Input(tokens);
      this.pos := 0;
      this.prev := StartLoc;
      this.ahead := new Token[P.MaxAhead](_ => tokens[0]);
      new;
      for i := 0 to P.MaxAhead
        modifies ahead
        invariant forall j :: P.MaxAhead - i <= j < P.MaxAhead ==> ahead[j] == P.Nth(input.tokens, j - (P.MaxAhead - i))
      {
        ahead[0], ahead[1] := ahead[1], ahead[2];
        ahead[2] := P.Nth(input.tokens, i);
      }
      prev := StartLoc;
    }

    /** The buffer, as the functions of `ParserSpec` look at it. */
    lemma Peek()
      requires Valid()
      ensures ahead[0] == P.Front(S()) && ahead[1] == P.Ahead(S(), 1) && ahead[2] == P.Ahead(S(), 2)
    {
    }

    // ---------------------------------------------------------------- helpers

    /** `lex()`. */
    method Lex() returns (t: Token)
      requires Valid()
      modifies this, ahead
      ensures Valid() && P.Parsed(t, S()) == P.Lex(old(S()))
    {
      t := ahead[0];
      prev := ahead[0].loc;
      for i := 0 to P.MaxAhead - 1
        modifies ahead
        invariant forall j :: 0 <= j < i ==> ahead[j] == old(ahead[j + 1])
        invariant forall j :: i <= j < P.MaxAhead ==> ahead[j] == old(ahead[j])
      {
        ahead[i] := ahead[i + 1];
      }
      ahead[P.MaxAhead - 1] := P.Nth(input.tokens, pos + P.MaxAhead);
      pos := if pos + 1 < |input.tokens| then pos + 1 else pos;
    }

    /** `eat(tag)`. */
    method Eat(tag: Tag) returns (t: Token)
      requires Valid() && ahead[0].tag == tag && tag != M_eof
      modifies this, ahead
      ensures Valid() && P.Parsed(t, S()) == P.Eat(old(S()), tag)
    {
      Peek();
      t := Lex();
    }

    /** `error(what, context)`: reported at the front token. */
    method Error()
      requires Valid()
      modifies compiler
      ensures Valid() && S() == P.Complain(old(S()))
    {
      Peek();
      compiler.Error(ahead[0].loc);
    }

    /** `accept(tag)`. */
    method Accept(tag: Tag) returns (ok: bool)
      requires Valid()
      modifies this, ahead
      ensures Valid() && P.Parsed(ok, S()) == P.Accept(old(S()), tag)
    {
      Peek();
      if tag != ahead[0].tag {
        return false;
      }
      var _ := Lex();
      return true;
    }

    /** `expect(tag, context)`. */
    method Expect(tag: Tag) returns (ok: bool)
      requires Valid()
      modifies this, ahead, compiler
      ensures Valid() && P.Parsed(ok, S()) == P.Expect(old(S()), tag)
    {
      Peek();
      if ahead[0].tag == tag {
        var _ := Lex();
        return true;
      }
      Error();
      return false;
    }

    // ---------------------------------------------------------------- misc and try_*

    /** `parse_id`. */
    method ParseId() returns (id: Id)
      requires Valid() && ahead[0].tag == M_id
      modifies this, ahead
      ensures Valid() && P.Parsed(id, S()) == P.ParseId(old(S()))
    {
      Peek();
      var t := Eat(M_id);
      id := IdOfToken(t);
    }

    /** `try_id`. */
    method TryId() returns (id: Id)
      requires Valid()
      modifies this, ahead, compiler
      ensures Valid() && P.Parsed(id, S()) == P.TryId(old(S()))
    {
      Peek();
      if ahead[0].tag == M_id {
        id := ParseId();
        return;
      }
      Error();
      id := MakeId(prev, "<error>");
    }

    /** `parse_type_ascription`. */
    method ParseTypeAscription(mandatory: bool) returns (ty: Expr)
      requires Valid()
      modifies this, ahead, compiler
      ensures Valid() && P.Parsed(ty, S()) == P.ParseTypeAscription(old(S()), mandatory)
      decreases P.Weight(S()), 8
    {
      Peek();
      if mandatory {
        var _ := Expect(P_colon);
        ty := TryExpr(Bottom);
        return;
      }
      var colon := Accept(P_colon);
      if colon {
        ty := TryExpr(Bottom);
      } else {
        ty := MakeUnknown(prev);
      }
    }

    /** `try_expr`. */
    method TryExpr(p: Prec) returns (e: Expr)
      requires Valid()
      modifies this, ahead, compiler
      ensures Valid() && P.Parsed(e, S()) == P.TryExpr(old(S()), p)
      decreases P.Weight(S()), 7
    {
      Peek();
      if P.StartsExpr(ahead[0].tag) {
        e := ParseExpr(p);
        return;
      }
      Error();
      e := MakeError(prev);
    }

    /** `try_ptrn`. */
    method TryPtrn() returns (ptrn: Ptrn)
      requires Valid()
      modifies this, ahead, compiler
      ensures Valid() && P.Parsed(ptrn, S()) == P.TryPtrn(old(S()))
      decreases P.Weight(S()), 4
    {
      Peek();
      if ahead[0].tag == M_id || ahead[0].tag == D_l_paren {
        ptrn := ParsePtrn(false);
        return;
      }
      Error();
      ptrn := ErrorPtrn(prev);
    }

    /** `try_ptrn_t`. */
    method TryPtrnT(mandatory: bool) returns (ptrn: Ptrn)
      requires Valid()
      modifies this, ahead, compiler
      ensures Valid() && P.Parsed(ptrn, S()) == P.TryPtrnT(old(S()), mandatory)
      decreases P.Weight(S()), 9
    {
      Peek();
      Peek();
      if (ahead[0].tag == M_id && ahead[1].tag == P_colon) || ahead[0].tag == D_l_paren {
        ptrn := ParsePtrn(mandatory);
      } else {
        ptrn := TypePtrn();
      }
    }

    /** The fallback of `try_ptrn_t`: a type bound to the anonymous name. */
    method TypePtrn() returns (ptrn: Ptrn)
      requires Valid()
      modifies this, ahead, compiler
      ensures Valid() && P.Parsed(ptrn, S()) == P.TypePtrn(old(S()))
      decreases P.Weight(S()), 8
    {
      Peek();
      var start := ahead[0].loc;
      var ty := TryExpr(Bottom);
      ptrn := IdPtrn(Track(start, prev), MakeId(prev, Anonymous), ty, true);
    }

    /** `try_tuple_ptrn`. */
    method TryTuplePtrn() returns (ptrn: Ptrn)
      requires Valid()
      modifies this, ahead, compiler
      ensures Valid() && P.Parsed(ptrn, S()) == P.TryTuplePtrn(old(S()))
      decreases P.Weight(S()), 3
    {
      Peek();
      if ahead[0].tag == D_l_paren {
        ptrn := ParseTuplePtrn(false, D_l_paren, D_r_paren);
        return;
      }
      Error();
      ptrn := TuplePtrn(prev, [], MakeUnknown(prev), false);
    }

    /** `try_block_expr`. */
    method TryBlockExpr() returns (e: Expr)
      requires Valid()
      modifies this, ahead, compiler
      ensures Valid() && P.Parsed(e, S()) == P.TryBlockExpr(old(S()))
      decreases P.Weight(S()), 2
    {
      Peek();
      if ahead[0].tag == D_l_brace {
        e := ParseBlockExpr();
        return;
      }
      Error();
      e := MakeEmptyBlock(prev);
    }

    // ---------------------------------------------------------------- patterns

    /** `parse_ptrn`. */
    method ParsePtrn(mandatory: bool) returns (ptrn: Ptrn)
      requires Valid() && (ahead[0].tag == M_id || ahead[0].tag == D_l_paren)
      modifies this, ahead, compiler
      ensures Valid() && P.Parsed(ptrn, S()) == P.ParsePtrn(old(S()), mandatory)
      decreases P.Weight(S()), 3
    {
      Peek();
      if ahead[0].tag == M_id {
        ptrn := ParseIdPtrn(mandatory);
      } else {
        ptrn := ParseTuplePtrn(mandatory, D_l_paren, D_r_paren);
      }
    }

    /** `parse_id_ptrn`. */
    method ParseIdPtrn(mandatory: bool) returns (ptrn: Ptrn)
      requires Valid() && ahead[0].tag == M_id
      modifies this, ahead, compiler
      ensures Valid() && P.Parsed(ptrn, S()) == P.ParseIdPtrn(old(S()), mandatory)
      decreases P.Weight(S()), 1
    {
      Peek();
      var start := ahead[0].loc;
      var id := ParseId();
      var ty := ParseTypeAscription(mandatory);
      ptrn := IdPtrn(Track(start, prev), id, ty, mandatory);
    }

    /** `parse_tuple_ptrn`. */
    method ParseTuplePtrn(mandatory: bool, delimL: Tag, delimR: Tag) returns (ptrn: Ptrn)
      requires Valid() && ahead[0].tag == delimL && delimL != M_eof
      modifies this, ahead, compiler
      ensures Valid() && P.Parsed(ptrn, S()) == P.ParseTuplePtrn(old(S()), mandatory, delimL, delimR)
      decreases P.Weight(S()), 2
    {
      Peek();
      var start := ahead[0].loc;
      var ptrns := ParseDelimitedList(delimL, delimR, P.SubPtrns);
      var ty := ParseTypeAscription(mandatory);
      ptrn := TuplePtrn(Track(start, prev), ptrns.ptrns, ty, mandatory);
    }

    // ---------------------------------------------------------------- lists

    /** The element parser a list of `kind` is called with. */
    method ParseItem(kind: P.ListKind) returns (item: P.ListItem)
      requires Valid()
      modifies this, ahead, compiler
      ensures Valid() && P.Parsed(item, S()) == P.ParseItem(old(S()), kind)
      decreases P.Weight(S()), 10
    {
      Peek();
      match kind
      case SubPtrns =>
        var p := TryPtrn();
        item := P.PtrnItem(p);
      case Binders(m) =>
        var p := TryPtrnT(m);
        item := P.PtrnItem(p);
      case TupleElems =>
        var e := ParseTupleElem();
        item := P.ElemItem(e);
    }

    /** The element parser of `parse_tuple_expr`. */
    method ParseTupleElem() returns (elem: TupleElem)
      requires Valid()
      modifies this, ahead, compiler
      ensures Valid() && P.Parsed(elem, S()) == P.ParseTupleElem(old(S()))
      decreases P.Weight(S()), 8
    {
      Peek();
      var start := ahead[0].loc;
      var id: Id;
      if ahead[0].tag == M_id && ahead[1].tag == O_eq {
        id := ParseId();
        var _ := Eat(O_eq);
      } else {
        id := MakeId(prev, Anonymous);
      }
      var e := TryExpr(Bottom);
      elem := TupleElem(Track(start, prev), id, e);
    }

    /** `parse_list(delim_r, f, sep)`. */
    method ParseList(delimR: Tag, sep: Tag, kind: P.ListKind) returns (items: P.Items)
      requires Valid() && sep != M_eof
      modifies this, ahead, compiler
      ensures Valid() && P.Parsed(items, S()) == P.ParseList(old(S()), delimR, sep, kind)
      decreases P.Weight(S()), 13
    {
      Peek();
      items := P.NoItems(kind);
      if ahead[0].tag == delimR {
        return;
      }
      while true
        invariant Valid() && (items.ElemItems? <==> kind == P.TupleElems)
        invariant P.Advanced(old(S()), S())
        invariant P.ListLoop(S(), delimR, sep, kind, items) == P.ParseList(old(S()), delimR, sep, kind)
        decreases P.Weight(S())
      {
        Peek();
        var more;
        items, more := ListStep(delimR, sep, kind, items);
        if !more {
          break;
        }
      }
    }

    /** One round of the loop of `parse_list`: an element, then the separator if it is in front. */
    method ListStep(delimR: Tag, sep: Tag, kind: P.ListKind, items: P.Items) returns (items': P.Items, more: bool)
      requires Valid() && sep != M_eof && (items.ElemItems? <==> kind == P.TupleElems)
      modifies this, ahead, compiler
      ensures Valid() && P.Parsed((items', more), S()) == P.ListStep(old(S()), delimR, sep, kind, items)
      decreases P.Weight(S()), 11
    {
      Peek();
      var item := ParseItem(kind);
      items' := P.Push(items, item);
      more := Accept(sep);
      Peek();
      more := more && ahead[0].tag != delimR;
    }

    /** `parse_list(context, delim_l, delim_r, f)`, with `,` as the separator. */
    method ParseDelimitedList(delimL: Tag, delimR: Tag, kind: P.ListKind) returns (items: P.Items)
      requires Valid() && ahead[0].tag == delimL && delimL != M_eof
      modifies this, ahead, compiler
      ensures Valid() && P.Parsed(items, S()) == P.ParseDelimitedList(old(S()), delimL, delimR, kind)
      decreases P.Weight(S()), 1
    {
      Peek();
      var _ := Eat(delimL);
      items := ParseList(delimR, P_comma, kind);
      var _ := Expect(delimR);
    }

    // ---------------------------------------------------------------- expressions

    /** `parse_expr(p)`. */
    method ParseExpr(p: Prec) returns (e: Expr)
      requires Valid()
      modifies this, ahead, compiler
      ensures Valid() && P.Parsed(e, S()) == P.ParseExpr(old(S()), p)
      decreases P.Weight(S()), 6
    {
      Peek();
      var start := ahead[0].loc;
      e := ParsePrimary();
      while true
        invariant Valid() && P.Advanced(old(S()), S())
        invariant P.ExprLoop(S(), p, start, e) == P.ParseExpr(old(S()), p)
        decreases P.Weight(S())
      {
        Peek();
        var tag := ahead[0].tag;
        if P.IsPostfix(tag) {
          e := PostfixStep(start, e);
        } else if PrecLt(p, TagToPrec(tag)) {
          InfixTagsAreOperators(tag);
          e := ParseInfixExpr(start, e);
        } else {
          break;
        }
      }
    }

    /** The postfix forms of the loop of `parse_expr`: the one in front, applied to `lhs`. */
    method PostfixStep(start: Loc, lhs: Expr) returns (e: Expr)
      requires Valid() && P.IsPostfix(ahead[0].tag)
      modifies this, ahead, compiler
      ensures Valid() && P.Parsed(e, S()) == P.PostfixStep(old(S()), start, lhs)
      decreases P.Weight(S()), 4
    {
      Peek();
      var tag := ahead[0].tag;
      if tag == P_dot {
        e := ParseFieldExpr(start, lhs);
      } else if tag == D_l_paren {
        e := ParseCpsAppExpr(start, lhs);
      } else if tag == D_l_bracket {
        e := ParseDsAppExpr(start, lhs);
      } else {
        e := ParsePostfixExpr(start, lhs);
      }
    }

    /** `parse_prefix_expr`. */
    method ParsePrefixExpr() returns (e: Expr)
      requires Valid() && ahead[0].tag != M_eof
      modifies this, ahead, compiler
      ensures Valid() && P.Parsed(e, S()) == P.ParsePrefixExpr(old(S()))
      decreases P.Weight(S()), 1
    {
      Peek();
      var start := ahead[0].loc;
      var op := Lex();
      var rhs := ParseExpr(Unary);
      e := PrefixExpr(Track(start, prev), op.tag, rhs);
    }

    /** `parse_infix_expr`. */
    method ParseInfixExpr(start: Loc, lhs: Expr) returns (e: Expr)
      requires Valid() && ahead[0].tag != M_eof
      modifies this, ahead, compiler
      ensures Valid() && P.Parsed(e, S()) == P.ParseInfixExpr(old(S()), start, lhs)
      decreases P.Weight(S()), 1
    {
      Peek();
      var op := Lex();
      var rhs := ParseExpr(TagToPrec(op.tag));
      var name := TagToName(op.tag);
      if name != "" {
        var callee := IdExpr(op.loc, MakeId(op.loc, name));
        e := AppExpr(Track(start, prev), callee, MakeTuple(prev, lhs, rhs), true);
      } else {
        e := InfixExpr(Track(start, prev), lhs, op.tag, rhs);
      }
    }

    /** `parse_postfix_expr`. */
    method ParsePostfixExpr(start: Loc, lhs: Expr) returns (e: Expr)
      requires Valid() && (ahead[0].tag == O_inc || ahead[0].tag == O_dec)
      modifies this, ahead
      ensures Valid() && P.Parsed(e, S()) == P.ParsePostfixExpr(old(S()), start, lhs)
    {
      Peek();
      var op := Lex();
      e := PostfixExpr(Track(start, prev), lhs, op.tag);
    }

    /** `parse_cps_app_expr`. */
    method ParseCpsAppExpr(start: Loc, callee: Expr) returns (e: Expr)
      requires Valid() && ahead[0].tag == D_l_paren
      modifies this, ahead, compiler
      ensures Valid() && P.Parsed(e, S()) == P.ParseAppExpr(old(S()), start, callee)
      decreases P.Weight(S()), 3
    {
      Peek();
      var arg := ParseTupleExpr(D_l_paren, D_r_paren);
      e := AppExpr(Track(start, prev), callee, arg, true);
    }

    /** `parse_ds_app_expr`. */
    method ParseDsAppExpr(start: Loc, callee: Expr) returns (e: Expr)
      requires Valid() && ahead[0].tag == D_l_bracket
      modifies this, ahead, compiler
      ensures Valid() && P.Parsed(e, S()) == P.ParseAppExpr(old(S()), start, callee)
      decreases P.Weight(S()), 3
    {
      Peek();
      var arg := ParseTupleExpr(D_l_bracket, D_r_bracket);
      e := AppExpr(Track(start, prev), callee, arg, false);
    }

    /** `parse_field_expr`. */
    method ParseFieldExpr(start: Loc, lhs: Expr) returns (e: Expr)
      requires Valid() && ahead[0].tag == P_dot
      modifies this, ahead, compiler
      ensures Valid() && P.Parsed(e, S()) == P.ParseFieldExpr(old(S()), start, lhs)
    {
      Peek();
      var _ := Eat(P_dot);
      var id := TryId();
      e := FieldExpr(Track(start, prev), lhs, id);
    }

    /** `parse_primary_expr`. */
    method ParsePrimary() returns (e: Expr)
      requires Valid()
      modifies this, ahead, compiler
      ensures Valid() && P.Parsed(e, S()) == P.ParsePrimary(old(S()))
      decreases P.Weight(S()), 3
    {
      Peek();
      var tag := ahead[0].tag;
      if tag == O_inc || tag == O_dec || tag == O_add || tag == O_sub {
        e := ParsePrefixExpr();
      } else if tag == D_l_brace {
        e := ParseBlockExpr();
      } else if tag == D_l_bracket {
        e := ParseSigmaExpr();
      } else if tag == D_l_paren {
        e := ParseTupleExpr(D_l_paren, D_r_paren);
      } else if tag == K_ar {
        e := ParseVariadicExpr();
      } else if tag == K_cn {
        e := ParseCnExpr(false);
      } else if tag == K_Cn {
        e := ParseCnTypeExpr();
      } else if tag == K_fn {
        e := ParseFnExpr(false);
      } else if tag == K_Fn {
        e := ParseFnTypeExpr();
      } else if tag == K_if {
        e := ParseIfExpr();
      } else if tag == K_pk {
        e := ParsePackExpr();
      } else if tag == M_id {
        e := ParseIdExpr();
      } else if tag == O_forall {
        e := ParseForallExpr();
      } else if tag == O_lambda {
        e := ParseLambdaExpr();
      } else {
        Error();
        e := MakeError(prev);
      }
    }

    /** `parse_id_expr`. */
    method ParseIdExpr() returns (e: Expr)
      requires Valid() && ahead[0].tag == M_id
      modifies this, ahead
      ensures Valid() && P.Parsed(e, S()) == P.ParseIdExpr(old(S()))
    {
      Peek();
      var id := ParseId();
      e := IdExpr(id.loc, id);
    }

    /** The expression of an expression statement in a block. */
    method ParseStmntExpr() returns (e: Expr)
      requires Valid()
      modifies this, ahead, compiler
      ensures Valid() && P.Parsed(e, S()) == P.ParseStmntExpr(old(S()))
      decreases P.Weight(S()), 7
    {
      Peek();
      var tag := ahead[0].tag;
      if tag == K_if {
        e := ParseIfExpr();
      } else if tag == K_match || tag == K_for || tag == K_while {
        e := ParseUnimplemented();
      } else if tag == D_l_brace {
        e := ParseBlockExpr();
      } else {
        e := ParseExpr(Bottom);
      }
    }

    /** `parse_block_expr`. */
    method ParseBlockExpr() returns (e: Expr)
      requires Valid() && ahead[0].tag == D_l_brace
      modifies this, ahead, compiler
      ensures Valid() && P.Parsed(e, S()) == P.ParseBlockExpr(old(S()))
      decreases P.Weight(S()), 1
    {
      Peek();
      var start := ahead[0].loc;
      var _ := Eat(D_l_brace);
      var stmnts: seq<Stmnt> := [];
      var final: Option<Expr> := None;
      while true
        invariant Valid() && P.Consumed(old(S()), S())
        invariant P.BlockLoop(S(), start, stmnts) == P.ParseBlockExpr(old(S()))
        decreases P.Weight(S())
      {
        Peek();
        var tag := ahead[0].tag;
        if tag == P_semicolon {
          var _ := Lex();
        } else if tag == K_let {
          var s := ParseLetStmnt();
          stmnts := stmnts + [s];
        } else if (tag == K_cn || tag == K_fn) && ahead[1].tag == M_id {
          var s := ParseItemStmnt();
          stmnts := stmnts + [s];
        } else if P.StartsExpr(tag) {
          ghost var before := S();
          assert P.BlockLoop(before, start, stmnts) == P.BlockExprStmnt(before, start, stmnts);
          var from := ahead[0].loc;
          var expr := ParseStmntExpr();
          var semi := Accept(P_semicolon);
          Peek();
          if semi || (P.IsStmntLike(tag) && ahead[0].tag != D_r_brace) {
            stmnts := stmnts + [ExprStmnt(Track(from, prev), expr)];
          } else {
            final := Some(expr);
            break;
          }
        } else {
          break;
        }
      }
      var _ := Expect(D_r_brace);
      var value := if final.Some? then final.value else MakeUnitTuple(prev);
      e := BlockExpr(Track(start, prev), stmnts, value);
    }

    /** `parse_for_expr`, `parse_match_expr` and `parse_while_expr`. */
    method ParseUnimplemented() returns (e: Expr)
      requires Valid() && ahead[0].tag != M_eof
      modifies this, ahead, compiler
      ensures Valid() && P.Parsed(e, S()) == P.ParseUnimplemented(old(S()))
    {
      Peek();
      Error();
      var _ := Lex();
      e := MakeError(prev);
    }

    /** `parse_if_expr`. */
    method ParseIfExpr() returns (e: Expr)
      requires Valid() && ahead[0].tag == K_if
      modifies this, ahead, compiler
      ensures Valid() && P.Parsed(e, S()) == P.ParseIfExpr(old(S()))
      decreases P.Weight(S()), 1
    {
      Peek();
      var start := ahead[0].loc;
      var _ := Eat(K_if);
      var cond := ParseExpr(Bottom);
      var thenExpr := TryBlockExpr();
      var alt: Option<Expr> := None;
      var els := Accept(K_else);
      Peek();
      if els {
        if ahead[0].tag == K_if {
          var a := ParseIfExpr();
          alt := Some(a);
        } else if ahead[0].tag == D_l_brace {
          var a := ParseBlockExpr();
          alt := Some(a);
        } else {
          Error();
        }
      }
      var elseExpr := if alt.Some? then alt.value else MakeEmptyBlock(prev);
      e := IfExpr(Track(start, prev), cond, thenExpr, elseExpr);
    }

    /** `parse_tuple_expr`. */
    method ParseTupleExpr(delimL: Tag, delimR: Tag) returns (e: Expr)
      requires Valid() && ahead[0].tag == delimL && delimL != M_eof
      modifies this, ahead, compiler
      ensures Valid() && P.Parsed(e, S()) == P.ParseTupleExpr(old(S()), delimL, delimR)
      decreases P.Weight(S()), 2
    {
      Peek();
      var start := ahead[0].loc;
      var elems := ParseDelimitedList(delimL, delimR, P.TupleElems);
      var ty := ParseTypeAscription(false);
      e := TupleExpr(Track(start, prev), elems.elems, ty);
    }

    /** `parse_sigma_expr`. */
    method ParseSigmaExpr() returns (e: Expr)
      requires Valid() && ahead[0].tag == D_l_bracket
      modifies this, ahead, compiler
      ensures Valid() && P.Parsed(e, S()) == P.ParseSigmaExpr(old(S()))
      decreases P.Weight(S()), 2
    {
      Peek();
      var start := ahead[0].loc;
      var binders := ParseDelimitedList(D_l_bracket, D_r_bracket, P.Binders(true));
      e := SigmaExpr(Track(start, prev), binders.ptrns);
    }

    /** The common part of `parse_pack_expr` and `parse_variadic_expr`. */
    method ParseDependent(kw: Tag, delimL: Tag, delimR: Tag) returns (domains: seq<Ptrn>, body: Expr)
      requires Valid() && ahead[0].tag == kw && kw != M_eof
      modifies this, ahead, compiler
      ensures Valid() && P.Parsed((domains, body), S()) == P.ParseDependent(old(S()), kw, delimL, delimR)
      decreases P.Weight(S()), 1
    {
      Peek();
      var _ := Eat(kw);
      var _ := Expect(delimL);
      var ds := ParseList(P_semicolon, P_comma, P.Binders(true));
      domains := ds.ptrns;
      var _ := Expect(P_semicolon);
      body := TryExpr(Bottom);
      var _ := Expect(delimR);
    }

    /** `parse_pack_expr`. */
    method ParsePackExpr() returns (e: Expr)
      requires Valid() && ahead[0].tag == K_pk
      modifies this, ahead, compiler
      ensures Valid() && P.Parsed(e, S()) == P.ParsePackExpr(old(S()))
      decreases P.Weight(S()), 2
    {
      Peek();
      var start := ahead[0].loc;
      var domains, body := ParseDependent(K_pk, D_l_paren, D_r_paren);
      e := PackExpr(Track(start, prev), domains, body);
    }

    /** `parse_variadic_expr`. */
    method ParseVariadicExpr() returns (e: Expr)
      requires Valid() && ahead[0].tag == K_ar
      modifies this, ahead, compiler
      ensures Valid() && P.Parsed(e, S()) == P.ParseVariadicExpr(old(S()))
      decreases P.Weight(S()), 2
    {
      Peek();
      var start := ahead[0].loc;
      var domains, body := ParseDependent(K_ar, D_l_bracket, D_r_bracket);
      e := VariadicExpr(Track(start, prev), domains, body);
    }

    // ---------------------------------------------------------------- lambdas and for-alls

    /** The common head of `parse_cn_expr` and `parse_fn_expr`. */
    method ParseLambdaHead(kw: Tag, item: bool) returns (name: Option<Id>, dsDomain: Option<Ptrn>)
      requires Valid() && ahead[0].tag == kw && kw != M_eof
      modifies this, ahead, compiler
      ensures Valid() && P.Parsed((name, dsDomain), S()) == P.ParseLambdaHead(old(S()), kw, item)
      decreases P.Weight(S()), 1
    {
      Peek();
      var _ := Eat(kw);
      name := None;
      if ahead[0].tag == M_id {
        var id := ParseId();
        name := Some(id);
      }
      if !item && name.Some? {
        compiler.Error(name.value.loc);
        name := None;
      }
      if item && name.None? {
        name := Some(MakeId(prev, Anonymous));
      }
      dsDomain := None;
      Peek();
      if ahead[0].tag == D_l_bracket {
        var d := ParseTuplePtrn(false, D_l_bracket, D_r_bracket);
        dsDomain := Some(d);
      }
    }

    /** `parse_cn_expr`. */
    method ParseCnExpr(item: bool) returns (f: Expr)
      requires Valid() && ahead[0].tag == K_cn
      modifies this, ahead, compiler
      ensures Valid() && P.Parsed(f, S()) == P.ParseCnExpr(old(S()), item)
      decreases P.Weight(S()), 2
    {
      Peek();
      var start := ahead[0].loc;
      var name, dsDomain := ParseLambdaHead(K_cn, item);
      var domain := TryTuplePtrn();
      var body := TryExpr(Bottom);
      f := P.Lambda(Track(start, prev), prev, name, dsDomain, domain, body);
    }

    /** `parse_fn_expr`. */
    method ParseFnExpr(item: bool) returns (f: Expr)
      requires Valid() && ahead[0].tag == K_fn
      modifies this, ahead, compiler
      ensures Valid() && P.Parsed(f, S()) == P.ParseFnExpr(old(S()), item)
      decreases P.Weight(S()), 2
    {
      Peek();
      var start := ahead[0].loc;
      var name, dsDomain := ParseLambdaHead(K_fn, item);
      var first := TryTuplePtrn();
      var arrow := Accept(O_arrow);
      var ret: Expr;
      if arrow {
        ret := TryExpr(Arrow);
      } else {
        ret := MakeUnknown(prev);
      }
      var retPtrn := P.ReturnPtrn(prev, "return", ret);
      var domain := TuplePtrn(Join(first.loc, retPtrn.loc), [first, retPtrn], MakeUnknown(prev), false);
      var body := TryExpr(Bottom);
      f := P.Lambda(Track(start, prev), prev, name, dsDomain, domain, body);
    }

    /** `parse_lambda_expr`. */
    method ParseLambdaExpr() returns (e: Expr)
      requires Valid() && ahead[0].tag == O_lambda
      modifies this, ahead, compiler
      ensures Valid() && P.Parsed(e, S()) == P.ParseLambdaExpr(old(S()))
      decreases P.Weight(S()), 1
    {
      Peek();
      var start := ahead[0].loc;
      var _ := Eat(O_lambda);
      var domain := TryPtrn();
      var arrow := Accept(O_arrow);
      var codomain: Expr;
      if arrow {
        codomain := TryExpr(Arrow);
      } else {
        codomain := MakeUnknown(prev);
      }
      var body := TryExpr(Bottom);
      e := LambdaExpr(Track(start, prev), None, domain, codomain, body);
    }

    /** `parse_cn_type_expr`. */
    method ParseCnTypeExpr() returns (e: Expr)
      requires Valid() && ahead[0].tag == K_Cn
      modifies this, ahead, compiler
      ensures Valid() && P.Parsed(e, S()) == P.ParseCnTypeExpr(old(S()))
      decreases P.Weight(S()), 1
    {
      Peek();
      var start := ahead[0].loc;
      var _ := Eat(K_Cn);
      var domain := TryPtrnT(false);
      e := ForallExpr(Track(start, prev), domain, MakeBottom(prev));
    }

    /** `parse_fn_type_expr`. */
    method ParseFnTypeExpr() returns (e: Expr)
      requires Valid() && ahead[0].tag == K_Fn
      modifies this, ahead, compiler
      ensures Valid() && P.Parsed(e, S()) == P.ParseFnTypeExpr(old(S()))
      decreases P.Weight(S()), 1
    {
      Peek();
      var start := ahead[0].loc;
      var _ := Eat(K_Fn);
      var first := TryPtrnT(false);
      var _ := Expect(O_arrow);
      var ret := TryExpr(Arrow);
      var retPtrn := P.ReturnPtrn(prev, Anonymous, ret);
      var domain := MakeTypedIdPtrn(prev, Anonymous, SigmaExpr(Join(first.loc, retPtrn.loc), [first, retPtrn]));
      e := ForallExpr(Track(start, prev), domain, MakeBottom(prev));
    }

    /** `parse_forall_expr`. */
    method ParseForallExpr() returns (e: Expr)
      requires Valid() && ahead[0].tag == O_forall
      modifies this, ahead, compiler
      ensures Valid() && P.Parsed(e, S()) == P.ParseForallExpr(old(S()))
      decreases P.Weight(S()), 1
    {
      Peek();
      var start := ahead[0].loc;
      var _ := Eat(O_forall);
      var domain := TryPtrnT(false);
      var _ := Expect(O_arrow);
      var codomain := TryExpr(Arrow);
      e := ForallExpr(Track(start, prev), domain, codomain);
    }

    // ---------------------------------------------------------------- statements and programs

    /** `parse_let_stmnt`. */
    method ParseLetStmnt() returns (s: Stmnt)
      requires Valid() && ahead[0].tag == K_let
      modifies this, ahead, compiler
      ensures Valid() && P.Parsed(s, S()) == P.ParseLetStmnt(old(S()))
      decreases P.Weight(S()), 1
    {
      Peek();
      var start := ahead[0].loc;
      var _ := Eat(K_let);
      var ptrn := TryPtrn();
      var init: Option<Expr> := None;
      var eq := Accept(O_eq);
      if eq {
        var e := TryExpr(Bottom);
        init := Some(e);
      }
      s := LetStmnt(Track(start, prev), ptrn, init);
    }

    /** `parse_item_stmnt`. */
    method ParseItemStmnt() returns (s: Stmnt)
      requires Valid() && (ahead[0].tag == K_cn || ahead[0].tag == K_fn)
      modifies this, ahead, compiler
      ensures Valid() && P.Parsed(s, S()) == P.ParseItemStmnt(old(S()))
      decreases P.Weight(S()), 3
    {
      Peek();
      var start := ahead[0].loc;
      var f: Expr;
      if ahead[0].tag == K_cn {
        f := ParseCnExpr(true);
      } else {
        f := ParseFnExpr(true);
      }
      var loc := Track(start, prev);
      s := ItemStmnt(loc, Item(loc, f.name.value, f));
    }

    /** `parse_prg`. */
    method ParsePrg() returns (prg: Prg)
      requires Valid()
      modifies this, ahead, compiler
      ensures Valid() && P.Parsed(prg, S()) == P.ParsePrg(old(S()))
    {
      Peek();
      var start := ahead[0].loc;
      var stmnts: seq<Stmnt> := [];
      while ahead[0].tag != M_eof
        invariant Valid() && P.Advanced(old(S()), S())
        invariant P.PrgLoop(S(), start, stmnts) == P.ParsePrg(old(S()))
        decreases P.Weight(S())
      {
        Peek();
        if ahead[0].tag == K_cn || ahead[0].tag == K_fn {
          var s := ParseItemStmnt();
          stmnts := stmnts + [s];
        } else if ahead[0].tag == K_let {
          var s := ParseLetStmnt();
          stmnts := stmnts + [s];
        } else {
          Error();
          var _ := Lex();
        }
      }
      prg := Prg(Track(start, prev), stmnts);
    }
  }

  /** `parse_expr(compiler, stream, filename)`: a parser over the lexer's output, asked for one expression. */
  method ParseExpression(compiler: Compiler, tokens: seq<Token>) returns (e: Expr)
    requires P.IsTokenStream(tokens)
    modifies compiler
    ensures e == P.ParseExpr(P.Init(tokens, old(compiler.Value())), Bottom).node
    ensures compiler.Value() == P.ParseExpr(P.Init(tokens, old(compiler.Value())), Bottom).st.report
  {
    var parser := new Parser(compiler, tokens);
    e := parser.ParseExpr(Bottom);
  }

  /** `parse(compiler, stream, filename)`: a parser over the lexer's output, asked for a whole program. */
  method Parse(compiler: Compiler, tokens: seq<Token>) returns (prg: Prg)
    requires P.IsTokenStream(tokens)
    modifies compiler
    ensures prg == P.ParsePrg(P.Init(tokens, old(compiler.Value()))).node
    ensures compiler.Value() == P.ParsePrg(P.Init(tokens, old(compiler.Value()))).st.report
  {
    var parser := new Parser(compiler, tokens);
    prg := parser.ParsePrg();
  }
}
