/**
  Properties of the parser functions of `ParserSpec`: how `parse_expr` groups
  operators by precedence and associativity, how a block and a program treat
  tokens they cannot use, and how `parse_list` tolerates a trailing separator.

  Expressions are compared by their `Shape`, which forgets the spans and keeps
  what the parser tests print: names, calls of an operator's name, infix,
  prefix and postfix nodes.
 */
module ParserProperties {
  import opened Basics
  import opened Diagnostics
  import opened Tokens
  import opened Ast
  import opened Builders
  import opened ParserSpec

  // ---------------------------------------------------------------- shapes

  /** An expression without its spans. */
  datatype Shape =
    | Name(symbol: string)
    | Call(name: string, lhs: Shape, rhs: Shape)
    | Infix(op: Tag, lhs: Shape, rhs: Shape)
    | Prefix(op: Tag, rhs: Shape)
    | Postfix(lhs: Shape, op: Tag)
    | Other

  /** The shape of `e`; a call counts as an operator call when its argument is a pair. */
  function ShapeOf(e: Expr): Shape {
    match e
    case IdExpr(_, id) => Name(id.symbol)
    case AppExpr(_, callee, arg, cps) =>
      if cps && callee.IdExpr? && arg.TupleExpr? && |arg.elems| == 2 then
        assert arg.elems[0] in arg.elems && arg.elems[1] in arg.elems;
        Call(callee.id.symbol, ShapeOf(arg.elems[0].expr), ShapeOf(arg.elems[1].expr))
      else
        Other
    case InfixExpr(_, lhs, op, rhs) => Infix(op, ShapeOf(lhs), ShapeOf(rhs))
    case PrefixExpr(_, op, rhs) => Prefix(op, ShapeOf(rhs))
    case PostfixExpr(_, lhs, op) => Postfix(ShapeOf(lhs), op)
    case _ => Other
  }

  /** The operators `parse_infix_expr` turns into calls: exactly those with a call-name. */
  predicate IsCallOp(op: Tag) {
    || op == O_add || op == O_sub || op == O_mul || op == O_div || op == O_mod
    || op == O_l_shift || op == O_r_shift || op == O_and || op == O_or || op == O_xor
    || op == O_cmp_le || op == O_cmp_ge || op == O_cmp_lt || op == O_cmp_gt || op == O_cmp_eq || op == O_cmp_ne
  }

  /**
    The tags of `EXPR`: the literals, the prefix operators and every keyword
    that heads an expression start one; `let`, `;`, `}` and the end of the
    input do not, so the block and program loops handle them in cases of
    their own.
   */
  lemma ExprStartTags(t: Tag)
    ensures t in {L_s, L_u, L_f, M_id} ==> StartsExpr(t)
    ensures t in {O_add, O_sub, O_mul, O_and, O_not, O_inc, O_dec, O_tilde} ==> StartsExpr(t)
    ensures IsKeyword(t) ==> (StartsExpr(t) <==> t !in {K_else, K_impl, K_let, K_mut, K_self, K_struct, K_trait})
    ensures !StartsExpr(K_let) && !StartsExpr(P_semicolon) && !StartsExpr(D_r_brace) && !StartsExpr(M_eof)
  {
  }

  /**
    The statement-like forms all start an expression, and none of them is an
    item keyword, so in a block they always reach the inner `switch` of the
    expression case.
   */
  lemma StmntLikeReachesSwitch(t: Tag)
    ensures IsStmntLike(t) ==> StartsExpr(t) && t != K_cn && t != K_fn
  {
  }

  lemma CallOpsAreNamed(op: Tag)
    ensures TagToName(op) != "" <==> IsCallOp(op)
  {
  }

  /** The shape `parse_infix_expr` gives to `lhs op rhs`: a call of the operator's name, or an infix node. */
  function Bin(op: Tag, lhs: Shape, rhs: Shape): Shape {
    if IsCallOp(op) then Call(TagToName(op), lhs, rhs) else Infix(op, lhs, rhs)
  }

  /**
    `parse_infix_expr`: the right operand is a whole `parse_expr` at the
    operator's precedence, and the two operands are combined as `Bin` says.
   */
  lemma InfixShape(st: PState, start: Loc, lhs: Expr)
    requires Valid(st) && Front(st).tag != M_eof
    ensures var rhs := ParseExpr(Lex(st).st, TagToPrec(Front(st).tag));
      var r := ParseInfixExpr(st, start, lhs);
      r.st == rhs.st && ShapeOf(r.node) == Bin(Front(st).tag, ShapeOf(lhs), ShapeOf(rhs.node))
  {
    var o := Lex(st);
    var rhs := ParseExpr(o.st, TagToPrec(o.node.tag));
    var r := ParseInfixExpr(st, start, lhs);
    CombinedShape(o.node, Track(start, rhs.st.prev), rhs.st.prev, lhs, rhs.node);
  }

  /** Both ways `parse_infix_expr` combines two operands have the shape `Bin` gives. */
  lemma CombinedShape(op: Token, loc: Loc, prev: Loc, lhs: Expr, rhs: Expr)
    ensures var name := TagToName(op.tag);
      ShapeOf(if name != "" then
                AppExpr(loc, IdExpr(op.loc, MakeId(op.loc, name)), MakeTuple(prev, lhs, rhs), true)
              else InfixExpr(loc, lhs, op.tag, rhs))
        == Bin(op.tag, ShapeOf(lhs), ShapeOf(rhs))
  {
    var name := TagToName(op.tag);
    CallOpsAreNamed(op.tag);
    if name != "" {
      assert Symbol(IdToken(op.loc, name)) == name;
    }
  }

  // ---------------------------------------------------------------- token positions

  /** The tag of the token `k` places after the front one. */
  function TagAt(st: PState, k: nat): Tag
    requires Valid(st)
  {
    Nth(st.input.tokens, st.pos + k).tag
  }

  /** The name of the identifier `k` places after the front one. */
  function NameAt(st: PState, k: nat): Shape
    requires Valid(st) && TagAt(st, k) == M_id
  {
    var t := Nth(st.input.tokens, st.pos + k);
    assert PayloadFits(t) by { assert t == st.input.tokens[if st.pos + k < |st.input.tokens| then st.pos + k else |st.input.tokens| - 1]; }
    Name(Symbol(t))
  }

  /** The state after the `k` tokens from the front on have been consumed. */
  function At(st: PState, k: nat): (r: PState)
    requires Valid(st) && st.pos + k < |st.input.tokens|
    ensures Valid(r) && r.input == st.input && r.pos == st.pos + k && r.report == st.report
    ensures Front(r).tag == TagAt(st, k)
    ensures k == 0 ==> r == st
  {
    if k == 0 then st else st.(pos := st.pos + k, prev := st.input.tokens[st.pos + k - 1].loc)
  }

  /** A token other than end of file is followed by another one, and `lex()` moves on to it. */
  lemma LexAt(st: PState, k: nat)
    requires Valid(st) && TagAt(st, k) != M_eof
    ensures st.pos + k + 1 < |st.input.tokens|
    ensures Lex(At(st, k)).st == At(st, k + 1)
  {
  }

  /** An infix operator that the loop of `parse_expr` at precedence `p` takes. */
  predicate InfixAbove(op: Tag, p: Prec) {
    !IsPostfix(op) && PrecLt(p, TagToPrec(op))
  }

  // ---------------------------------------------------------------- precedence

  /** `parse_primary_expr` on an identifier: the identifier, one token consumed. */
  lemma PrimaryId(st: PState, i: nat)
    requires Valid(st) && TagAt(st, i) == M_id
    ensures st.pos + i + 1 < |st.input.tokens|
    ensures var a := ParsePrimary(At(st, i)); a.st == At(st, i + 1) && ShapeOf(a.node) == NameAt(st, i)
  {
    LexAt(st, i);
    assert ParsePrimary(At(st, i)) == ParseIdExpr(At(st, i));
  }

  /** `parse_expr` from an identifier: the loop starts after it, with the identifier as what it has built. */
  lemma ExprOfId(st: PState, i: nat, p: Prec)
    requires Valid(st) && TagAt(st, i) == M_id
    ensures st.pos + i + 1 < |st.input.tokens|
    ensures var a := ParsePrimary(At(st, i));
      && ParseExpr(At(st, i), p) == ExprLoop(At(st, i + 1), p, Front(At(st, i)).loc, a.node)
      && ShapeOf(a.node) == NameAt(st, i)
  {
    PrimaryId(st, i);
  }

  /** One round of the loop of `parse_expr` at `p` on an infix operator it takes. */
  lemma InfixRound(st: PState, p: Prec, start: Loc, lhs: Expr)
    requires Valid(st) && InfixAbove(Front(st).tag, p)
    ensures Front(st).tag != M_eof
    ensures var x := ParseInfixExpr(st, start, lhs); ExprLoop(st, p, start, lhs) == ExprLoop(x.st, p, start, x.node)
  {
    InfixTagsAreOperators(Front(st).tag);
  }

  /** An identifier followed by a token that does not extend it at `p`: the identifier alone. */
  lemma Operand(st: PState, i: nat, p: Prec)
    requires Valid(st) && TagAt(st, i) == M_id && !ExtendsLhs(TagAt(st, i + 1), p)
    ensures st.pos + i + 1 < |st.input.tokens|
    ensures var r := ParseExpr(At(st, i), p);
      r.st == At(st, i + 1) && ShapeOf(r.node) == NameAt(st, i)
  {
    ExprOfId(st, i, p);
    var a := ParsePrimary(At(st, i));
    var r := ExprLoop(At(st, i + 1), p, Front(At(st, i)).loc, a.node);
    assert r == Parsed(a.node, At(st, i + 1));
  }

  /** One round of the loop of `parse_expr` at `p` on the infix operator `k` places after the front one. */
  lemma InfixAt(st: PState, i: nat, p: Prec, start: Loc, lhs: Expr)
    requires Valid(st) && st.pos + i < |st.input.tokens| && InfixAbove(TagAt(st, i), p)
    ensures st.pos + i + 1 < |st.input.tokens|
    ensures var rhs := ParseExpr(At(st, i + 1), TagToPrec(TagAt(st, i)));
      var x := ParseInfixExpr(At(st, i), start, lhs);
      && x.st == rhs.st && ShapeOf(x.node) == Bin(TagAt(st, i), ShapeOf(lhs), ShapeOf(rhs.node))
      && ExprLoop(At(st, i), p, start, lhs) == ExprLoop(x.st, p, start, x.node)
  {
    var s := At(st, i);
    InfixRound(s, p, start, lhs);
    LexAt(st, i);
    InfixShape(s, start, lhs);
  }

  /**
    One round of the loop of `parse_expr` at `p` on `op b`, where `b` is an
    identifier and the token after it does not extend `b` at the precedence of
    `op`: `lhs op b` is built and the loop goes on after `b`.
   */
  lemma InfixWithOperand(st: PState, i: nat, p: Prec, start: Loc, lhs: Expr)
    requires Valid(st) && st.pos + i < |st.input.tokens| && InfixAbove(TagAt(st, i), p)
    requires TagAt(st, i + 1) == M_id && !ExtendsLhs(TagAt(st, i + 2), TagToPrec(TagAt(st, i)))
    ensures st.pos + i + 2 < |st.input.tokens|
    ensures var x := ParseInfixExpr(At(st, i), start, lhs);
      && x.st == At(st, i + 2) && ShapeOf(x.node) == Bin(TagAt(st, i), ShapeOf(lhs), NameAt(st, i + 1))
      && ExprLoop(At(st, i), p, start, lhs) == ExprLoop(At(st, i + 2), p, start, x.node)
  {
    InfixAt(st, i, p, start, lhs);
    Operand(st, i + 1, TagToPrec(TagAt(st, i)));
  }

  /** The loop of `parse_expr` at `p` on `op b` and a token that ends the expression at `p`: `lhs op b`. */
  lemma Tail(st: PState, i: nat, p: Prec, start: Loc, lhs: Expr)
    requires Valid(st) && st.pos + i < |st.input.tokens| && InfixAbove(TagAt(st, i), p)
    requires TagAt(st, i + 1) == M_id && !ExtendsLhs(TagAt(st, i + 2), p)
    ensures st.pos + i + 2 < |st.input.tokens|
    ensures var r := ExprLoop(At(st, i), p, start, lhs);
      r.st == At(st, i + 2) && ShapeOf(r.node) == Bin(TagAt(st, i), ShapeOf(lhs), NameAt(st, i + 1))
  {
    InfixWithOperand(st, i, p, start, lhs);
    var x := ParseInfixExpr(At(st, i), start, lhs);
    var r := ExprLoop(x.st, p, start, x.node);
    assert r == Parsed(x.node, At(st, i + 2));
  }

  /** `a op b`, where the token after `b` ends the expression at `p`: one operator node. */
  lemma Binary(st: PState, i: nat, p: Prec)
    requires Valid(st) && TagAt(st, i) == M_id && TagAt(st, i + 2) == M_id
    requires InfixAbove(TagAt(st, i + 1), p) && !ExtendsLhs(TagAt(st, i + 3), p)
    ensures st.pos + i + 3 < |st.input.tokens|
    ensures var r := ParseExpr(At(st, i), p);
      r.st == At(st, i + 3) && ShapeOf(r.node) == Bin(TagAt(st, i + 1), NameAt(st, i), NameAt(st, i + 2))
  {
    ExprOfId(st, i, p);
    var a := ParsePrimary(At(st, i));
    var start := Front(At(st, i)).loc;
    Tail(st, i + 1, p, start, a.node);
    var r := ExprLoop(At(st, i + 1), p, start, a.node);
    assert ParseExpr(At(st, i), p) == r;
  }

  /** The loop of `parse_expr` at `p` on `op1 b op2 c`, `op2` binding tighter than `op1`: `lhs op1 (b op2 c)`. */
  lemma NestedTail(st: PState, i: nat, p: Prec, start: Loc, lhs: Expr)
    requires Valid(st) && st.pos + i < |st.input.tokens|
    requires InfixAbove(TagAt(st, i), p) && TagAt(st, i + 1) == M_id
    requires InfixAbove(TagAt(st, i + 2), TagToPrec(TagAt(st, i))) && TagAt(st, i + 3) == M_id
    requires !ExtendsLhs(TagAt(st, i + 4), p)
    ensures st.pos + i + 4 < |st.input.tokens|
    ensures var r := ExprLoop(At(st, i), p, start, lhs);
      && r.st == At(st, i + 4)
      && ShapeOf(r.node) == Bin(TagAt(st, i), ShapeOf(lhs), Bin(TagAt(st, i + 2), NameAt(st, i + 1), NameAt(st, i + 3)))
  {
    var q := TagToPrec(TagAt(st, i));
    InfixAt(st, i, p, start, lhs);
    assert !ExtendsLhs(TagAt(st, i + 4), q);
    Binary(st, i + 1, q);
    var x := ParseInfixExpr(At(st, i), start, lhs);
    var r := ExprLoop(x.st, p, start, x.node);
    assert r == Parsed(x.node, At(st, i + 4));
  }

  /** The loop of `parse_expr` at `p` on `op1 b op2 c`, `op2` binding no tighter than `op1`: `(lhs op1 b) op2 c`. */
  lemma GroupedTail(st: PState, i: nat, p: Prec, start: Loc, lhs: Expr)
    requires Valid(st) && st.pos + i < |st.input.tokens|
    requires InfixAbove(TagAt(st, i), p) && TagAt(st, i + 1) == M_id
    requires InfixAbove(TagAt(st, i + 2), p) && TagAt(st, i + 3) == M_id
    requires !PrecLt(TagToPrec(TagAt(st, i)), TagToPrec(TagAt(st, i + 2)))
    requires !ExtendsLhs(TagAt(st, i + 4), p)
    ensures st.pos + i + 4 < |st.input.tokens|
    ensures var r := ExprLoop(At(st, i), p, start, lhs);
      && r.st == At(st, i + 4)
      && ShapeOf(r.node) == Bin(TagAt(st, i + 2), Bin(TagAt(st, i), ShapeOf(lhs), NameAt(st, i + 1)), NameAt(st, i + 3))
  {
    var op1, op2 := TagAt(st, i), TagAt(st, i + 2);
    assert !ExtendsLhs(op2, TagToPrec(op1)) by {
      assert !IsPostfix(op2) && !PrecLt(TagToPrec(op1), TagToPrec(op2));
    }
    InfixWithOperand(st, i, p, start, lhs);
    var x := ParseInfixExpr(At(st, i), start, lhs);
    Tail(st, i + 2, p, start, x.node);
  }

  /** `a op1 b op2 c`, followed by a token that ends the expression at `p`. */
  predicate ThreeOperands(st: PState, p: Prec)
    requires Valid(st)
  {
    && TagAt(st, 0) == M_id && TagAt(st, 2) == M_id && TagAt(st, 4) == M_id
    && InfixAbove(TagAt(st, 1), p) && InfixAbove(TagAt(st, 3), p) && !ExtendsLhs(TagAt(st, 5), p)
  }

  /** An operator binding tighter than the one before it takes the operand between them: `a op1 (b op2 c)`. */
  lemma TighterOperatorNests(st: PState, p: Prec)
    requires Valid(st) && ThreeOperands(st, p)
    requires PrecLt(TagToPrec(TagAt(st, 1)), TagToPrec(TagAt(st, 3)))
    ensures st.pos + 5 < |st.input.tokens|
    ensures var r := ParseExpr(st, p);
      && r.st == At(st, 5)
      && ShapeOf(r.node) == Bin(TagAt(st, 1), NameAt(st, 0), Bin(TagAt(st, 3), NameAt(st, 2), NameAt(st, 4)))
  {
    ExprOfId(st, 0, p);
    var a := ParsePrimary(st);
    NestedTail(st, 1, p, Front(st).loc, a.node);
    assert ParseExpr(st, p) == ExprLoop(At(st, 1), p, Front(st).loc, a.node);
  }

  /**
    An operator binding no tighter than the one before it takes the whole
    expression so far: `(a op1 b) op2 c`. In particular operators of equal
    precedence group to the left.
   */
  lemma LooserOperatorGroupsLeft(st: PState, p: Prec)
    requires Valid(st) && ThreeOperands(st, p)
    requires !PrecLt(TagToPrec(TagAt(st, 1)), TagToPrec(TagAt(st, 3)))
    ensures st.pos + 5 < |st.input.tokens|
    ensures var r := ParseExpr(st, p);
      && r.st == At(st, 5)
      && ShapeOf(r.node) == Bin(TagAt(st, 3), Bin(TagAt(st, 1), NameAt(st, 0), NameAt(st, 2)), NameAt(st, 4))
  {
    ExprOfId(st, 0, p);
    var a := ParsePrimary(st);
    GroupedTail(st, 1, p, Front(st).loc, a.node);
    assert ParseExpr(st, p) == ExprLoop(At(st, 1), p, Front(st).loc, a.node);
  }

  // ---------------------------------------------------------------- prefix and postfix operators

  /** The tokens from place `i` up to place `e` are all `++` or `--`. */
  predicate IncDecRun(st: PState, i: nat, e: nat)
    requires Valid(st)
    decreases e - i
  {
    i >= e || ((TagAt(st, i) == O_inc || TagAt(st, i) == O_dec) && IncDecRun(st, i + 1, e))
  }

  /** `sh` with the postfix operators from place `i` up to place `e` applied to it, the first one innermost. */
  function Postfixes(sh: Shape, st: PState, i: nat, e: nat): Shape
    requires Valid(st)
    decreases e - i
  {
    if e <= i then sh else Postfixes(Postfix(sh, TagAt(st, i)), st, i + 1, e)
  }

  /**
    The expression `parse_postfix_expr` builds for each postfix operator from
    place `i` up to place `e`, starting from `lhs`: each spans from `start` to
    its operator.
   */
  function PostfixNodes(lhs: Expr, st: PState, start: Loc, i: nat, e: nat): Expr
    requires Valid(st)
    decreases e - i
  {
    if e <= i then lhs
    else
      var node := PostfixExpr(Track(start, Nth(st.input.tokens, st.pos + i).loc), lhs, TagAt(st, i));
      PostfixNodes(node, st, start, i + 1, e)
  }

  /** The shape of those expressions is the operand's shape with the operators applied in order. */
  lemma {:induction false} PostfixNodesShape(lhs: Expr, st: PState, start: Loc, i: nat, e: nat)
    requires Valid(st)
    ensures ShapeOf(PostfixNodes(lhs, st, start, i, e)) == Postfixes(ShapeOf(lhs), st, i, e)
    decreases e - i
  {
    if i < e {
      var node := PostfixExpr(Track(start, Nth(st.input.tokens, st.pos + i).loc), lhs, TagAt(st, i));
      PostfixNodesShape(node, st, start, i + 1, e);
    }
  }

  /** One postfix operator after the expression so far: `parse_postfix_expr`, and the loop goes on. */
  lemma PostfixAt(st: PState, i: nat, p: Prec, start: Loc, lhs: Expr)
    requires Valid(st) && st.pos + i < |st.input.tokens|
    requires TagAt(st, i) == O_inc || TagAt(st, i) == O_dec
    ensures st.pos + i + 1 < |st.input.tokens|
    ensures var x := ParsePostfixExpr(At(st, i), start, lhs);
      && x.st == At(st, i + 1)
      && x.node == PostfixExpr(Track(start, Nth(st.input.tokens, st.pos + i).loc), lhs, TagAt(st, i))
      && ExprLoop(At(st, i), p, start, lhs) == ExprLoop(At(st, i + 1), p, start, x.node)
  {
    LexAt(st, i);
    assert PostfixStep(At(st, i), start, lhs) == ParsePostfixExpr(At(st, i), start, lhs);
  }

  /** The end of a run of postfix operators: nothing more is applied. */
  lemma LoopStops(st: PState, e: nat, p: Prec, start: Loc, lhs: Expr)
    requires Valid(st) && st.pos + e < |st.input.tokens| && !ExtendsLhs(TagAt(st, e), p)
    ensures ExprLoop(At(st, e), p, start, lhs) == Parsed(PostfixNodes(lhs, st, start, e, e), At(st, e))
  {
  }

  /** The first step of a run of postfix operators, in the terms of `PostfixNodes`. */
  lemma PostfixRunStep(st: PState, i: nat, e: nat, p: Prec, start: Loc, lhs: Expr)
    requires Valid(st) && i < e && st.pos + e < |st.input.tokens| && IncDecRun(st, i, e)
    ensures var x := ParsePostfixExpr(At(st, i), start, lhs);
      && IncDecRun(st, i + 1, e)
      && ExprLoop(At(st, i), p, start, lhs) == ExprLoop(At(st, i + 1), p, start, x.node)
      && PostfixNodes(lhs, st, start, i, e) == PostfixNodes(x.node, st, start, i + 1, e)
  {
    PostfixAt(st, i, p, start, lhs);
  }

  /**
    A run of postfix `++`/`--` from place `i` up to place `e`, after the
    expression so far, applies them in order, each to the result of the ones
    before it.
   */
  lemma {:induction false} PostfixRun(st: PState, i: nat, e: nat, p: Prec, start: Loc, lhs: Expr)
    requires Valid(st) && i <= e && st.pos + e < |st.input.tokens| && IncDecRun(st, i, e)
    requires !ExtendsLhs(TagAt(st, e), p)
    ensures ExprLoop(At(st, i), p, start, lhs) == Parsed(PostfixNodes(lhs, st, start, i, e), At(st, e))
    decreases e - i
  {
    if i == e {
      LoopStops(st, e, p, start, lhs);
    } else {
      PostfixRunStep(st, i, e, p, start, lhs);
      var x := ParsePostfixExpr(At(st, i), start, lhs);
      PostfixRun(st, i + 1, e, p, start, x.node);
    }
  }

  /** Nothing binds tighter than a prefix operator's operand. */
  lemma UnaryIsTop(q: Prec)
    ensures !PrecLt(Unary, q)
  {
    match q
    case Unary =>
    case _ =>
  }

  /** A prefix operator that can start an expression. */
  predicate IsPrefix(t: Tag) {
    t == O_inc || t == O_dec || t == O_add || t == O_sub
  }

  /** An identifier at place `j` followed by postfix `++`/`--` up to place `e`, parsed at unary precedence. */
  lemma PostfixOperand(st: PState, j: nat, e: nat)
    requires Valid(st) && j + 1 <= e && st.pos + e < |st.input.tokens|
    requires TagAt(st, j) == M_id && IncDecRun(st, j + 1, e) && !IsPostfix(TagAt(st, e))
    ensures var a := ParsePrimary(At(st, j));
      ParseExpr(At(st, j), Unary) == Parsed(PostfixNodes(a.node, st, Front(At(st, j)).loc, j + 1, e), At(st, e))
  {
    UnaryIsTop(TagToPrec(TagAt(st, e)));
    ExprOfId(st, j, Unary);
    PostfixRun(st, j + 1, e, Unary, Front(At(st, j)).loc, ParsePrimary(At(st, j)).node);
  }

  /**
    The operand of a prefix operator at place `i`: the identifier after it with
    the postfix `++`/`--` up to place `e` applied.
   */
  lemma PrefixOperand(st: PState, i: nat, e: nat)
    requires Valid(st) && i + 2 <= e && st.pos + e < |st.input.tokens|
    requires TagAt(st, i + 1) == M_id && IncDecRun(st, i + 2, e) && !IsPostfix(TagAt(st, e))
    ensures var rhs := ParseExpr(At(st, i + 1), Unary);
      rhs.st == At(st, e) && ShapeOf(rhs.node) == Postfixes(NameAt(st, i + 1), st, i + 2, e)
  {
    PostfixOperand(st, i + 1, e);
    var a := ParsePrimary(At(st, i + 1));
    PrimaryId(st, i + 1);
    PostfixNodesShape(a.node, st, Front(At(st, i + 1)).loc, i + 2, e);
  }

  /**
    A prefix operator applies to its operand together with the postfix
    operators after it: `++a++` is `++(a++)`.
   */
  lemma PrefixPrimary(st: PState, i: nat, e: nat)
    requires Valid(st) && i + 2 <= e && st.pos + e < |st.input.tokens|
    requires IsPrefix(TagAt(st, i)) && TagAt(st, i + 1) == M_id
    requires IncDecRun(st, i + 2, e) && !IsPostfix(TagAt(st, e))
    ensures var r := ParsePrimary(At(st, i));
      r.st == At(st, e) && ShapeOf(r.node) == Prefix(TagAt(st, i), Postfixes(NameAt(st, i + 1), st, i + 2, e))
  {
    var s := At(st, i);
    LexAt(st, i);
    assert ParsePrimary(s) == ParsePrefixExpr(s);
    PrefixOperand(st, i, e);
  }

  /** `parse_expr` on a prefix operator and its operand: the loop goes on after the operand's postfix run. */
  lemma PrefixThenLoop(st: PState, e: nat, p: Prec)
    requires Valid(st) && 2 <= e && st.pos + e < |st.input.tokens|
    requires IsPrefix(TagAt(st, 0)) && TagAt(st, 1) == M_id
    requires IncDecRun(st, 2, e) && !IsPostfix(TagAt(st, e))
    ensures var a := ParsePrimary(st);
      && ParseExpr(st, p) == ExprLoop(At(st, e), p, Front(st).loc, a.node)
      && ShapeOf(a.node) == Prefix(TagAt(st, 0), Postfixes(NameAt(st, 1), st, 2, e))
  {
    PrefixPrimary(st, 0, e);
  }

  /**
    A prefix operator in front of an identifier and its postfix operators, with
    nothing after them that the loop takes: `++a++++` is `++((a++)++)`.
   */
  lemma PrefixAppliesLast(st: PState, e: nat, p: Prec)
    requires Valid(st) && 2 <= e && st.pos + e < |st.input.tokens|
    requires IsPrefix(TagAt(st, 0)) && TagAt(st, 1) == M_id
    requires IncDecRun(st, 2, e) && !ExtendsLhs(TagAt(st, e), p)
    ensures var r := ParseExpr(st, p);
      r.st == At(st, e) && ShapeOf(r.node) == Prefix(TagAt(st, 0), Postfixes(NameAt(st, 1), st, 2, e))
  {
    PrefixThenLoop(st, e, p);
  }

  /**
    A prefix operator binds tighter than any infix operator: `++a == b` is
    `(++a) == b`, whatever the infix operator.
   */
  lemma PrefixBindsTighterThanInfix(st: PState, e: nat, p: Prec)
    requires Valid(st) && 2 <= e && st.pos + e < |st.input.tokens|
    requires IsPrefix(TagAt(st, 0)) && TagAt(st, 1) == M_id && IncDecRun(st, 2, e)
    requires InfixAbove(TagAt(st, e), p) && TagAt(st, e + 1) == M_id && !ExtendsLhs(TagAt(st, e + 2), p)
    ensures st.pos + e + 2 < |st.input.tokens|
    ensures var r := ParseExpr(st, p);
      && r.st == At(st, e + 2)
      && ShapeOf(r.node) == Bin(TagAt(st, e), Prefix(TagAt(st, 0), Postfixes(NameAt(st, 1), st, 2, e)), NameAt(st, e + 1))
  {
    PrefixThenLoop(st, e, p);
    Tail(st, e, p, Front(st).loc, ParsePrimary(st).node);
  }

  // ---------------------------------------------------------------- the precedence test

  /** `++a++++;` prints as `(++((a++)++))`. */
  lemma IncrementsAsPrinted(st: PState)
    requires Valid(st)
    requires TagAt(st, 0) == O_inc && TagAt(st, 1) == M_id && TagAt(st, 2) == O_inc && TagAt(st, 3) == O_inc && TagAt(st, 4) == P_semicolon
    ensures st.pos + 4 < |st.input.tokens|
    ensures var r := ParseExpr(st, Bottom);
      r.st == At(st, 4) && ShapeOf(r.node) == Prefix(O_inc, Postfix(Postfix(NameAt(st, 1), O_inc), O_inc))
  {
    IncrementsOfTest(st, NameAt(st, 1));
    PrefixAppliesLast(st, 4, Bottom);
  }

  /** The facts about the tokens of `++a++++;` that the general lemmas need. */
  lemma IncrementsOfTest(st: PState, sh: Shape)
    requires Valid(st)
    requires TagAt(st, 0) == O_inc && TagAt(st, 1) == M_id && TagAt(st, 2) == O_inc && TagAt(st, 3) == O_inc && TagAt(st, 4) == P_semicolon
    ensures st.pos + 4 < |st.input.tokens| && IsPrefix(TagAt(st, 0))
    ensures IncDecRun(st, 2, 4) && !ExtendsLhs(TagAt(st, 4), Bottom)
    ensures Postfixes(sh, st, 2, 4) == Postfix(Postfix(sh, O_inc), O_inc)
  {
    assert Nth(st.input.tokens, st.pos + 4).tag != M_eof;
  }

  /** `a + b + c;` prints as `add(add(a, b), c)`. */
  lemma AddAddAsPrinted(st: PState)
    requires Valid(st)
    requires TagAt(st, 0) == M_id && TagAt(st, 1) == O_add && TagAt(st, 2) == M_id && TagAt(st, 3) == O_add && TagAt(st, 4) == M_id && TagAt(st, 5) == P_semicolon
    ensures st.pos + 5 < |st.input.tokens|
    ensures var r := ParseExpr(st, Bottom);
      r.st == At(st, 5) && ShapeOf(r.node) == Call("add", Call("add", NameAt(st, 0), NameAt(st, 2)), NameAt(st, 4))
  {
    OperatorsOfTest(st, O_add, O_add);
    LooserOperatorGroupsLeft(st, Bottom);
  }

  /** `a + b * c;` prints as `add(a, mul(b, c))`. */
  lemma AddMulAsPrinted(st: PState)
    requires Valid(st)
    requires TagAt(st, 0) == M_id && TagAt(st, 1) == O_add && TagAt(st, 2) == M_id && TagAt(st, 3) == O_mul && TagAt(st, 4) == M_id && TagAt(st, 5) == P_semicolon
    ensures st.pos + 5 < |st.input.tokens|
    ensures var r := ParseExpr(st, Bottom);
      r.st == At(st, 5) && ShapeOf(r.node) == Call("add", NameAt(st, 0), Call("mul", NameAt(st, 2), NameAt(st, 4)))
  {
    OperatorsOfTest(st, O_add, O_mul);
    TighterOperatorNests(st, Bottom);
  }

  /** `a * b + c;` prints as `add(mul(a, b), c)`. */
  lemma MulAddAsPrinted(st: PState)
    requires Valid(st)
    requires TagAt(st, 0) == M_id && TagAt(st, 1) == O_mul && TagAt(st, 2) == M_id && TagAt(st, 3) == O_add && TagAt(st, 4) == M_id && TagAt(st, 5) == P_semicolon
    ensures st.pos + 5 < |st.input.tokens|
    ensures var r := ParseExpr(st, Bottom);
      r.st == At(st, 5) && ShapeOf(r.node) == Call("add", Call("mul", NameAt(st, 0), NameAt(st, 2)), NameAt(st, 4))
  {
    OperatorsOfTest(st, O_mul, O_add);
    LooserOperatorGroupsLeft(st, Bottom);
  }

  /** `a + b = c;` prints as `(add(a, b) = c)`: an assignment is not a call. */
  lemma AddAssignAsPrinted(st: PState)
    requires Valid(st)
    requires TagAt(st, 0) == M_id && TagAt(st, 1) == O_add && TagAt(st, 2) == M_id && TagAt(st, 3) == O_eq && TagAt(st, 4) == M_id && TagAt(st, 5) == P_semicolon
    ensures st.pos + 5 < |st.input.tokens|
    ensures var r := ParseExpr(st, Bottom);
      r.st == At(st, 5) && ShapeOf(r.node) == Infix(O_eq, Call("add", NameAt(st, 0), NameAt(st, 2)), NameAt(st, 4))
  {
    OperatorsOfTest(st, O_add, O_eq);
    LooserOperatorGroupsLeft(st, Bottom);
  }

  /** The facts about two operators of the test that the general lemmas need. */
  lemma OperatorsOfTest(st: PState, op1: Tag, op2: Tag)
    requires Valid(st)
    requires TagAt(st, 0) == M_id && TagAt(st, 1) == op1 && TagAt(st, 2) == M_id && TagAt(st, 3) == op2 && TagAt(st, 4) == M_id && TagAt(st, 5) == P_semicolon
    requires op1 in {O_add, O_mul, O_eq} && op2 in {O_add, O_mul, O_eq}
    ensures ThreeOperands(st, Bottom)
  {
  }

  /** `a = b + c;` prints as `(a = add(b, c))`. */
  lemma AssignAddAsPrinted(st: PState)
    requires Valid(st)
    requires TagAt(st, 0) == M_id && TagAt(st, 1) == O_eq && TagAt(st, 2) == M_id && TagAt(st, 3) == O_add && TagAt(st, 4) == M_id && TagAt(st, 5) == P_semicolon
    ensures st.pos + 5 < |st.input.tokens|
    ensures var r := ParseExpr(st, Bottom);
      r.st == At(st, 5) && ShapeOf(r.node) == Infix(O_eq, NameAt(st, 0), Call("add", NameAt(st, 2), NameAt(st, 4)))
  {
    OperatorsOfTest(st, O_eq, O_add);
    TighterOperatorNests(st, Bottom);
  }

  /** `++a == b;` prints as `eq((++a), b)`. */
  lemma IncrementEqAsPrinted(st: PState)
    requires Valid(st)
    requires TagAt(st, 0) == O_inc && TagAt(st, 1) == M_id && TagAt(st, 2) == O_cmp_eq && TagAt(st, 3) == M_id && TagAt(st, 4) == P_semicolon
    ensures st.pos + 4 < |st.input.tokens|
    ensures var r := ParseExpr(st, Bottom);
      r.st == At(st, 4) && ShapeOf(r.node) == Call("eq", Prefix(O_inc, NameAt(st, 1)), NameAt(st, 3))
  {
    IncrementEqOfTest(st, NameAt(st, 1), NameAt(st, 3));
    PrefixBindsTighterThanInfix(st, 2, Bottom);
  }

  /** The facts about the tokens of `++a == b;` that the general lemmas need. */
  lemma IncrementEqOfTest(st: PState, sh: Shape, rhs: Shape)
    requires Valid(st)
    requires TagAt(st, 0) == O_inc && TagAt(st, 1) == M_id && TagAt(st, 2) == O_cmp_eq && TagAt(st, 3) == M_id && TagAt(st, 4) == P_semicolon
    ensures st.pos + 4 < |st.input.tokens| && IsPrefix(TagAt(st, 0)) && IncDecRun(st, 2, 2)
    ensures InfixAbove(TagAt(st, 2), Bottom) && !ExtendsLhs(TagAt(st, 4), Bottom)
    ensures Postfixes(sh, st, 2, 2) == sh
    ensures Bin(TagAt(st, 2), Prefix(TagAt(st, 0), sh), rhs) == Call("eq", Prefix(O_inc, sh), rhs)
  {
    assert Nth(st.input.tokens, st.pos + 4).tag != M_eof;
  }

  // ---------------------------------------------------------------- tokens a program cannot use

  /** A token `parse_prg` cannot start a statement with: neither an item, nor `let`, nor the end of file. */
  predicate Stray(t: Tag) {
    t != M_eof && t != K_cn && t != K_fn && t != K_let
  }

  /** One error at each of the `i` tokens from the front on, in order. */
  function StrayDiags(st: PState, i: nat): (r: seq<Diag>)
    requires Valid(st)
    ensures |r| == i
    ensures forall j :: 0 <= j < i ==> r[j] == Diag(Error, Nth(st.input.tokens, st.pos + j).loc)
  {
    if i == 0 then [] else StrayDiags(st, i - 1) + [Diag(Error, Nth(st.input.tokens, st.pos + i - 1).loc)]
  }

  /** The state after the first `i` tokens were each reported and skipped. */
  function Skipped(st: PState, i: nat): (r: PState)
    requires Valid(st) && st.pos + i < |st.input.tokens|
    ensures Valid(r) && Front(r).tag == TagAt(st, i)
  {
    var out := st.report.output + StrayDiags(st, i);
    At(st, i).(report := Report(st.report.numErrors + i, st.report.numWarnings, out))
  }

  /** Reporting and skipping one more stray token. */
  lemma SkipOne(st: PState, i: nat)
    requires Valid(st) && st.pos + i < |st.input.tokens| && Stray(TagAt(st, i))
    ensures st.pos + i + 1 < |st.input.tokens|
    ensures Lex(Complain(Skipped(st, i))).st == Skipped(st, i + 1)
  {
    LexAt(st, i);
    var d := Diag(Error, Nth(st.input.tokens, st.pos + i).loc);
    assert st.report.output + StrayDiags(st, i + 1) == (st.report.output + StrayDiags(st, i)) + [d];
  }

  /**
    `parse_prg` reports each token it cannot start a statement with, at that
    token, skips it, and adds no statement for it.
   */
  lemma {:induction false} StrayTokensSkipped(st: PState, i: nat, e: nat, start: Loc, stmnts: seq<Stmnt>)
    requires Valid(st) && i <= e && st.pos + e < |st.input.tokens|
    requires forall j :: i <= j < e ==> Stray(TagAt(st, j))
    ensures PrgLoop(Skipped(st, i), start, stmnts) == PrgLoop(Skipped(st, e), start, stmnts)
    decreases e - i
  {
    if i < e {
      SkipOne(st, i);
      assert PrgLoop(Skipped(st, i), start, stmnts) == PrgLoop(Skipped(st, i + 1), start, stmnts);
      StrayTokensSkipped(st, i + 1, e, start, stmnts);
    }
  }

  /**
    A program made only of tokens that cannot start a statement parses to no
    statements, with one error reported at each of those tokens, in order.
   */
  lemma NothingUsable(st: PState)
    requires Valid(st)
    requires forall j :: 0 <= j < |st.input.tokens| - 1 - st.pos ==> Stray(TagAt(st, j))
    ensures var n := |st.input.tokens| - 1 - st.pos;
      var r := ParsePrg(st);
      && r.node.stmnts == []
      && r.st.report.numErrors == st.report.numErrors + n
      && r.st.report.numWarnings == st.report.numWarnings
      && r.st.report.output == st.report.output + StrayDiags(st, n)
  {
    var n := |st.input.tokens| - 1 - st.pos;
    var start := Front(st).loc;
    assert Skipped(st, 0) == st by {
      assert st.report.output + StrayDiags(st, 0) == st.report.output;
    }
    StrayTokensSkipped(st, 0, n, start, []);
    var s := Skipped(st, n);
    assert Front(s).tag == M_eof;
    assert PrgLoop(s, start, []) == Parsed(Prg(Track(start, s.prev), []), s);
  }

  /** A statement at the top level of a program: an item or a `let`. */
  predicate Declaration(s: Stmnt) {
    s.ItemStmnt? || s.LetStmnt?
  }

  /** `parse_prg` only ever adds items and `let` statements; everything else was skipped. */
  lemma {:induction false} ProgramHoldsDeclarations(st: PState, start: Loc, stmnts: seq<Stmnt>)
    requires Valid(st) && forall s <- stmnts :: Declaration(s)
    ensures forall s <- PrgLoop(st, start, stmnts).node.stmnts :: Declaration(s)
    decreases Weight(st)
  {
    var tag := Front(st).tag;
    if tag == M_eof {
    } else if tag == K_cn || tag == K_fn {
      var s := ParseItemStmnt(st);
      ProgramHoldsDeclarations(s.st, start, stmnts + [s.node]);
    } else if tag == K_let {
      var s := ParseLetStmnt(st);
      ProgramHoldsDeclarations(s.st, start, stmnts + [s.node]);
    } else {
      ProgramHoldsDeclarations(Lex(Complain(st)).st, start, stmnts);
    }
  }

  // ---------------------------------------------------------------- blocks

  /** A run of `;` from place `i` up to place `e` inside a block is skipped without a statement. */
  lemma {:induction false} SemicolonsSkipped(st: PState, i: nat, e: nat, start: Loc, stmnts: seq<Stmnt>)
    requires Valid(st) && i <= e && st.pos + e < |st.input.tokens|
    requires forall j :: i <= j < e ==> TagAt(st, j) == P_semicolon
    ensures BlockLoop(At(st, i), start, stmnts) == BlockLoop(At(st, e), start, stmnts)
    decreases e - i
  {
    if i < e {
      LexAt(st, i);
      assert BlockLoop(At(st, i), start, stmnts) == BlockLoop(At(st, i + 1), start, stmnts);
      SemicolonsSkipped(st, i + 1, e, start, stmnts);
    }
  }

  /**
    A statement-like expression (`if`, `match`, `for`, `while`, a block) needs
    no `;`: unless `}` follows it, it becomes a statement and the block goes on;
    before `}` it is the block's value.
   */
  lemma StatementLikeNeedsNoSemicolon(st: PState, start: Loc, stmnts: seq<Stmnt>)
    requires Valid(st) && IsStmntLike(Front(st).tag)
    ensures var e := ParseStmntExpr(st);
      var next := Front(e.st).tag;
      && (next != P_semicolon && next != D_r_brace ==>
            BlockLoop(st, start, stmnts) == BlockLoop(e.st, start, stmnts + [ExprStmnt(Track(Front(st).loc, e.st.prev), e.node)]))
      && (next == D_r_brace ==> BlockLoop(st, start, stmnts) == BlockEnd(e.st, start, stmnts, Some(e.node)))
  {
    assert BlockLoop(st, start, stmnts) == BlockExprStmnt(st, start, stmnts);
  }

  /**
    Any other expression not followed by `;` is the block's value: the block
    ends there, and unless `}` follows, one error is reported at the token in front.
   */
  lemma ExpressionEndsBlock(st: PState, start: Loc, stmnts: seq<Stmnt>)
    requires Valid(st) && Front(st).tag == M_id
    ensures var e := ParseExpr(st, Bottom);
      Front(e.st).tag != P_semicolon ==>
        var r := BlockLoop(st, start, stmnts);
        && r.node.stmnts == stmnts && r.node.expr == e.node
        && (Front(e.st).tag == D_r_brace ==> r.st == Lex(e.st).st)
        && (Front(e.st).tag != D_r_brace ==> r.st == Complain(e.st))
  {
    assert BlockLoop(st, start, stmnts) == BlockExprStmnt(st, start, stmnts);
    assert ParseStmntExpr(st) == ParseExpr(st, Bottom);
  }

  /** An expression followed by `;` is a statement, and the block goes on after the `;`. */
  lemma ExpressionStatement(st: PState, start: Loc, stmnts: seq<Stmnt>)
    requires Valid(st) && StartsExpr(Front(st).tag) && Front(st).tag != K_cn && Front(st).tag != K_fn
    ensures var e := ParseStmntExpr(st);
      Front(e.st).tag == P_semicolon ==>
        var semi := Lex(e.st).st;
        BlockLoop(st, start, stmnts) == BlockLoop(semi, start, stmnts + [ExprStmnt(Track(Front(st).loc, semi.prev), e.node)])
  {
    assert BlockLoop(st, start, stmnts) == BlockExprStmnt(st, start, stmnts);
  }

  // ---------------------------------------------------------------- lists

  /**
    One round of `parse_list`: after an element, a separator followed by the
    closing delimiter ends the list with the delimiter in front, so a trailing
    separator is accepted; a separator followed by anything else starts another
    round; no separator ends the list right after the element.
   */
  lemma ListRound(st: PState, delimR: Tag, sep: Tag, kind: ListKind, items: Items)
    requires Valid(st) && sep != M_eof && (items.ElemItems? <==> kind == TupleElems)
    ensures var e := ParseItem(st, kind);
      var more := Push(items, e.node);
      var r := ListLoop(st, delimR, sep, kind, items);
      && (Front(e.st).tag == sep && Front(Lex(e.st).st).tag == delimR ==>
            r == Parsed(more, Lex(e.st).st) && Front(r.st).tag == delimR)
      && (Front(e.st).tag == sep && Front(Lex(e.st).st).tag != delimR ==>
            r == ListLoop(Lex(e.st).st, delimR, sep, kind, more))
      && (Front(e.st).tag != sep ==> r == Parsed(more, e.st))
  {
    var step := ListStep(st, delimR, sep, kind, items);
    assert ListLoop(st, delimR, sep, kind, items) ==
      if step.node.1 then ListLoop(step.st, delimR, sep, kind, step.node.0) else Parsed(step.node.0, step.st);
  }

  // ---------------------------------------------------------------- the parts of compound forms

  /**
    `parse_list(context, delim_l, delim_r, f)`: the list is read from the token after the
    opening delimiter; the closing delimiter is consumed when the list stops in
    front of it, and otherwise one error is reported at the token in front.
   */
  lemma DelimitedListParts(st: PState, delimL: Tag, delimR: Tag, kind: ListKind)
    requires Valid(st) && Front(st).tag == delimL && delimL != M_eof
    ensures var r := ParseDelimitedList(st, delimL, delimR, kind);
            var list := ParseList(Lex(st).st, delimR, P_comma, kind);
            && r.node == list.node
            && r.st == if Front(list.st).tag == delimR then Lex(list.st).st else Complain(list.st)
  {
  }

  /**
    `parse_if_expr`: the condition, then the consequence block. Without `else`, or
    when `else` is followed by neither `if` nor `{` (one error), the alternative
    is the empty block at `prev_`.
   */
  lemma IfExprParts(st: PState)
    requires Valid(st) && Front(st).tag == K_if
    ensures var r := ParseIfExpr(st);
            var cond := ParseExpr(Lex(st).st, Bottom);
            var thenExpr := TryBlockExpr(cond.st);
            && r.node.cond == cond.node && r.node.thenExpr == thenExpr.node
            && (Front(thenExpr.st).tag != K_else ==>
                  r.node.elseExpr == MakeEmptyBlock(thenExpr.st.prev) && r.st == thenExpr.st)
            && (Front(thenExpr.st).tag == K_else && Front(Lex(thenExpr.st).st).tag !in {K_if, D_l_brace} ==>
                  r.node.elseExpr == MakeEmptyBlock(Lex(thenExpr.st).st.prev) && r.st == Complain(Lex(thenExpr.st).st))
  {
  }

  /**
    `parse_tuple_expr`: the elements are those of the delimited list, and the type
    is the optional ascription after it.
   */
  lemma TupleExprParts(st: PState, delimL: Tag, delimR: Tag)
    requires Valid(st) && Front(st).tag == delimL && delimL != M_eof
    ensures var r := ParseTupleExpr(st, delimL, delimR);
            var list := ParseDelimitedList(st, delimL, delimR, TupleElems);
            var ty := ParseTypeAscription(list.st, false);
            r.node.elems == list.node.elems && r.node.ty == ty.node && r.st == ty.st
  {
  }

  /** `parse_sigma_expr`: the binders are those of the `[`...`]` list. */
  lemma SigmaExprParts(st: PState)
    requires Valid(st) && Front(st).tag == D_l_bracket
    ensures var r := ParseSigmaExpr(st);
            var list := ParseDelimitedList(st, D_l_bracket, D_r_bracket, Binders(true));
            r.node.binders == list.node.ptrns && r.st == list.st
  {
  }

  /**
    The dependent forms: after the keyword and the expected opening delimiter,
    the domains are the list up to `;`, the body follows the expected `;`, and
    the closing delimiter is expected last.
   */
  lemma DependentParts(st: PState, kw: Tag, delimL: Tag, delimR: Tag)
    requires Valid(st) && Front(st).tag == kw && kw != M_eof
    ensures var r := ParseDependent(st, kw, delimL, delimR);
            var domains := ParseList(Expect(Lex(st).st, delimL).st, P_semicolon, P_comma, Binders(true));
            var body := TryExpr(Expect(domains.st, P_semicolon).st, Bottom);
            && r.node.0 == domains.node.ptrns && r.node.1 == body.node
            && r.st == Expect(body.st, delimR).st
  {
  }

  /** `parse_pack_expr`: the domains and the body of `pk(`...`)`. */
  lemma PackExprParts(st: PState)
    requires Valid(st) && Front(st).tag == K_pk
    ensures var r := ParsePackExpr(st);
            var d := ParseDependent(st, K_pk, D_l_paren, D_r_paren);
            r.node.domains == d.node.0 && r.node.body == d.node.1 && r.st == d.st
  {
  }

  /** `parse_variadic_expr`: the domains and the body of `ar[`...`]`. */
  lemma VariadicExprParts(st: PState)
    requires Valid(st) && Front(st).tag == K_ar
    ensures var r := ParseVariadicExpr(st);
            var d := ParseDependent(st, K_ar, D_l_bracket, D_r_bracket);
            r.node.domains == d.node.0 && r.node.body == d.node.1 && r.st == d.st
  {
  }

  /**
    `parse_let_stmnt`: the pattern follows `let`, and there is an initializer
    exactly when `=` follows the pattern.
   */
  lemma LetStmntParts(st: PState)
    requires Valid(st) && Front(st).tag == K_let
    ensures var r := ParseLetStmnt(st);
            var ptrn := TryPtrn(Lex(st).st);
            && r.node.ptrn == ptrn.node
            && (r.node.init.Some? <==> Front(ptrn.st).tag == O_eq)
            && (Front(ptrn.st).tag != O_eq ==> r.st == ptrn.st)
  {
  }

  /** `parse_tuple_ptrn`: the sub-patterns are those of the delimited list, and the type is the ascription after it. */
  lemma TuplePtrnParts(st: PState, mandatory: bool, delimL: Tag, delimR: Tag)
    requires Valid(st) && Front(st).tag == delimL && delimL != M_eof
    ensures var r := ParseTuplePtrn(st, mandatory, delimL, delimR);
            var list := ParseDelimitedList(st, delimL, delimR, SubPtrns);
            var ty := ParseTypeAscription(list.st, mandatory);
            r.node.elems == list.node.ptrns && r.node.ty == ty.node && r.st == ty.st
  {
  }

  /**
    A named `cn` or `fn` that is not an item: the name is reported at its own
    location and dropped, and without a `[` there is no outer domain.
   */
  lemma NamedExpressionIsReported(st: PState, kw: Tag)
    requires Valid(st) && Front(st).tag == kw && kw != M_eof
    requires Ahead(st, 1).tag == M_id && Ahead(st, 2).tag != D_l_bracket
    ensures ParseLambdaHead(st, kw, false) == Parsed((None, None), ErrorAt(Lex(Lex(st).st).st, Ahead(st, 1).loc))
  {
  }

  /**
    The head of `cn` and `fn`: an item takes the name that follows the keyword, or
    `_` at the keyword; the outer domain is there exactly when `[` follows the name.
   */
  lemma LambdaHeadParts(st: PState, kw: Tag, item: bool)
    requires Valid(st) && Front(st).tag == kw && kw != M_eof
    ensures var r := ParseLambdaHead(st, kw, item);
            var k := Lex(st).st;
            && (item && Front(k).tag == M_id ==> r.node.0 == Some(IdOfToken(Front(k))))
            && (item && Front(k).tag != M_id ==> r.node.0 == Some(MakeId(k.prev, Anonymous)))
            && (Front(k).tag != M_id ==> (r.node.1.Some? <==> Front(k).tag == D_l_bracket))
            && (Front(k).tag == M_id ==> (r.node.1.Some? <==> Front(Lex(k).st).tag == D_l_bracket))
  {
  }

  /**
    A lambda with the given domain, codomain and body, wrapped in an outer lambda
    over `dsDomain` when there is one.
   */
  predicate LambdaOf(e: Expr, dsDomain: Option<Ptrn>, domain: Ptrn, codomain: Expr, body: Expr) {
    && e.LambdaExpr?
    && (dsDomain.Some? ==>
          && e.domain == dsDomain.value && e.body.LambdaExpr?
          && e.body.domain == domain && e.body.codomain == codomain && e.body.body == body)
    && (dsDomain.None? ==> e.domain == domain && e.codomain == codomain && e.body == body)
  }

  /** `parse_cn_expr`: the tuple-pattern domain, codomain ⊥ and the body, under the head's name and outer domain. */
  lemma CnExprParts(st: PState, item: bool)
    requires Valid(st) && Front(st).tag == K_cn
    ensures var r := ParseCnExpr(st, item);
            var head := ParseLambdaHead(st, K_cn, item);
            var domain := TryTuplePtrn(head.st);
            var body := TryExpr(domain.st, Bottom);
            && r.node.name == head.node.0 && r.st == body.st
            && LambdaOf(r.node, head.node.1, domain.node, MakeBottom(body.st.prev), body.node)
  {
  }

  /**
    `parse_fn_expr`: the domain is the pair of the given tuple pattern and a
    `return` continuation taking the `->` codomain (unknown without `->`); the
    codomain is ⊥.
   */
  lemma FnExprParts(st: PState, item: bool)
    requires Valid(st) && Front(st).tag == K_fn
    ensures var r := ParseFnExpr(st, item);
            var head := ParseLambdaHead(st, K_fn, item);
            var first := TryTuplePtrn(head.st);
            var ret := if Front(first.st).tag == O_arrow then TryExpr(Lex(first.st).st, Arrow)
                       else Parsed(MakeUnknown(first.st.prev), first.st);
            var p := ret.st.prev;
            var retPtrn := ReturnPtrn(p, "return", ret.node);
            var body := TryExpr(ret.st, Bottom);
            && r.node.name == head.node.0 && r.st == body.st
            && LambdaOf(r.node, head.node.1,
                        TuplePtrn(Join(first.node.loc, retPtrn.loc), [first.node, retPtrn], MakeUnknown(p), false),
                        MakeBottom(body.st.prev), body.node)
  {
  }

  /** `parse_lambda_expr`: the domain pattern, the `->` codomain (unknown without `->`), and the body. */
  lemma LambdaExprParts(st: PState)
    requires Valid(st) && Front(st).tag == O_lambda
    ensures var r := ParseLambdaExpr(st);
            var domain := TryPtrn(Lex(st).st);
            var codomain := if Front(domain.st).tag == O_arrow then TryExpr(Lex(domain.st).st, Arrow)
                            else Parsed(MakeUnknown(domain.st.prev), domain.st);
            var body := TryExpr(codomain.st, Bottom);
            r.node.domain == domain.node && r.node.codomain == codomain.node && r.node.body == body.node && r.st == body.st
  {
  }

  /**
    `parse_fn_type_expr`: `->` is expected (one error without it); the domain is
    `_` typed by the sigma of the given domain and a `_` continuation taking the
    codomain, and the codomain is ⊥.
   */
  lemma FnTypeExprParts(st: PState)
    requires Valid(st) && Front(st).tag == K_Fn
    ensures var r := ParseFnTypeExpr(st);
            var first := TryPtrnT(Lex(st).st, false);
            var arrow := if Front(first.st).tag == O_arrow then Lex(first.st).st else Complain(first.st);
            var ret := TryExpr(arrow, Arrow);
            var p := ret.st.prev;
            var retPtrn := ReturnPtrn(p, Anonymous, ret.node);
            && r.st == ret.st && r.node.codomain == MakeBottom(p)
            && r.node.domain == MakeTypedIdPtrn(p, Anonymous, SigmaExpr(Join(first.node.loc, retPtrn.loc), [first.node, retPtrn]))
  {
  }

  /** `parse_forall_expr`: the domain, the expected `->` (one error without it), and the codomain at `Arrow` precedence. */
  lemma ForallExprParts(st: PState)
    requires Valid(st) && Front(st).tag == O_forall
    ensures var r := ParseForallExpr(st);
            var domain := TryPtrnT(Lex(st).st, false);
            var arrow := if Front(domain.st).tag == O_arrow then Lex(domain.st).st else Complain(domain.st);
            var codomain := TryExpr(arrow, Arrow);
            r.node.domain == domain.node && r.node.codomain == codomain.node && r.st == codomain.st
  {
  }
}
