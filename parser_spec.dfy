/**
  The recursive-descent parser of parser.h and parser.cpp, as functions over the
  parser's state.

  `PState` holds what a `Parser` object holds, seen from outside: the lexer's
  output with the position of the look-ahead buffer in it (`ahead_` always
  holds the next three tokens), the span of the last consumed token (`prev_`)
  and the compiler's diagnostics. The lexer ends with an end-of-file token,
  which it keeps delivering once it is reached (as the lexer model proves of
  `Lex`).

  Every parse function takes the state before and returns the node it builds
  together with the state after. Each one says how far it may move the token
  cursor: never backwards, and strictly forwards whenever it eats a token. The
  measure is `Weight`, the number of tokens still to come; it is what makes
  the mutual recursion, and every loop of the parser, terminate.
 */
module ParserSpec {
  import opened Basics
  import opened Diagnostics
  import opened Tokens
  import opened Ast
  import opened Builders

  /** `max_ahead`: the size of the look-ahead buffer. */
  const MaxAhead: nat := 3

  /** What the lexer delivers, in order. */
  datatype Input = Input(tokens: seq<Token>)

  /**
    The parser's state: the lexer's whole output `input`, the index `pos` of
    the token at the front of the look-ahead buffer, `prev_`, and the
    diagnostics reported so far. The buffer holds the tokens at `pos`,
    `pos + 1` and `pos + 2`.
   */
  datatype PState = PState(input: Input, pos: nat, prev: Loc, report: Report)

  /** A node and the state after parsing it. */
  datatype Parsed<T> = Parsed(node: T, st: PState)

  /** A lexer's whole output: well-formed tokens ending in its end-of-file token. */
  predicate IsTokenStream(tokens: seq<Token>) {
    && |tokens| >= 1 && tokens[|tokens| - 1].tag == M_eof
    && forall i :: 0 <= i < |tokens| ==> PayloadFits(tokens[i])
  }

  /** The `i`-th token the lexer delivers; after its end-of-file token it delivers that token again. */
  function Nth(tokens: seq<Token>, i: nat): Token
    requires |tokens| >= 1
  {
    if i < |tokens| then tokens[i] else tokens[|tokens| - 1]
  }

  predicate Valid(st: PState) {
    IsTokenStream(st.input.tokens) && st.pos < |st.input.tokens|
  }

  /** How many tokens are still to be consumed; the end-of-file token is never consumed for good. */
  function Weight(st: PState): nat
    requires Valid(st)
  {
    |st.input.tokens| - st.pos
  }

  /** `r` is a valid state of the same token stream, no earlier in it than `st`. */
  predicate Advanced(st: PState, r: PState)
    requires Valid(st)
  {
    r.input == st.input && st.pos <= r.pos < |st.input.tokens|
  }

  /** `r` is a valid state of the same token stream, strictly later in it than `st`. */
  predicate Consumed(st: PState, r: PState)
    requires Valid(st)
  {
    r.input == st.input && st.pos < r.pos < |st.input.tokens|
  }

  /** `ahead()`: the token at the front of the buffer. */
  function Front(st: PState): (r: Token)
    requires Valid(st)
    ensures PayloadFits(r)
  {
    st.input.tokens[st.pos]
  }

  /** `ahead(i)`: only the three buffered tokens can be looked at. */
  function Ahead(st: PState, i: nat): (r: Token)
    requires Valid(st) && i < MaxAhead
    ensures PayloadFits(r)
    ensures i == 0 ==> r == Front(st)
  {
    Nth(st.input.tokens, st.pos + i)
  }

  /**
    `lex()`: gives back the front token, moves the buffer on by one token, and
    records the consumed token's span as `prev_`. At the lexer's last token the
    buffer stays where it is, since the lexer keeps delivering that token.
   */
  function Lex(st: PState): (r: Parsed<Token>)
    requires Valid(st)
    ensures Advanced(st, r.st)
    ensures r.node == Front(st)
    ensures r.st.prev == Front(st).loc && r.st.report == st.report
    ensures Front(st).tag != M_eof ==> Consumed(st, r.st) && r.st.pos == st.pos + 1
    ensures st.pos == |st.input.tokens| - 1 ==> r.st.pos == st.pos
  {
    var next := if st.pos + 1 < |st.input.tokens| then st.pos + 1 else st.pos;
    Parsed(Front(st), st.(pos := next, prev := Front(st).loc))
  }

  /** `eat(tag)`: the front token must carry `tag`; it is consumed. */
  function Eat(st: PState, tag: Tag): (r: Parsed<Token>)
    requires Valid(st) && Front(st).tag == tag && tag != M_eof
    ensures r == Lex(st) && Consumed(st, r.st)
  {
    Lex(st)
  }

  /** `compiler().error(loc, ...)`: one more error; the token cursor does not move. */
  function ErrorAt(st: PState, loc: Loc): (r: PState)
    requires Valid(st)
    ensures Valid(r) && Weight(r) == Weight(st)
    ensures r.input == st.input && r.pos == st.pos && r.prev == st.prev
    ensures r.report == AddError(st.report, loc)
  {
    st.(report := AddError(st.report, loc))
  }

  /** `error(what, context)`: an error at the front token. */
  function Complain(st: PState): (r: PState)
    requires Valid(st)
    ensures Valid(r) && Weight(r) == Weight(st)
  {
    ErrorAt(st, Front(st).loc)
  }

  /** `accept(tag)`: consumes one token exactly when the front token carries `tag`; otherwise changes nothing. */
  function Accept(st: PState, tag: Tag): (r: Parsed<bool>)
    requires Valid(st)
    ensures Advanced(st, r.st)
    ensures r.node <==> Front(st).tag == tag
    ensures r.node ==> r.st == Lex(st).st
    ensures !r.node ==> r.st == st
  {
    if tag != Front(st).tag then Parsed(false, st) else Parsed(true, Lex(st).st)
  }

  /** `expect(tag, context)`: as `accept`, but a mismatch reports one error at the front token and consumes nothing. */
  function Expect(st: PState, tag: Tag): (r: Parsed<bool>)
    requires Valid(st)
    ensures Advanced(st, r.st)
    ensures r.node <==> Front(st).tag == tag
    ensures r.node ==> r.st == Lex(st).st
    ensures !r.node ==> r.st == Complain(st)
  {
    if Front(st).tag == tag then Parsed(true, Lex(st).st) else Parsed(false, Complain(st))
  }

  /** parser.cpp's `EXPR`: the tags with which `try_expr` is willing to start an expression. */
  predicate StartsExpr(t: Tag) {
    || t == D_l_brace || t == D_l_bracket || t == D_l_paren
    || t == K_ar || t == K_Cn || t == K_Fn || t == K_cn || t == K_false || t == K_fn
    || t == K_for || t == K_if || t == K_match || t == K_pk || t == K_true || t == K_while
    || t == L_f || t == L_s || t == L_u || t == M_id
    || t == O_lambda || t == O_forall || t == O_add || t == O_and || t == O_dec
    || t == O_inc || t == O_mul || t == O_not || t == O_sub || t == O_tilde
  }

  /** The tags `parse_expr` treats as postfix: field access, the two call forms, `++` and `--`. */
  predicate IsPostfix(t: Tag) {
    t == P_dot || t == D_l_paren || t == D_l_bracket || t == O_inc || t == O_dec
  }

  // ---------------------------------------------------------------- misc and try_*

  /** `parse_id`: the identifier token at the front, consumed. */
  function ParseId(st: PState): (r: Parsed<Id>)
    requires Valid(st) && Front(st).tag == M_id
    ensures Consumed(st, r.st) && r.st == Lex(st).st
    ensures r.node == IdOfToken(Front(st))
  {
    var t := Lex(st);
    Parsed(IdOfToken(t.node), t.st)
  }

  /** `try_id`: an identifier, or else one error, nothing consumed, and the placeholder `<error>` at `prev_`. */
  function TryId(st: PState): (r: Parsed<Id>)
    requires Valid(st)
    ensures Advanced(st, r.st)
    ensures Front(st).tag == M_id ==> r == ParseId(st)
    ensures Front(st).tag != M_id ==> r.st == Complain(st) && r.node == MakeId(st.prev, "<error>")
  {
    if Front(st).tag == M_id then ParseId(st) else Parsed(MakeId(st.prev, "<error>"), Complain(st))
  }

  /**
    `parse_type_ascription`: with a mandatory ascription, `:` is expected and a
    type follows in any case; otherwise a type follows only an accepted `:` and
    the type is unknown without one.
   */
  function ParseTypeAscription(st: PState, mandatory: bool): (r: Parsed<Expr>)
    requires Valid(st)
    ensures Advanced(st, r.st)
    ensures !mandatory && Front(st).tag != P_colon ==> r == Parsed(MakeUnknown(st.prev), st)
    ensures Front(st).tag == P_colon ==> Consumed(st, r.st)
    decreases Weight(st), 8
  {
    if mandatory then
      var c := Expect(st, P_colon);
      TryExpr(c.st, Bottom)
    else
      var c := Accept(st, P_colon);
      if c.node then TryExpr(c.st, Bottom) else Parsed(MakeUnknown(st.prev), st)
  }

  /** `try_expr`: an expression if the front token can start one; otherwise one error, nothing consumed, and an error node at `prev_`. */
  function TryExpr(st: PState, p: Prec): (r: Parsed<Expr>)
    requires Valid(st)
    ensures Advanced(st, r.st)
    ensures !StartsExpr(Front(st).tag) ==> r == Parsed(MakeError(st.prev), Complain(st))
    decreases Weight(st), 7
  {
    if StartsExpr(Front(st).tag) then ParseExpr(st, p) else Parsed(MakeError(st.prev), Complain(st))
  }

  /** `try_ptrn`: a pattern if the front token is an identifier or `(`; otherwise one error, nothing consumed, and an error pattern at `prev_`. */
  function TryPtrn(st: PState): (r: Parsed<Ptrn>)
    requires Valid(st)
    ensures Advanced(st, r.st)
    ensures Front(st).tag == M_id || Front(st).tag == D_l_paren ==> Consumed(st, r.st)
    ensures Front(st).tag != M_id && Front(st).tag != D_l_paren ==> r == Parsed(ErrorPtrn(st.prev), Complain(st))
    decreases Weight(st), 4
  {
    if Front(st).tag == M_id || Front(st).tag == D_l_paren then ParsePtrn(st, false)
    else Parsed(ErrorPtrn(st.prev), Complain(st))
  }

  /**
    `try_ptrn_t`: an identifier followed by `:`, or `(`, starts a pattern;
    anything else is read as a type, bound to the anonymous name with a
    mandatory ascription.
   */
  function TryPtrnT(st: PState, mandatory: bool): (r: Parsed<Ptrn>)
    requires Valid(st)
    ensures Advanced(st, r.st)
    ensures !((Front(st).tag == M_id && Ahead(st, 1).tag == P_colon) || Front(st).tag == D_l_paren) ==>
      r == TypePtrn(st)
    decreases Weight(st), 9
  {
    if (Front(st).tag == M_id && Ahead(st, 1).tag == P_colon) || Front(st).tag == D_l_paren then
      ParsePtrn(st, mandatory)
    else
      TypePtrn(st)
  }

  /** The fallback of `try_ptrn_t`: a type, bound to the anonymous name with a mandatory ascription. */
  function TypePtrn(st: PState): (r: Parsed<Ptrn>)
    requires Valid(st)
    ensures Advanced(st, r.st)
    ensures r.node.IdPtrn? && r.node.mandatory && r.node.id == MakeId(r.st.prev, Anonymous)
    decreases Weight(st), 8
  {
    var start := Front(st).loc;
    var ty := TryExpr(st, Bottom);
    Parsed(IdPtrn(Track(start, ty.st.prev), MakeId(ty.st.prev, Anonymous), ty.node, true), ty.st)
  }

  /** `try_tuple_ptrn`: a tuple pattern if the front token is `(`; otherwise one error, nothing consumed, and an empty tuple pattern at `prev_`. */
  function TryTuplePtrn(st: PState): (r: Parsed<Ptrn>)
    requires Valid(st)
    ensures Advanced(st, r.st)
    ensures Front(st).tag == D_l_paren ==> Consumed(st, r.st) && r.node.TuplePtrn?
    ensures Front(st).tag != D_l_paren ==>
      r == Parsed(TuplePtrn(st.prev, [], MakeUnknown(st.prev), false), Complain(st))
    decreases Weight(st), 3
  {
    if Front(st).tag == D_l_paren then ParseTuplePtrn(st, false, D_l_paren, D_r_paren)
    else Parsed(TuplePtrn(st.prev, [], MakeUnknown(st.prev), false), Complain(st))
  }

  /** `try_block_expr`: a block if the front token is `{`; otherwise one error, nothing consumed, and an empty block at `prev_`. */
  function TryBlockExpr(st: PState): (r: Parsed<Expr>)
    requires Valid(st)
    ensures Advanced(st, r.st)
    ensures Front(st).tag == D_l_brace ==> Consumed(st, r.st)
    ensures Front(st).tag != D_l_brace ==> r == Parsed(MakeEmptyBlock(st.prev), Complain(st))
    decreases Weight(st), 2
  {
    if Front(st).tag == D_l_brace then ParseBlockExpr(st) else Parsed(MakeEmptyBlock(st.prev), Complain(st))
  }

  // ---------------------------------------------------------------- patterns

  /** `parse_ptrn`: dispatches on an identifier or `(`; the source has no other case. */
  function ParsePtrn(st: PState, mandatory: bool): (r: Parsed<Ptrn>)
    requires Valid(st) && (Front(st).tag == M_id || Front(st).tag == D_l_paren)
    ensures Consumed(st, r.st)
    decreases Weight(st), 3
  {
    if Front(st).tag == M_id then ParseIdPtrn(st, mandatory)
    else ParseTuplePtrn(st, mandatory, D_l_paren, D_r_paren)
  }

  /** `parse_id_ptrn`: an identifier and its ascription. */
  function ParseIdPtrn(st: PState, mandatory: bool): (r: Parsed<Ptrn>)
    requires Valid(st) && Front(st).tag == M_id
    ensures Consumed(st, r.st)
    ensures r.node.IdPtrn? && r.node.id == IdOfToken(Front(st)) && r.node.mandatory == mandatory
    decreases Weight(st), 1
  {
    var start := Front(st).loc;
    var id := ParseId(st);
    var ty := ParseTypeAscription(id.st, mandatory);
    Parsed(IdPtrn(Track(start, ty.st.prev), id.node, ty.node, mandatory), ty.st)
  }

  /** `parse_tuple_ptrn`: a delimited list of sub-patterns and its ascription. */
  function ParseTuplePtrn(st: PState, mandatory: bool, delimL: Tag, delimR: Tag): (r: Parsed<Ptrn>)
    requires Valid(st) && Front(st).tag == delimL && delimL != M_eof
    ensures Consumed(st, r.st)
    ensures r.node.TuplePtrn? && r.node.mandatory == mandatory
    decreases Weight(st), 2
  {
    var start := Front(st).loc;
    var ps := ParseDelimitedList(st, delimL, delimR, SubPtrns);
    var ty := ParseTypeAscription(ps.st, mandatory);
    Parsed(TuplePtrn(Track(start, ty.st.prev), ps.node.ptrns, ty.node, mandatory), ty.st)
  }

  // ---------------------------------------------------------------- lists

  /**
    The element parsers `parse_list` is called with: sub-patterns of a tuple
    pattern (`try_ptrn`), binders (`try_ptrn_t`, with or without a mandatory
    ascription) and tuple elements.
   */
  datatype ListKind = SubPtrns | Binders(mandatory: bool) | TupleElems

  /** The elements of a list: patterns, or tuple elements. */
  datatype Items = PtrnItems(ptrns: seq<Ptrn>) | ElemItems(elems: seq<TupleElem>)

  /** A single element, as parsed by one of the element parsers. */
  datatype ListItem = PtrnItem(ptrn: Ptrn) | ElemItem(elem: TupleElem)

  /** The list a list parser of `kind` starts from. */
  function NoItems(kind: ListKind): (r: Items)
    ensures r.ElemItems? <==> kind == TupleElems
    ensures Count(r) == 0
  {
    if kind == TupleElems then ElemItems([]) else PtrnItems([])
  }

  function Count(items: Items): nat {
    if items.PtrnItems? then |items.ptrns| else |items.elems|
  }

  /** Appends an element of the same kind as the list. */
  function Push(items: Items, item: ListItem): (r: Items)
    requires items.ElemItems? <==> item.ElemItem?
    ensures r.ElemItems? == items.ElemItems? && Count(r) == Count(items) + 1
  {
    if item.PtrnItem? then PtrnItems(items.ptrns + [item.ptrn]) else ElemItems(items.elems + [item.elem])
  }

  /** One list element of the given kind. */
  function ParseItem(st: PState, kind: ListKind): (r: Parsed<ListItem>)
    requires Valid(st)
    ensures Advanced(st, r.st)
    ensures r.node.ElemItem? <==> kind == TupleElems
    decreases Weight(st), 10
  {
    match kind
    case SubPtrns => var p := TryPtrn(st); Parsed(PtrnItem(p.node), p.st)
    case Binders(m) => var p := TryPtrnT(st, m); Parsed(PtrnItem(p.node), p.st)
    case TupleElems => var e := ParseTupleElem(st); Parsed(ElemItem(e.node), e.st)
  }

  /** The element parser of `parse_tuple_expr`: `id = expr` names the element, anything else is anonymous. */
  function ParseTupleElem(st: PState): (r: Parsed<TupleElem>)
    requires Valid(st)
    ensures Advanced(st, r.st)
    ensures !(Front(st).tag == M_id && Ahead(st, 1).tag == O_eq) ==> r.node.id == MakeId(st.prev, Anonymous)
    ensures Front(st).tag == M_id && Ahead(st, 1).tag == O_eq ==> r.node.id == IdOfToken(Front(st))
    decreases Weight(st), 8
  {
    var start := Front(st).loc;
    if Front(st).tag == M_id && Ahead(st, 1).tag == O_eq then
      var id := ParseId(st);
      var eq := Eat(id.st, O_eq);
      var e := TryExpr(eq.st, Bottom);
      Parsed(TupleElem(Track(start, e.st.prev), id.node, e.node), e.st)
    else
      var e := TryExpr(st, Bottom);
      Parsed(TupleElem(Track(start, e.st.prev), MakeId(st.prev, Anonymous), e.node), e.st)
  }

  /**
    `parse_list(delim_r, f, sep)`: nothing when the closing delimiter is already
    in front; otherwise at least one element, and another one only after an
    accepted separator that is not followed by the closing delimiter. The
    closing delimiter itself is left in front.
   */
  function ParseList(st: PState, delimR: Tag, sep: Tag, kind: ListKind): (r: Parsed<Items>)
    requires Valid(st) && sep != M_eof
    ensures Advanced(st, r.st) && (r.node.ElemItems? <==> kind == TupleElems)
    ensures Front(st).tag == delimR ==> r == Parsed(NoItems(kind), st)
    ensures Front(st).tag != delimR ==> Count(r.node) >= 1
    ensures Front(st).tag != delimR ==> Front(r.st).tag != sep || Front(r.st).tag == delimR
    decreases Weight(st), 13
  {
    if Front(st).tag == delimR then Parsed(NoItems(kind), st) else ListLoop(st, delimR, sep, kind, NoItems(kind))
  }

  /** The `do ... while` loop of `parse_list`, with the elements read so far. */
  function ListLoop(st: PState, delimR: Tag, sep: Tag, kind: ListKind, items: Items): (r: Parsed<Items>)
    requires Valid(st) && sep != M_eof && (items.ElemItems? <==> kind == TupleElems)
    ensures Advanced(st, r.st) && (r.node.ElemItems? <==> kind == TupleElems)
    ensures Count(r.node) > Count(items)
    ensures Front(r.st).tag != sep || Front(r.st).tag == delimR
    decreases Weight(st), 12
  {
    var s := ListStep(st, delimR, sep, kind, items);
    if s.node.1 then ListLoop(s.st, delimR, sep, kind, s.node.0) else Parsed(s.node.0, s.st)
  }

  /**
    One round of the loop of `parse_list`: an element, appended to `items`,
    then the separator if it is in front. The flag says whether the loop goes
    on: the separator was there and the closing delimiter does not follow.
   */
  function ListStep(st: PState, delimR: Tag, sep: Tag, kind: ListKind, items: Items): (r: Parsed<(Items, bool)>)
    requires Valid(st) && sep != M_eof && (items.ElemItems? <==> kind == TupleElems)
    ensures Advanced(st, r.st) && (r.node.0.ElemItems? <==> kind == TupleElems)
    ensures Count(r.node.0) == Count(items) + 1
    ensures r.node.1 ==> Consumed(st, r.st)
    ensures !r.node.1 ==> Front(r.st).tag != sep || Front(r.st).tag == delimR
    decreases Weight(st), 11
  {
    var e := ParseItem(st, kind);
    var s := Accept(e.st, sep);
    Parsed((Push(items, e.node), s.node && Front(s.st).tag != delimR), s.st)
  }

  /** `parse_list(context, delim_l, delim_r, f)`: eats the opening delimiter, reads the list, and expects the closing one. */
  function ParseDelimitedList(st: PState, delimL: Tag, delimR: Tag, kind: ListKind): (r: Parsed<Items>)
    requires Valid(st) && Front(st).tag == delimL && delimL != M_eof
    ensures Consumed(st, r.st) && (r.node.ElemItems? <==> kind == TupleElems)
    decreases Weight(st), 1
  {
    var open := Eat(st, delimL);
    var items := ParseList(open.st, delimR, P_comma, kind);
    var close := Expect(items.st, delimR);
    Parsed(items.node, close.st)
  }

  // ---------------------------------------------------------------- expressions

  /**
    `parse_expr(p)`: a primary expression, then postfix forms and infix
    operators for as long as the front token is postfix or an infix operator
    binding tighter than `p`. It stops in front of a token that is neither.
   */
  function ParseExpr(st: PState, p: Prec): (r: Parsed<Expr>)
    requires Valid(st)
    ensures Advanced(st, r.st)
    ensures !ExtendsLhs(Front(r.st).tag, p)
    decreases Weight(st), 6
  {
    var start := Front(st).loc;
    var lhs := ParsePrimary(st);
    ExprLoop(lhs.st, p, start, lhs.node)
  }

  /** Whether the loop of `parse_expr` goes on at tag `t`: a postfix form, or an infix operator binding tighter than `p`. */
  predicate ExtendsLhs(t: Tag, p: Prec) {
    IsPostfix(t) || PrecLt(p, TagToPrec(t))
  }

  /** The loop of `parse_expr`, with the expression `lhs` built so far from `start` on. */
  function ExprLoop(st: PState, p: Prec, start: Loc, lhs: Expr): (r: Parsed<Expr>)
    requires Valid(st)
    ensures Advanced(st, r.st)
    ensures !ExtendsLhs(Front(r.st).tag, p)
    ensures !ExtendsLhs(Front(st).tag, p) ==> r == Parsed(lhs, st)
    decreases Weight(st), 5
  {
    var tag := Front(st).tag;
    if IsPostfix(tag) then
      var s := PostfixStep(st, start, lhs);
      ExprLoop(s.st, p, start, s.node)
    else if PrecLt(p, TagToPrec(tag)) then
      InfixTagsAreOperators(tag);
      var s := ParseInfixExpr(st, start, lhs);
      ExprLoop(s.st, p, start, s.node)
    else
      Parsed(lhs, st)
  }

  /** The postfix forms of the loop of `parse_expr`: the one in front, applied to `lhs`. */
  function PostfixStep(st: PState, start: Loc, lhs: Expr): (r: Parsed<Expr>)
    requires Valid(st) && IsPostfix(Front(st).tag)
    ensures Consumed(st, r.st)
    decreases Weight(st), 4
  {
    var tag := Front(st).tag;
    if tag == P_dot then
      ParseFieldExpr(st, start, lhs)
    else if tag == D_l_paren || tag == D_l_bracket then
      ParseAppExpr(st, start, lhs)
    else
      ParsePostfixExpr(st, start, lhs)
  }

  /** `parse_prefix_expr`: the operator, then its operand at unary precedence. */
  function ParsePrefixExpr(st: PState): (r: Parsed<Expr>)
    requires Valid(st) && Front(st).tag != M_eof
    ensures Consumed(st, r.st)
    ensures r.node.PrefixExpr? && r.node.op == Front(st).tag
    decreases Weight(st), 1
  {
    var start := Front(st).loc;
    var o := Lex(st);
    var rhs := ParseExpr(o.st, Unary);
    Parsed(PrefixExpr(Track(start, rhs.st.prev), o.node.tag, rhs.node), rhs.st)
  }

  /**
    `parse_infix_expr`: the operator, then its right operand at the operator's
    own precedence. An operator with a call-name becomes a call of that name on
    the pair of operands; any other stays an infix node.
   */
  function ParseInfixExpr(st: PState, start: Loc, lhs: Expr): (r: Parsed<Expr>)
    requires Valid(st) && Front(st).tag != M_eof
    ensures Consumed(st, r.st)
    decreases Weight(st), 1
  {
    var o := Lex(st);
    var rhs := ParseExpr(o.st, TagToPrec(o.node.tag));
    var loc := Track(start, rhs.st.prev);
    var name := TagToName(o.node.tag);
    if name != "" then
      var callee := IdExpr(o.node.loc, MakeId(o.node.loc, name));
      Parsed(AppExpr(loc, callee, MakeTuple(rhs.st.prev, lhs, rhs.node), true), rhs.st)
    else
      Parsed(InfixExpr(loc, lhs, o.node.tag, rhs.node), rhs.st)
  }

  /** `parse_postfix_expr`: the `++` or `--` in front, applied to `lhs`. */
  function ParsePostfixExpr(st: PState, start: Loc, lhs: Expr): (r: Parsed<Expr>)
    requires Valid(st) && (Front(st).tag == O_inc || Front(st).tag == O_dec)
    ensures Consumed(st, r.st)
    ensures r.node.PostfixExpr? && r.node.lhs == lhs && r.node.op == Front(st).tag
    decreases Weight(st), 1
  {
    var o := Lex(st);
    Parsed(PostfixExpr(Track(start, o.st.prev), lhs, o.node.tag), o.st)
  }

  /** `parse_cps_app_expr` (on `(`) and `parse_ds_app_expr` (on `[`): the callee applied to a tuple. */
  function ParseAppExpr(st: PState, start: Loc, callee: Expr): (r: Parsed<Expr>)
    requires Valid(st) && (Front(st).tag == D_l_paren || Front(st).tag == D_l_bracket)
    ensures Consumed(st, r.st)
    ensures r.node.AppExpr? && r.node.callee == callee && (r.node.cps <==> Front(st).tag == D_l_paren)
    decreases Weight(st), 3
  {
    var cps := Front(st).tag == D_l_paren;
    var arg := if cps then ParseTupleExpr(st, D_l_paren, D_r_paren) else ParseTupleExpr(st, D_l_bracket, D_r_bracket);
    Parsed(AppExpr(Track(start, arg.st.prev), callee, arg.node, cps), arg.st)
  }

  /** `parse_field_expr`: `.` and the field's name. */
  function ParseFieldExpr(st: PState, start: Loc, lhs: Expr): (r: Parsed<Expr>)
    requires Valid(st) && Front(st).tag == P_dot
    ensures Consumed(st, r.st)
    ensures r.node.FieldExpr? && r.node.lhs == lhs
    decreases Weight(st), 1
  {
    var dot := Eat(st, P_dot);
    var id := TryId(dot.st);
    Parsed(FieldExpr(Track(start, id.st.prev), lhs, id.node), id.st)
  }

  /** `parse_primary_expr`: dispatches on the front token; anything else is one error and an error node, nothing consumed. */
  function ParsePrimary(st: PState): (r: Parsed<Expr>)
    requires Valid(st)
    ensures Advanced(st, r.st)
    decreases Weight(st), 3
  {
    var tag := Front(st).tag;
    if tag == O_inc || tag == O_dec || tag == O_add || tag == O_sub then ParsePrefixExpr(st)
    else if tag == D_l_brace then ParseBlockExpr(st)
    else if tag == D_l_bracket then ParseSigmaExpr(st)
    else if tag == D_l_paren then ParseTupleExpr(st, D_l_paren, D_r_paren)
    else if tag == K_ar then ParseVariadicExpr(st)
    else if tag == K_cn then ParseCnExpr(st, false)
    else if tag == K_Cn then ParseCnTypeExpr(st)
    else if tag == K_fn then ParseFnExpr(st, false)
    else if tag == K_Fn then ParseFnTypeExpr(st)
    else if tag == K_if then ParseIfExpr(st)
    else if tag == K_pk then ParsePackExpr(st)
    else if tag == M_id then ParseIdExpr(st)
    else if tag == O_forall then ParseForallExpr(st)
    else if tag == O_lambda then ParseLambdaExpr(st)
    else Parsed(MakeError(st.prev), Complain(st))
  }

  /** `parse_id_expr`: an identifier as an expression. */
  function ParseIdExpr(st: PState): (r: Parsed<Expr>)
    requires Valid(st) && Front(st).tag == M_id
    ensures Consumed(st, r.st) && r.st == Lex(st).st
    ensures r.node == IdExpr(Front(st).loc, IdOfToken(Front(st)))
    decreases Weight(st), 1
  {
    var id := ParseId(st);
    Parsed(IdExpr(id.node.loc, id.node), id.st)
  }

  /**
    `parse_block_expr`: `{`, then statements until a token that can neither
    start nor end one, then `}` expected. Stray `;` are skipped.
   */
  function ParseBlockExpr(st: PState): (r: Parsed<Expr>)
    requires Valid(st) && Front(st).tag == D_l_brace
    ensures Consumed(st, r.st) && r.node.BlockExpr?
    decreases Weight(st), 1
  {
    var start := Front(st).loc;
    var open := Eat(st, D_l_brace);
    BlockLoop(open.st, start, [])
  }

  /** The expressions that stand as statements without a `;`: `if`, `match`, `for`, `while` and blocks. */
  predicate IsStmntLike(t: Tag) {
    t == K_if || t == K_match || t == K_for || t == K_while || t == D_l_brace
  }

  /** The loop of `parse_block_expr`, with the statements read so far. */
  function BlockLoop(st: PState, start: Loc, stmnts: seq<Stmnt>): (r: Parsed<Expr>)
    requires Valid(st)
    ensures Advanced(st, r.st) && r.node.BlockExpr?
    decreases Weight(st), 9
  {
    var tag := Front(st).tag;
    if tag == P_semicolon then
      BlockLoop(Lex(st).st, start, stmnts)
    else if tag == K_let then
      var s := ParseLetStmnt(st);
      BlockLoop(s.st, start, stmnts + [s.node])
    else if StartsExpr(tag) then
      if (tag == K_cn || tag == K_fn) && Ahead(st, 1).tag == M_id then
        var s := ParseItemStmnt(st);
        BlockLoop(s.st, start, stmnts + [s.node])
      else
        BlockExprStmnt(st, start, stmnts)
    else
      BlockEnd(st, start, stmnts, None)
  }

  /**
    An expression inside a block: a statement if `;` follows, or if it is
    statement-like and `}` does not follow; otherwise the block's final
    expression.
   */
  function BlockExprStmnt(st: PState, start: Loc, stmnts: seq<Stmnt>): (r: Parsed<Expr>)
    requires Valid(st)
    ensures Advanced(st, r.st) && r.node.BlockExpr?
    decreases Weight(st), 8
  {
    var from := Front(st).loc;
    var e := ParseStmntExpr(st);
    var semi := Accept(e.st, P_semicolon);
    if semi.node || (IsStmntLike(Front(st).tag) && Front(semi.st).tag != D_r_brace) then
      BlockLoop(semi.st, start, stmnts + [ExprStmnt(Track(from, semi.st.prev), e.node)])
    else
      BlockEnd(semi.st, start, stmnts, Some(e.node))
  }

  /** The expression of an expression statement: statement-like forms have their own parsers. */
  function ParseStmntExpr(st: PState): (r: Parsed<Expr>)
    requires Valid(st)
    ensures Advanced(st, r.st)
    ensures IsStmntLike(Front(st).tag) ==> Consumed(st, r.st)
    decreases Weight(st), 7
  {
    var tag := Front(st).tag;
    if tag == K_if then ParseIfExpr(st)
    else if tag == K_match || tag == K_for || tag == K_while then ParseUnimplemented(st)
    else if tag == D_l_brace then ParseBlockExpr(st)
    else ParseExpr(st, Bottom)
  }

  /** The end of `parse_block_expr`: `}` expected, and a unit tuple as the value of a block without a final expression. */
  function BlockEnd(st: PState, start: Loc, stmnts: seq<Stmnt>, final: Option<Expr>): (r: Parsed<Expr>)
    requires Valid(st)
    ensures Advanced(st, r.st)
    ensures r.node.BlockExpr? && r.node.stmnts == stmnts
    ensures final.None? ==> r.node.expr == MakeUnitTuple(r.st.prev)
    ensures final.Some? ==> r.node.expr == final.value
    ensures Front(st).tag == D_r_brace ==> r.st == Lex(st).st
    ensures Front(st).tag != D_r_brace ==> r.st == Complain(st)
  {
    var close := Expect(st, D_r_brace);
    var value := if final.Some? then final.value else MakeUnitTuple(close.st.prev);
    Parsed(BlockExpr(Track(start, close.st.prev), stmnts, value), close.st)
  }

  /**
    `parse_for_expr`, `parse_match_expr` and `parse_while_expr` are empty in the
    source. Here the keyword is consumed and reported as an error, and an error
    node stands for the expression.
   */
  function ParseUnimplemented(st: PState): (r: Parsed<Expr>)
    requires Valid(st) && Front(st).tag != M_eof
    ensures Consumed(st, r.st) && r.node.ErrorExpr?
    ensures r.st.report == AddError(st.report, Front(st).loc)
  {
    var k := Lex(Complain(st));
    Parsed(MakeError(k.st.prev), k.st)
  }

  /** `parse_if_expr`: condition, consequence block, and an optional alternative (`if` or block); no alternative is an empty block. */
  function ParseIfExpr(st: PState): (r: Parsed<Expr>)
    requires Valid(st) && Front(st).tag == K_if
    ensures Consumed(st, r.st) && r.node.IfExpr?
    decreases Weight(st), 1
  {
    var start := Front(st).loc;
    var kw := Eat(st, K_if);
    var cond := ParseExpr(kw.st, Bottom);
    var thenExpr := TryBlockExpr(cond.st);
    var els := Accept(thenExpr.st, K_else);
    var alt := if !els.node then Parsed(None, els.st)
      else if Front(els.st).tag == K_if then var a := ParseIfExpr(els.st); Parsed(Some(a.node), a.st)
      else if Front(els.st).tag == D_l_brace then var a := ParseBlockExpr(els.st); Parsed(Some(a.node), a.st)
      else Parsed(None, Complain(els.st));
    var elseExpr := if alt.node.Some? then alt.node.value else MakeEmptyBlock(alt.st.prev);
    Parsed(IfExpr(Track(start, alt.st.prev), cond.node, thenExpr.node, elseExpr), alt.st)
  }

  /** `parse_tuple_expr`: a delimited list of tuple elements and an optional ascription. */
  function ParseTupleExpr(st: PState, delimL: Tag, delimR: Tag): (r: Parsed<Expr>)
    requires Valid(st) && Front(st).tag == delimL && delimL != M_eof
    ensures Consumed(st, r.st) && r.node.TupleExpr?
    decreases Weight(st), 2
  {
    var start := Front(st).loc;
    var elems := ParseDelimitedList(st, delimL, delimR, TupleElems);
    var ty := ParseTypeAscription(elems.st, false);
    Parsed(TupleExpr(Track(start, ty.st.prev), elems.node.elems, ty.node), ty.st)
  }

  /** `parse_sigma_expr`: `[` binders with mandatory ascriptions `]`. */
  function ParseSigmaExpr(st: PState): (r: Parsed<Expr>)
    requires Valid(st) && Front(st).tag == D_l_bracket
    ensures Consumed(st, r.st) && r.node.SigmaExpr?
    decreases Weight(st), 2
  {
    var start := Front(st).loc;
    var binders := ParseDelimitedList(st, D_l_bracket, D_r_bracket, Binders(true));
    Parsed(SigmaExpr(Track(start, binders.st.prev), binders.node.ptrns), binders.st)
  }

  /**
    The dependent forms `pk(domains; body)` (`parse_pack_expr`) and
    `ar[domains; body]` (`parse_variadic_expr`): the keyword, the opening
    delimiter expected, binders up to `;`, `;` expected, the body, and the
    closing delimiter expected.
   */
  function ParseDependent(st: PState, kw: Tag, delimL: Tag, delimR: Tag): (r: Parsed<(seq<Ptrn>, Expr)>)
    requires Valid(st) && Front(st).tag == kw && kw != M_eof
    ensures Consumed(st, r.st)
    decreases Weight(st), 1
  {
    var k := Eat(st, kw);
    var open := Expect(k.st, delimL);
    var domains := ParseList(open.st, P_semicolon, P_comma, Binders(true));
    var semi := Expect(domains.st, P_semicolon);
    var body := TryExpr(semi.st, Bottom);
    var close := Expect(body.st, delimR);
    Parsed((domains.node.ptrns, body.node), close.st)
  }

  /** `parse_pack_expr`. */
  function ParsePackExpr(st: PState): (r: Parsed<Expr>)
    requires Valid(st) && Front(st).tag == K_pk
    ensures Consumed(st, r.st) && r.node.PackExpr?
    decreases Weight(st), 2
  {
    var start := Front(st).loc;
    var d := ParseDependent(st, K_pk, D_l_paren, D_r_paren);
    Parsed(PackExpr(Track(start, d.st.prev), d.node.0, d.node.1), d.st)
  }

  /** `parse_variadic_expr`. */
  function ParseVariadicExpr(st: PState): (r: Parsed<Expr>)
    requires Valid(st) && Front(st).tag == K_ar
    ensures Consumed(st, r.st) && r.node.VariadicExpr?
    decreases Weight(st), 2
  {
    var start := Front(st).loc;
    var d := ParseDependent(st, K_ar, D_l_bracket, D_r_bracket);
    Parsed(VariadicExpr(Track(start, d.st.prev), d.node.0, d.node.1), d.st)
  }

  // ---------------------------------------------------------------- lambdas and for-alls

  /**
    The common head of `parse_cn_expr` and `parse_fn_expr`: the keyword, an
    optional name, and an optional `[...]` domain. Only an item may be named; a
    name elsewhere is reported and dropped, and an item without one is named `_`.
   */
  function ParseLambdaHead(st: PState, kw: Tag, item: bool): (r: Parsed<(Option<Id>, Option<Ptrn>)>)
    requires Valid(st) && Front(st).tag == kw && kw != M_eof
    ensures Consumed(st, r.st)
    ensures r.node.0.Some? <==> item
    decreases Weight(st), 1
  {
    var k := Eat(st, kw);
    var named := if Front(k.st).tag == M_id then var i := ParseId(k.st); Parsed(Some(i.node), i.st) else Parsed(None, k.st);
    var afterName := if !item && named.node.Some? then ErrorAt(named.st, named.node.value.loc) else named.st;
    var name := if !item then None else if named.node.Some? then named.node else Some(MakeId(afterName.prev, Anonymous));
    var ds := if Front(afterName).tag == D_l_bracket then
        var d := ParseTuplePtrn(afterName, false, D_l_bracket, D_r_bracket); Parsed(Some(d.node), d.st)
      else Parsed(None, afterName);
    Parsed((name, ds.node), ds.st)
  }

  /** A lambda, wrapped in an outer lambda over the `[...]` domain when there is one, and named. */
  function Lambda(loc: Loc, prev: Loc, name: Option<Id>, dsDomain: Option<Ptrn>, domain: Ptrn, body: Expr): (r: Expr)
    ensures r.LambdaExpr? && r.name == name
    ensures dsDomain.None? ==> r.domain == domain && r.body == body
    ensures dsDomain.Some? ==> r.domain == dsDomain.value && r.body.LambdaExpr? && r.body.domain == domain
  {
    var f := LambdaExpr(loc, None, domain, MakeBottom(prev), body);
    var g := if dsDomain.Some? then LambdaExpr(loc, None, dsDomain.value, MakeUnknown(prev), f) else f;
    g.(name := name)
  }

  /** `parse_cn_expr`: a continuation, whose codomain is ⊥. */
  function ParseCnExpr(st: PState, item: bool): (r: Parsed<Expr>)
    requires Valid(st) && Front(st).tag == K_cn
    ensures Consumed(st, r.st)
    ensures r.node.LambdaExpr? && (r.node.name.Some? <==> item)
    decreases Weight(st), 2
  {
    var start := Front(st).loc;
    var head := ParseLambdaHead(st, K_cn, item);
    var domain := TryTuplePtrn(head.st);
    var body := TryExpr(domain.st, Bottom);
    Parsed(Lambda(Track(start, body.st.prev), body.st.prev, head.node.0, head.node.1, domain.node, body.node), body.st)
  }

  /**
    The return pattern `return: Cn _: ret` that turns a function's domain
    into a continuation's; `fn` calls it `return`, `Fn` calls it `_`.
   */
  function ReturnPtrn(prev: Loc, name: string, ret: Expr): (r: Ptrn)
    ensures r.IdPtrn? && r.mandatory && r.id == MakeId(prev, name)
    ensures r.ty == MakeCnType(prev, MakeTypedIdPtrn(prev, Anonymous, ret))
  {
    MakeTypedIdPtrn(prev, name, MakeCnType(prev, MakeTypedIdPtrn(prev, Anonymous, ret)))
  }

  /**
    `parse_fn_expr`: as a continuation, but the domain becomes the pair of the
    given domain and a `return` continuation taking the codomain (`->` type,
    unknown when absent).
   */
  function ParseFnExpr(st: PState, item: bool): (r: Parsed<Expr>)
    requires Valid(st) && Front(st).tag == K_fn
    ensures Consumed(st, r.st)
    ensures r.node.LambdaExpr? && (r.node.name.Some? <==> item)
    decreases Weight(st), 2
  {
    var start := Front(st).loc;
    var head := ParseLambdaHead(st, K_fn, item);
    var first := TryTuplePtrn(head.st);
    var arrow := Accept(first.st, O_arrow);
    var ret := if arrow.node then TryExpr(arrow.st, Arrow) else Parsed(MakeUnknown(arrow.st.prev), arrow.st);
    var p := ret.st.prev;
    var retPtrn := ReturnPtrn(p, "return", ret.node);
    var domain := TuplePtrn(Join(first.node.loc, retPtrn.loc), [first.node, retPtrn], MakeUnknown(p), false);
    var body := TryExpr(ret.st, Bottom);
    Parsed(Lambda(Track(start, body.st.prev), body.st.prev, head.node.0, head.node.1, domain, body.node), body.st)
  }

  /** `parse_lambda_expr`: `\` domain pattern, optional `->` codomain, body. */
  function ParseLambdaExpr(st: PState): (r: Parsed<Expr>)
    requires Valid(st) && Front(st).tag == O_lambda
    ensures Consumed(st, r.st) && r.node.LambdaExpr? && r.node.name.None?
    decreases Weight(st), 1
  {
    var start := Front(st).loc;
    var kw := Eat(st, O_lambda);
    var domain := TryPtrn(kw.st);
    var arrow := Accept(domain.st, O_arrow);
    var codomain := if arrow.node then TryExpr(arrow.st, Arrow) else Parsed(MakeUnknown(arrow.st.prev), arrow.st);
    var body := TryExpr(codomain.st, Bottom);
    Parsed(LambdaExpr(Track(start, body.st.prev), None, domain.node, codomain.node, body.node), body.st)
  }

  /** `parse_cn_type_expr`: `Cn` domain, with ⊥ as codomain. */
  function ParseCnTypeExpr(st: PState): (r: Parsed<Expr>)
    requires Valid(st) && Front(st).tag == K_Cn
    ensures Consumed(st, r.st) && r.node.ForallExpr? && r.node.codomain == MakeBottom(r.st.prev)
    decreases Weight(st), 1
  {
    var start := Front(st).loc;
    var kw := Eat(st, K_Cn);
    var domain := TryPtrnT(kw.st, false);
    Parsed(ForallExpr(Track(start, domain.st.prev), domain.node, MakeBottom(domain.st.prev)), domain.st)
  }

  /** `parse_fn_type_expr`: `Fn` domain `->` codomain, as the continuation type over the domain and a return continuation. */
  function ParseFnTypeExpr(st: PState): (r: Parsed<Expr>)
    requires Valid(st) && Front(st).tag == K_Fn
    ensures Consumed(st, r.st) && r.node.ForallExpr? && r.node.codomain == MakeBottom(r.st.prev)
    decreases Weight(st), 1
  {
    var start := Front(st).loc;
    var kw := Eat(st, K_Fn);
    var first := TryPtrnT(kw.st, false);
    var arrow := Expect(first.st, O_arrow);
    var ret := TryExpr(arrow.st, Arrow);
    var p := ret.st.prev;
    var retPtrn := ReturnPtrn(p, Anonymous, ret.node);
    var domain := MakeTypedIdPtrn(p, Anonymous, SigmaExpr(Join(first.node.loc, retPtrn.loc), [first.node, retPtrn]));
    Parsed(ForallExpr(Track(start, p), domain, MakeBottom(p)), ret.st)
  }

  /** `parse_forall_expr`: `\/` domain `->` codomain. */
  function ParseForallExpr(st: PState): (r: Parsed<Expr>)
    requires Valid(st) && Front(st).tag == O_forall
    ensures Consumed(st, r.st) && r.node.ForallExpr?
    decreases Weight(st), 1
  {
    var start := Front(st).loc;
    var kw := Eat(st, O_forall);
    var domain := TryPtrnT(kw.st, false);
    var arrow := Expect(domain.st, O_arrow);
    var codomain := TryExpr(arrow.st, Arrow);
    Parsed(ForallExpr(Track(start, codomain.st.prev), domain.node, codomain.node), codomain.st)
  }

  // ---------------------------------------------------------------- statements and programs

  /** `parse_let_stmnt`: `let` pattern, and an initializer after an accepted `=`. */
  function ParseLetStmnt(st: PState): (r: Parsed<Stmnt>)
    requires Valid(st) && Front(st).tag == K_let
    ensures Consumed(st, r.st) && r.node.LetStmnt?
    decreases Weight(st), 1
  {
    var start := Front(st).loc;
    var kw := Eat(st, K_let);
    var ptrn := TryPtrn(kw.st);
    var eq := Accept(ptrn.st, O_eq);
    var init := if eq.node then var e := TryExpr(eq.st, Bottom); Parsed(Some(e.node), e.st) else Parsed(None, eq.st);
    Parsed(LetStmnt(Track(start, init.st.prev), ptrn.node, init.node), init.st)
  }

  /** `parse_item_stmnt`: a named `cn` or `fn`, as an item owning its name and the lambda. */
  function ParseItemStmnt(st: PState): (r: Parsed<Stmnt>)
    requires Valid(st) && (Front(st).tag == K_cn || Front(st).tag == K_fn)
    ensures Consumed(st, r.st) && r.node.ItemStmnt?
    ensures r.node.item.expr.LambdaExpr? && r.node.item.expr.name == Some(r.node.item.id)
    decreases Weight(st), 3
  {
    var start := Front(st).loc;
    var f := if Front(st).tag == K_cn then ParseCnExpr(st, true) else ParseFnExpr(st, true);
    var loc := Track(start, f.st.prev);
    Parsed(ItemStmnt(loc, Item(loc, f.node.name.value, f.node)), f.st)
  }

  /**
    `parse_prg`: items and `let` statements up to end of file; any other token
    is reported and skipped.
   */
  function ParsePrg(st: PState): (r: Parsed<Prg>)
    requires Valid(st)
    ensures Advanced(st, r.st) && Front(r.st).tag == M_eof
    decreases Weight(st), 5
  {
    PrgLoop(st, Front(st).loc, [])
  }

  /** The loop of `parse_prg`, with the statements read so far. */
  function PrgLoop(st: PState, start: Loc, stmnts: seq<Stmnt>): (r: Parsed<Prg>)
    requires Valid(st)
    ensures Advanced(st, r.st) && Front(r.st).tag == M_eof
    ensures |r.node.stmnts| >= |stmnts|
    decreases Weight(st), 4
  {
    var tag := Front(st).tag;
    if tag == M_eof then Parsed(Prg(Track(start, st.prev), stmnts), st)
    else if tag == K_cn || tag == K_fn then
      var s := ParseItemStmnt(st);
      PrgLoop(s.st, start, stmnts + [s.node])
    else if tag == K_let then
      var s := ParseLetStmnt(st);
      PrgLoop(s.st, start, stmnts + [s.node])
    else
      PrgLoop(Lex(Complain(st)).st, start, stmnts)
  }

  // ---------------------------------------------------------------- entry points

  /**
    The `Parser` constructor: three calls of `lex()` fill the buffer with the
    lexer's first three tokens; `prev_` then starts at line 1, column 1.
   */
  function Init(tokens: seq<Token>, report: Report): (r: PState)
    requires IsTokenStream(tokens)
    ensures Valid(r) && r.prev == StartLoc && r.report == report
    ensures forall i :: 0 <= i < MaxAhead ==> Ahead(r, i) == Nth(tokens, i)
  {
    PState(Input(tokens), 0, StartLoc, report)
  }
}
