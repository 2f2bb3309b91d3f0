/**
  The node builders of parser.h (`make_*`) and the span of a `Tracker`.

  Each builder that the parser calls without a location of its own uses the
  parser's `prev_`, the span of the last consumed token; here that span is the
  explicit parameter `prev`.
 */
module Builders {
  import opened Basics
  import opened Tokens
  import opened Ast

  /**
    A `Tracker` converted to a span: from the front of where tracking began to
    the back of the last consumed token.
   */
  function Track(start: Loc, prev: Loc): (r: Loc)
    ensures r.front == start.front && r.back == prev.back
  {
    Loc(start.front, prev.back)
  }

  function MakeBottom(prev: Loc): (r: Expr)
    ensures r.BottomExpr? && r.loc == prev
  {
    BottomExpr(prev)
  }

  function MakeError(prev: Loc): (r: Expr)
    ensures r.ErrorExpr? && r.loc == prev
  {
    ErrorExpr(prev)
  }

  function MakeUnknown(prev: Loc): (r: Expr)
    ensures r.UnknownExpr? && r.loc == prev
  {
    UnknownExpr(prev)
  }

  /** `make_unit_tuple`: a tuple with no elements and an unknown type. */
  function MakeUnitTuple(prev: Loc): (r: Expr)
    ensures r.TupleExpr? && r.elems == [] && r.loc == prev && r.ty == MakeUnknown(prev)
  {
    TupleExpr(prev, [], MakeUnknown(prev))
  }

  /** `make_empty_block_expr`: no statements, and the unit tuple as its value. */
  function MakeEmptyBlock(prev: Loc): (r: Expr)
    ensures r.BlockExpr? && r.stmnts == [] && r.expr == MakeUnitTuple(prev) && r.loc == prev
  {
    BlockExpr(prev, [], MakeUnitTuple(prev))
  }

  /** `make_id(s)`: an identifier spelled `s` at `prev`, as `Id(Token(prev, s))`. */
  function MakeId(prev: Loc, s: string): (r: Id)
    ensures r.loc == prev && r.symbol == s
  {
    IdOfToken(IdToken(prev, s))
  }

  /** `make_tuple_elem`: an anonymous element spanning the expression it wraps. */
  function MakeTupleElem(e: Expr): (r: TupleElem)
    ensures r.loc == e.loc && r.expr == e && IsAnonymous(r.id) && r.id.loc == e.loc
  {
    TupleElem(e.loc, IdOfToken(IdToken(e.loc, Anonymous)), e)
  }

  /**
    `make_tuple(lhs, rhs)`: exactly two anonymous elements, `lhs` then `rhs`,
    spanning both operands, with an unknown type.
   */
  function MakeTuple(prev: Loc, lhs: Expr, rhs: Expr): (r: Expr)
    ensures r.TupleExpr? && |r.elems| == 2
    ensures r.elems[0].expr == lhs && r.elems[1].expr == rhs
    ensures IsAnonymous(r.elems[0].id) && IsAnonymous(r.elems[1].id)
    ensures r.loc == Join(lhs.loc, rhs.loc) && r.ty == MakeUnknown(prev)
  {
    TupleExpr(Join(lhs.loc, rhs.loc), [MakeTupleElem(lhs), MakeTupleElem(rhs)], MakeUnknown(prev))
  }

  /**
    `make_id_ptrn(s, type)`: a pattern naming `s` whose ascription `type` is
    mandatory; the pattern takes the span of the type.
   */
  function MakeTypedIdPtrn(prev: Loc, s: string, ty: Expr): (r: Ptrn)
    ensures r.IdPtrn? && r.mandatory && r.ty == ty && r.loc == ty.loc
    ensures r.id == MakeId(prev, s)
  {
    IdPtrn(ty.loc, MakeId(prev, s), ty, true)
  }

  /** `make_id_ptrn(id)`: an unascribed pattern with an unknown type, spanning `id`. */
  function MakeIdPtrn(prev: Loc, id: Id): (r: Ptrn)
    ensures r.IdPtrn? && !r.mandatory && r.id == id && r.loc == id.loc
    ensures r.ty == MakeUnknown(prev)
  {
    IdPtrn(id.loc, id, MakeUnknown(prev), false)
  }

  /** `make_cn_type(domain)`: the continuation type `\/ domain -> ⊥`, spanning the domain. */
  function MakeCnType(prev: Loc, domain: Ptrn): (r: Expr)
    ensures r.ForallExpr? && r.domain == domain && r.codomain == MakeBottom(prev)
    ensures r.loc == domain.loc
  {
    ForallExpr(domain.loc, domain, MakeBottom(prev))
  }
}
