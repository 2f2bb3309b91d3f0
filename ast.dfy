/**
  The abstract syntax tree (ast.h, together with the node kinds that parser.cpp
  builds and bind.cpp walks).

  Every node carries its span in a field called `loc`. In the original each child
  is held through a `unique_ptr`; a Dafny datatype value is a finite tree by
  construction, so the "no sharing, no cycles" ownership discipline holds of
  every value of these types without further proof.

  The `for`, `match` and `while` node kinds are declared by the parser but never
  built (their parse functions are empty stubs), so they have no variant here.
 */
module Ast {
  import opened Basics
  import opened Tokens

  /** A source occurrence of a name. */
  datatype Id = Id(loc: Loc, symbol: string)

  /** The reserved anonymous name. */
  const Anonymous: string := "_"

  predicate IsAnonymous(id: Id) {
    id.symbol == Anonymous
  }

  /**
    `Id(Token)`: takes the token's location and symbol; `symbol()` is only
    defined for identifier tokens, so neither is this.
   */
  function IdOfToken(t: Token): (r: Id)
    requires t.tag == M_id && PayloadFits(t)
    ensures r.loc == t.loc && r.symbol == Symbol(t)
    ensures IdToken(r.loc, r.symbol) == t
  {
    Id(t.loc, Symbol(t))
  }

  datatype Ptrn =
    | IdPtrn(loc: Loc, id: Id, ty: Expr, mandatory: bool)
    | TuplePtrn(loc: Loc, elems: seq<Ptrn>, ty: Expr, mandatory: bool)
    | ErrorPtrn(loc: Loc)

  datatype Expr =
    | AppExpr(loc: Loc, callee: Expr, arg: Expr, cps: bool)
    | BlockExpr(loc: Loc, stmnts: seq<Stmnt>, expr: Expr)
    | BottomExpr(loc: Loc)
    | ErrorExpr(loc: Loc)
    | IdExpr(loc: Loc, id: Id)
    | IfExpr(loc: Loc, cond: Expr, thenExpr: Expr, elseExpr: Expr)
    | InfixExpr(loc: Loc, lhs: Expr, op: Tag, rhs: Expr)
    | PrefixExpr(loc: Loc, op: Tag, rhs: Expr)
    | PostfixExpr(loc: Loc, lhs: Expr, op: Tag)
    | FieldExpr(loc: Loc, lhs: Expr, id: Id)
    | ForallExpr(loc: Loc, domain: Ptrn, codomain: Expr)
    | LambdaExpr(loc: Loc, name: Option<Id>, domain: Ptrn, codomain: Expr, body: Expr)
    | PackExpr(loc: Loc, domains: seq<Ptrn>, body: Expr)
    | TupleExpr(loc: Loc, elems: seq<TupleElem>, ty: Expr)
    | SigmaExpr(loc: Loc, binders: seq<Ptrn>)
    | VariadicExpr(loc: Loc, domains: seq<Ptrn>, body: Expr)
    | UnknownExpr(loc: Loc)

  /** `TupleExpr::Elem`: an element, named by `id` (anonymous when positional). */
  datatype TupleElem = TupleElem(loc: Loc, id: Id, expr: Expr)

  datatype Stmnt =
    | ExprStmnt(loc: Loc, expr: Expr)
    | LetStmnt(loc: Loc, ptrn: Ptrn, init: Option<Expr>)
    | ItemStmnt(loc: Loc, item: Item)

  /** A named definition; the parser only ever makes one from a `cn`/`fn` lambda. */
  datatype Item = Item(loc: Loc, id: Id, expr: Expr)

  /** The whole program. */
  datatype Prg = Prg(loc: Loc, stmnts: seq<Stmnt>)

  /** `TupleExpr(location)` of ast.h: no elements (its type is left to be inferred). */
  function EmptyTuple(loc: Loc): (r: Expr)
    ensures r.TupleExpr? && r.loc == loc && |r.elems| == 0 && r.ty.UnknownExpr?
  {
    TupleExpr(loc, [], UnknownExpr(loc))
  }

  /** `SigmaExpr(location)` of ast.h: no binders. */
  function EmptySigma(loc: Loc): (r: Expr)
    ensures r.SigmaExpr? && r.loc == loc && |r.binders| == 0
  {
    SigmaExpr(loc, [])
  }
}
