/**
  What the binding walk does on small programs: the order in which `let` and
  identifier patterns bind, redefinition within one block, and shadowing across
  nested blocks.
 */
module BindProperties {
  import opened Basics
  import opened Ast
  import opened Diagnostics
  import opened BindSpec

  /** `let x` with no ascription and no initializer, as the parser builds it. */
  function LetNoInit(loc: Loc, x: Id): Stmnt {
    LetStmnt(loc, IdPtrn(x.loc, x, UnknownExpr(loc), false), None)
  }

  /** A block of statements whose value is the unit tuple. */
  function UnitBlock(loc: Loc, ss: seq<Stmnt>): Expr {
    BlockExpr(loc, ss, TupleExpr(loc, [], UnknownExpr(loc)))
  }

  /** Binding `let x` inserts `x` and does nothing else. */
  lemma LetNoInitInserts(loc: Loc, x: Id, st: BState)
    requires |st.scopes| > 0 && WellFormed(st.scopes)
    ensures BindStmnt(LetNoInit(loc, x), st) == Insert(st, IdPtrnDecl(x))
  {
    UntypedIdPtrnInserts(loc, x, st);
  }

  /** A block's walk: push, the statements, the final expression, pop. */
  lemma BlockWalk(loc: Loc, ss: seq<Stmnt>, e: Expr, st: BState)
    requires |st.scopes| > 0 && WellFormed(st.scopes)
    ensures BindExpr(BlockExpr(loc, ss, e), st) == Pop(BindExpr(e, BindStmnts(ss, Push(st))))
  {
  }

  /** The unit tuple at the end of a block binds nothing. */
  lemma UnitTupleBindsNothing(loc: Loc, st: BState)
    requires |st.scopes| > 0 && WellFormed(st.scopes)
    ensures BindExpr(TupleExpr(loc, [], UnknownExpr(loc)), st) == st
  {
    assert BindElems([], st) == st;
  }

  /** One statement. */
  lemma OneStmnt(a: Stmnt, st: BState)
    requires |st.scopes| > 0 && WellFormed(st.scopes)
    ensures BindStmnts([a], st) == BindStmnt(a, st)
  {
    assert [a][..0] == [];
  }

  /** A second statement is bound after the first. */
  lemma SecondStmnt(a: Stmnt, b: Stmnt, st: BState)
    requires |st.scopes| > 0 && WellFormed(st.scopes)
    ensures BindStmnts([a, b], st) == BindStmnt(b, BindStmnts([a], st))
  {
    assert [a, b][..1] == [a];
  }

  /** Two statements are bound one after the other. */
  lemma TwoStmnts(a: Stmnt, b: Stmnt, st: BState)
    requires |st.scopes| > 0 && WellFormed(st.scopes)
    ensures BindStmnts([a, b], st) == BindStmnt(b, BindStmnt(a, st))
  {
    SecondStmnt(a, b, st);
    OneStmnt(a, st);
  }

  /** A `let` with an initializer binds the initializer first, then the pattern. */
  lemma LetWithInitBinds(loc: Loc, p: Ptrn, init: Expr, st: BState)
    requires |st.scopes| > 0 && WellFormed(st.scopes)
    ensures BindStmnt(LetStmnt(loc, p, Some(init)), st) == BindPtrn(p, BindExpr(init, st))
  {
  }

  /** An unascribed identifier pattern inserts its name and does nothing else. */
  lemma UntypedIdPtrnInserts(loc: Loc, x: Id, st: BState)
    requires |st.scopes| > 0 && WellFormed(st.scopes)
    ensures BindPtrn(IdPtrn(x.loc, x, UnknownExpr(loc), false), st) == Insert(st, IdPtrnDecl(x))
  {
    UnknownBindsNothing(loc, Insert(st, IdPtrnDecl(x)));
  }

  /** A type left to inference binds nothing. */
  lemma UnknownBindsNothing(loc: Loc, st: BState)
    requires |st.scopes| > 0 && WellFormed(st.scopes)
    ensures BindExpr(UnknownExpr(loc), st) == st
  {
  }

  /**
    `let x = x`: the initializer is bound before the pattern, so its `x` does not
    see the new binding. With no `x` declared anywhere, the use is an error and
    resolves to the invalid declaration; afterwards `x` is declared in the
    innermost scope.
   */
  lemma LetInitializerCannotSeeItsPattern(st: BState, loc: Loc, decl: Id, use: Id)
    requires |st.scopes| > 0 && WellFormed(st.scopes)
    requires decl.symbol == use.symbol && decl.symbol != Anonymous
    requires forall i :: 0 <= i < |st.scopes| ==> decl.symbol !in st.scopes[i]
    ensures var r := BindStmnt(LetStmnt(loc, IdPtrn(decl.loc, decl, UnknownExpr(loc), false), Some(IdExpr(use.loc, use))), st);
      && r.cells == st.cells + [Cell(use, InvalidDecl)]
      && r.report.numErrors == st.report.numErrors + 1
      && decl.symbol in r.scopes[|r.scopes| - 1]
      && r.scopes[|r.scopes| - 1][decl.symbol] == IdPtrnDecl(decl)
  {
    FindIsInnermost(st.scopes, use.symbol);
    var mid := BindUse(use.loc, use, st);
    assert mid.scopes == st.scopes && mid.cells == st.cells + [Cell(use, InvalidDecl)];
    assert mid.report.numErrors == st.report.numErrors + 1;
    LetWithInitBinds(loc, IdPtrn(decl.loc, decl, UnknownExpr(loc), false), IdExpr(use.loc, use), st);
    UntypedIdPtrnInserts(loc, decl, mid);
    var ins := Insert(mid, IdPtrnDecl(decl));
    assert ins.scopes[|st.scopes| - 1] == st.scopes[|st.scopes| - 1][decl.symbol := IdPtrnDecl(decl)];
  }

  /**
    `x: x`: an identifier pattern inserts its name before binding its ascription,
    so the ascription's `x` resolves to the pattern itself.
   */
  lemma IdPtrnAscriptionSeesItsName(st: BState, loc: Loc, decl: Id, use: Id, mandatory: bool)
    requires |st.scopes| > 0 && WellFormed(st.scopes)
    requires decl.symbol == use.symbol && decl.symbol != Anonymous
    requires decl.symbol !in st.scopes[|st.scopes| - 1]
    ensures var r := BindPtrn(IdPtrn(loc, decl, IdExpr(use.loc, use), mandatory), st);
      && r.cells == st.cells + [Cell(use, IdPtrnDecl(decl))]
      && r.report == st.report
  {
    var mid := Insert(st, IdPtrnDecl(decl));
    InsertThenFind(st, IdPtrnDecl(decl), decl.symbol);
    assert Find(mid.scopes, use.symbol) == IdPtrnDecl(decl);
  }

  /**
    `{ let x; let x; }`: the second `let` is a redefinition. Binding the block
    costs exactly one error, at the second `x`, followed by a note at the first,
    and leaves the scope stack as it was.
   */
  lemma RedefinitionInOneBlock(st: BState, loc: Loc, first: Id, second: Id)
    requires |st.scopes| > 0 && WellFormed(st.scopes)
    requires first.symbol == second.symbol && first.symbol != Anonymous
    ensures var r := BindExpr(UnitBlock(loc, [LetNoInit(loc, first), LetNoInit(loc, second)]), st);
      && r.scopes == st.scopes
      && r.cells == st.cells
      && r.report.numErrors == st.report.numErrors + 1
      && r.report.output == st.report.output + [Diag(Error, second.loc), Diag(Note, first.loc)]
  {
    var s0 := Push(st);
    var s1 := Insert(s0, IdPtrnDecl(first));
    var s2 := Insert(s1, IdPtrnDecl(second));
    TwoLetsBind(loc, first, second, s0);
    UnitTupleBindsNothing(loc, s2);
    BlockWalk(loc, [LetNoInit(loc, first), LetNoInit(loc, second)], TupleExpr(loc, [], UnknownExpr(loc)), st);
    assert s1.scopes[|st.scopes|] == map[first.symbol := IdPtrnDecl(first)];
    InsertRedefinition(s1, IdPtrnDecl(second));
    assert s1.scopes[..|st.scopes|] == st.scopes;
  }

  /** Two `let`s insert their names in order. */
  lemma TwoLetsBind(loc: Loc, first: Id, second: Id, st: BState)
    requires |st.scopes| > 0 && WellFormed(st.scopes)
    ensures BindStmnts([LetNoInit(loc, first), LetNoInit(loc, second)], st)
              == Insert(Insert(st, IdPtrnDecl(first)), IdPtrnDecl(second))
  {
    LetNoInitInserts(loc, first, st);
    LetNoInitInserts(loc, second, Insert(st, IdPtrnDecl(first)));
    TwoStmnts(LetNoInit(loc, first), LetNoInit(loc, second), st);
  }

  /** An expression statement binds its expression. */
  lemma ExprStmntBinds(loc: Loc, e: Expr, st: BState)
    requires |st.scopes| > 0 && WellFormed(st.scopes)
    ensures BindStmnt(ExprStmnt(loc, e), st) == BindExpr(e, st)
  {
  }

  /**
    `{ let x; x }`: inside its own block the use resolves to the `let`, without
    error, and once the block is left the scope stack is as before.
   */
  lemma BlockUsesItsOwnLet(loc: Loc, x: Id, use: Id, st: BState)
    requires |st.scopes| > 0 && WellFormed(st.scopes)
    requires x.symbol == use.symbol && x.symbol != Anonymous
    ensures BindExpr(BlockExpr(loc, [LetNoInit(loc, x)], IdExpr(use.loc, use)), st)
              == st.(cells := st.cells + [Cell(use, IdPtrnDecl(x))])
  {
    var n := |st.scopes|;
    var t0 := Push(st);
    var t1 := Insert(t0, IdPtrnDecl(x));
    LetNoInitInserts(loc, x, t0);
    OneStmnt(LetNoInit(loc, x), t0);
    InsertThenFind(t0, IdPtrnDecl(x), x.symbol);
    assert Find(t1.scopes, use.symbol) == IdPtrnDecl(x);
    var t2 := BindUse(use.loc, use, t1);
    assert t2 == t1.(cells := t1.cells + [Cell(use, IdPtrnDecl(x))]);
    BlockWalk(loc, [LetNoInit(loc, x)], IdExpr(use.loc, use), st);
    assert t1.scopes[..n] == st.scopes;
  }

  /**
    `{ let x; { let x; x } }`: a name declared again in a nested block shadows the
    outer one without any error, and the inner use resolves to the inner
    declaration.
   */
  lemma ShadowingInNestedBlock(st: BState, loc: Loc, outer: Id, inner: Id, use: Id)
    requires |st.scopes| > 0 && WellFormed(st.scopes)
    requires outer.symbol == inner.symbol == use.symbol && outer.symbol != Anonymous
    ensures var r := BindExpr(
              UnitBlock(loc, [LetNoInit(loc, outer),
                              ExprStmnt(loc, BlockExpr(loc, [LetNoInit(loc, inner)], IdExpr(use.loc, use)))]),
              st);
      && r.scopes == st.scopes
      && r.report == st.report
      && r.cells == st.cells + [Cell(use, IdPtrnDecl(inner))]
  {
    var innerBlock := BlockExpr(loc, [LetNoInit(loc, inner)], IdExpr(use.loc, use));
    var s0 := Push(st);
    var s1 := Insert(s0, IdPtrnDecl(outer));
    LetNoInitInserts(loc, outer, s0);
    BlockUsesItsOwnLet(loc, inner, use, s1);
    ExprStmntBinds(loc, innerBlock, s1);
    var s2 := s1.(cells := s1.cells + [Cell(use, IdPtrnDecl(inner))]);
    TwoStmnts(LetNoInit(loc, outer), ExprStmnt(loc, innerBlock), s0);
    UnitTupleBindsNothing(loc, s2);
    BlockWalk(loc, [LetNoInit(loc, outer), ExprStmnt(loc, innerBlock)], TupleExpr(loc, [], UnknownExpr(loc)), st);
    assert s1.scopes[..|st.scopes|] == st.scopes;
  }
}
