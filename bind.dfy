/**
  The `Scopes` object of bind.h and the tree walk of bind.cpp, as a class whose
  methods update the stack in place. Each method is proved to leave the object
  in the state that the matching function of `BindSpec` computes.
 */
module Bind {
  import opened Basics
  import opened Ast
  import opened Diagnostics
  import opened BindSpec

  class Scopes {
    var scopes: seq<Scope>
    /** The resolution cells written so far, in the order of the walk. */
    var cells: seq<Cell>
    const compiler: Compiler

    function State(): BState
      reads this, compiler
    {
      BState(scopes, compiler.Value(), cells)
    }

    constructor (compiler: Compiler)
      ensures this.compiler == compiler
      ensures scopes == [] && cells == []
    {
      this.compiler := compiler;
      scopes, cells := [], [];
    }

    /** `push`. */
    method Push()
      modifies this
      ensures State() == BindSpec.Push(old(State()))
    {
      scopes := scopes + [map[]];
    }

    /** `pop`. */
    method Pop()
      requires |scopes| > 0
      modifies this
      ensures State() == BindSpec.Pop(old(State()))
    {
      scopes := scopes[..|scopes| - 1];
    }

    /** `find`: walks the stack from the innermost scope outwards. */
    method Find(sym: string) returns (d: Decl)
      ensures d == BindSpec.Find(scopes, sym)
    {
      var i := |scopes|;
      assert scopes[..i] == scopes;
      while i > 0
        invariant 0 <= i <= |scopes|
        invariant BindSpec.Find(scopes[..i], sym) == BindSpec.Find(scopes, sym)
      {
        assert scopes[..i][..i - 1] == scopes[..i - 1];
        if sym in scopes[i - 1] {
          return scopes[i - 1][sym];
        }
        i := i - 1;
      }
      return InvalidDecl;
    }

    /** `insert`. */
    method Insert(d: Decl)
      requires |scopes| > 0 && IsValid(d) && WellFormed(scopes)
      modifies this, compiler
      ensures State() == BindSpec.Insert(old(State()), d)
    {
      var sym := d.id.symbol;
      if sym == Anonymous {
        return;
      }
      var top := scopes[|scopes| - 1];
      if sym in top {
        compiler.Error(d.id.loc);
        compiler.Note(top[sym].id.loc);
      } else {
        scopes := scopes[..|scopes| - 1] + [top[sym := d]];
      }
    }

    /** `IdExpr::bind`. */
    method BindUse(loc: Loc, id: Id)
      requires |scopes| > 0 && WellFormed(scopes)
      modifies this, compiler
      ensures State() == BindSpec.BindUse(loc, id, old(State()))
    {
      if id.symbol != Anonymous {
        var d := Find(id.symbol);
        cells := cells + [Cell(id, d)];
        if !IsValid(d) {
          compiler.Error(loc);
        }
      } else {
        compiler.Error(loc);
      }
    }

    method BindPtrn(p: Ptrn)
      requires |scopes| > 0 && WellFormed(scopes)
      modifies this, compiler
      ensures State() == BindSpec.BindPtrn(p, old(State()))
      decreases p
    {
      match p
      case IdPtrn(_, id, ty, _) =>
        Insert(IdPtrnDecl(id));
        BindExpr(ty);
      case TuplePtrn(_, elems, ty, _) =>
        var st0 := State();
        for i := 0 to |elems|
          invariant State() == BindPtrns(elems[..i], st0)
        {
          assert elems[..i + 1][..i] == elems[..i];
          BindPtrn(elems[i]);
        }
        assert elems[..|elems|] == elems;
        BindExpr(ty);
      case ErrorPtrn(_) =>
    }

    method BindExpr(e: Expr)
      requires |scopes| > 0 && WellFormed(scopes)
      modifies this, compiler
      ensures State() == BindSpec.BindExpr(e, old(State()))
      decreases e, 1
    {
      match e
      case BlockExpr(_, _, _) =>
        BindBlock(e);
      case BottomExpr(_) =>
      case ErrorExpr(_) =>
      case IdExpr(loc, id) =>
        BindUse(loc, id);
      case PrefixExpr(_, _, rhs) =>
        BindExpr(rhs);
      case PostfixExpr(_, lhs, _) =>
        BindExpr(lhs);
      case FieldExpr(_, lhs, _) =>
        BindExpr(lhs);
      case LambdaExpr(_, _, domain, _, _) =>
        BindPtrn(domain);
      case TupleExpr(_, _, _) =>
        BindTuple(e);
      case SigmaExpr(_, binders) =>
        BindPtrnList(binders);
      case UnknownExpr(_) =>
      case AppExpr(_, _, _, _) =>
        BindParts(e);
      case IfExpr(_, _, _, _) =>
        BindParts(e);
      case InfixExpr(_, _, _, _) =>
        BindParts(e);
      case ForallExpr(_, _, _) =>
        BindBinders(e);
      case PackExpr(_, _, _) =>
        BindBinders(e);
      case VariadicExpr(_, _, _) =>
        BindBinders(e);
    }

    /** Application, `if` and infix walks: each part in order. */
    method BindParts(e: Expr)
      requires e.AppExpr? || e.IfExpr? || e.InfixExpr?
      requires |scopes| > 0 && WellFormed(scopes)
      modifies this, compiler
      ensures State() == BindSpec.BindExpr(e, old(State()))
      decreases e, 0
    {
      match e
      case AppExpr(_, callee, arg, _) =>
        BindExpr(callee);
        BindExpr(arg);
      case IfExpr(_, cond, thenExpr, elseExpr) =>
        BindExpr(cond);
        BindExpr(thenExpr);
        BindExpr(elseExpr);
      case InfixExpr(_, lhs, _, rhs) =>
        BindExpr(lhs);
        BindExpr(rhs);
    }

    /** For-all, pack and variadic walks: the domain patterns, then the codomain or body. */
    method BindBinders(e: Expr)
      requires e.ForallExpr? || e.PackExpr? || e.VariadicExpr?
      requires |scopes| > 0 && WellFormed(scopes)
      modifies this, compiler
      ensures State() == BindSpec.BindExpr(e, old(State()))
      decreases e, 0
    {
      match e
      case ForallExpr(_, domain, codomain) =>
        BindPtrn(domain);
        BindExpr(codomain);
      case PackExpr(_, domains, body) =>
        BindPtrnList(domains);
        BindExpr(body);
      case VariadicExpr(_, domains, body) =>
        BindPtrnList(domains);
        BindExpr(body);
    }

    /** `BlockExpr::bind`: the statements and the final expression, inside a scope of their own. */
    method BindBlock(e: Expr)
      requires e.BlockExpr?
      requires |scopes| > 0 && WellFormed(scopes)
      modifies this, compiler
      ensures State() == BindSpec.BindExpr(e, old(State()))
      decreases e, 0
    {
      Push();
      var st0 := State();
      for i := 0 to |e.stmnts|
        invariant State() == BindStmnts(e.stmnts[..i], st0)
      {
        assert e.stmnts[..i + 1][..i] == e.stmnts[..i];
        BindStmnt(e.stmnts[i]);
      }
      assert e.stmnts[..|e.stmnts|] == e.stmnts;
      BindExpr(e.expr);
      Pop();
    }

    /** `TupleExpr::bind`: each element's expression, then the type. */
    method BindTuple(e: Expr)
      requires e.TupleExpr?
      requires |scopes| > 0 && WellFormed(scopes)
      modifies this, compiler
      ensures State() == BindSpec.BindExpr(e, old(State()))
      decreases e, 0
    {
      var st0 := State();
      for i := 0 to |e.elems|
        invariant State() == BindElems(e.elems[..i], st0)
      {
        assert e.elems[..i + 1][..i] == e.elems[..i];
        BindExpr(e.elems[i].expr);
      }
      assert e.elems[..|e.elems|] == e.elems;
      BindExpr(e.ty);
    }

    /** The loops of the pack, sigma and variadic walks that bind each domain pattern in turn. */
    method BindPtrnList(ps: seq<Ptrn>)
      requires |scopes| > 0 && WellFormed(scopes)
      modifies this, compiler
      ensures State() == BindPtrns(ps, old(State()))
      decreases ps
    {
      var st0 := State();
      for i := 0 to |ps|
        invariant State() == BindPtrns(ps[..i], st0)
      {
        assert ps[..i + 1][..i] == ps[..i];
        BindPtrn(ps[i]);
      }
      assert ps[..|ps|] == ps;
    }

    method BindStmnt(s: Stmnt)
      requires |scopes| > 0 && WellFormed(scopes)
      modifies this, compiler
      ensures State() == BindSpec.BindStmnt(s, old(State()))
      decreases s
    {
      match s
      case ExprStmnt(_, expr) =>
        BindExpr(expr);
      case LetStmnt(_, ptrn, init) =>
        if init.Some? {
          BindExpr(init.value);
        }
        BindPtrn(ptrn);
      case ItemStmnt(_, item) =>
        BindExpr(item.expr);
    }
  }
}
