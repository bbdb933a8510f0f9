/** The abstract syntax the semantic analyser walks: classes, features and
    expressions. Every expression node carries a type slot, empty until the
    checker records the node's static type in it. */
module Syntax {
  import opened Symbols

  datatype Option<T> = None | Some(value: T)

  datatype ArithOp = Plus | Sub | Mul | Divide
  datatype CompareOp = Lt | Leq | Eq

  /** An expression node: what kind of expression it is and its recorded type. */
  datatype Expr = Expr(kind: ExprKind, ty: Option<Symbol>)

  datatype ExprKind =
    | IntConst(token: string)
    | BoolConst(value: bool)
    | StringConst(token: string)
    | Ident(name: Symbol)
    | Assign(name: Symbol, rhs: Expr)
    | Block(exprs: seq<Expr>)
    | New(typeName: Symbol)
    | NoExpr
    | IsVoid(e1: Expr)
    | Neg(e1: Expr)
    | Comp(e1: Expr)
    | Arith(arith: ArithOp, e1: Expr, e2: Expr)
    | Compare(compare: CompareOp, e1: Expr, e2: Expr)
    | Cond(pred: Expr, thenExp: Expr, elseExp: Expr)
    | Loop(pred: Expr, body: Expr)
    | Let(identifier: Symbol, typeDecl: Symbol, init: Expr, body: Expr)
    | TypCase(scrutinee: Expr, cases: seq<Branch>)
    | Dispatch(receiver: Expr, name: Symbol, actuals: seq<Expr>)
    | StaticDispatch(receiver: Expr, typeName: Symbol, name: Symbol, actuals: seq<Expr>)

  /** One arm `name : typeDecl => body` of a case expression. */
  datatype Branch = Branch(name: Symbol, typeDecl: Symbol, body: Expr)

  datatype Formal = Formal(name: Symbol, typeDecl: Symbol)

  datatype Feature =
    | Attr(name: Symbol, typeDecl: Symbol, init: Expr)
    | Method(name: Symbol, formals: seq<Formal>, returnType: Symbol, body: Expr)

  datatype ClassDecl = ClassDecl(name: Symbol, parent: Symbol, features: seq<Feature>, filename: string)

  /** The empty expression used for absent initialisers and built-in method bodies. */
  const NoBody: Expr := Expr(NoExpr, None)

  /** The node `e` with every recorded type removed: its syntax alone. */
  function Erase(e: Expr): Expr
    decreases e
  {
    Expr(EraseKind(e.kind), None)
  }

  function EraseKind(k: ExprKind): ExprKind
    decreases k
  {
    match k
    case IntConst(_) => k
    case BoolConst(_) => k
    case StringConst(_) => k
    case Ident(_) => k
    case New(_) => k
    case NoExpr => k
    case Assign(x, rhs) => Assign(x, Erase(rhs))
    case Block(es) => Block(EraseAll(es))
    case IsVoid(e1) => IsVoid(Erase(e1))
    case Neg(e1) => Neg(Erase(e1))
    case Comp(e1) => Comp(Erase(e1))
    case Arith(op, e1, e2) => Arith(op, Erase(e1), Erase(e2))
    case Compare(op, e1, e2) => Compare(op, Erase(e1), Erase(e2))
    case Cond(p, a, b) => Cond(Erase(p), Erase(a), Erase(b))
    case Loop(p, b) => Loop(Erase(p), Erase(b))
    case Let(x, t, i, b) => Let(x, t, Erase(i), Erase(b))
    case TypCase(s, bs) => TypCase(Erase(s), EraseBranches(bs))
    case Dispatch(r, m, es) => Dispatch(Erase(r), m, EraseAll(es))
    case StaticDispatch(r, t, m, es) => StaticDispatch(Erase(r), t, m, EraseAll(es))
  }

  function EraseAll(es: seq<Expr>): seq<Expr>
    decreases es
  {
    seq(|es|, i requires 0 <= i < |es| => Erase(es[i]))
  }

  function EraseBranches(bs: seq<Branch>): seq<Branch>
    decreases bs
  {
    seq(|bs|, i requires 0 <= i < |bs| =>
      var b := bs[i];
      assert bs decreases to b;
      assert b decreases to b.body;
      Branch(b.name, b.typeDecl, Erase(b.body)))
  }

  /** Every node of `e` has a recorded type. */
  predicate Typed(e: Expr)
    decreases e
  {
    e.ty.Some? && TypedKind(e.kind)
  }

  predicate TypedKind(k: ExprKind)
    decreases k
  {
    match k
    case IntConst(_) => true
    case BoolConst(_) => true
    case StringConst(_) => true
    case Ident(_) => true
    case New(_) => true
    case NoExpr => true
    case Assign(_, rhs) => Typed(rhs)
    case Block(es) => AllTyped(es)
    case IsVoid(e1) => Typed(e1)
    case Neg(e1) => Typed(e1)
    case Comp(e1) => Typed(e1)
    case Arith(_, e1, e2) => Typed(e1) && Typed(e2)
    case Compare(_, e1, e2) => Typed(e1) && Typed(e2)
    case Cond(p, a, b) => Typed(p) && Typed(a) && Typed(b)
    case Loop(p, b) => Typed(p) && Typed(b)
    case Let(_, _, i, b) => Typed(i) && Typed(b)
    case TypCase(s, bs) => Typed(s) && BranchesTyped(bs)
    case Dispatch(r, _, es) => Typed(r) && AllTyped(es)
    case StaticDispatch(r, _, _, es) => Typed(r) && AllTyped(es)
  }

  predicate AllTyped(es: seq<Expr>)
    decreases es
  {
    forall i :: 0 <= i < |es| ==> Typed(es[i])
  }

  predicate BranchesTyped(bs: seq<Branch>)
    decreases bs
  {
    forall i :: 0 <= i < |bs| ==>
      var b := bs[i];
      assert bs decreases to b;
      assert b decreases to b.body;
      Typed(b.body)
  }
}
