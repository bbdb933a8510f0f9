/** The checker as it runs: one method per typing rule, each walking its
    subexpressions, recording their types in the returned tree, pushing and
    popping scopes on the symbol table and counting errors on the class
    table. Every method is proved to agree with the rule functions. */
module Checker {
  import opened Symbols
  import opened Syntax
  import opened Inheritance
  import opened Environment
  import opened ClassTables
  import opened TypeRules

  /** Checks `e`: its type, `e` with every node's type recorded, and the
      errors it reports; the scopes are as they were before. */
  method Tc(ct: ClassTable, cls: Symbol, env: SymbolTable, e: Expr) returns (t: Symbol, typed: Expr)
    requires Acyclic(ct.classes)
    modifies ct`semantErrors, env`scopes
    ensures env.scopes == old(env.scopes)
    ensures t == TypeOf(ct.classes, cls, old(env.scopes), e).ty
    ensures typed == TypeOf(ct.classes, cls, old(env.scopes), e).tree
    ensures ct.semantErrors == old(ct.semantErrors) + TypeOf(ct.classes, cls, old(env.scopes), e).errors
    decreases e, 2
  {
    if e.kind.Cond? || e.kind.Loop? || e.kind.Let? || e.kind.TypCase? {
      t, typed := TcControl(ct, cls, env, e);
    } else if e.kind.Dispatch? || e.kind.StaticDispatch? {
      t, typed := TcCall(ct, cls, env, e);
    } else if e.kind.Assign? || e.kind.Block? || e.kind.IsVoid? || e.kind.Neg? || e.kind.Comp? || e.kind.Arith? || e.kind.Compare? {
      t, typed := TcOperator(ct, cls, env, e);
    } else {
      t, typed := TcAtom(ct, cls, env, e);
    }
  }

  /** Constants, `new`, the empty expression and identifiers. */
  method TcAtom(ct: ClassTable, cls: Symbol, env: SymbolTable, e: Expr) returns (t: Symbol, typed: Expr)
    requires Acyclic(ct.classes) && (e.kind.IntConst? || e.kind.BoolConst? || e.kind.StringConst? || e.kind.NoExpr? || e.kind.New? || e.kind.Ident?)
    modifies ct`semantErrors, env`scopes
    ensures env.scopes == old(env.scopes)
    ensures t == TypeOf(ct.classes, cls, old(env.scopes), e).ty
    ensures typed == TypeOf(ct.classes, cls, old(env.scopes), e).tree
    ensures ct.semantErrors == old(ct.semantErrors) + TypeOf(ct.classes, cls, old(env.scopes), e).errors
    decreases e, 1
  {
    ghost var j := TypeOf(ct.classes, cls, env.scopes, e);
    match e.kind
    case IntConst(_) => t, typed := Int, Expr(e.kind, Some(Int));
    case BoolConst(_) => t, typed := Bool, Expr(e.kind, Some(Bool));
    case StringConst(_) => t, typed := Str, Expr(e.kind, Some(Str));
    case NoExpr => t, typed := NoType, Expr(e.kind, Some(NoType));
    case New(tn) => t, typed := tn, Expr(e.kind, Some(tn));
    case Ident(_) =>
      assert j == TypeOfIdent(env.scopes, e);
      t, typed := TcIdent(ct, cls, env, e);
  }

  /** Assignments, blocks and the unary and binary operators. */
  method TcOperator(ct: ClassTable, cls: Symbol, env: SymbolTable, e: Expr) returns (t: Symbol, typed: Expr)
    requires Acyclic(ct.classes) && (e.kind.Assign? || e.kind.Block? || e.kind.IsVoid? || e.kind.Neg? || e.kind.Comp? || e.kind.Arith? || e.kind.Compare?)
    modifies ct`semantErrors, env`scopes
    ensures env.scopes == old(env.scopes)
    ensures t == TypeOf(ct.classes, cls, old(env.scopes), e).ty
    ensures typed == TypeOf(ct.classes, cls, old(env.scopes), e).tree
    ensures ct.semantErrors == old(ct.semantErrors) + TypeOf(ct.classes, cls, old(env.scopes), e).errors
    decreases e, 1
  {
    ghost var j := TypeOf(ct.classes, cls, env.scopes, e);
    if e.kind.Assign? {
      assert j == TypeOfAssign(ct.classes, cls, env.scopes, e);
      t, typed := TcAssign(ct, cls, env, e);
    } else if e.kind.Block? {
      assert j == TypeOfBlock(ct.classes, cls, env.scopes, e);
      t, typed := TcBlock(ct, cls, env, e);
    } else if e.kind.IsVoid? || e.kind.Neg? || e.kind.Comp? {
      assert j == TypeOfUnary(ct.classes, cls, env.scopes, e);
      t, typed := TcUnary(ct, cls, env, e);
    } else {
      assert j == TypeOfBinary(ct.classes, cls, env.scopes, e);
      t, typed := TcBinary(ct, cls, env, e);
    }
  }

  /** Conditionals, loops, lets and cases. */
  method TcControl(ct: ClassTable, cls: Symbol, env: SymbolTable, e: Expr) returns (t: Symbol, typed: Expr)
    requires Acyclic(ct.classes) && (e.kind.Cond? || e.kind.Loop? || e.kind.Let? || e.kind.TypCase?)
    modifies ct`semantErrors, env`scopes
    ensures env.scopes == old(env.scopes)
    ensures t == TypeOf(ct.classes, cls, old(env.scopes), e).ty
    ensures typed == TypeOf(ct.classes, cls, old(env.scopes), e).tree
    ensures ct.semantErrors == old(ct.semantErrors) + TypeOf(ct.classes, cls, old(env.scopes), e).errors
    decreases e, 1
  {
    ghost var j := TypeOf(ct.classes, cls, env.scopes, e);
    if e.kind.Cond? {
      assert j == TypeOfCond(ct.classes, cls, env.scopes, e);
      t, typed := TcCond(ct, cls, env, e);
    } else if e.kind.Loop? {
      assert j == TypeOfLoop(ct.classes, cls, env.scopes, e);
      t, typed := TcLoop(ct, cls, env, e);
    } else if e.kind.Let? {
      assert j == TypeOfLet(ct.classes, cls, env.scopes, e);
      t, typed := TcLet(ct, cls, env, e);
    } else {
      assert j == TypeOfCase(ct.classes, cls, env.scopes, e);
      t, typed := TcCase(ct, cls, env, e);
    }
  }

  /** The two dispatches. */
  method TcCall(ct: ClassTable, cls: Symbol, env: SymbolTable, e: Expr) returns (t: Symbol, typed: Expr)
    requires Acyclic(ct.classes) && (e.kind.Dispatch? || e.kind.StaticDispatch?)
    modifies ct`semantErrors, env`scopes
    ensures env.scopes == old(env.scopes)
    ensures t == TypeOf(ct.classes, cls, old(env.scopes), e).ty
    ensures typed == TypeOf(ct.classes, cls, old(env.scopes), e).tree
    ensures ct.semantErrors == old(ct.semantErrors) + TypeOf(ct.classes, cls, old(env.scopes), e).errors
    decreases e, 1
  {
    ghost var j := TypeOf(ct.classes, cls, env.scopes, e);
    if e.kind.Dispatch? {
      assert j == TypeOfDispatch(ct.classes, cls, env.scopes, e);
      t, typed := TcDispatch(ct, cls, env, e);
    } else {
      assert j == TypeOfStaticDispatch(ct.classes, cls, env.scopes, e);
      t, typed := TcStaticDispatch(ct, cls, env, e);
    }
  }

  /** `self` is SELF_TYPE; another name has its innermost binding, or is
      one error and Object when unbound. */
  method TcIdent(ct: ClassTable, cls: Symbol, env: SymbolTable, e: Expr) returns (t: Symbol, typed: Expr)
    requires Acyclic(ct.classes) && e.kind.Ident?
    modifies ct`semantErrors
    ensures t == TypeOfIdent(env.scopes, e).ty
    ensures typed == TypeOfIdent(env.scopes, e).tree
    ensures ct.semantErrors == old(ct.semantErrors) + TypeOfIdent(env.scopes, e).errors
  {
    var x := e.kind.name;
    if x == Self {
      return SelfType, Expr(e.kind, Some(SelfType));
    }
    var found := env.Lookup(x);
    if found.None? {
      ct.SemantError();
      return Object, Expr(e.kind, Some(Object));
    }
    return found.value, Expr(e.kind, Some(found.value));
  }

  method TcAssign(ct: ClassTable, cls: Symbol, env: SymbolTable, e: Expr) returns (t: Symbol, typed: Expr)
    requires Acyclic(ct.classes) && e.kind.Assign?
    modifies ct`semantErrors, env`scopes
    ensures env.scopes == old(env.scopes)
    ensures t == TypeOfAssign(ct.classes, cls, old(env.scopes), e).ty
    ensures typed == TypeOfAssign(ct.classes, cls, old(env.scopes), e).tree
    ensures ct.semantErrors == old(ct.semantErrors) + TypeOfAssign(ct.classes, cls, old(env.scopes), e).errors
    decreases e, 0
  {
    var x := e.kind.name;
    if x == Self {
      ct.SemantError();
      var _, rhs := Tc(ct, cls, env, e.kind.rhs);
      return Object, Expr(Assign(x, rhs), Some(Object));
    }
    var t1, rhs := Tc(ct, cls, env, e.kind.rhs);
    var k := Assign(x, rhs);
    var found := env.Lookup(x);
    if found.None? {
      ct.SemantError();
      return t1, Expr(k, Some(t1));
    }
    var t0 := found.value;
    if t0 == SelfType {
      if t1 != SelfType && t1 != NoType {
        ct.SemantError();
      }
    } else if t1 != NoType {
      var t1Cmp := if t1 == SelfType then cls else t1;
      var ok := ct.Conforms(t1Cmp, t0);
      if !ok {
        ct.SemantError();
      }
    }
    return t1, Expr(k, Some(t1));
  }

  /** The expressions of a block in order; the last one's type, or Object
      for an empty block. */
  method TcBlock(ct: ClassTable, cls: Symbol, env: SymbolTable, e: Expr) returns (t: Symbol, typed: Expr)
    requires Acyclic(ct.classes) && e.kind.Block?
    modifies ct`semantErrors, env`scopes
    ensures env.scopes == old(env.scopes)
    ensures t == TypeOfBlock(ct.classes, cls, old(env.scopes), e).ty
    ensures typed == TypeOfBlock(ct.classes, cls, old(env.scopes), e).tree
    ensures ct.semantErrors == old(ct.semantErrors) + TypeOfBlock(ct.classes, cls, old(env.scopes), e).errors
    decreases e, 0
  {
    var types, trees := TcSeq(ct, cls, env, e.kind.exprs);
    t := if types == [] then Object else types[|types| - 1];
    return t, Expr(Block(trees), Some(t));
  }

  /** A list of expressions in order: their types and checked trees. */
  method TcSeq(ct: ClassTable, cls: Symbol, env: SymbolTable, es: seq<Expr>) returns (types: seq<Symbol>, trees: seq<Expr>)
    requires Acyclic(ct.classes)
    modifies ct`semantErrors, env`scopes
    ensures env.scopes == old(env.scopes)
    ensures types == TypeOfSeq(ct.classes, cls, old(env.scopes), es).types
    ensures trees == TypeOfSeq(ct.classes, cls, old(env.scopes), es).trees
    ensures ct.semantErrors == old(ct.semantErrors) + TypeOfSeq(ct.classes, cls, old(env.scopes), es).errors
    decreases es, 0
  {
    ghost var scopes := env.scopes;
    types, trees := [], [];
    for i := 0 to |es|
      invariant env.scopes == scopes
      invariant types == TypeOfSeq(ct.classes, cls, scopes, es[..i]).types
      invariant trees == TypeOfSeq(ct.classes, cls, scopes, es[..i]).trees
      invariant ct.semantErrors == old(ct.semantErrors) + TypeOfSeq(ct.classes, cls, scopes, es[..i]).errors
    {
      assert es[..i + 1][..i] == es[..i];
      var t, tree := Tc(ct, cls, env, es[i]);
      types, trees := types + [t], trees + [tree];
    }
    assert es[..|es|] == es;
  }

  /** `isvoid`, `~` and `not`: the operand is checked, the type is fixed. */
  method TcUnary(ct: ClassTable, cls: Symbol, env: SymbolTable, e: Expr) returns (t: Symbol, typed: Expr)
    requires Acyclic(ct.classes) && (e.kind.IsVoid? || e.kind.Neg? || e.kind.Comp?)
    modifies ct`semantErrors, env`scopes
    ensures env.scopes == old(env.scopes)
    ensures t == TypeOfUnary(ct.classes, cls, old(env.scopes), e).ty
    ensures typed == TypeOfUnary(ct.classes, cls, old(env.scopes), e).tree
    ensures ct.semantErrors == old(ct.semantErrors) + TypeOfUnary(ct.classes, cls, old(env.scopes), e).errors
    decreases e, 0
  {
    var _, e1 := Tc(ct, cls, env, e.kind.e1);
    if e.kind.IsVoid? {
      return Bool, Expr(IsVoid(e1), Some(Bool));
    } else if e.kind.Neg? {
      return Int, Expr(Neg(e1), Some(Int));
    } else {
      return Bool, Expr(Comp(e1), Some(Bool));
    }
  }

  /** Arithmetic is Int and comparison is Bool; the operands are checked
      and not compared with anything. */
  method TcBinary(ct: ClassTable, cls: Symbol, env: SymbolTable, e: Expr) returns (t: Symbol, typed: Expr)
    requires Acyclic(ct.classes) && (e.kind.Arith? || e.kind.Compare?)
    modifies ct`semantErrors, env`scopes
    ensures env.scopes == old(env.scopes)
    ensures t == TypeOfBinary(ct.classes, cls, old(env.scopes), e).ty
    ensures typed == TypeOfBinary(ct.classes, cls, old(env.scopes), e).tree
    ensures ct.semantErrors == old(ct.semantErrors) + TypeOfBinary(ct.classes, cls, old(env.scopes), e).errors
    decreases e, 0
  {
    var _, e1 := Tc(ct, cls, env, e.kind.e1);
    var _, e2 := Tc(ct, cls, env, e.kind.e2);
    if e.kind.Arith? {
      return Int, Expr(Arith(e.kind.arith, e1, e2), Some(Int));
    } else {
      return Bool, Expr(Compare(e.kind.compare, e1, e2), Some(Bool));
    }
  }

  method TcCond(ct: ClassTable, cls: Symbol, env: SymbolTable, e: Expr) returns (t: Symbol, typed: Expr)
    requires Acyclic(ct.classes) && e.kind.Cond?
    modifies ct`semantErrors, env`scopes
    ensures env.scopes == old(env.scopes)
    ensures t == TypeOfCond(ct.classes, cls, old(env.scopes), e).ty
    ensures typed == TypeOfCond(ct.classes, cls, old(env.scopes), e).tree
    ensures ct.semantErrors == old(ct.semantErrors) + TypeOfCond(ct.classes, cls, old(env.scopes), e).errors
    decreases e, 0
  {
    var p, pred := Tc(ct, cls, env, e.kind.pred);
    if p != Bool {
      ct.SemantError();
    }
    var tThen, thenExp := Tc(ct, cls, env, e.kind.thenExp);
    var tElse, elseExp := Tc(ct, cls, env, e.kind.elseExp);
    t := JoinBranches(ct, cls, tThen, tElse);
    return t, Expr(Cond(pred, thenExp, elseExp), Some(t));
  }

  /** The type of a conditional from the types of its two branches. */
  method JoinBranches(ct: ClassTable, cls: Symbol, tThen: Symbol, tElse: Symbol) returns (t: Symbol)
    requires Acyclic(ct.classes)
    ensures t == CondType(ct.classes, cls, tThen, tElse)
  {
    var thenCmp := if tThen == SelfType then cls else tThen;
    var elseCmp := if tElse == SelfType then cls else tElse;
    t := ct.Lub(thenCmp, elseCmp);
    if tThen == SelfType && tElse == SelfType {
      t := SelfType;
    }
  }

  /** A loop is Object; its predicate is checked but not held to Bool. */
  method TcLoop(ct: ClassTable, cls: Symbol, env: SymbolTable, e: Expr) returns (t: Symbol, typed: Expr)
    requires Acyclic(ct.classes) && e.kind.Loop?
    modifies ct`semantErrors, env`scopes
    ensures env.scopes == old(env.scopes)
    ensures t == TypeOfLoop(ct.classes, cls, old(env.scopes), e).ty
    ensures typed == TypeOfLoop(ct.classes, cls, old(env.scopes), e).tree
    ensures ct.semantErrors == old(ct.semantErrors) + TypeOfLoop(ct.classes, cls, old(env.scopes), e).errors
    decreases e, 0
  {
    var _, pred := Tc(ct, cls, env, e.kind.pred);
    var _, body := Tc(ct, cls, env, e.kind.body);
    return Object, Expr(Loop(pred, body), Some(Object));
  }

  /** The initialiser is checked in the outer scopes; the body in a new
      scope binding the variable, which is popped afterwards. */
  method TcLet(ct: ClassTable, cls: Symbol, env: SymbolTable, e: Expr) returns (t: Symbol, typed: Expr)
    requires Acyclic(ct.classes) && e.kind.Let?
    modifies ct`semantErrors, env`scopes
    ensures env.scopes == old(env.scopes)
    ensures t == TypeOfLet(ct.classes, cls, old(env.scopes), e).ty
    ensures typed == TypeOfLet(ct.classes, cls, old(env.scopes), e).tree
    ensures ct.semantErrors == old(ct.semantErrors) + TypeOfLet(ct.classes, cls, old(env.scopes), e).errors
    decreases e, 0
  {
    var x, declared := e.kind.identifier, e.kind.typeDecl;
    var initType, init := Tc(ct, cls, env, e.kind.init);
    if initType != NoType {
      var ok := ct.Conforms(initType, declared);
      if !ok {
        ct.SemantError();
      }
    }
    var bodyType, body := TcInScope(ct, cls, env, x, declared, e.kind.body);
    return bodyType, Expr(Let(x, declared, init, body), Some(bodyType));
  }

  /** Checks `body` in a new scope binding `x : declared`, popped afterwards. */
  method TcInScope(ct: ClassTable, cls: Symbol, env: SymbolTable, x: Symbol, declared: Symbol, body: Expr)
    returns (t: Symbol, typed: Expr)
    requires Acyclic(ct.classes)
    modifies ct`semantErrors, env`scopes
    ensures env.scopes == old(env.scopes)
    ensures t == TypeOf(ct.classes, cls, Bind(old(env.scopes), x, declared), body).ty
    ensures typed == TypeOf(ct.classes, cls, Bind(old(env.scopes), x, declared), body).tree
    ensures ct.semantErrors == old(ct.semantErrors) + TypeOf(ct.classes, cls, Bind(old(env.scopes), x, declared), body).errors
    decreases body, 3
  {
    env.EnterScope();
    env.AddId(x, declared);
    assert env.scopes == Bind(old(env.scopes), x, declared);
    t, typed := Tc(ct, cls, env, body);
    env.ExitScope();
  }

  /** The scrutinee, then each branch in order; the result is SELF_TYPE
      when every branch, and so an empty list of branches, has type
      SELF_TYPE, else the running join, else Object. */
  method TcCase(ct: ClassTable, cls: Symbol, env: SymbolTable, e: Expr) returns (t: Symbol, typed: Expr)
    requires Acyclic(ct.classes) && e.kind.TypCase?
    modifies ct`semantErrors, env`scopes
    ensures env.scopes == old(env.scopes)
    ensures t == TypeOfCase(ct.classes, cls, old(env.scopes), e).ty
    ensures typed == TypeOfCase(ct.classes, cls, old(env.scopes), e).tree
    ensures ct.semantErrors == old(ct.semantErrors) + TypeOfCase(ct.classes, cls, old(env.scopes), e).errors
    decreases e, 0
  {
    var _, scrutinee := Tc(ct, cls, env, e.kind.scrutinee);
    var st := TcBranches(ct, cls, env, e.kind.cases);
    t := CaseResult(st);
    return t, Expr(TypCase(scrutinee, st.branches), Some(t));
  }

  /** The walk over the branches of a case, left to right. */
  method TcBranches(ct: ClassTable, cls: Symbol, env: SymbolTable, bs: seq<Branch>) returns (st: CaseState)
    requires Acyclic(ct.classes)
    modifies ct`semantErrors, env`scopes
    ensures env.scopes == old(env.scopes)
    ensures st == CaseFold(ct.classes, cls, old(env.scopes), bs)
    ensures ct.semantErrors == old(ct.semantErrors) + st.errors
    decreases bs, 1
  {
    ghost var scopes := env.scopes;
    st := CaseState(NoType, {}, true, [], [], 0, 0);
    for i := 0 to |bs|
      invariant env.scopes == scopes
      invariant st == CaseFold(ct.classes, cls, scopes, bs[..i])
      invariant ct.semantErrors == old(ct.semantErrors) + st.errors
    {
      CaseFoldPrefix(ct.classes, cls, scopes, bs, i);
      st := TcBranch(ct, cls, env, st, bs[i]);
    }
    assert bs[..|bs|] == bs;
  }

  /** One branch: the duplicate check, the body in a scope binding the
      branch variable, and the running join. */
  method TcBranch(ct: ClassTable, cls: Symbol, env: SymbolTable, p: CaseState, b: Branch) returns (st: CaseState)
    requires Acyclic(ct.classes)
    modifies ct`semantErrors, env`scopes
    ensures env.scopes == old(env.scopes)
    ensures st == CaseStep(ct.classes, cls, old(env.scopes), p, b)
    ensures ct.semantErrors + p.errors == old(ct.semantErrors) + st.errors
    decreases b, 0
  {
    var dup := CheckDuplicate(ct, p.seen, b.typeDecl);
    var before := ct.semantErrors;
    var ty, body := TcInScope(ct, cls, env, b.name, b.typeDecl, b.body);
    var result := JoinCase(ct, cls, p.result, ty);
    st := CaseState(result, p.seen + {b.typeDecl}, p.allSelf && ty == SelfType,
                    p.branches + [Branch(b.name, b.typeDecl, body)], p.types + [ty],
                    p.duplicates + dup, p.errors + dup + (ct.semantErrors - before));
  }

  /** A branch type already seen is one error. */
  method CheckDuplicate(ct: ClassTable, seen: set<Symbol>, typeDecl: Symbol) returns (dup: nat)
    modifies ct`semantErrors
    ensures dup == Flag(typeDecl in seen)
    ensures ct.semantErrors == old(ct.semantErrors) + dup
  {
    dup := 0;
    if typeDecl in seen {
      ct.SemantError();
      dup := 1;
    }
  }

  /** The running result of a case after a branch body of type `ty`. */
  method JoinCase(ct: ClassTable, cls: Symbol, result: Symbol, ty: Symbol) returns (r: Symbol)
    requires Acyclic(ct.classes)
    ensures r == CaseJoin(ct.classes, cls, result, ty)
  {
    var tCmp := if ty == SelfType then cls else ty;
    if result == NoType {
      return tCmp;
    }
    var resCmp := if result == SelfType then cls else result;
    r := ct.Lub(resCmp, tCmp);
  }

  /** The per-argument checks of a dynamic dispatch, one error per failure. */
  method CheckDynamicArgs(ct: ClassTable, cls: Symbol, formals: seq<Formal>, given: seq<Symbol>)
    requires Acyclic(ct.classes) && |formals| == |given|
    modifies ct`semantErrors
    ensures ct.semantErrors == old(ct.semantErrors) + DynamicArgErrors(ct.classes, cls, formals, given)
  {
    for k := 0 to |formals|
      invariant ct.semantErrors == old(ct.semantErrors) + DynamicArgErrors(ct.classes, cls, formals[..k], given[..k])
    {
      assert formals[..k + 1][..k] == formals[..k] && given[..k + 1][..k] == given[..k];
      var declared, actual := formals[k].typeDecl, given[k];
      if declared == SelfType {
        if actual != SelfType {
          ct.SemantError();
        }
      } else {
        var actualCmp := if actual == SelfType then cls else actual;
        var ok := ct.Conforms(actualCmp, declared);
        if !ok {
          ct.SemantError();
        }
      }
    }
    assert formals[..|formals|] == formals && given[..|given|] == given;
  }

  /** The per-argument checks of a static dispatch to `target`. */
  method CheckStaticArgs(ct: ClassTable, cls: Symbol, target: Symbol, formals: seq<Formal>, given: seq<Symbol>)
    requires Acyclic(ct.classes) && |formals| == |given|
    modifies ct`semantErrors
    ensures ct.semantErrors == old(ct.semantErrors) + StaticArgErrors(ct.classes, cls, target, formals, given)
  {
    for k := 0 to |formals|
      invariant ct.semantErrors == old(ct.semantErrors) + StaticArgErrors(ct.classes, cls, target, formals[..k], given[..k])
    {
      assert formals[..k + 1][..k] == formals[..k] && given[..k + 1][..k] == given[..k];
      var declared, actual := formals[k].typeDecl, given[k];
      var actualCmp := if actual == SelfType then cls else actual;
      var declaredCmp := if declared == SelfType then target else declared;
      var ok := ct.Conforms(actualCmp, declaredCmp);
      if !ok {
        ct.SemantError();
      }
    }
    assert formals[..|formals|] == formals && given[..|given|] == given;
  }

  /** A dispatch: the receiver, the actuals, then the call. */
  method TcDispatch(ct: ClassTable, cls: Symbol, env: SymbolTable, e: Expr) returns (t: Symbol, typed: Expr)
    requires Acyclic(ct.classes) && e.kind.Dispatch?
    modifies ct`semantErrors, env`scopes
    ensures env.scopes == old(env.scopes)
    ensures t == TypeOfDispatch(ct.classes, cls, old(env.scopes), e).ty
    ensures typed == TypeOfDispatch(ct.classes, cls, old(env.scopes), e).tree
    ensures ct.semantErrors == old(ct.semantErrors) + TypeOfDispatch(ct.classes, cls, old(env.scopes), e).errors
    decreases e, 0
  {
    var recvType, receiver := Tc(ct, cls, env, e.kind.receiver);
    var types, actuals := TcSeq(ct, cls, env, e.kind.actuals);
    t := CallDynamic(ct, cls, recvType, e.kind.name, types);
    return t, Expr(Dispatch(receiver, e.kind.name, actuals), Some(t));
  }

  /** The lookup and argument checks of a dynamic call. */
  method CallDynamic(ct: ClassTable, cls: Symbol, recvType: Symbol, name: Symbol, types: seq<Symbol>) returns (t: Symbol)
    requires Acyclic(ct.classes)
    modifies ct`semantErrors
    ensures t == DynamicCall(ct.classes, cls, recvType, name, types).ty
    ensures ct.semantErrors == old(ct.semantErrors) + DynamicCall(ct.classes, cls, recvType, name, types).errors
  {
    var dispatchClass := if recvType == SelfType then cls else recvType;
    var m := ct.LookupMethod(dispatchClass, name);
    ghost var call := DynamicCall(ct.classes, cls, recvType, name, types);
    if m.None? {
      assert call == CallJudgement(Object, 1);
      ct.SemantError();
      return Object;
    }
    var formals := m.value.formals;
    assert call.errors == DynamicCallErrors(ct.classes, cls, formals, types);
    if |types| != |formals| {
      ct.SemantError();
    } else {
      CheckDynamicArgs(ct, cls, formals, types);
    }
    var receiverStatic := if recvType == NoType then SelfType else recvType;
    t := m.value.returnType;
    if t == SelfType {
      t := receiverStatic;
    }
  }

  /** A static dispatch: the receiver and its conformance to the named
      class, the actuals, then the call. */
  method TcStaticDispatch(ct: ClassTable, cls: Symbol, env: SymbolTable, e: Expr) returns (t: Symbol, typed: Expr)
    requires Acyclic(ct.classes) && e.kind.StaticDispatch?
    modifies ct`semantErrors, env`scopes
    ensures env.scopes == old(env.scopes)
    ensures t == TypeOfStaticDispatch(ct.classes, cls, old(env.scopes), e).ty
    ensures typed == TypeOfStaticDispatch(ct.classes, cls, old(env.scopes), e).tree
    ensures ct.semantErrors == old(ct.semantErrors) + TypeOfStaticDispatch(ct.classes, cls, old(env.scopes), e).errors
    decreases e, 0
  {
    var recvType, receiver := Tc(ct, cls, env, e.kind.receiver);
    var typeName := e.kind.typeName;
    var recvLookup := if recvType == SelfType then cls else recvType;
    var targetCmp := if typeName == SelfType then cls else typeName;
    var conforms := ct.Conforms(recvLookup, targetCmp);
    if !conforms {
      ct.SemantError();
    }
    var types, actuals := TcSeq(ct, cls, env, e.kind.actuals);
    t := CallStatic(ct, cls, typeName, e.kind.name, types);
    return t, Expr(StaticDispatch(receiver, typeName, e.kind.name, actuals), Some(t));
  }

  /** The lookup in the named class and the argument checks of a static call. */
  method CallStatic(ct: ClassTable, cls: Symbol, typeName: Symbol, name: Symbol, types: seq<Symbol>) returns (t: Symbol)
    requires Acyclic(ct.classes)
    modifies ct`semantErrors
    ensures t == StaticCall(ct.classes, cls, typeName, name, types).ty
    ensures ct.semantErrors == old(ct.semantErrors) + StaticCall(ct.classes, cls, typeName, name, types).errors
  {
    var targetCmp := if typeName == SelfType then cls else typeName;
    assert targetCmp == Normalize(typeName, cls);
    var m := ct.LookupMethod(targetCmp, name);
    if m.None? {
      ct.SemantError();
      return Object;
    }
    var formals := m.value.formals;
    if |types| != |formals| {
      ct.SemantError();
    } else {
      CheckStaticArgs(ct, cls, targetCmp, formals, types);
    }
    t := m.value.returnType;
    if t == SelfType {
      t := typeName;
    }
  }

  // ------------------------------------------------------------ classes

  /** `add_class_attrs_to_env`: binds each attribute `c` itself declares in
      the innermost scope, in order. */
  method AddClassAttrs(env: SymbolTable, fs: seq<Feature>)
    requires |env.scopes| > 0
    modifies env`scopes
    ensures env.scopes == [AttrBindings(old(env.scopes)[0], fs)] + old(env.scopes)[1..]
  {
    for i := 0 to |fs|
      invariant env.scopes == [AttrBindings(old(env.scopes)[0], fs[..i])] + old(env.scopes)[1..]
    {
      assert fs[..i + 1][..i] == fs[..i];
      if fs[i].Attr? {
        env.AddId(fs[i].name, fs[i].typeDecl);
      }
    }
    assert fs[..|fs|] == fs;
  }

  /** Binds each formal in the innermost scope, in order. */
  method AddFormals(env: SymbolTable, formals: seq<Formal>)
    requires |env.scopes| > 0
    modifies env`scopes
    ensures env.scopes == [FormalBindings(old(env.scopes)[0], formals)] + old(env.scopes)[1..]
  {
    for i := 0 to |formals|
      invariant env.scopes == [FormalBindings(old(env.scopes)[0], formals[..i])] + old(env.scopes)[1..]
    {
      assert formals[..i + 1][..i] == formals[..i];
      env.AddId(formals[i].name, formals[i].typeDecl);
    }
    assert formals[..|formals|] == formals;
  }

  /** An attribute's initialiser, checked in the class scope alone. */
  method TcAttr(ct: ClassTable, cls: Symbol, env: SymbolTable, f: Feature) returns (g: Feature)
    requires Acyclic(ct.classes) && |env.scopes| == 1
    modifies ct`semantErrors, env`scopes
    ensures env.scopes == old(env.scopes)
    ensures g == CheckAttr(ct.classes, cls, old(env.scopes)[0], f).feature
    ensures ct.semantErrors == old(ct.semantErrors) + CheckAttr(ct.classes, cls, old(env.scopes)[0], f).errors
  {
    if !f.Attr? {
      return f;
    }
    assert env.scopes == [env.scopes[0]];
    var _, init := Tc(ct, cls, env, f.init);
    g := Attr(f.name, f.typeDecl, init);
  }

  /** A method's body, checked with its formals in a scope of their own,
      and its type held against the declared return type. */
  method TcMethod(ct: ClassTable, cls: Symbol, env: SymbolTable, f: Feature) returns (g: Feature)
    requires Acyclic(ct.classes) && |env.scopes| == 1
    modifies ct`semantErrors, env`scopes
    ensures env.scopes == old(env.scopes)
    ensures g == CheckMethod(ct.classes, cls, old(env.scopes)[0], f).feature
    ensures ct.semantErrors == old(ct.semantErrors) + CheckMethod(ct.classes, cls, old(env.scopes)[0], f).errors
  {
    if !f.Method? {
      return f;
    }
    env.EnterScope();
    AddFormals(env, f.formals);
    assert env.scopes == [FormalBindings(map[], f.formals), old(env.scopes)[0]];
    var inferred, body := Tc(ct, cls, env, f.body);
    var inferredCmp := if inferred == SelfType then cls else inferred;
    var declaredCmp := if f.returnType == SelfType then cls else f.returnType;
    var ok := ct.Conforms(inferredCmp, declaredCmp);
    if !ok {
      ct.SemantError();
    }
    env.ExitScope();
    g := Method(f.name, f.formals, f.returnType, body);
  }

  /** The first pass over a class's features: every attribute initialiser. */
  method TcAttrs(ct: ClassTable, cls: Symbol, env: SymbolTable, fs: seq<Feature>) returns (checked: seq<Feature>)
    requires Acyclic(ct.classes) && |env.scopes| == 1
    modifies ct`semantErrors, env`scopes
    ensures env.scopes == old(env.scopes)
    ensures checked == AttrPass(ct.classes, cls, old(env.scopes)[0], fs).features
    ensures ct.semantErrors == old(ct.semantErrors) + AttrPass(ct.classes, cls, old(env.scopes)[0], fs).errors
  {
    ghost var scopes := env.scopes;
    checked := [];
    for i := 0 to |fs|
      invariant env.scopes == scopes
      invariant checked == AttrPass(ct.classes, cls, scopes[0], fs[..i]).features
      invariant ct.semantErrors == old(ct.semantErrors) + AttrPass(ct.classes, cls, scopes[0], fs[..i]).errors
    {
      assert fs[..i + 1][..i] == fs[..i];
      var g := TcAttr(ct, cls, env, fs[i]);
      checked := checked + [g];
    }
    assert fs[..|fs|] == fs;
  }

  /** The second pass over a class's features: every method body. */
  method TcMethods(ct: ClassTable, cls: Symbol, env: SymbolTable, fs: seq<Feature>) returns (checked: seq<Feature>)
    requires Acyclic(ct.classes) && |env.scopes| == 1
    modifies ct`semantErrors, env`scopes
    ensures env.scopes == old(env.scopes)
    ensures checked == MethodPass(ct.classes, cls, old(env.scopes)[0], fs).features
    ensures ct.semantErrors == old(ct.semantErrors) + MethodPass(ct.classes, cls, old(env.scopes)[0], fs).errors
  {
    ghost var scopes := env.scopes;
    checked := [];
    for i := 0 to |fs|
      invariant env.scopes == scopes
      invariant checked == MethodPass(ct.classes, cls, scopes[0], fs[..i]).features
      invariant ct.semantErrors == old(ct.semantErrors) + MethodPass(ct.classes, cls, scopes[0], fs[..i]).errors
    {
      assert fs[..i + 1][..i] == fs[..i];
      var g := TcMethod(ct, cls, env, fs[i]);
      checked := checked + [g];
    }
    assert fs[..|fs|] == fs;
  }

  /** One class: a fresh symbol table with `self : SELF_TYPE` and the
      class's own attributes in one scope, then the two passes. */
  method SemantClass(ct: ClassTable, c: ClassDecl) returns (checked: ClassDecl)
    requires Acyclic(ct.classes)
    modifies ct`semantErrors
    ensures checked == CheckClass(ct.classes, c).checked
    ensures ct.semantErrors == old(ct.semantErrors) + CheckClass(ct.classes, c).errors
  {
    var env := new SymbolTable();
    env.EnterScope();
    env.AddId(Self, SelfType);
    AddClassAttrs(env, c.features);
    assert env.scopes == [ClassScope(c)];
    var attrs := TcAttrs(ct, c.name, env, c.features);
    var features := TcMethods(ct, c.name, env, attrs);
    env.ExitScope();
    checked := ClassDecl(c.name, c.parent, features, c.filename);
  }

  /** `program_class::semant`: the class table over the built-ins and the
      program's classes, then each program class in order, stopping after
      the first class that leaves the error count above zero. The
      inheritance graph must be free of cycles. */
  method Semant(program: seq<ClassDecl>) returns (checked: seq<ClassDecl>, errors: nat)
    requires Acyclic(BasicClasses() + program)
    ensures Outcome(checked, errors) == CheckProgram(BasicClasses() + program, program)
  {
    var ct := new ClassTable(program);
    checked := [];
    for i := 0 to |program|
      invariant ct.semantErrors == 0
      invariant Outcome(checked, 0) == CheckProgram(ct.classes, program[..i])
    {
      assert program[..i + 1][..i] == program[..i];
      var c := SemantClass(ct, program[i]);
      checked := checked + [c];
      if ct.semantErrors > 0 {
        HaltIsFinal(ct.classes, program, i + 1);
        return checked, ct.semantErrors;
      }
    }
    assert program[..|program|] == program;
    return checked, 0;
  }
}
