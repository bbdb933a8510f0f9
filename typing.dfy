/** The static type rules as functions: for an expression, the type the
    checker gives it, the same expression with every node's type recorded,
    and the number of errors reported on the way. The checker's methods are
    proved against these functions. */
module TypeRules {
  import opened Symbols
  import opened Syntax
  import opened Inheritance
  import opened Environment

  /** The outcome of checking one expression. */
  datatype Judgement = Judgement(ty: Symbol, tree: Expr, errors: nat)

  /** The outcome of checking a list of expressions left to right. */
  datatype Judgements = Judgements(types: seq<Symbol>, trees: seq<Expr>, errors: nat)

  /** The state of the walk over a case's branches: the running result type,
      the branch types seen so far, whether every branch body so far has type
      SELF_TYPE, the checked branches, their body types, how many duplicate
      branch types were reported, and the errors reported in all. */
  datatype CaseState = CaseState(
    result: Symbol, seen: set<Symbol>, allSelf: bool,
    branches: seq<Branch>, types: seq<Symbol>, duplicates: nat, errors: nat)

  /** One error when `failed`, none otherwise. */
  function Flag(failed: bool): nat
  {
    if failed then 1 else 0
  }

  /** The node of kind `k` with type `t` recorded on it. */
  function Annotate(k: ExprKind, t: Symbol, errors: nat): Judgement
  {
    Judgement(t, Expr(k, Some(t)), errors)
  }

  /** A target declared SELF_TYPE takes only SELF_TYPE or the bottom type;
      any other target takes the bottom type or a value whose type, with
      SELF_TYPE read as the current class, conforms to it. */
  predicate AssignOk(cs: seq<ClassDecl>, cls: Symbol, declared: Symbol, given: Symbol)
    requires Acyclic(cs)
  {
    if declared == SelfType then given == SelfType || given == NoType
    else given == NoType || ConformsTo(cs, Normalize(given, cls), declared)
  }

  /** A let initialiser of the bottom type is accepted; any other must
      conform to the declared type as it stands, SELF_TYPE included. */
  predicate LetInitOk(cs: seq<ClassDecl>, given: Symbol, declared: Symbol)
    requires Acyclic(cs)
  {
    given == NoType || ConformsTo(cs, given, declared)
  }

  /** The type of a conditional: SELF_TYPE when both branches have it,
      else the join of the two branch types with SELF_TYPE read as the
      current class. */
  function CondType(cs: seq<ClassDecl>, cls: Symbol, thenTy: Symbol, elseTy: Symbol): Symbol
    requires Acyclic(cs)
  {
    if thenTy == SelfType && elseTy == SelfType then SelfType
    else Join(cs, Normalize(thenTy, cls), Normalize(elseTy, cls))
  }

  /** The last type of a list, or `default` for an empty one. */
  function LastOr(ts: seq<Symbol>, default: Symbol): Symbol
  {
    if ts == [] then default else ts[|ts| - 1]
  }

  /** The result of a case once every branch is walked. */
  function CaseResult(st: CaseState): Symbol
  {
    if st.allSelf then SelfType
    else if st.result == NoType then Object
    else st.result
  }

  /** A dynamic-dispatch argument check: a formal declared SELF_TYPE takes
      only an actual of type SELF_TYPE; any other formal takes an actual
      whose type, with SELF_TYPE read as the current class, conforms to it. */
  predicate DynamicArgOk(cs: seq<ClassDecl>, cls: Symbol, declared: Symbol, given: Symbol)
    requires Acyclic(cs)
  {
    if declared == SelfType then given == SelfType
    else ConformsTo(cs, Normalize(given, cls), declared)
  }

  /** A static-dispatch argument check: the formal's SELF_TYPE is read as
      the dispatch target, the actual's as the current class. */
  predicate StaticArgOk(cs: seq<ClassDecl>, cls: Symbol, target: Symbol, declared: Symbol, given: Symbol)
    requires Acyclic(cs)
  {
    ConformsTo(cs, Normalize(given, cls), if declared == SelfType then target else declared)
  }

  /** The errors of the per-argument checks of a dynamic dispatch. */
  function DynamicArgErrors(cs: seq<ClassDecl>, cls: Symbol, formals: seq<Formal>, given: seq<Symbol>): nat
    requires Acyclic(cs) && |formals| == |given|
  {
    if formals == [] then 0
    else
      var n := |formals| - 1;
      DynamicArgErrors(cs, cls, formals[..n], given[..n]) + Flag(!DynamicArgOk(cs, cls, formals[n].typeDecl, given[n]))
  }

  /** The errors of the per-argument checks of a static dispatch to `target`. */
  function StaticArgErrors(cs: seq<ClassDecl>, cls: Symbol, target: Symbol, formals: seq<Formal>, given: seq<Symbol>): nat
    requires Acyclic(cs) && |formals| == |given|
  {
    if formals == [] then 0
    else
      var n := |formals| - 1;
      StaticArgErrors(cs, cls, target, formals[..n], given[..n]) + Flag(!StaticArgOk(cs, cls, target, formals[n].typeDecl, given[n]))
  }

  /** A wrong number of actuals is one error and no argument is checked. */
  function DynamicCallErrors(cs: seq<ClassDecl>, cls: Symbol, formals: seq<Formal>, given: seq<Symbol>): nat
    requires Acyclic(cs)
  {
    if |given| != |formals| then 1 else DynamicArgErrors(cs, cls, formals, given)
  }

  function StaticCallErrors(cs: seq<ClassDecl>, cls: Symbol, target: Symbol, formals: seq<Formal>, given: seq<Symbol>): nat
    requires Acyclic(cs)
  {
    if |given| != |formals| then 1 else StaticArgErrors(cs, cls, target, formals, given)
  }

  /** The type of a dynamic dispatch to a method declared to return `ret`:
      a SELF_TYPE return becomes the receiver's type, the bottom type of an
      absent receiver becoming SELF_TYPE. */
  function DispatchType(ret: Symbol, receiver: Symbol): Symbol
  {
    if ret != SelfType then ret
    else if receiver == NoType then SelfType
    else receiver
  }

  /** The type of `e` in class `cls` under the scopes `env`, `e` with every
      node annotated, and the number of errors reported. Constants, `new`
      and the empty expression are typed here; every other kind of node by
      its own rule below. */
  function TypeOf(cs: seq<ClassDecl>, cls: Symbol, env: Scopes, e: Expr): (j: Judgement)
    requires Acyclic(cs)
    decreases e, 1
  {
    match e.kind
    case IntConst(_) => Annotate(e.kind, Int, 0)
    case BoolConst(_) => Annotate(e.kind, Bool, 0)
    case StringConst(_) => Annotate(e.kind, Str, 0)
    case NoExpr => Annotate(e.kind, NoType, 0)
    case New(t) => Annotate(e.kind, t, 0)
    case Ident(_) => TypeOfIdent(env, e)
    case Assign(_, _) => TypeOfAssign(cs, cls, env, e)
    case Block(_) => TypeOfBlock(cs, cls, env, e)
    case IsVoid(_) => TypeOfUnary(cs, cls, env, e)
    case Neg(_) => TypeOfUnary(cs, cls, env, e)
    case Comp(_) => TypeOfUnary(cs, cls, env, e)
    case Arith(_, _, _) => TypeOfBinary(cs, cls, env, e)
    case Compare(_, _, _) => TypeOfBinary(cs, cls, env, e)
    case Cond(_, _, _) => TypeOfCond(cs, cls, env, e)
    case Loop(_, _) => TypeOfLoop(cs, cls, env, e)
    case Let(_, _, _, _) => TypeOfLet(cs, cls, env, e)
    case TypCase(_, _) => TypeOfCase(cs, cls, env, e)
    case Dispatch(_, _, _) => TypeOfDispatch(cs, cls, env, e)
    case StaticDispatch(_, _, _, _) => TypeOfStaticDispatch(cs, cls, env, e)
  }

  /** `self` is SELF_TYPE; another name has its innermost binding, or is
      one error and Object when no scope binds it. */
  function TypeOfIdent(env: Scopes, e: Expr): Judgement
    requires e.kind.Ident?
  {
    var x := e.kind.name;
    if x == Self then Annotate(e.kind, SelfType, 0)
    else
      match LookupIn(env, x)
      case None => Annotate(e.kind, Object, 1)
      case Some(t) => Annotate(e.kind, t, 0)
  }

  /** An assignment has the type of its right-hand side; assigning to
      `self` is an error typed Object, an unbound name is an error, and a
      bound one takes the checks of `AssignOk`. */
  function TypeOfAssign(cs: seq<ClassDecl>, cls: Symbol, env: Scopes, e: Expr): Judgement
    requires Acyclic(cs) && e.kind.Assign?
    decreases e, 0
  {
    var x := e.kind.name;
    var r := TypeOf(cs, cls, env, e.kind.rhs);
    var k := Assign(x, r.tree);
    if x == Self then Annotate(k, Object, r.errors + 1)
    else
      match LookupIn(env, x)
      case None => Annotate(k, r.ty, r.errors + 1)
      case Some(t0) => Annotate(k, r.ty, r.errors + Flag(!AssignOk(cs, cls, t0, r.ty)))
  }

  /** A block has the type of its last expression, Object when empty. */
  function TypeOfBlock(cs: seq<ClassDecl>, cls: Symbol, env: Scopes, e: Expr): Judgement
    requires Acyclic(cs) && e.kind.Block?
    decreases e, 0
  {
    var js := TypeOfSeq(cs, cls, env, e.kind.exprs);
    Annotate(Block(js.trees), LastOr(js.types, Object), js.errors)
  }

  /** `isvoid` and `not` are Bool and `~` is Int, whatever the operand. */
  function TypeOfUnary(cs: seq<ClassDecl>, cls: Symbol, env: Scopes, e: Expr): Judgement
    requires Acyclic(cs) && (e.kind.IsVoid? || e.kind.Neg? || e.kind.Comp?)
    decreases e, 0
  {
    var r := TypeOf(cs, cls, env, e.kind.e1);
    if e.kind.IsVoid? then Annotate(IsVoid(r.tree), Bool, r.errors)
    else if e.kind.Neg? then Annotate(Neg(r.tree), Int, r.errors)
    else Annotate(Comp(r.tree), Bool, r.errors)
  }

  /** Arithmetic is Int and comparison Bool; the operand types are not checked. */
  function TypeOfBinary(cs: seq<ClassDecl>, cls: Symbol, env: Scopes, e: Expr): Judgement
    requires Acyclic(cs) && (e.kind.Arith? || e.kind.Compare?)
    decreases e, 0
  {
    var r1 := TypeOf(cs, cls, env, e.kind.e1);
    var r2 := TypeOf(cs, cls, env, e.kind.e2);
    if e.kind.Arith? then Annotate(Arith(e.kind.arith, r1.tree, r2.tree), Int, r1.errors + r2.errors)
    else Annotate(Compare(e.kind.compare, r1.tree, r2.tree), Bool, r1.errors + r2.errors)
  }

  /** A predicate not of type Bool is one error; the type is `CondType`. */
  function TypeOfCond(cs: seq<ClassDecl>, cls: Symbol, env: Scopes, e: Expr): Judgement
    requires Acyclic(cs) && e.kind.Cond?
    decreases e, 0
  {
    var rp := TypeOf(cs, cls, env, e.kind.pred);
    var ra := TypeOf(cs, cls, env, e.kind.thenExp);
    var rb := TypeOf(cs, cls, env, e.kind.elseExp);
    Annotate(Cond(rp.tree, ra.tree, rb.tree), CondType(cs, cls, ra.ty, rb.ty),
             rp.errors + Flag(rp.ty != Bool) + ra.errors + rb.errors)
  }

  /** A loop is Object; its predicate is not held to Bool. */
  function TypeOfLoop(cs: seq<ClassDecl>, cls: Symbol, env: Scopes, e: Expr): Judgement
    requires Acyclic(cs) && e.kind.Loop?
    decreases e, 0
  {
    var rp := TypeOf(cs, cls, env, e.kind.pred);
    var rb := TypeOf(cs, cls, env, e.kind.body);
    Annotate(Loop(rp.tree, rb.tree), Object, rp.errors + rb.errors)
  }

  /** The initialiser is checked in the outer scopes and held to `LetInitOk`;
      the body, whose type the let takes, with the variable bound. */
  function TypeOfLet(cs: seq<ClassDecl>, cls: Symbol, env: Scopes, e: Expr): Judgement
    requires Acyclic(cs) && e.kind.Let?
    decreases e, 0
  {
    var x, t := e.kind.identifier, e.kind.typeDecl;
    var ri := TypeOf(cs, cls, env, e.kind.init);
    var rb := TypeOf(cs, cls, Bind(env, x, t), e.kind.body);
    Annotate(Let(x, t, ri.tree, rb.tree), rb.ty, ri.errors + Flag(!LetInitOk(cs, ri.ty, t)) + rb.errors)
  }

  /** The scrutinee, then the walk over the branches; the type is `CaseResult`. */
  function TypeOfCase(cs: seq<ClassDecl>, cls: Symbol, env: Scopes, e: Expr): Judgement
    requires Acyclic(cs) && e.kind.TypCase?
    decreases e, 0
  {
    var rs := TypeOf(cs, cls, env, e.kind.scrutinee);
    var st := CaseFold(cs, cls, env, e.kind.cases);
    Annotate(TypCase(rs.tree, st.branches), CaseResult(st), rs.errors + st.errors)
  }

  /** The outcome of a call once the receiver and actuals are checked:
      the call's type and the errors of the lookup and argument checks. */
  datatype CallJudgement = CallJudgement(ty: Symbol, errors: nat)

  /** A dynamic call of `m` on a receiver of type `receiver` with actuals
      of types `given`: the method is looked up from the receiver's class,
      SELF_TYPE read as the current class; an unknown method is one error
      typed Object. */
  function DynamicCall(cs: seq<ClassDecl>, cls: Symbol, receiver: Symbol, m: Symbol, given: seq<Symbol>): CallJudgement
    requires Acyclic(cs)
  {
    match ResolveMethod(cs, Normalize(receiver, cls), m)
    case None => CallJudgement(Object, 1)
    case Some(f) => CallJudgement(DispatchType(f.returnType, receiver), DynamicCallErrors(cs, cls, f.formals, given))
  }

  /** A static call of `m` in the class named `t`, SELF_TYPE read as the
      current class; a SELF_TYPE return becomes `t` as written. */
  function StaticCall(cs: seq<ClassDecl>, cls: Symbol, t: Symbol, m: Symbol, given: seq<Symbol>): CallJudgement
    requires Acyclic(cs)
  {
    var target := Normalize(t, cls);
    match ResolveMethod(cs, target, m)
    case None => CallJudgement(Object, 1)
    case Some(f) =>
      CallJudgement(if f.returnType == SelfType then t else f.returnType,
                    StaticCallErrors(cs, cls, target, f.formals, given))
  }

  /** A dispatch: the receiver, the actuals left to right, then the call. */
  function TypeOfDispatch(cs: seq<ClassDecl>, cls: Symbol, env: Scopes, e: Expr): Judgement
    requires Acyclic(cs) && e.kind.Dispatch?
    decreases e, 0
  {
    var rr := TypeOf(cs, cls, env, e.kind.receiver);
    var js := TypeOfSeq(cs, cls, env, e.kind.actuals);
    var c := DynamicCall(cs, cls, rr.ty, e.kind.name, js.types);
    Annotate(Dispatch(rr.tree, e.kind.name, js.trees), c.ty, rr.errors + js.errors + c.errors)
  }

  /** A static dispatch: the receiver, which must conform to the named
      class, the actuals left to right, then the call. */
  function TypeOfStaticDispatch(cs: seq<ClassDecl>, cls: Symbol, env: Scopes, e: Expr): Judgement
    requires Acyclic(cs) && e.kind.StaticDispatch?
    decreases e, 0
  {
    var t := e.kind.typeName;
    var rr := TypeOf(cs, cls, env, e.kind.receiver);
    var recvErrors := Flag(!ConformsTo(cs, Normalize(rr.ty, cls), Normalize(t, cls)));
    var js := TypeOfSeq(cs, cls, env, e.kind.actuals);
    var c := StaticCall(cs, cls, t, e.kind.name, js.types);
    Annotate(StaticDispatch(rr.tree, t, e.kind.name, js.trees), c.ty, rr.errors + recvErrors + js.errors + c.errors)
  }

  /** Checks `es` left to right under the same scopes. */
  function TypeOfSeq(cs: seq<ClassDecl>, cls: Symbol, env: Scopes, es: seq<Expr>): (js: Judgements)
    requires Acyclic(cs)
    ensures |js.types| == |es| && |js.trees| == |es|
    decreases es
  {
    if es == [] then Judgements([], [], 0)
    else
      var n := |es| - 1;
      var p := TypeOfSeq(cs, cls, env, es[..n]);
      var j := TypeOf(cs, cls, env, es[n]);
      Judgements(p.types + [j.ty], p.trees + [j.tree], p.errors + j.errors)
  }

  /** The running result of a case after a branch body of type `ty`: the
      body's type with SELF_TYPE read as the current class, joined with the
      result so far once there is one. */
  function CaseJoin(cs: seq<ClassDecl>, cls: Symbol, result: Symbol, ty: Symbol): Symbol
    requires Acyclic(cs)
  {
    var tcmp := Normalize(ty, cls);
    if result == NoType then tcmp else Join(cs, Normalize(result, cls), tcmp)
  }

  /** One branch of a case: a declared type an earlier branch already has is
      one error; the body is checked with the branch variable bound in a
      scope of its own. */
  function CaseStep(cs: seq<ClassDecl>, cls: Symbol, env: Scopes, p: CaseState, b: Branch): (st: CaseState)
    requires Acyclic(cs)
    ensures |st.branches| == |p.branches| + 1 && |st.types| == |p.types| + 1
    decreases b
  {
    var dup := Flag(b.typeDecl in p.seen);
    var j := TypeOf(cs, cls, Bind(env, b.name, b.typeDecl), b.body);
    CaseState(CaseJoin(cs, cls, p.result, j.ty), p.seen + {b.typeDecl}, p.allSelf && j.ty == SelfType,
              p.branches + [Branch(b.name, b.typeDecl, j.tree)], p.types + [j.ty],
              p.duplicates + dup, p.errors + dup + j.errors)
  }

  /** Walks the branches of a case in order. */
  function CaseFold(cs: seq<ClassDecl>, cls: Symbol, env: Scopes, bs: seq<Branch>): (st: CaseState)
    requires Acyclic(cs)
    ensures |st.branches| == |bs| && |st.types| == |bs|
    decreases bs
  {
    if bs == [] then CaseState(NoType, {}, true, [], [], 0, 0)
    else
      var n := |bs| - 1;
      assert bs decreases to bs[n];
      CaseStep(cs, cls, env, CaseFold(cs, cls, env, bs[..n]), bs[n])
  }

  /** The walk over one more branch is one more step. */
  lemma CaseFoldPrefix(cs: seq<ClassDecl>, cls: Symbol, env: Scopes, bs: seq<Branch>, i: nat)
    requires Acyclic(cs) && i < |bs|
    ensures CaseFold(cs, cls, env, bs[..i + 1]) == CaseStep(cs, cls, env, CaseFold(cs, cls, env, bs[..i]), bs[i])
  {
    assert bs[..i + 1][..i] == bs[..i];
  }

  // ------------------------------------------------------------ classes

  /** The scope of a class as `add_class_attrs_to_env` fills it: `m`, then
      each attribute of `fs` in order, a later attribute of the same name
      replacing an earlier one. Inherited attributes are not added. */
  function AttrBindings(m: map<Symbol, Symbol>, fs: seq<Feature>): map<Symbol, Symbol>
  {
    if fs == [] then m
    else
      var n := |fs| - 1;
      var p := AttrBindings(m, fs[..n]);
      if fs[n].Attr? then p[fs[n].name := fs[n].typeDecl] else p
  }

  /** The scope of a method's formals: each formal in order, a later formal
      of the same name replacing an earlier one. */
  function FormalBindings(m: map<Symbol, Symbol>, formals: seq<Formal>): map<Symbol, Symbol>
  {
    if formals == [] then m
    else
      var n := |formals| - 1;
      FormalBindings(m, formals[..n])[formals[n].name := formals[n].typeDecl]
  }

  /** The class scope every feature of `c` is checked in: `self : SELF_TYPE`
      and the attributes `c` itself declares. */
  function ClassScope(c: ClassDecl): map<Symbol, Symbol>
  {
    AttrBindings(map[Self := SelfType], c.features)
  }

  datatype FeatureJudgement = FeatureJudgement(feature: Feature, errors: nat)
  datatype FeaturesJudgement = FeaturesJudgement(features: seq<Feature>, errors: nat)

  /** An attribute's initialiser is checked in the class scope alone; its
      type is not compared with the declared type. Methods are left alone. */
  function CheckAttr(cs: seq<ClassDecl>, cls: Symbol, scope: map<Symbol, Symbol>, f: Feature): FeatureJudgement
    requires Acyclic(cs)
  {
    match f
    case Attr(x, t, init) =>
      var j := TypeOf(cs, cls, [scope], init);
      FeatureJudgement(Attr(x, t, j.tree), j.errors)
    case Method(_, _, _, _) => FeatureJudgement(f, 0)
  }

  /** The return check of a method: the body's type must conform to the
      declared return type, SELF_TYPE read as the current class on both sides. */
  predicate ReturnOk(cs: seq<ClassDecl>, cls: Symbol, inferred: Symbol, declared: Symbol)
    requires Acyclic(cs)
  {
    ConformsTo(cs, Normalize(inferred, cls), Normalize(declared, cls))
  }

  /** A method's body is checked with its formals in a scope inside the
      class scope, then its type is held against the declared return type.
      Attributes are left alone. */
  function CheckMethod(cs: seq<ClassDecl>, cls: Symbol, scope: map<Symbol, Symbol>, f: Feature): FeatureJudgement
    requires Acyclic(cs)
  {
    match f
    case Method(m, formals, ret, body) =>
      var j := TypeOf(cs, cls, [FormalBindings(map[], formals), scope], body);
      FeatureJudgement(Method(m, formals, ret, j.tree), j.errors + Flag(!ReturnOk(cs, cls, j.ty, ret)))
    case Attr(_, _, _) => FeatureJudgement(f, 0)
  }

  /** The first pass over a class's features: every attribute initialiser. */
  function AttrPass(cs: seq<ClassDecl>, cls: Symbol, scope: map<Symbol, Symbol>, fs: seq<Feature>): (r: FeaturesJudgement)
    requires Acyclic(cs)
    ensures |r.features| == |fs|
  {
    if fs == [] then FeaturesJudgement([], 0)
    else
      var n := |fs| - 1;
      var p := AttrPass(cs, cls, scope, fs[..n]);
      var f := CheckAttr(cs, cls, scope, fs[n]);
      FeaturesJudgement(p.features + [f.feature], p.errors + f.errors)
  }

  /** The second pass over a class's features: every method body. */
  function MethodPass(cs: seq<ClassDecl>, cls: Symbol, scope: map<Symbol, Symbol>, fs: seq<Feature>): (r: FeaturesJudgement)
    requires Acyclic(cs)
    ensures |r.features| == |fs|
  {
    if fs == [] then FeaturesJudgement([], 0)
    else
      var n := |fs| - 1;
      var p := MethodPass(cs, cls, scope, fs[..n]);
      var f := CheckMethod(cs, cls, scope, fs[n]);
      FeaturesJudgement(p.features + [f.feature], p.errors + f.errors)
  }

  datatype ClassJudgement = ClassJudgement(checked: ClassDecl, errors: nat)

  /** One class: the attribute pass, then the method pass over its result. */
  function CheckClass(cs: seq<ClassDecl>, c: ClassDecl): ClassJudgement
    requires Acyclic(cs)
  {
    var scope := ClassScope(c);
    var a := AttrPass(cs, c.name, scope, c.features);
    var m := MethodPass(cs, c.name, scope, a.features);
    ClassJudgement(ClassDecl(c.name, c.parent, m.features, c.filename), a.errors + m.errors)
  }

  /** The checked classes and the error count of a run. */
  datatype Outcome = Outcome(checked: seq<ClassDecl>, errors: nat)

  /** The program's classes in order; the run stops after the first class
      that brings the error count above zero. */
  function CheckProgram(cs: seq<ClassDecl>, program: seq<ClassDecl>): (o: Outcome)
    requires Acyclic(cs)
    ensures |o.checked| <= |program|
  {
    if program == [] then Outcome([], 0)
    else
      var n := |program| - 1;
      var p := CheckProgram(cs, program[..n]);
      if p.errors > 0 then p
      else
        var c := CheckClass(cs, program[n]);
        Outcome(p.checked + [c.checked], c.errors)
  }

  /** Once a prefix of the program has reported an error, the run has
      stopped: the later classes change nothing. */
  lemma {:induction false} HaltIsFinal(cs: seq<ClassDecl>, program: seq<ClassDecl>, k: nat)
    requires Acyclic(cs) && k <= |program|
    requires CheckProgram(cs, program[..k]).errors > 0
    ensures CheckProgram(cs, program) == CheckProgram(cs, program[..k])
    decreases |program| - k
  {
    if k < |program| {
      var n := |program| - 1;
      assert program[..n][..k] == program[..k];
      HaltIsFinal(cs, program[..n], k);
    } else {
      assert program[..k] == program;
    }
  }
}
