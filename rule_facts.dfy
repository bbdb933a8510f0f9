/** What the individual type rules promise about a whole expression: the
    type it gets and how many errors checking it adds to those of its
    parts. */
module RuleFacts {
  import opened Symbols
  import opened Syntax
  import opened Inheritance
  import opened Environment
  import opened ClassTables
  import opened TypeRules
  import opened TypingFacts

  // ----------------------------------------------------------- assignment

  /** An assignment has the type of its right-hand side and adds at most one
      error: always one for `self`, whose assignment is typed Object, and
      for an unbound name; for a bound name, one exactly when `AssignOk`
      rejects the right-hand side. */
  lemma AssignOutcome(cs: seq<ClassDecl>, cls: Symbol, env: Scopes, x: Symbol, rhs: Expr)
    requires Acyclic(cs)
    ensures var j, r := TypeOf(cs, cls, env, Expr(Assign(x, rhs), None)), TypeOf(cs, cls, env, rhs);
      && (x == Self ==> j.ty == Object && j.errors == r.errors + 1)
      && (x != Self ==> j.ty == r.ty)
      && (x != Self && LookupIn(env, x).None? ==> j.errors == r.errors + 1)
      && (x != Self && LookupIn(env, x).Some? ==>
            j.errors == r.errors + Flag(!AssignOk(cs, cls, LookupIn(env, x).value, r.ty)))
  {
    var e := Expr(Assign(x, rhs), None);
    assert TypeOf(cs, cls, env, e) == TypeOfAssign(cs, cls, env, e);
  }

  /** A name declared SELF_TYPE takes only a SELF_TYPE or bottom-typed
      right-hand side, whatever the current class. */
  lemma AssignToSelfTypeName(cs: seq<ClassDecl>, cls: Symbol, env: Scopes, x: Symbol, rhs: Expr)
    requires Acyclic(cs) && x != Self && LookupIn(env, x) == Some(SelfType)
    ensures var j, r := TypeOf(cs, cls, env, Expr(Assign(x, rhs), None)), TypeOf(cs, cls, env, rhs);
      j.errors == r.errors <==> r.ty == SelfType || r.ty == NoType
  {
    AssignOutcome(cs, cls, env, x, rhs);
  }

  // ----------------------------------------------------------- conditional

  /** A conditional adds one error exactly when its predicate is not Bool,
      and has type SELF_TYPE exactly when both of its branches do. */
  lemma CondOutcome(cs: seq<ClassDecl>, cls: Symbol, env: Scopes, p: Expr, a: Expr, b: Expr)
    requires Wellformed(cs) && cls != SelfType
    ensures var j := TypeOf(cs, cls, env, Expr(Cond(p, a, b), None));
            var rp, ra, rb := TypeOf(cs, cls, env, p), TypeOf(cs, cls, env, a), TypeOf(cs, cls, env, b);
      && j.errors == rp.errors + ra.errors + rb.errors + Flag(rp.ty != Bool)
      && (j.ty == SelfType <==> ra.ty == SelfType && rb.ty == SelfType)
  {
    var e := Expr(Cond(p, a, b), None);
    assert TypeOf(cs, cls, env, e) == TypeOfCond(cs, cls, env, e);
    var ra, rb := TypeOf(cs, cls, env, a), TypeOf(cs, cls, env, b);
    JoinNotSelfType(cs, Normalize(ra.ty, cls), Normalize(rb.ty, cls));
  }

  // ------------------------------------------------ blocks and operators

  /** A block has the type of its last expression, Object when empty, and
      the errors of all its expressions. */
  lemma BlockOutcome(cs: seq<ClassDecl>, cls: Symbol, env: Scopes, es: seq<Expr>)
    requires Acyclic(cs)
    ensures var j := TypeOf(cs, cls, env, Expr(Block(es), None));
      && j.ty == (if es == [] then Object else TypeOf(cs, cls, env, es[|es| - 1]).ty)
      && j.errors == TypeOfSeq(cs, cls, env, es).errors
  {
    var e := Expr(Block(es), None);
    assert TypeOf(cs, cls, env, e) == TypeOfBlock(cs, cls, env, e);
    if es != [] {
      var js := TypeOfSeq(cs, cls, env, es);
      assert js.types[|es| - 1] == TypeOf(cs, cls, env, es[|es| - 1]).ty;
    }
  }

  /** `isvoid` and `not` are Bool and `~` is Int, whatever the operand's
      type; none of them adds an error of its own. */
  lemma UnaryOutcome(cs: seq<ClassDecl>, cls: Symbol, env: Scopes, e: Expr)
    requires Acyclic(cs) && (e.kind.IsVoid? || e.kind.Neg? || e.kind.Comp?)
    ensures var j := TypeOf(cs, cls, env, e);
      && j.ty == (if e.kind.Neg? then Int else Bool)
      && j.errors == TypeOf(cs, cls, env, e.kind.e1).errors
  {
    assert TypeOf(cs, cls, env, e) == TypeOfUnary(cs, cls, env, e);
  }

  /** Arithmetic is Int and comparison Bool, whatever the operand types;
      neither adds an error of its own. */
  lemma BinaryOutcome(cs: seq<ClassDecl>, cls: Symbol, env: Scopes, e: Expr)
    requires Acyclic(cs) && (e.kind.Arith? || e.kind.Compare?)
    ensures var j := TypeOf(cs, cls, env, e);
      && j.ty == (if e.kind.Arith? then Int else Bool)
      && j.errors == TypeOf(cs, cls, env, e.kind.e1).errors + TypeOf(cs, cls, env, e.kind.e2).errors
  {
    assert TypeOf(cs, cls, env, e) == TypeOfBinary(cs, cls, env, e);
  }

  /** A loop is Object and adds no error of its own: its predicate is not
      held to Bool. */
  lemma LoopOutcome(cs: seq<ClassDecl>, cls: Symbol, env: Scopes, p: Expr, body: Expr)
    requires Acyclic(cs)
    ensures var j := TypeOf(cs, cls, env, Expr(Loop(p, body), None));
      && j.ty == Object
      && j.errors == TypeOf(cs, cls, env, p).errors + TypeOf(cs, cls, env, body).errors
  {
    var e := Expr(Loop(p, body), None);
    assert TypeOf(cs, cls, env, e) == TypeOfLoop(cs, cls, env, e);
  }

  // ------------------------------------------------------------------- let

  /** A let is typed as its body with the variable bound to its declared
      type; the initialiser is checked in the enclosing scopes and adds one
      error when it is neither No_type nor conforming to the declared type,
      SELF_TYPE taken as it stands. */
  lemma LetOutcome(cs: seq<ClassDecl>, cls: Symbol, env: Scopes, x: Symbol, t: Symbol, init: Expr, body: Expr)
    requires Acyclic(cs)
    ensures var j := TypeOf(cs, cls, env, Expr(Let(x, t, init, body), None));
      var ri, rb := TypeOf(cs, cls, env, init), TypeOf(cs, cls, Bind(env, x, t), body);
      && j.ty == rb.ty
      && j.errors == ri.errors + rb.errors + Flag(!(ri.ty == NoType || ConformsTo(cs, ri.ty, t)))
  {
    var e := Expr(Let(x, t, init, body), None);
    assert TypeOf(cs, cls, env, e) == TypeOfLet(cs, cls, env, e);
  }

  // ------------------------------------------------------------------ case

  /** A case adds one error per branch whose declared type an earlier
      branch already has, on top of the errors of its scrutinee and its
      branch bodies; its type is `CaseResult` of the walk. */
  lemma CaseOutcome(cs: seq<ClassDecl>, cls: Symbol, env: Scopes, s: Expr, bs: seq<Branch>)
    requires Acyclic(cs)
    ensures var j, st := TypeOf(cs, cls, env, Expr(TypCase(s, bs), None)), CaseFold(cs, cls, env, bs);
      && j.ty == CaseResult(st)
      && j.errors == TypeOf(cs, cls, env, s).errors + (|bs| - |BranchTypes(bs)|) + BodyErrors(cs, cls, env, bs)
  {
    var e := Expr(TypCase(s, bs), None);
    assert TypeOf(cs, cls, env, e) == TypeOfCase(cs, cls, env, e);
    CaseErrors(cs, cls, env, bs);
  }

  /** A case has type SELF_TYPE exactly when every branch body has type
      SELF_TYPE, no branches included; otherwise its type is the running
      join of the branch types, Object when that stayed No_type. */
  lemma CaseSelfType(cs: seq<ClassDecl>, cls: Symbol, env: Scopes, s: Expr, bs: seq<Branch>)
    requires Wellformed(cs) && cls != SelfType
    ensures var j, st := TypeOf(cs, cls, env, Expr(TypCase(s, bs), None)), CaseFold(cs, cls, env, bs);
      && (j.ty == SelfType <==> forall i :: 0 <= i < |bs| ==> st.types[i] == SelfType)
      && (!st.allSelf ==> j.ty == if st.result == NoType then Object else st.result)
  {
    CaseOutcome(cs, cls, env, s, bs);
    CaseAllSelf(cs, cls, env, bs);
    CaseRunningBound(cs, cls, env, bs);
  }

  // -------------------------------------------------------------- dispatch

  /** A dynamic call: one error for a method the receiver's class does not
      resolve, typed Object; one for a wrong number of actuals; else one per
      rejected actual, so none exactly when every actual is accepted. A
      SELF_TYPE return becomes the receiver's type, SELF_TYPE for an absent
      receiver. */
  lemma DynamicCallOutcome(cs: seq<ClassDecl>, cls: Symbol, receiver: Symbol, m: Symbol, given: seq<Symbol>)
    requires Acyclic(cs)
    ensures var c, found := DynamicCall(cs, cls, receiver, m, given), ResolveMethod(cs, Normalize(receiver, cls), m);
      && (found.None? ==> c.ty == Object && c.errors == 1)
      && (found.Some? && |given| != |found.value.formals| ==> c.errors == 1)
      && (found.Some? && |given| == |found.value.formals| ==>
            c.errors <= |given| &&
            (c.errors == 0 <==> forall i :: 0 <= i < |given| ==> DynamicArgOk(cs, cls, found.value.formals[i].typeDecl, given[i])))
      && (found.Some? && found.value.returnType == SelfType ==> c.ty == (if receiver == NoType then SelfType else receiver))
      && (found.Some? && found.value.returnType != SelfType ==> c.ty == found.value.returnType)
  {
    var found := ResolveMethod(cs, Normalize(receiver, cls), m);
    if found.Some? && |given| == |found.value.formals| {
      DynamicArgsAccepted(cs, cls, found.value.formals, given);
    }
  }

  /** A static call in the class named `t`: the same error counts, each
      actual held to its formal with the formal's SELF_TYPE read as `t`;
      a SELF_TYPE return becomes `t` as written. */
  lemma StaticCallOutcome(cs: seq<ClassDecl>, cls: Symbol, t: Symbol, m: Symbol, given: seq<Symbol>)
    requires Acyclic(cs)
    ensures var c, found := StaticCall(cs, cls, t, m, given), ResolveMethod(cs, Normalize(t, cls), m);
      && (found.None? ==> c.ty == Object && c.errors == 1)
      && (found.Some? && |given| != |found.value.formals| ==> c.errors == 1)
      && (found.Some? && |given| == |found.value.formals| ==>
            c.errors <= |given| &&
            (c.errors == 0 <==>
               forall i :: 0 <= i < |given| ==> StaticArgOk(cs, cls, Normalize(t, cls), found.value.formals[i].typeDecl, given[i])))
      && (found.Some? ==> c.ty == if found.value.returnType == SelfType then t else found.value.returnType)
  {
    var found := ResolveMethod(cs, Normalize(t, cls), m);
    if found.Some? && |given| == |found.value.formals| {
      StaticArgsAccepted(cs, cls, Normalize(t, cls), found.value.formals, given);
    }
  }

  /** A dispatch checks its receiver, then its actuals left to right in the
      same scopes, and takes the type of the call; the call's errors come on
      top of theirs. */
  lemma DispatchOutcome(cs: seq<ClassDecl>, cls: Symbol, env: Scopes, recv: Expr, m: Symbol, actuals: seq<Expr>)
    requires Acyclic(cs)
    ensures var j := TypeOf(cs, cls, env, Expr(Dispatch(recv, m, actuals), None));
            var rr, js := TypeOf(cs, cls, env, recv), TypeOfSeq(cs, cls, env, actuals);
            var c := DynamicCall(cs, cls, rr.ty, m, js.types);
      j.ty == c.ty && j.errors == rr.errors + js.errors + c.errors
  {
    var e := Expr(Dispatch(recv, m, actuals), None);
    assert TypeOf(cs, cls, env, e) == TypeOfDispatch(cs, cls, env, e);
  }

  /** A static dispatch `recv@T.m(...)` also reports one error when the
      receiver's type, SELF_TYPE read as the current class on both sides,
      does not conform to `T`. */
  lemma StaticDispatchOutcome(cs: seq<ClassDecl>, cls: Symbol, env: Scopes, recv: Expr, t: Symbol, m: Symbol, actuals: seq<Expr>)
    requires Acyclic(cs)
    ensures var j := TypeOf(cs, cls, env, Expr(StaticDispatch(recv, t, m, actuals), None));
            var rr, js := TypeOf(cs, cls, env, recv), TypeOfSeq(cs, cls, env, actuals);
            var c := StaticCall(cs, cls, t, m, js.types);
      && j.ty == c.ty
      && j.errors == rr.errors + Flag(!ConformsTo(cs, Normalize(rr.ty, cls), Normalize(t, cls))) + js.errors + c.errors
  {
    var e := Expr(StaticDispatch(recv, t, m, actuals), None);
    assert TypeOf(cs, cls, env, e) == TypeOfStaticDispatch(cs, cls, env, e);
  }

  // --------------------------------------------------------------- example

  /** `IO.out_string` as every program sees it: the built-in declaration,
      which no program class can replace. */
  lemma OutStringResolves(program: seq<ClassDecl>)
    requires Acyclic(BasicClasses() + program)
    ensures ResolveMethod(BasicClasses() + program, IO, OutString) == Some(OutStringDecl)
  {
    var cs := BasicClasses() + program;
    BuiltinsShadowProgramClasses(program, 1, OutString);
    assert BasicClasses()[1].name == IO;
    ClassIndexAt(BasicClasses(), IO, 1);
    MethodIndexAt(BasicClasses()[1].features, OutString, 0);
    ResolveNearestFirst(cs, IO, OutString);
  }

  /** Int does not conform to String: the chain of Int is Int, Object. */
  lemma IntIsNotString(program: seq<ClassDecl>)
    requires Acyclic(BasicClasses() + program)
    ensures !ConformsTo(BasicClasses() + program, Int, Str)
  {
    var cs := BasicClasses() + program;
    BasicHierarchy(program);
    AncestorsStep(cs, Int);
    AncestorsStep(cs, Object);
    assert Ancestors(cs, Int) == [Int, Object];
  }

  /** `out_string` as IO declares it. */
  const OutStringDecl: Feature := Method(OutString, [Formal(Arg, Str)], SelfType, NoBody)

  /** On any class list where `IO.out_string` resolves to its built-in
      declaration, calling it on an IO receiver has type IO, and its one
      actual is accepted exactly when its type conforms to String. */
  lemma OutStringCall(cs: seq<ClassDecl>, cls: Symbol, given: Symbol)
    requires Acyclic(cs) && ResolveMethod(cs, IO, OutString) == Some(OutStringDecl)
    ensures var c := DynamicCall(cs, cls, IO, OutString, [given]);
      c.ty == IO && c.errors == Flag(!ConformsTo(cs, Normalize(given, cls), Str))
  {
    DynamicCallOutcome(cs, cls, IO, OutString, [given]);
  }

  /** On any class list where `IO.out_string` resolves to its built-in
      declaration: a call of it with one actual on an error-free receiver of
      type IO has type IO, the receiver's type standing for the SELF_TYPE
      return, and adds one error exactly when the actual's type does not
      conform to String. */
  lemma OutStringDispatch(cs: seq<ClassDecl>, cls: Symbol, env: Scopes, recv: Expr, actuals: seq<Expr>)
    requires Acyclic(cs) && ResolveMethod(cs, IO, OutString) == Some(OutStringDecl)
    requires TypeOf(cs, cls, env, recv).ty == IO && TypeOf(cs, cls, env, recv).errors == 0
    requires |actuals| == 1
    ensures var j, js := TypeOf(cs, cls, env, Expr(Dispatch(recv, OutString, actuals), None)), TypeOfSeq(cs, cls, env, actuals);
      && j.ty == IO
      && j.errors == js.errors + Flag(!ConformsTo(cs, Normalize(js.types[0], cls), Str))
  {
    DispatchOutcome(cs, cls, env, recv, OutString, actuals);
    OutStringCall(cs, cls, TypeOfSeq(cs, cls, env, actuals).types[0]);
    assert TypeOfSeq(cs, cls, env, actuals).types == [TypeOfSeq(cs, cls, env, actuals).types[0]];
  }

  /** A one-element list of actuals has the type and errors of its element. */
  lemma SingleActual(cs: seq<ClassDecl>, cls: Symbol, env: Scopes, a: Expr)
    requires Acyclic(cs)
    ensures var js, r := TypeOfSeq(cs, cls, env, [a]), TypeOf(cs, cls, env, a);
      js.types == [r.ty] && js.errors == r.errors
  {
    assert [a][..0] == [];
  }

  /** Literals, `new T` and the empty expression are typed without error:
      String, Int and Bool literals by their class, `new T` as `T` verbatim
      (SELF_TYPE included), the empty expression as No_type. */
  lemma ConstantTyping(cs: seq<ClassDecl>, cls: Symbol, env: Scopes, e: Expr)
    requires Acyclic(cs) && (e.kind.StringConst? || e.kind.IntConst? || e.kind.BoolConst? || e.kind.New? || e.kind.NoExpr?)
    ensures TypeOf(cs, cls, env, e).errors == 0
    ensures e.kind.StringConst? ==> TypeOf(cs, cls, env, e).ty == Str
    ensures e.kind.IntConst? ==> TypeOf(cs, cls, env, e).ty == Int
    ensures e.kind.BoolConst? ==> TypeOf(cs, cls, env, e).ty == Bool
    ensures e.kind.New? ==> TypeOf(cs, cls, env, e).ty == e.kind.typeName
    ensures e.kind.NoExpr? ==> TypeOf(cs, cls, env, e).ty == NoType
  {
  }

  /** With Int not conforming to String: `(new IO).out_string(a)` has type
      IO and reports nothing for a String literal and one error for an Int
      literal. */
  lemma NewIOOutString(cs: seq<ClassDecl>, cls: Symbol, env: Scopes, recv: Expr, arg: Expr)
    requires Acyclic(cs) && ResolveMethod(cs, IO, OutString) == Some(OutStringDecl) && !ConformsTo(cs, Int, Str)
    requires recv.kind == New(IO)
    requires arg.kind.StringConst? || arg.kind.IntConst?
    ensures var j := TypeOf(cs, cls, env, Expr(Dispatch(recv, OutString, [arg]), None));
      && j.ty == IO
      && j.errors == (if arg.kind.StringConst? then 0 else 1)
  {
    ConstantTyping(cs, cls, env, recv);
    ConstantTyping(cs, cls, env, arg);
    SingleActual(cs, cls, env, arg);
    OutStringDispatch(cs, cls, env, recv, [arg]);
    var t := TypeOfSeq(cs, cls, env, [arg]).types[0];
    assert t == TypeOf(cs, cls, env, arg).ty;
    assert Normalize(t, cls) == t;
    assert ConformsTo(cs, t, Str) == arg.kind.StringConst?;
  }

  /** The same in every program: `(new IO).out_string("hi")` is IO with no
      error, and `(new IO).out_string(1)` is IO with one error. */
  lemma OutStringOnNewIO(program: seq<ClassDecl>, cls: Symbol, env: Scopes, arg: Expr)
    requires Acyclic(BasicClasses() + program)
    requires arg.kind.StringConst? || arg.kind.IntConst?
    ensures var j := TypeOf(BasicClasses() + program, cls, env, Expr(Dispatch(Expr(New(IO), None), OutString, [arg]), None));
      && j.ty == IO
      && j.errors == (if arg.kind.StringConst? then 0 else 1)
  {
    OutStringResolves(program);
    IntIsNotString(program);
    NewIOOutString(BasicClasses() + program, cls, env, Expr(New(IO), None), arg);
  }
}
