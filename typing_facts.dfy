/** Properties of the type rules: what the argument checks, the case walk,
    the conditional, the class scope and the run over a program promise. */
module TypingFacts {
  import opened Symbols
  import opened Syntax
  import opened Inheritance
  import opened Environment
  import opened TypeRules

  // ------------------------------------------------------------- dispatch

  /** The per-argument checks of a dynamic dispatch report nothing exactly
      when every actual is accepted by its formal, and at most one error
      per argument. */
  lemma {:induction false} DynamicArgsAccepted(cs: seq<ClassDecl>, cls: Symbol, formals: seq<Formal>, given: seq<Symbol>)
    requires Acyclic(cs) && |formals| == |given|
    ensures DynamicArgErrors(cs, cls, formals, given) == 0 <==>
              forall i :: 0 <= i < |formals| ==> DynamicArgOk(cs, cls, formals[i].typeDecl, given[i])
    ensures DynamicArgErrors(cs, cls, formals, given) <= |formals|
    decreases |formals|
  {
    if formals != [] {
      var n := |formals| - 1;
      DynamicArgsAccepted(cs, cls, formals[..n], given[..n]);
      assert DynamicArgErrors(cs, cls, formals, given)
          == DynamicArgErrors(cs, cls, formals[..n], given[..n]) + Flag(!DynamicArgOk(cs, cls, formals[n].typeDecl, given[n]));
      assert forall i :: 0 <= i < n ==> formals[..n][i] == formals[i] && given[..n][i] == given[i];
    }
  }

  /** The same for a static dispatch, a SELF_TYPE formal read as the target. */
  lemma {:induction false} StaticArgsAccepted(cs: seq<ClassDecl>, cls: Symbol, target: Symbol, formals: seq<Formal>, given: seq<Symbol>)
    requires Acyclic(cs) && |formals| == |given|
    ensures StaticArgErrors(cs, cls, target, formals, given) == 0 <==>
              forall i :: 0 <= i < |formals| ==> StaticArgOk(cs, cls, target, formals[i].typeDecl, given[i])
    ensures StaticArgErrors(cs, cls, target, formals, given) <= |formals|
    decreases |formals|
  {
    if formals != [] {
      var n := |formals| - 1;
      StaticArgsAccepted(cs, cls, target, formals[..n], given[..n]);
      assert StaticArgErrors(cs, cls, target, formals, given)
          == StaticArgErrors(cs, cls, target, formals[..n], given[..n]) + Flag(!StaticArgOk(cs, cls, target, formals[n].typeDecl, given[n]));
      assert forall i :: 0 <= i < n ==> formals[..n][i] == formals[i] && given[..n][i] == given[i];
    }
  }

  // ----------------------------------------------------------------- case

  /** The set of branch types declared in `bs`. */
  function BranchTypes(bs: seq<Branch>): set<Symbol>
  {
    set i | 0 <= i < |bs| :: bs[i].typeDecl
  }

  /** The branch types of `bs` are those of all but its last branch and
      the last branch's. */
  lemma BranchTypesSnoc(bs: seq<Branch>)
    requires bs != []
    ensures BranchTypes(bs) == BranchTypes(bs[..|bs| - 1]) + {bs[|bs| - 1].typeDecl}
  {
    var n := |bs| - 1;
    forall t | t in BranchTypes(bs) ensures t in BranchTypes(bs[..n]) + {bs[n].typeDecl} {
      var i :| 0 <= i < |bs| && bs[i].typeDecl == t;
      if i < n { assert bs[..n][i] == bs[i]; }
    }
    forall t | t in BranchTypes(bs[..n]) ensures t in BranchTypes(bs) {
      var i :| 0 <= i < n && bs[..n][i].typeDecl == t;
      assert bs[i] == bs[..n][i];
    }
  }

  /** A case has no more distinct branch types than branches. */
  lemma {:induction false} BranchTypesBound(bs: seq<Branch>)
    ensures |BranchTypes(bs)| <= |bs|
    decreases |bs|
  {
    if bs != [] {
      var n := |bs| - 1;
      BranchTypesBound(bs[..n]);
      BranchTypesSnoc(bs);
      if bs[n].typeDecl in BranchTypes(bs[..n]) {
        assert BranchTypes(bs) == BranchTypes(bs[..n]);
      }
    }
  }

  /** One step of the walk, in terms of the walk over the earlier branches. */
  lemma CaseFoldSnoc(cs: seq<ClassDecl>, cls: Symbol, env: Scopes, bs: seq<Branch>)
    requires Acyclic(cs) && bs != []
    ensures var n := |bs| - 1;
            var p, st := CaseFold(cs, cls, env, bs[..n]), CaseFold(cs, cls, env, bs);
            var j := TypeOf(cs, cls, Bind(env, bs[n].name, bs[n].typeDecl), bs[n].body);
            && st.seen == p.seen + {bs[n].typeDecl}
            && st.duplicates == p.duplicates + Flag(bs[n].typeDecl in p.seen)
            && st.allSelf == (p.allSelf && j.ty == SelfType)
            && st.types == p.types + [j.ty]
            && st.errors == p.errors + Flag(bs[n].typeDecl in p.seen) + j.errors
  {
    var n := |bs| - 1;
    assert CaseFold(cs, cls, env, bs) == CaseStep(cs, cls, env, CaseFold(cs, cls, env, bs[..n]), bs[n]);
  }

  /** The walk remembers every declared branch type and reports one
      duplicate for each branch whose type an earlier branch has. */
  lemma {:induction false} CaseDuplicates(cs: seq<ClassDecl>, cls: Symbol, env: Scopes, bs: seq<Branch>)
    requires Acyclic(cs)
    ensures CaseFold(cs, cls, env, bs).seen == BranchTypes(bs)
    ensures CaseFold(cs, cls, env, bs).duplicates == |bs| - |BranchTypes(bs)|
    decreases |bs|
  {
    if bs != [] {
      var n := |bs| - 1;
      CaseDuplicates(cs, cls, env, bs[..n]);
      CaseFoldSnoc(cs, cls, env, bs);
      BranchTypesSnoc(bs);
      BranchTypesBound(bs[..n]);
      var p := CaseFold(cs, cls, env, bs[..n]);
      if bs[n].typeDecl !in BranchTypes(bs[..n]) {
        assert |BranchTypes(bs[..n]) + {bs[n].typeDecl}| == |BranchTypes(bs[..n])| + 1;
        assert CaseFold(cs, cls, env, bs).duplicates == p.duplicates;
      } else {
        assert BranchTypes(bs) == BranchTypes(bs[..n]);
        assert CaseFold(cs, cls, env, bs).duplicates == p.duplicates + 1;
      }
    }
  }

  /** The errors reported while checking the branch bodies, each with its
      variable bound in a scope of its own. */
  function BodyErrors(cs: seq<ClassDecl>, cls: Symbol, env: Scopes, bs: seq<Branch>): nat
    requires Acyclic(cs)
    decreases |bs|
  {
    if bs == [] then 0
    else
      var n := |bs| - 1;
      BodyErrors(cs, cls, env, bs[..n]) + TypeOf(cs, cls, Bind(env, bs[n].name, bs[n].typeDecl), bs[n].body).errors
  }

  /** The walk reports one error per repeated branch type and the errors of
      the branch bodies, and nothing else. */
  lemma {:induction false} CaseErrors(cs: seq<ClassDecl>, cls: Symbol, env: Scopes, bs: seq<Branch>)
    requires Acyclic(cs)
    ensures CaseFold(cs, cls, env, bs).errors == |bs| - |BranchTypes(bs)| + BodyErrors(cs, cls, env, bs)
    decreases |bs|
  {
    CaseDuplicates(cs, cls, env, bs);
    CaseErrorsSplit(cs, cls, env, bs);
  }

  /** The walk's errors are its duplicates plus the branch bodies' errors. */
  lemma {:induction false} CaseErrorsSplit(cs: seq<ClassDecl>, cls: Symbol, env: Scopes, bs: seq<Branch>)
    requires Acyclic(cs)
    ensures CaseFold(cs, cls, env, bs).errors == CaseFold(cs, cls, env, bs).duplicates + BodyErrors(cs, cls, env, bs)
    decreases |bs|
  {
    if bs != [] {
      var n := |bs| - 1;
      CaseErrorsSplit(cs, cls, env, bs[..n]);
      CaseFoldSnoc(cs, cls, env, bs);
    }
  }

  /** The walk finds every branch SELF_TYPE exactly when each body has
      type SELF_TYPE. */
  lemma {:induction false} CaseAllSelf(cs: seq<ClassDecl>, cls: Symbol, env: Scopes, bs: seq<Branch>)
    requires Acyclic(cs)
    ensures CaseFold(cs, cls, env, bs).allSelf <==>
              forall i :: 0 <= i < |bs| ==> CaseFold(cs, cls, env, bs).types[i] == SelfType
    decreases |bs|
  {
    if bs != [] {
      var n := |bs| - 1;
      CaseAllSelf(cs, cls, env, bs[..n]);
      CaseFoldSnoc(cs, cls, env, bs);
      var st := CaseFold(cs, cls, env, bs);
      var p := CaseFold(cs, cls, env, bs[..n]);
      var j := TypeOf(cs, cls, Bind(env, bs[n].name, bs[n].typeDecl), bs[n].body);
      assert forall i :: 0 <= i < n ==> st.types[i] == p.types[i];
      assert st.types[n] == j.ty;
      if st.allSelf {
        assert forall i :: 0 <= i < |bs| ==> st.types[i] == SelfType;
      } else if p.allSelf {
        assert st.types[n] != SelfType;
      } else {
        var i :| 0 <= i < n && p.types[i] != SelfType;
        assert st.types[i] != SelfType;
      }
    }
  }

  /** A case without branches has type SELF_TYPE: nothing clears the
      all-SELF_TYPE flag, which overrides the Object default. */
  lemma EmptyCaseIsSelfType(cs: seq<ClassDecl>, cls: Symbol, env: Scopes, s: Expr)
    requires Acyclic(cs)
    ensures TypeOf(cs, cls, env, Expr(TypCase(s, []), None)).ty == SelfType
    ensures TypeOf(cs, cls, env, Expr(TypCase(s, []), None)).errors == TypeOf(cs, cls, env, s).errors
  {
    assert CaseFold(cs, cls, env, []) == CaseState(NoType, {}, true, [], [], 0, 0);
  }

  /** The walk's running result: never SELF_TYPE outside SELF_TYPE itself,
      and every branch type seen so far, SELF_TYPE read as the current
      class, conforms to it. */
  lemma {:induction false} CaseRunningBound(cs: seq<ClassDecl>, cls: Symbol, env: Scopes, bs: seq<Branch>)
    requires Wellformed(cs) && cls != SelfType
    ensures CaseFold(cs, cls, env, bs).result != SelfType
    ensures forall i :: 0 <= i < |bs| ==>
              ConformsTo(cs, Normalize(CaseFold(cs, cls, env, bs).types[i], cls), CaseFold(cs, cls, env, bs).result)
    decreases |bs|
  {
    if bs != [] {
      var n := |bs| - 1;
      CaseRunningBound(cs, cls, env, bs[..n]);
      CaseFoldSnoc(cs, cls, env, bs);
      var p, st := CaseFold(cs, cls, env, bs[..n]), CaseFold(cs, cls, env, bs);
      var j := TypeOf(cs, cls, Bind(env, bs[n].name, bs[n].typeDecl), bs[n].body);
      assert st == CaseStep(cs, cls, env, p, bs[n]);
      var tcmp := Normalize(j.ty, cls);
      assert st.result == CaseJoin(cs, cls, p.result, j.ty);
      assert ReachesRoot(cs, p.result) && ReachesRoot(cs, tcmp);
      JoinUpperBound(cs, p.result, tcmp);
      JoinNotSelfType(cs, p.result, tcmp);
      assert ConformsTo(cs, p.result, st.result) && ConformsTo(cs, tcmp, st.result);
      forall i | 0 <= i < |bs|
        ensures ConformsTo(cs, Normalize(st.types[i], cls), st.result)
      {
        if i < n {
          assert st.types[i] == p.types[i];
          ConformsTransitive(cs, Normalize(p.types[i], cls), p.result, st.result);
        }
      }
    }
  }

  /** Unless every branch has type SELF_TYPE, the type of a case is an upper
      bound of its branch types, SELF_TYPE read as the current class. */
  lemma CaseResultIsUpperBound(cs: seq<ClassDecl>, cls: Symbol, env: Scopes, bs: seq<Branch>)
    requires Wellformed(cs) && cls != SelfType
    ensures var st := CaseFold(cs, cls, env, bs);
            !st.allSelf ==> forall i :: 0 <= i < |bs| ==> ConformsTo(cs, Normalize(st.types[i], cls), CaseResult(st))
  {
    CaseRunningBound(cs, cls, env, bs);
  }

  /** The walk's running result is a class below every common upper bound
      of the branch types seen, SELF_TYPE read as the current class, as
      long as none of those is No_type or No_class. */
  lemma {:induction false} CaseRunningLeast(cs: seq<ClassDecl>, cls: Symbol, env: Scopes, bs: seq<Branch>, c: Symbol)
    requires Wellformed(cs) && cls != SelfType
    requires forall i :: 0 <= i < |bs| ==>
               var t := Normalize(CaseFold(cs, cls, env, bs).types[i], cls);
               t != NoType && t != NoClass && ConformsTo(cs, t, c)
    ensures bs != [] ==> var r := CaseFold(cs, cls, env, bs).result;
              r != NoType && r != NoClass && ConformsTo(cs, r, c)
    decreases |bs|
  {
    if bs != [] {
      var n := |bs| - 1;
      CaseFoldSnoc(cs, cls, env, bs);
      var p, st := CaseFold(cs, cls, env, bs[..n]), CaseFold(cs, cls, env, bs);
      var j := TypeOf(cs, cls, Bind(env, bs[n].name, bs[n].typeDecl), bs[n].body);
      assert st == CaseStep(cs, cls, env, p, bs[n]);
      forall i | 0 <= i < n
        ensures var t := Normalize(p.types[i], cls); t != NoType && t != NoClass && ConformsTo(cs, t, c)
      {
        assert st.types[i] == p.types[i];
      }
      CaseRunningLeast(cs, cls, env, bs[..n], c);
      var tcmp := Normalize(j.ty, cls);
      assert st.types[n] == j.ty;
      assert st.result == CaseJoin(cs, cls, p.result, j.ty);
      assert tcmp != NoType && tcmp != NoClass && ConformsTo(cs, tcmp, c);
      if n > 0 {
        CaseRunningBound(cs, cls, env, bs[..n]);
        JoinBelowBound(cs, cls, p.result, j.ty, c);
      }
    }
  }

  /** Joining a result below `c` with a type below `c` stays below `c`. */
  lemma JoinBelowBound(cs: seq<ClassDecl>, cls: Symbol, r: Symbol, ty: Symbol, c: Symbol)
    requires Wellformed(cs) && r != SelfType && r != NoType && r != NoClass
    requires Normalize(ty, cls) != NoType && Normalize(ty, cls) != NoClass
    requires ConformsTo(cs, r, c) && ConformsTo(cs, Normalize(ty, cls), c)
    ensures var j := CaseJoin(cs, cls, r, ty);
            j != NoType && j != NoClass && ConformsTo(cs, j, c)
  {
    assert Normalize(r, cls) == r;
    JoinLeast(cs, r, Normalize(ty, cls), c);
    JoinIsClass(cs, r, Normalize(ty, cls));
  }

  /** Unless every branch has type SELF_TYPE, the type of a case conforms
      to every common upper bound of its branch types, so it is their least
      upper bound. */
  lemma CaseResultIsLeast(cs: seq<ClassDecl>, cls: Symbol, env: Scopes, bs: seq<Branch>, c: Symbol)
    requires Wellformed(cs) && cls != SelfType
    requires forall i :: 0 <= i < |bs| ==>
               var t := Normalize(CaseFold(cs, cls, env, bs).types[i], cls);
               t != NoType && t != NoClass && ConformsTo(cs, t, c)
    ensures var st := CaseFold(cs, cls, env, bs);
            !st.allSelf ==> ConformsTo(cs, CaseResult(st), c)
  {
    CaseRunningLeast(cs, cls, env, bs, c);
    CaseAllSelf(cs, cls, env, bs);
    CaseRunningBound(cs, cls, env, bs);
  }

  // ---------------------------------------------------------- conditional

  /** Unless both branches have type SELF_TYPE, the type of a conditional is
      the least upper bound of its branch types, SELF_TYPE read as the
      current class: both conform to it, and it conforms to every type both
      conform to. */
  lemma CondTypeIsLeastUpperBound(cs: seq<ClassDecl>, cls: Symbol, a: Symbol, b: Symbol, c: Symbol)
    requires Acyclic(cs) && !(a == SelfType && b == SelfType)
    requires Normalize(a, cls) != NoClass && Normalize(b, cls) != NoClass
    ensures ConformsTo(cs, Normalize(a, cls), CondType(cs, cls, a, b))
    ensures ConformsTo(cs, Normalize(b, cls), CondType(cs, cls, a, b))
    ensures ConformsTo(cs, Normalize(a, cls), c) && ConformsTo(cs, Normalize(b, cls), c) ==>
              ConformsTo(cs, CondType(cs, cls, a, b), c)
  {
    var na, nb := Normalize(a, cls), Normalize(b, cls);
    assert ReachesRoot(cs, na) && ReachesRoot(cs, nb);
    JoinUpperBound(cs, na, nb);
    if ConformsTo(cs, na, c) && ConformsTo(cs, nb, c) {
      JoinLeast(cs, na, nb, c);
    }
  }

  // ---------------------------------------------------------- class scope

  /** A name is bound in the class scope exactly when the starting scope
      binds it or one of the listed features is an attribute of that name. */
  lemma {:induction false} AttrBindingsDomain(m: map<Symbol, Symbol>, fs: seq<Feature>, x: Symbol)
    ensures x in AttrBindings(m, fs) <==> x in m || exists i :: 0 <= i < |fs| && fs[i].Attr? && fs[i].name == x
    decreases |fs|
  {
    if fs != [] {
      var n := |fs| - 1;
      AttrBindingsDomain(m, fs[..n], x);
      assert forall i :: 0 <= i < n ==> fs[..n][i] == fs[i];
    }
  }

  /** The last attribute named `x` decides its type in the class scope. */
  lemma {:induction false} AttrBindingsLast(m: map<Symbol, Symbol>, fs: seq<Feature>, x: Symbol, i: nat)
    requires i < |fs| && fs[i].Attr? && fs[i].name == x
    requires forall k :: i < k < |fs| ==> !(fs[k].Attr? && fs[k].name == x)
    ensures x in AttrBindings(m, fs) && AttrBindings(m, fs)[x] == fs[i].typeDecl
    decreases |fs|
  {
    var n := |fs| - 1;
    if i < n {
      AttrBindingsLast(m, fs[..n], x, i);
    }
  }

  /** Only `self` and the attributes the class itself declares are in its
      scope: an attribute it inherits and does not redeclare is not. */
  lemma ClassScopeHoldsOwnAttributes(c: ClassDecl, x: Symbol)
    requires x != Self
    ensures x in ClassScope(c) <==> exists i :: 0 <= i < |c.features| && c.features[i].Attr? && c.features[i].name == x
    ensures Self in ClassScope(c)
  {
    AttrBindingsDomain(map[Self := SelfType], c.features, x);
    AttrBindingsDomain(map[Self := SelfType], c.features, Self);
  }

  // ----------------------------------------------------------------- run

  /** The run checks the program's classes in order: the i-th checked
      class is the i-th class of the program, annotated. */
  lemma {:induction false} RunChecksInOrder(cs: seq<ClassDecl>, program: seq<ClassDecl>)
    requires Acyclic(cs)
    ensures var o := CheckProgram(cs, program);
      forall i :: 0 <= i < |o.checked| ==> o.checked[i] == CheckClass(cs, program[i]).checked
    decreases |program|
  {
    if program != [] {
      var n := |program| - 1;
      var p := CheckProgram(cs, program[..n]);
      RunChecksInOrder(cs, program[..n]);
      var o := CheckProgram(cs, program);
      if p.errors == 0 {
        RunCleanChecksAll(cs, program[..n]);
        var c := CheckClass(cs, program[n]);
        assert o.checked == p.checked + [c.checked];
        forall i | 0 <= i < |o.checked|
          ensures o.checked[i] == CheckClass(cs, program[i]).checked
        {
          if i < n {
            assert o.checked[i] == p.checked[i] && program[..n][i] == program[i];
          }
        }
      } else {
        assert o == p;
        forall i | 0 <= i < |o.checked|
          ensures o.checked[i] == CheckClass(cs, program[i]).checked
        {
          assert program[..n][i] == program[i];
        }
      }
    }
  }

  /** Every class checked before the last one reported no error. */
  lemma {:induction false} RunEarlierClassesClean(cs: seq<ClassDecl>, program: seq<ClassDecl>)
    requires Acyclic(cs)
    ensures var o := CheckProgram(cs, program);
      forall i :: 0 <= i < |o.checked| - 1 ==> CheckClass(cs, program[i]).errors == 0
    decreases |program|
  {
    if program != [] {
      var n := |program| - 1;
      var p := CheckProgram(cs, program[..n]);
      if p.errors == 0 {
        RunCleanChecksAll(cs, program[..n]);
        assert forall i :: 0 <= i < n ==> program[..n][i] == program[i];
      } else {
        RunEarlierClassesClean(cs, program[..n]);
        assert forall i :: 0 <= i < |p.checked| - 1 ==> program[..n][i] == program[i];
      }
    }
  }

  /** A run that reports no error has checked every class, and no class
      reported an error. */
  lemma {:induction false} RunCleanChecksAll(cs: seq<ClassDecl>, program: seq<ClassDecl>)
    requires Acyclic(cs)
    ensures var o := CheckProgram(cs, program);
      o.errors == 0 ==> |o.checked| == |program| && forall i :: 0 <= i < |program| ==> CheckClass(cs, program[i]).errors == 0
    decreases |program|
  {
    if program != [] {
      var n := |program| - 1;
      var p := CheckProgram(cs, program[..n]);
      RunCleanChecksAll(cs, program[..n]);
      if p.errors == 0 {
        assert forall i :: 0 <= i < n ==> program[..n][i] == program[i];
      }
    }
  }

  /** When no class reports an error, neither does the run. */
  lemma {:induction false} RunCleanWhenClassesClean(cs: seq<ClassDecl>, program: seq<ClassDecl>)
    requires Acyclic(cs)
    requires forall i :: 0 <= i < |program| ==> CheckClass(cs, program[i]).errors == 0
    ensures CheckProgram(cs, program).errors == 0
    decreases |program|
  {
    if program != [] {
      var n := |program| - 1;
      assert forall i :: 0 <= i < n ==> program[..n][i] == program[i];
      RunCleanWhenClassesClean(cs, program[..n]);
    }
  }

  /** A run that reports errors stopped after the first class that reported
      any, and the count is that class's. */
  lemma {:induction false} RunStopsAtFirstError(cs: seq<ClassDecl>, program: seq<ClassDecl>)
    requires Acyclic(cs)
    ensures var o := CheckProgram(cs, program);
      o.errors > 0 ==> 0 < |o.checked| && o.errors == CheckClass(cs, program[|o.checked| - 1]).errors
    decreases |program|
  {
    if program != [] {
      var n := |program| - 1;
      var p := CheckProgram(cs, program[..n]);
      if p.errors == 0 {
        RunCleanChecksAll(cs, program[..n]);
      } else {
        RunStopsAtFirstError(cs, program[..n]);
        var k := |p.checked| - 1;
        assert program[..n][k] == program[k];
      }
    }
  }

  // ------------------------------------------------------------- let

  /** A let initialiser is held to the declared type without reading
      SELF_TYPE as the current class: `let x : C <- self` inside a class
      `C` other than Object is one error. */
  lemma LetSelfInitRejected(cs: seq<ClassDecl>, cls: Symbol, env: Scopes, x: Symbol, body: Expr)
    requires Wellformed(cs) && cls != Object && cls != SelfType
    ensures var e := Expr(Let(x, cls, Expr(Ident(Self), None), body), None);
            TypeOf(cs, cls, env, e).errors == TypeOf(cs, cls, Bind(env, x, cls), body).errors + 1
  {
    SelfTypeConformance(cs, cls);
    var e := Expr(Let(x, cls, Expr(Ident(Self), None), body), None);
    assert TypeOf(cs, cls, env, e) == TypeOfLet(cs, cls, env, e);
  }
}
