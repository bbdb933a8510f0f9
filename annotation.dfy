/** What recording types does to a tree: the checked tree has the syntax of
    the input, and every one of its nodes records the type the checker
    returns for the subexpression at that place. */
module Annotation {
  import opened Symbols
  import opened Syntax
  import opened Inheritance
  import opened Environment
  import opened TypeRules

  /** `j` is a faithful annotation of `e`. */
  predicate Annotates(e: Expr, j: Judgement)
  {
    j.tree.ty == Some(j.ty) && Typed(j.tree) && Erase(j.tree) == Erase(e)
  }

  /** Each tree of `js` annotates the expression at the same position. */
  predicate AnnotatesAll(es: seq<Expr>, js: Judgements)
  {
    && |js.trees| == |es| && |js.types| == |es|
    && (forall i :: 0 <= i < |es| ==> js.trees[i].ty == Some(js.types[i]))
    && AllTyped(js.trees) && EraseAll(js.trees) == EraseAll(es)
  }

  /** Each checked branch keeps its variable and type and annotates its body. */
  predicate AnnotatesBranches(bs: seq<Branch>, st: CaseState)
  {
    && |st.branches| == |bs| && |st.types| == |bs|
    && (forall i :: 0 <= i < |bs| ==> st.branches[i].body.ty == Some(st.types[i]))
    && BranchesTyped(st.branches) && EraseBranches(st.branches) == EraseBranches(bs)
  }

  /** Every node of `t` records the type `TypeOf` gives the subexpression of
      `e` at the same place, checked under the scopes that place sees: a
      `let` body and a branch body under their own binding, every other
      child under the scopes of its parent. */
  ghost predicate Records(cs: seq<ClassDecl>, cls: Symbol, env: Scopes, e: Expr, t: Expr)
    requires Acyclic(cs)
    decreases e, 1
  {
    t.ty == Some(TypeOf(cs, cls, env, e).ty) && ChildrenRecord(cs, cls, env, e, t)
  }

  /** The children of `t` record the types of the children of `e`. */
  ghost predicate ChildrenRecord(cs: seq<ClassDecl>, cls: Symbol, env: Scopes, e: Expr, t: Expr)
    requires Acyclic(cs)
    decreases e, 0
  {
    match e.kind
    case Assign(_, rhs) => t.kind.Assign? && Records(cs, cls, env, rhs, t.kind.rhs)
    case Block(es) => t.kind.Block? && AllRecord(cs, cls, env, es, t.kind.exprs)
    case IsVoid(e1) => t.kind.IsVoid? && Records(cs, cls, env, e1, t.kind.e1)
    case Neg(e1) => t.kind.Neg? && Records(cs, cls, env, e1, t.kind.e1)
    case Comp(e1) => t.kind.Comp? && Records(cs, cls, env, e1, t.kind.e1)
    case Arith(_, e1, e2) =>
      t.kind.Arith? && Records(cs, cls, env, e1, t.kind.e1) && Records(cs, cls, env, e2, t.kind.e2)
    case Compare(_, e1, e2) =>
      t.kind.Compare? && Records(cs, cls, env, e1, t.kind.e1) && Records(cs, cls, env, e2, t.kind.e2)
    case Cond(p, a, b) =>
      && t.kind.Cond? && Records(cs, cls, env, p, t.kind.pred)
      && Records(cs, cls, env, a, t.kind.thenExp) && Records(cs, cls, env, b, t.kind.elseExp)
    case Loop(p, b) => t.kind.Loop? && Records(cs, cls, env, p, t.kind.pred) && Records(cs, cls, env, b, t.kind.body)
    case Let(x, d, i, b) =>
      t.kind.Let? && Records(cs, cls, env, i, t.kind.init) && Records(cs, cls, Bind(env, x, d), b, t.kind.body)
    case TypCase(s, bs) =>
      t.kind.TypCase? && Records(cs, cls, env, s, t.kind.scrutinee) && BranchesRecord(cs, cls, env, bs, t.kind.cases)
    case Dispatch(r, _, xs) =>
      t.kind.Dispatch? && Records(cs, cls, env, r, t.kind.receiver) && AllRecord(cs, cls, env, xs, t.kind.actuals)
    case StaticDispatch(r, _, _, xs) =>
      t.kind.StaticDispatch? && Records(cs, cls, env, r, t.kind.receiver) && AllRecord(cs, cls, env, xs, t.kind.actuals)
    case _ => true
  }

  /** Each tree of `ts` records the types of the expression at its position. */
  ghost predicate AllRecord(cs: seq<ClassDecl>, cls: Symbol, env: Scopes, es: seq<Expr>, ts: seq<Expr>)
    requires Acyclic(cs)
    decreases es
  {
    |ts| == |es| && forall i :: 0 <= i < |es| ==> Records(cs, cls, env, es[i], ts[i])
  }

  /** Each body of `ts` records the types of the branch body at its
      position, checked with that branch's variable bound. */
  ghost predicate BranchesRecord(cs: seq<ClassDecl>, cls: Symbol, env: Scopes, bs: seq<Branch>, ts: seq<Branch>)
    requires Acyclic(cs)
    decreases bs
  {
    |ts| == |bs| && forall i :: 0 <= i < |bs| ==> BranchRecords(cs, cls, env, bs, i, ts[i])
  }

  ghost predicate BranchRecords(cs: seq<ClassDecl>, cls: Symbol, env: Scopes, bs: seq<Branch>, i: nat, t: Branch)
    requires Acyclic(cs) && i < |bs|
    decreases bs, 0
  {
    var b := bs[i];
    assert bs decreases to b;
    Records(cs, cls, Bind(env, b.name, b.typeDecl), b.body, t.body)
  }

  /** The checker records a type on every node and changes nothing else. */
  lemma {:induction false} TypeOfAnnotates(cs: seq<ClassDecl>, cls: Symbol, env: Scopes, e: Expr)
    requires Acyclic(cs)
    ensures Annotates(e, TypeOf(cs, cls, env, e))
    ensures Records(cs, cls, env, e, TypeOf(cs, cls, env, e).tree)
    decreases e, 2
  {
    if e.kind.Cond? || e.kind.Loop? || e.kind.Let? || e.kind.TypCase? {
      ControlAnnotates(cs, cls, env, e);
    } else if e.kind.Dispatch? {
      DispatchAnnotates(cs, cls, env, e);
    } else if e.kind.StaticDispatch? {
      StaticDispatchAnnotates(cs, cls, env, e);
    } else if e.kind.Assign? || e.kind.Block? || e.kind.IsVoid? || e.kind.Neg? || e.kind.Comp? || e.kind.Arith? || e.kind.Compare? {
      OperatorAnnotates(cs, cls, env, e);
    }
  }

  /** Assignments, blocks and operators. */
  lemma {:induction false} OperatorAnnotates(cs: seq<ClassDecl>, cls: Symbol, env: Scopes, e: Expr)
    requires Acyclic(cs)
    requires e.kind.Assign? || e.kind.Block? || (e.kind.IsVoid? || e.kind.Neg? || e.kind.Comp?) || (e.kind.Arith? || e.kind.Compare?)
    ensures Annotates(e, TypeOf(cs, cls, env, e))
    ensures Records(cs, cls, env, e, TypeOf(cs, cls, env, e).tree)
    decreases e, 1
  {
    if e.kind.Assign? {
      assert TypeOf(cs, cls, env, e) == TypeOfAssign(cs, cls, env, e);
      AssignRuleAnnotates(cs, cls, env, e);
    } else if e.kind.Block? {
      assert TypeOf(cs, cls, env, e) == TypeOfBlock(cs, cls, env, e);
      BlockRuleAnnotates(cs, cls, env, e);
    } else if e.kind.IsVoid? || e.kind.Neg? || e.kind.Comp? {
      assert TypeOf(cs, cls, env, e) == TypeOfUnary(cs, cls, env, e);
      UnaryRuleAnnotates(cs, cls, env, e);
    } else {
      assert TypeOf(cs, cls, env, e) == TypeOfBinary(cs, cls, env, e);
      BinaryRuleAnnotates(cs, cls, env, e);
    }
  }

  /** Conditionals, loops, lets and cases. */
  lemma {:induction false} ControlAnnotates(cs: seq<ClassDecl>, cls: Symbol, env: Scopes, e: Expr)
    requires Acyclic(cs)
    requires e.kind.Cond? || e.kind.Loop? || e.kind.Let? || e.kind.TypCase?
    ensures Annotates(e, TypeOf(cs, cls, env, e))
    ensures Records(cs, cls, env, e, TypeOf(cs, cls, env, e).tree)
    decreases e, 1
  {
    if e.kind.Cond? {
      assert TypeOf(cs, cls, env, e) == TypeOfCond(cs, cls, env, e);
      CondRuleAnnotates(cs, cls, env, e);
      RecordsAtNode(cs, cls, env, e, TypeOfCond(cs, cls, env, e));
    } else if e.kind.Loop? {
      assert TypeOf(cs, cls, env, e) == TypeOfLoop(cs, cls, env, e);
      LoopRuleAnnotates(cs, cls, env, e);
      RecordsAtNode(cs, cls, env, e, TypeOfLoop(cs, cls, env, e));
    } else if e.kind.Let? {
      assert TypeOf(cs, cls, env, e) == TypeOfLet(cs, cls, env, e);
      LetRuleAnnotates(cs, cls, env, e);
      RecordsAtNode(cs, cls, env, e, TypeOfLet(cs, cls, env, e));
    } else {
      assert TypeOf(cs, cls, env, e) == TypeOfCase(cs, cls, env, e);
      CaseRuleAnnotates(cs, cls, env, e);
      RecordsAtNode(cs, cls, env, e, TypeOfCase(cs, cls, env, e));
    }
  }

  /** A node that records its rule's type, over children that record
      theirs, records the types of its whole subtree. */
  lemma RecordsAtNode(cs: seq<ClassDecl>, cls: Symbol, env: Scopes, e: Expr, j: Judgement)
    requires Acyclic(cs) && j == TypeOf(cs, cls, env, e)
    requires j.tree.ty == Some(j.ty) && ChildrenRecord(cs, cls, env, e, j.tree)
    ensures Records(cs, cls, env, e, j.tree)
  {
  }

  /** Dynamic dispatches. */
  lemma {:induction false} DispatchAnnotates(cs: seq<ClassDecl>, cls: Symbol, env: Scopes, e: Expr)
    requires Acyclic(cs) && e.kind.Dispatch?
    ensures Annotates(e, TypeOf(cs, cls, env, e))
    ensures Records(cs, cls, env, e, TypeOf(cs, cls, env, e).tree)
    decreases e, 1
  {
    assert TypeOf(cs, cls, env, e) == TypeOfDispatch(cs, cls, env, e);
    DispatchRuleAnnotates(cs, cls, env, e);
  }

  /** Static dispatches. */
  lemma {:induction false} StaticDispatchAnnotates(cs: seq<ClassDecl>, cls: Symbol, env: Scopes, e: Expr)
    requires Acyclic(cs) && e.kind.StaticDispatch?
    ensures Annotates(e, TypeOf(cs, cls, env, e))
    ensures Records(cs, cls, env, e, TypeOf(cs, cls, env, e).tree)
    decreases e, 1
  {
    assert TypeOf(cs, cls, env, e) == TypeOfStaticDispatch(cs, cls, env, e);
    StaticDispatchRuleAnnotates(cs, cls, env, e);
  }

  lemma {:induction false} AssignRuleAnnotates(cs: seq<ClassDecl>, cls: Symbol, env: Scopes, e: Expr)
    requires Acyclic(cs) && e.kind.Assign?
    ensures Annotates(e, TypeOfAssign(cs, cls, env, e))
    ensures ChildrenRecord(cs, cls, env, e, TypeOfAssign(cs, cls, env, e).tree)
    decreases e, 0
  {
    TypeOfAnnotates(cs, cls, env, e.kind.rhs);
  }

  lemma {:induction false} BlockRuleAnnotates(cs: seq<ClassDecl>, cls: Symbol, env: Scopes, e: Expr)
    requires Acyclic(cs) && e.kind.Block?
    ensures Annotates(e, TypeOfBlock(cs, cls, env, e))
    ensures ChildrenRecord(cs, cls, env, e, TypeOfBlock(cs, cls, env, e).tree)
    decreases e, 0
  {
    SeqAnnotates(cs, cls, env, e.kind.exprs);
  }

  lemma {:induction false} UnaryRuleAnnotates(cs: seq<ClassDecl>, cls: Symbol, env: Scopes, e: Expr)
    requires Acyclic(cs) && (e.kind.IsVoid? || e.kind.Neg? || e.kind.Comp?)
    ensures Annotates(e, TypeOfUnary(cs, cls, env, e))
    ensures ChildrenRecord(cs, cls, env, e, TypeOfUnary(cs, cls, env, e).tree)
    decreases e, 0
  {
    TypeOfAnnotates(cs, cls, env, e.kind.e1);
  }

  lemma {:induction false} BinaryRuleAnnotates(cs: seq<ClassDecl>, cls: Symbol, env: Scopes, e: Expr)
    requires Acyclic(cs) && (e.kind.Arith? || e.kind.Compare?)
    ensures Annotates(e, TypeOfBinary(cs, cls, env, e))
    ensures ChildrenRecord(cs, cls, env, e, TypeOfBinary(cs, cls, env, e).tree)
    decreases e, 0
  {
    TypeOfAnnotates(cs, cls, env, e.kind.e1);
    TypeOfAnnotates(cs, cls, env, e.kind.e2);
  }

  lemma {:induction false} CondRuleAnnotates(cs: seq<ClassDecl>, cls: Symbol, env: Scopes, e: Expr)
    requires Acyclic(cs) && e.kind.Cond?
    ensures Annotates(e, TypeOfCond(cs, cls, env, e))
    ensures ChildrenRecord(cs, cls, env, e, TypeOfCond(cs, cls, env, e).tree)
    decreases e, 0
  {
    TypeOfAnnotates(cs, cls, env, e.kind.pred);
    TypeOfAnnotates(cs, cls, env, e.kind.thenExp);
    TypeOfAnnotates(cs, cls, env, e.kind.elseExp);
  }

  lemma {:induction false} LoopRuleAnnotates(cs: seq<ClassDecl>, cls: Symbol, env: Scopes, e: Expr)
    requires Acyclic(cs) && e.kind.Loop?
    ensures Annotates(e, TypeOfLoop(cs, cls, env, e))
    ensures ChildrenRecord(cs, cls, env, e, TypeOfLoop(cs, cls, env, e).tree)
    decreases e, 0
  {
    TypeOfAnnotates(cs, cls, env, e.kind.pred);
    TypeOfAnnotates(cs, cls, env, e.kind.body);
  }

  lemma {:induction false} LetRuleAnnotates(cs: seq<ClassDecl>, cls: Symbol, env: Scopes, e: Expr)
    requires Acyclic(cs) && e.kind.Let?
    ensures Annotates(e, TypeOfLet(cs, cls, env, e))
    ensures ChildrenRecord(cs, cls, env, e, TypeOfLet(cs, cls, env, e).tree)
    decreases e, 0
  {
    TypeOfAnnotates(cs, cls, env, e.kind.init);
    TypeOfAnnotates(cs, cls, Bind(env, e.kind.identifier, e.kind.typeDecl), e.kind.body);
  }

  lemma {:induction false} CaseRuleAnnotates(cs: seq<ClassDecl>, cls: Symbol, env: Scopes, e: Expr)
    requires Acyclic(cs) && e.kind.TypCase?
    ensures Annotates(e, TypeOfCase(cs, cls, env, e))
    ensures ChildrenRecord(cs, cls, env, e, TypeOfCase(cs, cls, env, e).tree)
    decreases e, 0
  {
    TypeOfAnnotates(cs, cls, env, e.kind.scrutinee);
    CaseAnnotates(cs, cls, env, e.kind.cases);
    CaseRecords(cs, cls, env, e.kind.cases);
  }

  lemma {:induction false} DispatchRuleAnnotates(cs: seq<ClassDecl>, cls: Symbol, env: Scopes, e: Expr)
    requires Acyclic(cs) && e.kind.Dispatch?
    ensures Annotates(e, TypeOfDispatch(cs, cls, env, e))
    ensures ChildrenRecord(cs, cls, env, e, TypeOfDispatch(cs, cls, env, e).tree)
    decreases e, 0
  {
    TypeOfAnnotates(cs, cls, env, e.kind.receiver);
    SeqAnnotates(cs, cls, env, e.kind.actuals);
  }

  lemma {:induction false} StaticDispatchRuleAnnotates(cs: seq<ClassDecl>, cls: Symbol, env: Scopes, e: Expr)
    requires Acyclic(cs) && e.kind.StaticDispatch?
    ensures Annotates(e, TypeOfStaticDispatch(cs, cls, env, e))
    ensures ChildrenRecord(cs, cls, env, e, TypeOfStaticDispatch(cs, cls, env, e).tree)
    decreases e, 0
  {
    TypeOfAnnotates(cs, cls, env, e.kind.receiver);
    SeqAnnotates(cs, cls, env, e.kind.actuals);
  }

  lemma {:induction false} SeqAnnotates(cs: seq<ClassDecl>, cls: Symbol, env: Scopes, es: seq<Expr>)
    requires Acyclic(cs)
    ensures AnnotatesAll(es, TypeOfSeq(cs, cls, env, es))
    ensures AllRecord(cs, cls, env, es, TypeOfSeq(cs, cls, env, es).trees)
    decreases es
  {
    if es != [] {
      var n := |es| - 1;
      SeqAnnotates(cs, cls, env, es[..n]);
      TypeOfAnnotates(cs, cls, env, es[n]);
      var js := TypeOfSeq(cs, cls, env, es);
      var p := TypeOfSeq(cs, cls, env, es[..n]);
      assert js.trees == p.trees + [TypeOf(cs, cls, env, es[n]).tree];
      forall i | 0 <= i < |es|
        ensures js.trees[i].ty == Some(js.types[i]) && Typed(js.trees[i]) && Erase(js.trees[i]) == Erase(es[i])
        ensures Records(cs, cls, env, es[i], js.trees[i])
      {
        if i < n {
          assert js.trees[i] == p.trees[i] && js.types[i] == p.types[i] && es[i] == es[..n][i];
          assert EraseAll(p.trees)[i] == EraseAll(es[..n])[i];
          assert Records(cs, cls, env, es[..n][i], p.trees[i]);
        }
      }
    }
  }

  lemma {:induction false} CaseAnnotates(cs: seq<ClassDecl>, cls: Symbol, env: Scopes, bs: seq<Branch>)
    requires Acyclic(cs)
    ensures AnnotatesBranches(bs, CaseFold(cs, cls, env, bs))
    decreases bs
  {
    if bs != [] {
      var n := |bs| - 1;
      var b := bs[n];
      assert bs decreases to b;
      CaseAnnotates(cs, cls, env, bs[..n]);
      TypeOfAnnotates(cs, cls, Bind(env, b.name, b.typeDecl), b.body);
      var st := CaseFold(cs, cls, env, bs);
      var p := CaseFold(cs, cls, env, bs[..n]);
      var j := TypeOf(cs, cls, Bind(env, b.name, b.typeDecl), b.body);
      assert st == CaseStep(cs, cls, env, p, b);
      assert st.branches == p.branches + [Branch(b.name, b.typeDecl, j.tree)];
      assert st.types == p.types + [j.ty];
      forall i | 0 <= i < |bs|
        ensures st.branches[i].body.ty == Some(st.types[i]) && Typed(st.branches[i].body)
        ensures st.branches[i].name == bs[i].name && st.branches[i].typeDecl == bs[i].typeDecl
        ensures Erase(st.branches[i].body) == Erase(bs[i].body)
      {
        if i < n {
          assert st.branches[i] == p.branches[i] && st.types[i] == p.types[i] && bs[i] == bs[..n][i];
          assert EraseBranches(p.branches)[i] == EraseBranches(bs[..n])[i];
        }
      }
    }
  }

  lemma {:induction false} CaseRecords(cs: seq<ClassDecl>, cls: Symbol, env: Scopes, bs: seq<Branch>)
    requires Acyclic(cs)
    ensures BranchesRecord(cs, cls, env, bs, CaseFold(cs, cls, env, bs).branches)
    decreases bs
  {
    if bs != [] {
      var n := |bs| - 1;
      var b := bs[n];
      assert bs decreases to b;
      CaseRecords(cs, cls, env, bs[..n]);
      TypeOfAnnotates(cs, cls, Bind(env, b.name, b.typeDecl), b.body);
      var st := CaseFold(cs, cls, env, bs);
      var p := CaseFold(cs, cls, env, bs[..n]);
      var j := TypeOf(cs, cls, Bind(env, b.name, b.typeDecl), b.body);
      assert st == CaseStep(cs, cls, env, p, b);
      assert st.branches == p.branches + [Branch(b.name, b.typeDecl, j.tree)];
      forall i | 0 <= i < |bs|
        ensures BranchRecords(cs, cls, env, bs, i, st.branches[i])
      {
        if i < n {
          assert st.branches[i] == p.branches[i] && bs[i] == bs[..n][i];
          assert BranchRecords(cs, cls, env, bs[..n], i, p.branches[i]);
        }
      }
    }
  }
}
