/** The inheritance graph as the class table's linear scans see it: the
    first class entry with a given name decides its parent, its file and its
    methods; conformance, join and method resolution follow the parent chain
    from a class up to the `NoClass` marker. */
module Inheritance {
  import opened Symbols
  import opened Syntax

  /** Index of the first class entry named `name`, the entry every scan of the
      class list stops at. */
  function ClassIndex(cs: seq<ClassDecl>, name: Symbol): (r: Option<nat>)
    ensures r.Some? ==> r.value < |cs| && cs[r.value].name == name
  {
    if cs == [] then None
    else if cs[0].name == name then Some(0)
    else
      match ClassIndex(cs[1..], name)
      case None => None
      case Some(i) => Some(i + 1)
  }

  /** The entry found is the first one named `name`, and none is found
      exactly when no entry is named `name`. */
  lemma {:induction false} ClassIndexFirst(cs: seq<ClassDecl>, name: Symbol)
    ensures ClassIndex(cs, name).Some? ==>
              forall j :: 0 <= j < ClassIndex(cs, name).value ==> cs[j].name != name
    ensures ClassIndex(cs, name).None? <==> forall j :: 0 <= j < |cs| ==> cs[j].name != name
    decreases |cs|
  {
    if cs != [] && cs[0].name != name {
      ClassIndexFirst(cs[1..], name);
      assert forall j :: 1 <= j < |cs| ==> cs[j] == cs[1..][j - 1];
    }
  }

  /** A scan that meets `name` at `i` and nowhere before has found the entry. */
  lemma ClassIndexAt(cs: seq<ClassDecl>, name: Symbol, i: nat)
    requires i < |cs| && cs[i].name == name && forall j :: 0 <= j < i ==> cs[j].name != name
    ensures ClassIndex(cs, name) == Some(i)
  {
    ClassIndexFirst(cs, name);
  }

  /** A scan that never meets `name` has found nothing. */
  lemma ClassIndexNone(cs: seq<ClassDecl>, name: Symbol)
    requires forall j :: 0 <= j < |cs| ==> cs[j].name != name
    ensures ClassIndex(cs, name).None?
  {
    ClassIndexFirst(cs, name);
  }

  /** An entry whose name no earlier entry of `pre` carries is the one
      found in `pre` and in any list that continues `pre`. */
  lemma PrefixIndex(pre: seq<ClassDecl>, post: seq<ClassDecl>, k: nat)
    requires k < |pre| && forall j :: 0 <= j < k ==> pre[j].name != pre[k].name
    ensures ClassIndex(pre + post, pre[k].name) == Some(k)
    ensures ClassIndex(pre, pre[k].name) == Some(k)
  {
    assert (pre + post)[k] == pre[k];
    ClassIndexAt(pre + post, pre[k].name, k);
    ClassIndexAt(pre, pre[k].name, k);
  }

  /** The declared parent of `name`, or `NoClass` for an unknown class. */
  function Parent(cs: seq<ClassDecl>, name: Symbol): Symbol
  {
    match ClassIndex(cs, name)
    case Some(i) => cs[i].parent
    case None => NoClass
  }

  /** The file `name` was declared in, or "<unknown>". */
  function Filename(cs: seq<ClassDecl>, name: Symbol): string
  {
    match ClassIndex(cs, name)
    case Some(i) => cs[i].filename
    case None => "<unknown>"
  }

  /** The parent chain from `s` reaches `NoClass` in at most `n` steps. */
  predicate Reaches(cs: seq<ClassDecl>, s: Symbol, n: nat)
    decreases n
  {
    s == NoClass || (n > 0 && Reaches(cs, Parent(cs, s), n - 1))
  }

  /** The parent chain from `s` ends: a chain without a cycle visits each
      class at most once, so `|cs| + 1` steps are enough. */
  predicate ReachesRoot(cs: seq<ClassDecl>, s: Symbol)
  {
    Reaches(cs, s, |cs| + 1)
  }

  /** No inheritance cycle: every chain ends at `NoClass`. The class table
      does not check this, and its chain walks terminate only under it. */
  ghost predicate Acyclic(cs: seq<ClassDecl>)
  {
    forall s :: ReachesRoot(cs, s)
  }

  /** An acyclic class list in which no class is named No_type or No_class,
      none inherits from No_type, and Object has no parent. A program cannot
      write No_type or No_class, and the built-in Object comes first, so
      only acyclicity is assumed here. */
  ghost predicate Grounded(cs: seq<ClassDecl>)
  {
    && Acyclic(cs)
    && Parent(cs, Object) == NoClass
    && forall i :: 0 <= i < |cs| ==>
         cs[i].name != NoType && cs[i].name != NoClass && cs[i].parent != NoType
  }

  /** Assumed of the class lists the lemmas that require it speak about:
      a grounded list in which, moreover, no class is named SELF_TYPE or
      inherits from it. SELF_TYPE a program can write, and the class table
      accepts a class named or inheriting SELF_TYPE; such programs are
      outside these lemmas. */
  ghost predicate Wellformed(cs: seq<ClassDecl>)
  {
    && Grounded(cs)
    && forall i :: 0 <= i < |cs| ==> cs[i].name != SelfType && cs[i].parent != SelfType
  }

  function AncestorsWithin(cs: seq<ClassDecl>, s: Symbol, n: nat): (r: seq<Symbol>)
    requires Reaches(cs, s, n)
    ensures NoClass !in r
    ensures s != NoClass ==> |r| > 0 && r[0] == s
    ensures s == NoClass ==> r == []
    decreases n
  {
    if s == NoClass then [] else [s] + AncestorsWithin(cs, Parent(cs, s), n - 1)
  }

  /** The inclusive ancestor chain of `s`: `s`, its parent, ..., up to and
      excluding `NoClass`. */
  function Ancestors(cs: seq<ClassDecl>, s: Symbol): seq<Symbol>
    requires ReachesRoot(cs, s)
  {
    AncestorsWithin(cs, s, |cs| + 1)
  }

  lemma {:induction false} ReachesMore(cs: seq<ClassDecl>, s: Symbol, n: nat, m: nat)
    requires Reaches(cs, s, n) && n <= m
    ensures Reaches(cs, s, m)
    ensures AncestorsWithin(cs, s, n) == AncestorsWithin(cs, s, m)
    decreases n
  {
    if s != NoClass {
      ReachesMore(cs, Parent(cs, s), n - 1, m - 1);
    }
  }

  /** One step up the chain: the chain of `s` is `s` followed by the chain of its parent. */
  lemma AncestorsStep(cs: seq<ClassDecl>, s: Symbol)
    requires ReachesRoot(cs, s) && s != NoClass
    ensures ReachesRoot(cs, Parent(cs, s))
    ensures Ancestors(cs, s) == [s] + Ancestors(cs, Parent(cs, s))
  {
    ReachesMore(cs, Parent(cs, s), |cs|, |cs| + 1);
  }

  /** A walk up the chain of `top` that has passed `walked` and stands at
      `cur` moves on to the parent of `cur`. */
  lemma ChainStep(cs: seq<ClassDecl>, top: Symbol, walked: seq<Symbol>, cur: Symbol)
    requires ReachesRoot(cs, top) && ReachesRoot(cs, cur) && cur != NoClass
    requires Ancestors(cs, top) == walked + Ancestors(cs, cur)
    ensures ReachesRoot(cs, Parent(cs, cur))
    ensures Ancestors(cs, top) == (walked + [cur]) + Ancestors(cs, Parent(cs, cur))
  {
    AncestorsStep(cs, cur);
    assert walked + ([cur] + Ancestors(cs, Parent(cs, cur))) == (walked + [cur]) + Ancestors(cs, Parent(cs, cur));
  }

  /** Every element of a chain starts the rest of that chain. */
  lemma {:induction false} AncestorsSuffix(cs: seq<ClassDecl>, s: Symbol, k: nat)
    requires ReachesRoot(cs, s) && k < |Ancestors(cs, s)|
    ensures ReachesRoot(cs, Ancestors(cs, s)[k])
    ensures Ancestors(cs, Ancestors(cs, s)[k]) == Ancestors(cs, s)[k..]
    decreases k
  {
    AncestorsStep(cs, s);
    if k > 0 {
      AncestorsSuffix(cs, Parent(cs, s), k - 1);
    }
  }

  /** Two classes that are each other's ancestors are the same class. */
  lemma AncestorsAntisymmetric(cs: seq<ClassDecl>, x: Symbol, y: Symbol)
    requires ReachesRoot(cs, x) && ReachesRoot(cs, y)
    requires x in Ancestors(cs, y) && y in Ancestors(cs, x)
    ensures x == y
  {
    var i :| 0 <= i < |Ancestors(cs, y)| && Ancestors(cs, y)[i] == x;
    var j :| 0 <= j < |Ancestors(cs, x)| && Ancestors(cs, x)[j] == y;
    AncestorsSuffix(cs, y, i);
    AncestorsSuffix(cs, x, j);
    assert |Ancestors(cs, x)| == |Ancestors(cs, y)| - i;
    assert |Ancestors(cs, y)| == |Ancestors(cs, x)| - j;
    assert i == 0;
    assert Ancestors(cs, y)[0] == y;
  }

  /** An ancestor of an ancestor is an ancestor. */
  lemma AncestorsTransitive(cs: seq<ClassDecl>, x: Symbol, y: Symbol, z: Symbol)
    requires ReachesRoot(cs, x) && y in Ancestors(cs, x)
    ensures ReachesRoot(cs, y)
    ensures z in Ancestors(cs, y) ==> z in Ancestors(cs, x)
  {
    var i :| 0 <= i < |Ancestors(cs, x)| && Ancestors(cs, x)[i] == y;
    AncestorsSuffix(cs, x, i);
    if z in Ancestors(cs, y) {
      var k :| 0 <= k < |Ancestors(cs, y)| && Ancestors(cs, y)[k] == z;
      assert Ancestors(cs, x)[i + k] == z;
    }
  }

  // ---------------------------------------------------------------- conforms

  /** The subtype test: equal types, the bottom type `NoType` below
      everything, `Object` above everything, and otherwise `p` on the parent
      chain of `c`. SELF_TYPE gets no special case. */
  predicate ConformsTo(cs: seq<ClassDecl>, c: Symbol, p: Symbol)
    requires c == p || c == NoType || p == Object || ReachesRoot(cs, c)
  {
    c == p || c == NoType || p == Object || p in Ancestors(cs, c)
  }

  /** One step of the walk of `conforms`: a class other than `p` has `p`
      on its chain exactly when its parent has. */
  lemma ConformsStep(cs: seq<ClassDecl>, cur: Symbol, p: Symbol)
    requires ReachesRoot(cs, cur) && cur != NoClass && cur != p
    ensures ReachesRoot(cs, Parent(cs, cur))
    ensures |Ancestors(cs, Parent(cs, cur))| < |Ancestors(cs, cur)|
    ensures (p in Ancestors(cs, cur)) == (p in Ancestors(cs, Parent(cs, cur)))
  {
    AncestorsStep(cs, cur);
  }

  /** The walk of `conforms` stops at `p` itself, or at `NoClass` whose
      chain is empty. */
  lemma ConformsStop(cs: seq<ClassDecl>, cur: Symbol)
    requires ReachesRoot(cs, cur)
    ensures cur != NoClass ==> cur in Ancestors(cs, cur)
    ensures cur == NoClass ==> Ancestors(cs, cur) == []
  {
  }

  /** A class conforms to its parent. */
  lemma ConformsToParent(cs: seq<ClassDecl>, c: Symbol)
    requires ReachesRoot(cs, c) && c != NoClass && Parent(cs, c) != NoClass
    ensures ConformsTo(cs, c, Parent(cs, c))
  {
    AncestorsStep(cs, c);
  }

  /** Conformance is transitive in a grounded graph. */
  lemma ConformsTransitive(cs: seq<ClassDecl>, a: Symbol, b: Symbol, c: Symbol)
    requires Grounded(cs)
    requires ConformsTo(cs, a, b) && ConformsTo(cs, b, c)
    ensures ConformsTo(cs, a, c)
  {
    if a != b && a != NoType && c != Object && b != c {
      AncestorsStep(cs, Object);
      NoTypeNotAncestor(cs, a);
      AncestorsTransitive(cs, a, b, c);
    }
  }

  /** In a grounded graph `NoType` is on no chain but its own. */
  lemma {:induction false} NoTypeNotAncestor(cs: seq<ClassDecl>, a: Symbol)
    requires Grounded(cs) && a != NoType
    ensures NoType !in Ancestors(cs, a)
    decreases |Ancestors(cs, a)|
  {
    if a != NoClass {
      AncestorsStep(cs, a);
      var p := Parent(cs, a);
      assert p != NoType;
      NoTypeNotAncestor(cs, p);
    }
  }

  /** In a well-formed graph SELF_TYPE is on no chain but its own. */
  lemma {:induction false} SelfTypeNotAncestor(cs: seq<ClassDecl>, a: Symbol)
    requires Wellformed(cs) && a != SelfType
    ensures SelfType !in Ancestors(cs, a)
    decreases |Ancestors(cs, a)|
  {
    if a != NoClass {
      AncestorsStep(cs, a);
      var p := Parent(cs, a);
      assert p != SelfType;
      SelfTypeNotAncestor(cs, p);
    }
  }

  /** Inheritance order is strict: a proper ancestor `c` of `a` does not
      conform to `a`, unless `a` is Object or `c` is the bottom type. */
  lemma StrictAncestorDoesNotConform(cs: seq<ClassDecl>, a: Symbol, c: Symbol)
    requires ReachesRoot(cs, a) && c in Ancestors(cs, a) && c != a
    requires a != Object && c != NoType
    ensures ReachesRoot(cs, c) && !ConformsTo(cs, c, a)
  {
    AncestorsTransitive(cs, a, c, a);
    if a in Ancestors(cs, c) {
      AncestorsAntisymmetric(cs, a, c);
    }
  }

  /** Outside its own class SELF_TYPE conforms only to itself and Object. */
  lemma SelfTypeConformance(cs: seq<ClassDecl>, p: Symbol)
    requires Wellformed(cs)
    ensures ConformsTo(cs, SelfType, p) <==> p == SelfType || p == Object
  {
    AncestorsStep(cs, SelfType);
    assert Ancestors(cs, SelfType) == [SelfType];
  }

  // -------------------------------------------------------------------- join

  /** Index of the first element of `xs` that also occurs in `ys`. */
  function FirstShared(xs: seq<Symbol>, ys: seq<Symbol>): (r: Option<nat>)
    ensures r.Some? ==> r.value < |xs| && xs[r.value] in ys
  {
    if xs == [] then None
    else if xs[0] in ys then Some(0)
    else
      match FirstShared(xs[1..], ys)
      case None => None
      case Some(i) => Some(i + 1)
  }

  /** No earlier element of `xs` occurs in `ys`, and there is no shared
      element exactly when no element of `xs` occurs in `ys`. */
  lemma {:induction false} FirstSharedFirst(xs: seq<Symbol>, ys: seq<Symbol>)
    ensures FirstShared(xs, ys).Some? ==>
              forall j :: 0 <= j < FirstShared(xs, ys).value ==> xs[j] !in ys
    ensures FirstShared(xs, ys).None? <==> forall j :: 0 <= j < |xs| ==> xs[j] !in ys
    decreases |xs|
  {
    if xs != [] && xs[0] !in ys {
      FirstSharedFirst(xs[1..], ys);
      assert forall j :: 1 <= j < |xs| ==> xs[j] == xs[1..][j - 1];
    }
  }

  /** The least upper bound: `NoType` is the identity on either side;
      otherwise the first inclusive ancestor of `b` that is also an inclusive
      ancestor of `a`, or Object when there is none. */
  function Join(cs: seq<ClassDecl>, a: Symbol, b: Symbol): Symbol
    requires a == NoType || b == NoType || (ReachesRoot(cs, a) && ReachesRoot(cs, b))
  {
    if a == NoType then b
    else if b == NoType then a
    else
      match FirstShared(Ancestors(cs, b), Ancestors(cs, a))
      case Some(i) => Ancestors(cs, b)[i]
      case None => Object
  }

  /** The join is the element of `b`'s chain at the first position whose
      element lies on `a`'s chain. */
  lemma JoinAt(cs: seq<ClassDecl>, a: Symbol, b: Symbol, i: nat)
    requires a != NoType && b != NoType && ReachesRoot(cs, a) && ReachesRoot(cs, b)
    requires i < |Ancestors(cs, b)| && Ancestors(cs, b)[i] in Ancestors(cs, a)
    requires forall j :: 0 <= j < i ==> Ancestors(cs, b)[j] !in Ancestors(cs, a)
    ensures Join(cs, a, b) == Ancestors(cs, b)[i]
  {
    FirstSharedFirst(Ancestors(cs, b), Ancestors(cs, a));
  }

  /** Chains that share nothing join at Object. */
  lemma JoinDisjoint(cs: seq<ClassDecl>, a: Symbol, b: Symbol)
    requires a != NoType && b != NoType && ReachesRoot(cs, a) && ReachesRoot(cs, b)
    requires forall j :: 0 <= j < |Ancestors(cs, b)| ==> Ancestors(cs, b)[j] !in Ancestors(cs, a)
    ensures Join(cs, a, b) == Object
  {
    FirstSharedFirst(Ancestors(cs, b), Ancestors(cs, a));
  }

  /** Joining a class with itself gives the class. */
  lemma JoinIdempotent(cs: seq<ClassDecl>, a: Symbol)
    requires ReachesRoot(cs, a) && a != NoClass
    ensures Join(cs, a, a) == a
  {
    if a != NoType {
      assert Ancestors(cs, a)[0] == a;
    }
  }

  /** The join is an upper bound: both operands conform to it. */
  lemma JoinUpperBound(cs: seq<ClassDecl>, a: Symbol, b: Symbol)
    requires ReachesRoot(cs, a) && ReachesRoot(cs, b)
    ensures ConformsTo(cs, a, Join(cs, a, b)) && ConformsTo(cs, b, Join(cs, a, b))
  {
  }

  /** Every common ancestor of `a` and `b` lies on the chain of the first
      ancestor of `b` that `a` shares. */
  lemma FirstSharedIsLowest(cs: seq<ClassDecl>, a: Symbol, b: Symbol, y: Symbol)
    requires ReachesRoot(cs, a) && ReachesRoot(cs, b)
    requires y in Ancestors(cs, a) && y in Ancestors(cs, b)
    ensures FirstShared(Ancestors(cs, b), Ancestors(cs, a)).Some?
    ensures var x := Ancestors(cs, b)[FirstShared(Ancestors(cs, b), Ancestors(cs, a)).value];
            ReachesRoot(cs, x) && x in Ancestors(cs, a) && y in Ancestors(cs, x)
  {
    var xa, xb := Ancestors(cs, a), Ancestors(cs, b);
    var k :| 0 <= k < |xb| && xb[k] == y;
    FirstSharedFirst(xb, xa);
    var i := FirstShared(xb, xa).value;
    AncestorsSuffix(cs, b, i);
    assert xb[i..][k - i] == y;
  }

  /** The join is the least upper bound: below every common upper bound. */
  lemma JoinLeast(cs: seq<ClassDecl>, a: Symbol, b: Symbol, c: Symbol)
    requires Acyclic(cs) && a != NoClass && b != NoClass
    requires ConformsTo(cs, a, c) && ConformsTo(cs, b, c)
    ensures ConformsTo(cs, Join(cs, a, b), c)
  {
    assert ReachesRoot(cs, a) && ReachesRoot(cs, b);
    if a != NoType && b != NoType && c != Object {
      assert Ancestors(cs, a)[0] == a && Ancestors(cs, b)[0] == b;
      FirstSharedIsLowest(cs, a, b, c);
    }
  }

  /** Joining two types other than SELF_TYPE never gives SELF_TYPE. */
  lemma JoinNotSelfType(cs: seq<ClassDecl>, a: Symbol, b: Symbol)
    requires Wellformed(cs) && a != SelfType && b != SelfType
    ensures Join(cs, a, b) != SelfType
  {
    if a != NoType && b != NoType {
      SelfTypeNotAncestor(cs, b);
    }
  }

  /** Joining two classes gives a class: neither No_type nor No_class. */
  lemma JoinIsClass(cs: seq<ClassDecl>, a: Symbol, b: Symbol)
    requires Wellformed(cs) && a != NoType && b != NoType
    ensures Join(cs, a, b) != NoType && Join(cs, a, b) != NoClass
  {
    assert ReachesRoot(cs, a) && ReachesRoot(cs, b);
    NoTypeNotAncestor(cs, b);
    assert NoClass !in Ancestors(cs, b);
  }

  /** Sharing no element is symmetric. */
  lemma DisjointSymmetric(xs: seq<Symbol>, ys: seq<Symbol>)
    requires FirstShared(xs, ys).None?
    ensures FirstShared(ys, xs).None?
  {
    FirstSharedFirst(xs, ys);
    FirstSharedFirst(ys, xs);
    forall j | 0 <= j < |ys| ensures ys[j] !in xs {
      assert forall k :: 0 <= k < |xs| ==> xs[k] != ys[j];
    }
  }

  /** The join does not depend on the order of its operands. */
  lemma JoinCommutative(cs: seq<ClassDecl>, a: Symbol, b: Symbol)
    requires ReachesRoot(cs, a) && ReachesRoot(cs, b)
    ensures Join(cs, a, b) == Join(cs, b, a)
  {
    if a != NoType && b != NoType {
      var xa, xb := Ancestors(cs, a), Ancestors(cs, b);
      var fb := FirstShared(xb, xa);
      if fb.Some? {
        var x := xb[fb.value];
        FirstSharedIsLowest(cs, b, a, x);
        var y := xa[FirstShared(xa, xb).value];
        FirstSharedIsLowest(cs, a, b, y);
        AncestorsAntisymmetric(cs, x, y);
      } else {
        DisjointSymmetric(xb, xa);
      }
    }
  }

  // ------------------------------------------------------ method resolution

  /** Index of the first method named `m` in a feature list. */
  function MethodIndex(fs: seq<Feature>, m: Symbol): (r: Option<nat>)
    ensures r.Some? ==> r.value < |fs| && fs[r.value].Method? && fs[r.value].name == m
  {
    if fs == [] then None
    else if fs[0].Method? && fs[0].name == m then Some(0)
    else
      match MethodIndex(fs[1..], m)
      case None => None
      case Some(i) => Some(i + 1)
  }

  /** The method found is the first one named `m`, and none is found
      exactly when the list holds no method named `m`. */
  lemma {:induction false} MethodIndexFirst(fs: seq<Feature>, m: Symbol)
    ensures MethodIndex(fs, m).Some? ==>
              forall j :: 0 <= j < MethodIndex(fs, m).value ==> !(fs[j].Method? && fs[j].name == m)
    ensures MethodIndex(fs, m).None? <==> forall j :: 0 <= j < |fs| ==> !(fs[j].Method? && fs[j].name == m)
    decreases |fs|
  {
    if fs != [] && !(fs[0].Method? && fs[0].name == m) {
      MethodIndexFirst(fs[1..], m);
      assert forall j :: 1 <= j < |fs| ==> fs[j] == fs[1..][j - 1];
    }
  }

  lemma MethodIndexAt(fs: seq<Feature>, m: Symbol, i: nat)
    requires i < |fs| && fs[i].Method? && fs[i].name == m
    requires forall j :: 0 <= j < i ==> !(fs[j].Method? && fs[j].name == m)
    ensures MethodIndex(fs, m) == Some(i)
  {
    MethodIndexFirst(fs, m);
  }

  lemma MethodIndexNone(fs: seq<Feature>, m: Symbol)
    requires forall j :: 0 <= j < |fs| ==> !(fs[j].Method? && fs[j].name == m)
    ensures MethodIndex(fs, m).None?
  {
    MethodIndexFirst(fs, m);
  }

  /** The method named `m` that class `c` itself declares: only the first
      class entry named `c` is searched, and in it the first such method. */
  function DeclaredMethod(cs: seq<ClassDecl>, c: Symbol, m: Symbol): (r: Option<Feature>)
    ensures r.Some? ==> r.value.Method? && r.value.name == m
  {
    match ClassIndex(cs, c)
    case None => None
    case Some(i) =>
      match MethodIndex(cs[i].features, m)
      case None => None
      case Some(k) => Some(cs[i].features[k])
  }

  /** The declaration of `m` in the nearest class of `chain` that declares it. */
  function ResolveAlong(cs: seq<ClassDecl>, chain: seq<Symbol>, m: Symbol): (r: Option<Feature>)
    ensures r.Some? ==> r.value.Method? && r.value.name == m
  {
    if chain == [] then None
    else
      match DeclaredMethod(cs, chain[0], m)
      case Some(f) => Some(f)
      case None => ResolveAlong(cs, chain[1..], m)
  }

  /** Resolution along a chain fails exactly when no class of the chain
      declares `m`, and otherwise returns the declaration of the first class
      of the chain that does. */
  lemma {:induction false} ResolveAlongNearest(cs: seq<ClassDecl>, chain: seq<Symbol>, m: Symbol)
    ensures ResolveAlong(cs, chain, m).None? <==>
              forall k :: 0 <= k < |chain| ==> DeclaredMethod(cs, chain[k], m).None?
    ensures ResolveAlong(cs, chain, m).Some? ==>
              exists k :: 0 <= k < |chain| && DeclaredMethod(cs, chain[k], m) == ResolveAlong(cs, chain, m) &&
                forall j :: 0 <= j < k ==> DeclaredMethod(cs, chain[j], m).None?
    decreases |chain|
  {
    if chain != [] {
      if DeclaredMethod(cs, chain[0], m).None? {
        ResolveAlongNearest(cs, chain[1..], m);
        assert forall k :: 1 <= k < |chain| ==> chain[k] == chain[1..][k - 1];
        if ResolveAlong(cs, chain, m).Some? {
          var k :| 0 <= k < |chain[1..]| && DeclaredMethod(cs, chain[1..][k], m) == ResolveAlong(cs, chain, m) &&
                   forall j :: 0 <= j < k ==> DeclaredMethod(cs, chain[1..][j], m).None?;
          assert DeclaredMethod(cs, chain[k + 1], m) == ResolveAlong(cs, chain, m);
        }
      } else {
        assert DeclaredMethod(cs, chain[0], m) == ResolveAlong(cs, chain, m);
      }
    }
  }

  /** `lookup_method`: the nearest declaration of `m` on the chain of `c`. */
  function ResolveMethod(cs: seq<ClassDecl>, c: Symbol, m: Symbol): Option<Feature>
    requires ReachesRoot(cs, c)
  {
    ResolveAlong(cs, Ancestors(cs, c), m)
  }

  /** A class's own declaration overrides every inherited one, and a class
      that declares no `m` resolves it exactly as its parent does. */
  lemma ResolveNearestFirst(cs: seq<ClassDecl>, c: Symbol, m: Symbol)
    requires ReachesRoot(cs, c) && c != NoClass
    ensures ReachesRoot(cs, Parent(cs, c))
    ensures DeclaredMethod(cs, c, m).Some? ==> ResolveMethod(cs, c, m) == DeclaredMethod(cs, c, m)
    ensures DeclaredMethod(cs, c, m).None? ==> ResolveMethod(cs, c, m) == ResolveMethod(cs, Parent(cs, c), m)
  {
    AncestorsStep(cs, c);
    assert Ancestors(cs, c)[1..] == Ancestors(cs, Parent(cs, c));
  }

  /** A class that does not declare `m` hands resolution to its parent,
      whose chain is shorter. */
  lemma ResolveSkip(cs: seq<ClassDecl>, c: Symbol, m: Symbol)
    requires ReachesRoot(cs, c) && c != NoClass && DeclaredMethod(cs, c, m).None?
    ensures ReachesRoot(cs, Parent(cs, c))
    ensures |Ancestors(cs, Parent(cs, c))| < |Ancestors(cs, c)|
    ensures ResolveMethod(cs, c, m) == ResolveMethod(cs, Parent(cs, c), m)
  {
    AncestorsStep(cs, c);
    ResolveNearestFirst(cs, c, m);
  }

  /** A name that no class entry carries, `NoType` included in a well-formed
      table, has no methods at all. */
  lemma ResolveUnknownClass(cs: seq<ClassDecl>, c: Symbol, m: Symbol)
    requires ReachesRoot(cs, c) && ClassIndex(cs, c).None?
    ensures ResolveMethod(cs, c, m).None?
  {
    if c != NoClass {
      AncestorsStep(cs, c);
      assert Ancestors(cs, c) == [c];
      assert DeclaredMethod(cs, c, m).None?;
      assert ResolveAlong(cs, [c][1..], m).None? by { assert [c][1..] == []; }
    }
  }

  /** Resolution fails exactly when no class on the chain declares `m`. */
  lemma ResolveFailsIffUndeclared(cs: seq<ClassDecl>, c: Symbol, m: Symbol)
    requires ReachesRoot(cs, c)
    ensures ResolveMethod(cs, c, m).None? <==>
            forall x :: x in Ancestors(cs, c) ==> DeclaredMethod(cs, x, m).None?
  {
    var chain := Ancestors(cs, c);
    ResolveAlongNearest(cs, chain, m);
    if ResolveMethod(cs, c, m).None? {
      forall x | x in chain ensures DeclaredMethod(cs, x, m).None? {
        var k :| 0 <= k < |chain| && chain[k] == x;
      }
    }
  }
}
