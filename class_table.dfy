/** The class table: the program's classes behind the five built-in ones,
    the error counter, and the walks over the inheritance graph. */
module ClassTables {
  import opened Symbols
  import opened Syntax
  import opened Inheritance

  const BasicFile: string := "<basic class>"

  /** Object, IO, Int, Bool and String with the signatures the runtime
      provides; their method bodies are empty. */
  function BasicClasses(): (r: seq<ClassDecl>)
    ensures |r| == 5
  {
    [ ClassDecl(Object, NoClass,
        [ Method(Abort, [], Object, NoBody),
          Method(TypeName, [], Str, NoBody),
          Method(Copy, [], SelfType, NoBody) ],
        BasicFile),
      ClassDecl(IO, Object,
        [ Method(OutString, [Formal(Arg, Str)], SelfType, NoBody),
          Method(OutInt, [Formal(Arg, Int)], SelfType, NoBody),
          Method(InString, [], Str, NoBody),
          Method(InInt, [], Int, NoBody) ],
        BasicFile),
      ClassDecl(Int, Object, [Attr(Val, PrimSlot, NoBody)], BasicFile),
      ClassDecl(Bool, Object, [Attr(Val, PrimSlot, NoBody)], BasicFile),
      ClassDecl(Str, Object,
        [ Attr(Val, Int, NoBody),
          Attr(StrField, PrimSlot, NoBody),
          Method(Length, [], Int, NoBody),
          Method(Concat, [Formal(Arg, Str)], Str, NoBody),
          Method(Substr, [Formal(Arg, Int), Formal(Arg2, Int)], Str, NoBody) ],
        BasicFile) ]
  }

  /** The built-in classes come first, so a program class that reuses one of
      their names is never found: the `k`-th built-in entry decides that
      name's parent, file and methods. */
  lemma BuiltinsShadowProgramClasses(program: seq<ClassDecl>, k: nat, m: Symbol)
    requires k < 5
    ensures var cs, b := BasicClasses() + program, BasicClasses()[k];
      && ClassIndex(cs, b.name) == Some(k)
      && Parent(cs, b.name) == b.parent
      && Filename(cs, b.name) == BasicFile
      && DeclaredMethod(cs, b.name, m) == DeclaredMethod(BasicClasses(), b.name, m)
  {
    PrefixIndex(BasicClasses(), program, k);
    assert (BasicClasses() + program)[k] == BasicClasses()[k];
  }

  /** Object is the root of the built-in hierarchy and the other four built-ins
      are its direct children. */
  lemma BasicHierarchy(program: seq<ClassDecl>)
    ensures var cs := BasicClasses() + program;
      && Parent(cs, Object) == NoClass
      && Parent(cs, IO) == Object && Parent(cs, Int) == Object
      && Parent(cs, Bool) == Object && Parent(cs, Str) == Object
  {
    var bs := BasicClasses();
    assert bs[0].name == Object && bs[1].name == IO && bs[2].name == Int;
    assert bs[3].name == Bool && bs[4].name == Str;
    BuiltinsShadowProgramClasses(program, 0, Abort);
    BuiltinsShadowProgramClasses(program, 1, Abort);
    BuiltinsShadowProgramClasses(program, 2, Abort);
    BuiltinsShadowProgramClasses(program, 3, Abort);
    BuiltinsShadowProgramClasses(program, 4, Abort);
  }

  /** The semantic-analysis state: the class list and the error counter. */
  class ClassTable {
    const classes: seq<ClassDecl>
    var semantErrors: nat

    /** Installs the built-in classes in front of the program's classes. */
    constructor (program: seq<ClassDecl>)
      ensures classes == BasicClasses() + program
      ensures semantErrors == 0
    {
      classes := BasicClasses() + program;
      semantErrors := 0;
    }

    /** Reports one error: the counter goes up by exactly one. */
    method SemantError()
      modifies this`semantErrors
      ensures semantErrors == old(semantErrors) + 1
    {
      semantErrors := semantErrors + 1;
    }

    /** The parent of the first class entry named `className`, else `NoClass`. */
    method ParentOf(className: Symbol) returns (p: Symbol)
      ensures p == Parent(classes, className)
    {
      for i := 0 to |classes|
        invariant forall j :: 0 <= j < i ==> classes[j].name != className
      {
        if classes[i].name == className {
          ClassIndexAt(classes, className, i);
          return classes[i].parent;
        }
      }
      ClassIndexNone(classes, className);
      return NoClass;
    }

    /** The file of the first class entry named `className`, else "<unknown>". */
    method FilenameOf(className: Symbol) returns (f: string)
      ensures f == Filename(classes, className)
    {
      for i := 0 to |classes|
        invariant forall j :: 0 <= j < i ==> classes[j].name != className
      {
        if classes[i].name == className {
          ClassIndexAt(classes, className, i);
          return classes[i].filename;
        }
      }
      ClassIndexNone(classes, className);
      return "<unknown>";
    }

    /** The subtype test; the walk up from `child` needs its chain to end. */
    method Conforms(child: Symbol, parent: Symbol) returns (b: bool)
      requires child == parent || child == NoType || parent == Object || ReachesRoot(classes, child)
      ensures b == ConformsTo(classes, child, parent)
    {
      if child == parent { return true; }
      if child == NoType { return true; }
      if parent == Object { return true; }
      var cur := child;
      while cur != NoClass
        invariant ReachesRoot(classes, cur)
        invariant (parent in Ancestors(classes, child)) == (parent in Ancestors(classes, cur))
        decreases |Ancestors(classes, cur)|
      {
        if cur == parent {
          ConformsStop(classes, cur);
          return true;
        }
        ConformsStep(classes, cur, parent);
        cur := ParentOf(cur);
      }
      ConformsStop(classes, cur);
      return false;
    }

    /** The join: collect the inclusive ancestors of `a`, then walk up from
        `b` to the first of them. */
    method Lub(a: Symbol, b: Symbol) returns (r: Symbol)
      requires a == NoType || b == NoType || (ReachesRoot(classes, a) && ReachesRoot(classes, b))
      ensures r == Join(classes, a, b)
    {
      if a == NoType { return b; }
      if b == NoType { return a; }
      var ancestors: set<Symbol> := {};
      var cur := a;
      ghost var walked: seq<Symbol> := [];
      while cur != NoClass
        invariant ReachesRoot(classes, cur)
        invariant Ancestors(classes, a) == walked + Ancestors(classes, cur)
        invariant ancestors == set x | x in walked
        decreases |Ancestors(classes, cur)|
      {
        ancestors := ancestors + {cur};
        ChainStep(classes, a, walked, cur);
        walked := walked + [cur];
        cur := ParentOf(cur);
      }
      assert walked == Ancestors(classes, a);
      cur := b;
      walked := [];
      while cur != NoClass
        invariant ReachesRoot(classes, cur)
        invariant Ancestors(classes, b) == walked + Ancestors(classes, cur)
        invariant forall j :: 0 <= j < |walked| ==> walked[j] !in ancestors
        decreases |Ancestors(classes, cur)|
      {
        if cur in ancestors {
          assert Ancestors(classes, b)[|walked|] == cur;
          JoinAt(classes, a, b, |walked|);
          return cur;
        }
        ChainStep(classes, b, walked, cur);
        walked := walked + [cur];
        cur := ParentOf(cur);
      }
      JoinDisjoint(classes, a, b);
      return Object;
    }

    /** The scan of one feature list for the first method named `methodName`. */
    static method MethodIn(fs: seq<Feature>, methodName: Symbol) returns (r: Option<Feature>)
      ensures r.None? <==> MethodIndex(fs, methodName).None?
      ensures r.Some? ==> r.value == fs[MethodIndex(fs, methodName).value]
    {
      for j := 0 to |fs|
        invariant forall k :: 0 <= k < j ==> !(fs[k].Method? && fs[k].name == methodName)
      {
        if fs[j].Method? && fs[j].name == methodName {
          MethodIndexAt(fs, methodName, j);
          return Some(fs[j]);
        }
      }
      MethodIndexNone(fs, methodName);
      return None;
    }

    /** The scan for the first class entry named `className`. */
    method FindClass(className: Symbol) returns (r: Option<nat>)
      ensures r == ClassIndex(classes, className)
    {
      for i := 0 to |classes|
        invariant forall j :: 0 <= j < i ==> classes[j].name != className
      {
        if classes[i].name == className {
          ClassIndexAt(classes, className, i);
          return Some(i);
        }
      }
      ClassIndexNone(classes, className);
      return None;
    }

    /** The inner scans of `lookup_method`: the first class entry named
        `className`, and in its features the first method named `methodName`. */
    method OwnMethod(className: Symbol, methodName: Symbol) returns (r: Option<Feature>)
      ensures r == DeclaredMethod(classes, className, methodName)
    {
      var i := FindClass(className);
      if i.None? {
        return None;
      }
      r := MethodIn(classes[i.value].features, methodName);
    }

    /** The nearest declaration of `methodName` on the chain of `className`. */
    method LookupMethod(className: Symbol, methodName: Symbol) returns (r: Option<Feature>)
      requires ReachesRoot(classes, className)
      ensures r == ResolveMethod(classes, className, methodName)
      ensures r.Some? ==> r.value.Method? && r.value.name == methodName
    {
      var cur := className;
      while cur != NoClass
        invariant ReachesRoot(classes, cur)
        invariant ResolveMethod(classes, className, methodName) == ResolveMethod(classes, cur, methodName)
        decreases |Ancestors(classes, cur)|
      {
        var own := OwnMethod(cur, methodName);
        if own.Some? {
          ResolveNearestFirst(classes, cur, methodName);
          return own;
        }
        ResolveSkip(classes, cur, methodName);
        cur := ParentOf(cur);
      }
      return None;
    }
  }
}
