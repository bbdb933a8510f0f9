/** The object environment: a stack of scopes mapping identifiers to their
    declared types, innermost scope first. The scoped table itself is an
    external collaborator; only its interface and its lookup order matter to
    the type checker. */
module Environment {
  import opened Symbols
  import opened Syntax

  type Scopes = seq<map<Symbol, Symbol>>

  /** Innermost-first lookup: the binding of `x` in the first scope that binds it. */
  function LookupIn(scopes: Scopes, x: Symbol): Option<Symbol>
  {
    if scopes == [] then None
    else if x in scopes[0] then Some(scopes[0][x])
    else LookupIn(scopes[1..], x)
  }

  /** Lookup fails exactly when no scope binds `x`, and otherwise returns the
      binding of the innermost scope that binds `x`. */
  lemma {:induction false} LookupInnermost(scopes: Scopes, x: Symbol)
    ensures LookupIn(scopes, x).None? <==> forall i :: 0 <= i < |scopes| ==> x !in scopes[i]
    ensures LookupIn(scopes, x).Some? ==>
              exists i :: 0 <= i < |scopes| && x in scopes[i] && scopes[i][x] == LookupIn(scopes, x).value &&
                forall j :: 0 <= j < i ==> x !in scopes[j]
    decreases |scopes|
  {
    if scopes != [] && x !in scopes[0] {
      LookupInnermost(scopes[1..], x);
      assert forall i :: 1 <= i < |scopes| ==> scopes[i] == scopes[1..][i - 1];
      if LookupIn(scopes, x).Some? {
        var i :| 0 <= i < |scopes[1..]| && x in scopes[1..][i] && scopes[1..][i][x] == LookupIn(scopes, x).value &&
                 forall j :: 0 <= j < i ==> x !in scopes[1..][j];
        assert x in scopes[i + 1];
      }
    }
  }

  /** A new innermost scope binding exactly `x : t`. */
  function Bind(scopes: Scopes, x: Symbol, t: Symbol): Scopes
  {
    [map[x := t]] + scopes
  }

  /** The new binding shadows every outer binding of `x` and hides no other name. */
  lemma BindShadows(scopes: Scopes, x: Symbol, t: Symbol, y: Symbol)
    ensures LookupIn(Bind(scopes, x, t), x) == Some(t)
    ensures y != x ==> LookupIn(Bind(scopes, x, t), y) == LookupIn(scopes, y)
  {
    assert Bind(scopes, x, t)[1..] == scopes;
  }

  /** The scoped symbol table the checker threads through every rule. */
  class SymbolTable {
    var scopes: Scopes

    constructor ()
      ensures scopes == []
    {
      scopes := [];
    }

    method EnterScope()
      modifies this`scopes
      ensures scopes == [map[]] + old(scopes)
    {
      scopes := [map[]] + scopes;
    }

    method ExitScope()
      requires |scopes| > 0
      modifies this`scopes
      ensures scopes == old(scopes)[1..]
    {
      scopes := scopes[1..];
    }

    /** Binds `x` in the innermost scope; a later binding of the same name
        in that scope replaces the earlier one. */
    method AddId(x: Symbol, t: Symbol)
      requires |scopes| > 0
      modifies this`scopes
      ensures scopes == [old(scopes)[0][x := t]] + old(scopes)[1..]
    {
      scopes := [scopes[0][x := t]] + scopes[1..];
    }

    function Lookup(x: Symbol): Option<Symbol>
      reads this
    {
      LookupIn(scopes, x)
    }
  }
}
