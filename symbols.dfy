/** Interned names of the Cool semantic analyser.
    The compiler interns every identifier; the predefined ones are distinct
    constructors here and every other name is an `Id`. */
module Symbols {

  datatype Symbol =
    // class and type names with a fixed meaning
    | Object | IO | Int | Bool | Str | SelfType
    // the bottom type of `no_expr` and the "no parent" marker above Object
    | NoType | NoClass
    // identifiers the runtime system relies on
    | Self | Main | MainMeth | Arg | Arg2
    | Abort | TypeName | Copy | OutString | OutInt | InString | InInt
    | Length | Concat | Substr | Val | StrField | PrimSlot
    // every other interned name; interning maps a predefined spelling to
    // its constructor above, so an `Id` never spells a predefined name
    | Id(text: string)

  /** SELF_TYPE stands for the enclosing class when types are compared or
      joined; every other type is left alone. */
  function Normalize(t: Symbol, currentClass: Symbol): (r: Symbol)
    ensures t == SelfType ==> r == currentClass
    ensures t != SelfType ==> r == t
    ensures r != SelfType || currentClass == SelfType
    ensures r == SelfType ==> t == SelfType
  {
    if t == SelfType then currentClass else t
  }
}
