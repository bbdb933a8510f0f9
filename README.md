# Cool semantic analysis: class table queries and type rules

This project models the semantic-analysis core of a Cool compiler (`PA4/semant.cc`). It covers:

- **The class table.** It is the user's classes with the five built-in classes (Object, IO, Int, Bool, String) placed in front. Its queries are:
  - `parent_of` and `filename_of`: the first class of a given name wins;
  - `conforms`: the walk up the parent chain;
  - `lub`: the join of two classes, the first class on `b`'s chain that also lies on `a`'s;
  - `lookup_method`: the nearest declaration of a method along the chain;
  - the error counter `semant_errors`.
- **SELF_TYPE normalisation.** SELF_TYPE is read as the current class wherever the checker compares or joins types.
- **The `tc` rule of every expression kind.** Each rule returns a type, records it on the node and adds to the error counter. `let` and `case` push and pop scopes of the object environment.
- **The driver `program_class::semant`.** For each class in order, it:
  - opens a scope holding `self : SELF_TYPE` and the class's own attributes;
  - checks every attribute initialiser;
  - then checks every method body with its formals in a scope of their own, and compares the body's type with the declared return type;
  - stops after the first class once any error has been reported.

How the model is laid out:

- **The type rules are functions** (module `TypeRules`). For an expression, the type environment and the class list, `TypeOf` gives the expression's type, its annotated copy and the number of errors reported while checking it.
- **The checker is imperative** (modules `ClassTables` and `Checker`). It is a `ClassTable` class holding the class list and the mutable error counter, and a `SymbolTable` class holding the stack of scopes. The `Tc…` methods walk the expression, update the counter and push and pop scopes as the source does.
- **Each method is proved against its rule function.** On return, the counter has grown by exactly the rule's error count. The result and the annotated tree are the rule's. The scopes are as they were on entry.
- **The class-table loops are proved against chain functions** (module `Inheritance`):
  - `Conforms`, `Lub` and `LookupMethod` are proved against `Ancestors` (the inclusive parent chain), `ConformsTo`, `Join` and `ResolveMethod`;
  - lemmas then state what those functions mean: conformance is a preorder, the join is the least upper bound and is commutative, and method lookup finds the nearest declaration.

Modules:

- `Symbols`: the symbols the checker names, and `Normalize`.
- `Syntax`: expressions, branches, formals, features and class declarations.
- `Inheritance`: class lookup, parent chains, conformance, the join and method resolution on a list of classes.
- `Environment`: the scope stack and the `SymbolTable` class.
- `ClassTables`: the built-in classes and the `ClassTable` class.
- `TypeRules`: the type rules and the driver, as functions.
- `Checker`: the imperative checker, proved against `TypeRules`.
- `Annotation`: every node of a checked tree records the type its rule gives.
- `TypingFacts` and `RuleFacts`: what the rules, the case walk and the driver promise.

Inheritance cycles are never checked in the source: the class-table constructor skips that step. The walks up a parent chain therefore terminate only on an acyclic class list. Every member that walks a chain requires `Acyclic` (every class's chain reaches `No_class`) or `ReachesRoot` for the class it starts from.

Where the code and the usual statement of Cool's rules differ, the model follows the code:

- Only a class's own attributes are in scope in its methods, not inherited ones.
- An attribute initialiser is checked, but its type is not compared with the attribute's declared type.
- A `let` initialiser is compared with the declared type without reading SELF_TYPE as the current class.
- A `while` predicate is not required to be Bool.
- A `case` with no branches, or whose branches are all SELF_TYPE, has type SELF_TYPE.
- After a wrong number of actuals, no actual is compared with its formal.

## Model

| member | source | states |
|---|---|---|
| Symbols.Normalize | PA4/semant.cc:97-99 | SELF_TYPE becomes the current class, and any other type is unchanged. So the result is SELF_TYPE only when the type and the current class are both SELF_TYPE. |
| Inheritance.ClassIndex | PA4/semant.cc:431-445 | A found index holds a class of the asked name. |
| Inheritance.ClassIndexFirst | PA4/semant.cc:431-445 | The found index is the first class of that name. The result is None exactly when no class has that name. |
| Inheritance.ClassIndexAt | PA4/semant.cc:431-445 | The first class of a name is the one found. |
| Inheritance.ClassIndexNone | PA4/semant.cc:431-445 | A name no class has is not found. |
| Inheritance.PrefixIndex | PA4/semant.cc:212-220 | A class that is first of its name in a front part of the list is found at the same index in the whole list. Classes placed in front shadow later classes of the same name. |
| Inheritance.Parent | PA4/semant.cc:431-437 | Definition: the parent of the first class of that name, or No_class. `ClassTable.ParentOf` is proved equal to it. |
| Inheritance.Filename | PA4/semant.cc:439-445 | Definition: the file of the first class of that name, or `<unknown>`. `ClassTable.FilenameOf` is proved equal to it. |
| Inheritance.Reaches | PA4/semant.cc:397-401 | Definition: the parent walk from a class hits No_class within a given number of steps. |
| Inheritance.ReachesRoot | PA4/semant.cc:397-401 | Definition: the parent walk from a class ends, within one step per class plus one. |
| Inheritance.Acyclic | PA4/semant.cc:102-107 | Definition: every parent walk ends. The constructor never checks this, so every chain walk requires it. |
| Inheritance.Grounded | PA4/semant.cc:102-107 | Definition: acyclic, no class named No_type or No_class, none inheriting No_type, and Object without a parent. Only acyclicity is an assumption: No_type and No_class cannot be written, and the built-in Object comes first. |
| Inheritance.Wellformed | PA4/semant.cc:102-107 | Definition, an assumption: a grounded list in which no class is named SELF_TYPE or inherits from it. The source does not reject such a class (see Left out). |
| Inheritance.AncestorsWithin | PA4/semant.cc:392-403 | The chain from a class starts with that class and never contains No_class. It is empty for No_class. |
| Inheritance.Ancestors | PA4/semant.cc:397-401 | Definition: the classes the parent walk visits from a class, itself included, up to No_class. |
| Inheritance.ReachesMore | PA4/semant.cc:392-403 | A larger step bound gives the same chain. |
| Inheritance.AncestorsStep | PA4/semant.cc:395-401 | A class's chain is the class followed by its parent's chain, and the parent also reaches No_class. |
| Inheritance.ChainStep | PA4/semant.cc:411-425 | One step of a walk up the chain keeps "walked part + chain of the current class = whole chain". |
| Inheritance.AncestorsSuffix | PA4/semant.cc:392-403 | The chain of any ancestor is the tail of the chain from that ancestor on. |
| Inheritance.AncestorsAntisymmetric | PA4/semant.cc:392-403 | Two classes that lie on each other's chains are the same class. |
| Inheritance.AncestorsTransitive | PA4/semant.cc:392-403 | An ancestor of an ancestor is an ancestor. |
| Inheritance.ConformsTo | PA4/semant.cc:392-403 | Definition: `c == p`, `c` is No_type, `p` is Object, or `p` lies on `c`'s chain. `ClassTable.Conforms` is proved equal to it. |
| Inheritance.ConformsStep | PA4/semant.cc:395-401 | Stepping from a class to its parent keeps whether the target is still ahead, and shortens the chain. This is the loop step of `conforms`. |
| Inheritance.ConformsStop | PA4/semant.cc:395-401 | A class other than No_class lies on its own chain. The chain of No_class is empty. |
| Inheritance.ConformsToParent | PA4/semant.cc:392-403 | A class conforms to its parent. |
| Inheritance.ConformsTransitive | PA4/semant.cc:392-403 | Conformance is transitive in every grounded class list, whatever it declares about SELF_TYPE. |
| Inheritance.NoTypeNotAncestor | PA4/semant.cc:392-403 | In every grounded class list, No_type is never on the chain of another class. |
| Inheritance.SelfTypeNotAncestor | PA4/semant.cc:392-403 | SELF_TYPE is never on the chain of another class. |
| Inheritance.StrictAncestorDoesNotConform | PA4/semant.cc:392-403 | A proper ancestor other than No_type does not conform to its descendant, unless the descendant is Object. |
| Inheritance.SelfTypeConformance | PA4/semant.cc:392-403 | SELF_TYPE conforms to a type exactly when that type is SELF_TYPE or Object. |
| Inheritance.FirstShared | PA4/semant.cc:420-425 | A found position holds an element of the other list. |
| Inheritance.FirstSharedFirst | PA4/semant.cc:420-425 | The found position is the first shared one. None means no element is shared. |
| Inheritance.Join | PA4/semant.cc:405-428 | Definition: No_type is the identity on either side. Otherwise the first class on `b`'s chain that lies on `a`'s chain, else Object. `ClassTable.Lub` is proved equal to it. |
| Inheritance.JoinAt | PA4/semant.cc:405-428 | The join of two classes is the first class on `b`'s chain that lies on `a`'s chain. |
| Inheritance.JoinDisjoint | PA4/semant.cc:426-427 | When the two chains share no class, the join is Object. |
| Inheritance.JoinIdempotent | PA4/semant.cc:405-428 | The join of a class with itself is that class. |
| Inheritance.JoinUpperBound | PA4/semant.cc:405-428 | Both operands conform to their join. |
| Inheritance.FirstSharedIsLowest | PA4/semant.cc:405-428 | The first shared class on `b`'s chain lies below every other common ancestor. |
| Inheritance.JoinLeast | PA4/semant.cc:405-428 | The join conforms to every common upper bound, so it is the least upper bound. |
| Inheritance.JoinNotSelfType | PA4/semant.cc:405-428 | The join of two types other than SELF_TYPE is not SELF_TYPE. |
| Inheritance.JoinIsClass | PA4/semant.cc:405-428 | The join of two types other than No_type is neither No_type nor No_class. |
| Inheritance.DisjointSymmetric | PA4/semant.cc:417-425 | Two lists share no element in either order or in neither. |
| Inheritance.JoinCommutative | PA4/semant.cc:405-428 | The join is symmetric in its operands. |
| Inheritance.MethodIndex | PA4/semant.cc:268-274 | A found position holds a method of the asked name. |
| Inheritance.MethodIndexFirst | PA4/semant.cc:268-274 | The found position is the first method of that name in the feature list. None means the list declares no such method. |
| Inheritance.MethodIndexAt | PA4/semant.cc:268-274 | The first method of a name is the one found. |
| Inheritance.MethodIndexNone | PA4/semant.cc:268-274 | A list without that method yields None. |
| Inheritance.DeclaredMethod | PA4/semant.cc:257-280 | A method a class declares has the asked name. Only the first class entry of a name is searched. |
| Inheritance.ResolveAlong | PA4/semant.cc:257-280 | A resolved method has the asked name. |
| Inheritance.ResolveAlongNearest | PA4/semant.cc:257-280 | The result is None exactly when no class on the chain declares the method. Otherwise it is the declaration of the nearest class that does. |
| Inheritance.ResolveMethod | PA4/semant.cc:257-280 | Definition: the first declaration found along the class's chain, each class searched in its first entry only. `ClassTable.LookupMethod` is proved equal to it. |
| Inheritance.ResolveNearestFirst | PA4/semant.cc:262-278 | A class's own declaration wins. Without one, the search goes on from the parent. |
| Inheritance.ResolveSkip | PA4/semant.cc:262-278 | A class without the method passes the search to its parent, whose chain is shorter. |
| Inheritance.ResolveUnknownClass | PA4/semant.cc:257-280 | A class name the table does not hold resolves no method. |
| Inheritance.ResolveFailsIffUndeclared | PA4/semant.cc:257-280 | Lookup fails exactly when no ancestor declares the method. |
| Environment.LookupIn | PA4/semant.cc:466-472 | Definition: the binding of a name in the innermost scope that has one, or none. |
| Environment.Bind | PA4/semant.cc:686-687 | Definition: the scopes with a new innermost scope binding one name. |
| Environment.LookupInnermost | PA4/semant.cc:686-691 | A name is unbound exactly when no scope binds it. Otherwise its type comes from the innermost scope that binds it. |
| Environment.BindShadows | PA4/semant.cc:686-691 | After binding `x` in a new scope, `x` has its new type and every other name keeps its old binding. |
| Environment.SymbolTable.constructor | PA4/semant.cc:318 | A new table has no scopes. |
| Environment.SymbolTable.EnterScope | PA4/semant.cc:686 | Pushes an empty innermost scope. |
| Environment.SymbolTable.ExitScope | PA4/semant.cc:691 | Pops the innermost scope. |
| Environment.SymbolTable.AddId | PA4/semant.cc:687 | Binds a name in the innermost scope only. |
| ClassTables.BasicClasses | PA4/semant.cc:110-221 | There are exactly five built-in classes. |
| ClassTables.BuiltinsShadowProgramClasses | PA4/semant.cc:212-220 | With the built-ins in front, a built-in class is always found first. Its parent, file and methods are the built-in ones, whatever the program declares. |
| ClassTables.BasicHierarchy | PA4/semant.cc:110-221 | Object has no parent. IO, Int, Bool and String inherit from Object. |
| ClassTables.ClassTable.constructor | PA4/semant.cc:102-107 | The table holds the built-ins followed by the program's classes, with no errors counted. No cycle check is made. |
| ClassTables.ClassTable.SemantError | PA4/semant.cc:251-255 | Each reported error adds exactly one to the counter. |
| ClassTables.ClassTable.ParentOf | PA4/semant.cc:431-437 | The linear scan returns the parent of the first class of that name, or No_class. |
| ClassTables.ClassTable.FilenameOf | PA4/semant.cc:439-445 | The linear scan returns the file of the first class of that name, or `<unknown>`. |
| ClassTables.ClassTable.Conforms | PA4/semant.cc:392-403 | The parent-chain walk answers `ConformsTo`: equal types, No_type below everything, everything below Object, else the target lies on the child's chain. The loop invariant carries the walked part of the chain. |
| ClassTables.ClassTable.Lub | PA4/semant.cc:405-428 | The set fill and the walk from `b` give `Join`. No_type is the identity on either side. |
| ClassTables.ClassTable.MethodIn | PA4/semant.cc:268-274 | The scan of one feature list finds its first method of that name, or nothing. |
| ClassTables.ClassTable.FindClass | PA4/semant.cc:262-266 | The scan finds the first class of that name. |
| ClassTables.ClassTable.OwnMethod | PA4/semant.cc:262-274 | Returns the method the first class of that name declares. |
| ClassTables.ClassTable.LookupMethod | PA4/semant.cc:257-280 | The walk up the chain returns the nearest declaration, `ResolveMethod`, and any result is a method of that name. |
| TypeRules.AssignOk | PA4/semant.cc:503-519 | Definition: a SELF_TYPE target takes only SELF_TYPE or No_type. Any other target takes No_type or a normalised type that conforms. |
| TypeRules.LetInitOk | PA4/semant.cc:677 | Definition: a let initialiser of type No_type passes. Any other must conform to the declared type as written, SELF_TYPE not normalised. |
| TypeRules.CondType | PA4/semant.cc:645-652 | Definition: SELF_TYPE when both branches are. Otherwise the join of the normalised branch types. Its least-upper-bound property is `TypingFacts.CondTypeIsLeastUpperBound`. |
| TypeRules.LastOr | PA4/semant.cc:529-537 | Definition: a block's type is its last expression's type, or Object when it has none. |
| TypeRules.CaseResult | PA4/semant.cc:742-746 | Definition: SELF_TYPE when every branch was SELF_TYPE. Otherwise the running join, or Object when it stayed No_type. |
| TypeRules.DynamicArgOk | PA4/semant.cc:800-824 | Definition: a SELF_TYPE formal takes only a SELF_TYPE actual. Any other formal takes an actual whose normalised type conforms. |
| TypeRules.StaticArgOk | PA4/semant.cc:898-914 | Definition: the normalised actual must conform to the formal, whose SELF_TYPE is read as the dispatch target. |
| TypeRules.DynamicArgErrors | PA4/semant.cc:793-826 | Definition: one error per rejected actual, in order. `TypingFacts.DynamicArgsAccepted` states its meaning. |
| TypeRules.StaticArgErrors | PA4/semant.cc:896-916 | Definition: one error per rejected actual, in order. `TypingFacts.StaticArgsAccepted` states its meaning. |
| TypeRules.DynamicCallErrors | PA4/semant.cc:786-826 | Definition: a wrong number of actuals is one error and no actual is checked. |
| TypeRules.StaticCallErrors | PA4/semant.cc:893-916 | Definition: the same for static dispatch. |
| TypeRules.DispatchType | PA4/semant.cc:829-843 | Definition: a SELF_TYPE return becomes the receiver's type, or SELF_TYPE when the receiver is No_type. |
| TypeRules.TypeOf | PA4/semant.cc:447-929 | Definition: the type, annotated tree and error count of an expression, by kind. `Checker.Tc` is proved equal to it, and `Annotation.TypeOfAnnotates` states what the tree records. |
| TypeRules.TypeOfIdent | PA4/semant.cc:459-473 | Definition: `self` is SELF_TYPE. Another name gets its innermost binding, or one error and Object. |
| TypeRules.TypeOfAssign | PA4/semant.cc:475-526 | Definition of the assign rule. Its outcome is `RuleFacts.AssignOutcome`. |
| TypeRules.TypeOfBlock | PA4/semant.cc:529-537 | Definition of the block rule. Its outcome is `RuleFacts.BlockOutcome`. |
| TypeRules.TypeOfUnary | PA4/semant.cc:561-579 | Definition of `isvoid`, `~` and `not`. Its outcome is `RuleFacts.UnaryOutcome`. |
| TypeRules.TypeOfBinary | PA4/semant.cc:581-630 | Definition of arithmetic and comparison. Its outcome is `RuleFacts.BinaryOutcome`. |
| TypeRules.TypeOfCond | PA4/semant.cc:632-656 | Definition of `if`. Its outcome is `RuleFacts.CondOutcome`. |
| TypeRules.TypeOfLoop | PA4/semant.cc:660-666 | Definition of `while`, with no Bool check on the predicate. Its outcome is `RuleFacts.LoopOutcome`. |
| TypeRules.TypeOfLet | PA4/semant.cc:668-695 | Definition of `let`. Its outcome is `RuleFacts.LetOutcome`. |
| TypeRules.TypeOfCase | PA4/semant.cc:698-750 | Definition of `case`. Its outcome is `RuleFacts.CaseOutcome` and `RuleFacts.CaseSelfType`. |
| TypeRules.DynamicCall | PA4/semant.cc:771-845 | Definition: lookup from the normalised receiver, then the arity and argument checks, then the return type. Its outcome is `RuleFacts.DynamicCallOutcome`. |
| TypeRules.StaticCall | PA4/semant.cc:880-927 | Definition: lookup from the normalised `T`, the checks, and a SELF_TYPE return read as `T`. Its outcome is `RuleFacts.StaticCallOutcome`. |
| TypeRules.TypeOfDispatch | PA4/semant.cc:755-847 | Definition of dynamic dispatch. Its outcome is `RuleFacts.DispatchOutcome`. |
| TypeRules.TypeOfStaticDispatch | PA4/semant.cc:852-929 | Definition of static dispatch. Its outcome is `RuleFacts.StaticDispatchOutcome`. |
| TypeRules.CaseJoin | PA4/semant.cc:733-739 | Definition: the first branch type, normalised, starts the running result. Each later one is joined with it. |
| TypeRules.TypeOfSeq | PA4/semant.cc:529-537 | Checking a list of expressions gives one type and one tree per expression. |
| TypeRules.CaseStep | PA4/semant.cc:709-740 | One branch adds one checked branch and one body type. |
| TypeRules.CaseFold | PA4/semant.cc:709-740 | The walk over the branches gives one checked branch and one type per branch. |
| TypeRules.CaseFoldPrefix | PA4/semant.cc:709-740 | The walk over one more branch is one more step. This is the loop step of `typcase_class::tc`. |
| TypeRules.AttrBindings | PA4/semant.cc:87-94 | Definition: the class's own attributes bound in order. `TypingFacts.AttrBindingsDomain` and `AttrBindingsLast` state its meaning. |
| TypeRules.FormalBindings | PA4/semant.cc:350-357 | Definition: the formals bound in order. |
| TypeRules.ClassScope | PA4/semant.cc:319-325 | Definition: `self : SELF_TYPE` and the class's own attributes. `TypingFacts.ClassScopeHoldsOwnAttributes` states its meaning. |
| TypeRules.CheckAttr | PA4/semant.cc:328-337 | Definition: an attribute's initialiser is checked in the class scope, with no conformance check. |
| TypeRules.ReturnOk | PA4/semant.cc:362-375 | Definition: the normalised body type conforms to the normalised declared return type. |
| TypeRules.CheckMethod | PA4/semant.cc:341-380 | Definition: the body is checked with the formals in a scope inside the class scope, plus one error when `ReturnOk` fails. |
| TypeRules.AttrPass | PA4/semant.cc:326-338 | The attribute pass returns one feature per feature. |
| TypeRules.MethodPass | PA4/semant.cc:340-380 | The method pass returns one feature per feature. |
| TypeRules.CheckClass | PA4/semant.cc:310-382 | Definition: the attribute pass, then the method pass, over one class. |
| TypeRules.CheckProgram | PA4/semant.cc:309-388 | The run checks at most the program's classes. |
| TypeRules.HaltIsFinal | PA4/semant.cc:384-387 | Once a prefix of the program has reported an error, the later classes change nothing: the run has stopped. |
| Checker.Tc | PA4/semant.cc:447-929 | The counter grows by exactly the rule's errors. The result and annotated tree are `TypeOf`'s. The scopes are restored. |
| Checker.TcAtom | PA4/semant.cc:447-559 | Literals, `new`, `no_expr` and identifiers are checked as `TypeOf` says. |
| Checker.TcOperator | PA4/semant.cc:475-630 | Assignment, blocks and the unary and binary operators are checked as `TypeOf` says. |
| Checker.TcControl | PA4/semant.cc:632-750 | `if`, `while`, `let` and `case` are checked as `TypeOf` says. |
| Checker.TcCall | PA4/semant.cc:755-929 | Both kinds of dispatch are checked as `TypeOf` says. |
| Checker.TcIdent | PA4/semant.cc:459-473 | `self` is SELF_TYPE. Another name gets its innermost binding, or one error and Object. |
| Checker.TcAssign | PA4/semant.cc:475-526 | Implements `TypeOfAssign`. Its outcome is `RuleFacts.AssignOutcome`. |
| Checker.TcBlock | PA4/semant.cc:529-537 | Implements `TypeOfBlock`: the last expression's type, or Object. |
| Checker.TcSeq | PA4/semant.cc:529-537 | The left-to-right loop over a list checks each expression as `TypeOfSeq` does. |
| Checker.TcUnary | PA4/semant.cc:561-579 | Implements `TypeOfUnary`. |
| Checker.TcBinary | PA4/semant.cc:581-630 | Implements `TypeOfBinary`. |
| Checker.TcCond | PA4/semant.cc:632-656 | Implements `TypeOfCond`. Its outcome is `RuleFacts.CondOutcome`. |
| Checker.JoinBranches | PA4/semant.cc:645-652 | The conditional's type is `CondType`. |
| Checker.TcLoop | PA4/semant.cc:660-666 | Implements `TypeOfLoop`. |
| Checker.TcLet | PA4/semant.cc:668-695 | Implements `TypeOfLet`. The initialiser is checked before `x` is bound, and the scopes are restored. |
| Checker.TcInScope | PA4/semant.cc:686-691 | The body is checked with `x` bound in a new scope, and that scope is popped afterwards. |
| Checker.TcCase | PA4/semant.cc:698-750 | Implements `TypeOfCase`. |
| Checker.TcBranches | PA4/semant.cc:709-740 | The loop over the branches yields `CaseFold` and adds its errors. |
| Checker.TcBranch | PA4/semant.cc:710-739 | One iteration is one `CaseStep`. |
| Checker.CheckDuplicate | PA4/semant.cc:716-721 | One error exactly when the branch type was seen before. |
| Checker.JoinCase | PA4/semant.cc:733-739 | The running result is updated as `CaseJoin`. |
| Checker.CheckDynamicArgs | PA4/semant.cc:793-826 | The loop over formals and actuals adds exactly `DynamicArgErrors`. |
| Checker.CheckStaticArgs | PA4/semant.cc:898-916 | The loop over formals and actuals adds exactly `StaticArgErrors`. |
| Checker.TcDispatch | PA4/semant.cc:755-847 | Implements `TypeOfDispatch`. |
| Checker.CallDynamic | PA4/semant.cc:771-845 | Lookup, arity and argument checks and the return type give `DynamicCall`. |
| Checker.TcStaticDispatch | PA4/semant.cc:852-929 | Implements `TypeOfStaticDispatch`. |
| Checker.CallStatic | PA4/semant.cc:880-927 | Lookup on `T`, the arity and argument checks and the return type give `StaticCall`. |
| Checker.AddClassAttrs | PA4/semant.cc:87-94 | Binds the class's own attributes in the innermost scope, a later one of a name replacing an earlier one. |
| Checker.AddFormals | PA4/semant.cc:350-357 | Binds the formals in the innermost scope. |
| Checker.TcAttr | PA4/semant.cc:328-337 | Checks one initialiser with no conformance check: `CheckAttr`. |
| Checker.TcMethod | PA4/semant.cc:341-380 | Checks one method in its own scope: `CheckMethod`. A body type that does not conform to the declared return type is one error, SELF_TYPE read as the class on both sides. |
| Checker.TcAttrs | PA4/semant.cc:328-338 | The loop over the features gives `AttrPass`. |
| Checker.TcMethods | PA4/semant.cc:341-380 | The loop over the features gives `MethodPass`. |
| Checker.SemantClass | PA4/semant.cc:310-382 | One class, with `self` and its own attributes in scope: `CheckClass`. |
| Checker.Semant | PA4/semant.cc:297-388 | The run over the program has the outcome of `CheckProgram`: the classes checked, in order, and the error count, stopping after the first class with an error. |
| Annotation.Records | PA4/semant.cc:447-929 | Definition: every node of a tree records the type `TypeOf` gives the subexpression at its place, checked under the scopes that place sees. |
| Annotation.TypeOfAnnotates | PA4/semant.cc:447-929 | The annotated tree has the input's shape and every node has a type. Each node, root and inner alike, records the type `TypeOf` gives its own subexpression under the scopes it sees: a `let` body and a branch body under their own binding (`Records`). |
| Annotation.OperatorAnnotates | PA4/semant.cc:475-630 | The same, for an assignment, a block or an operator: its node and every node below it record their own rule's type. |
| Annotation.ControlAnnotates | PA4/semant.cc:632-750 | The same, for `if`, `while`, `let` and `case`: every node records its own rule's type, with a `let` or branch body under its binding. |
| Annotation.DispatchAnnotates | PA4/semant.cc:755-847 | The same, for dynamic dispatch: the node, the receiver's and the actuals' subtrees record their own rule's types. |
| Annotation.StaticDispatchAnnotates | PA4/semant.cc:852-929 | The same, for static dispatch: the node, the receiver's and the actuals' subtrees record their own rule's types. |
| Annotation.AssignRuleAnnotates | PA4/semant.cc:475-526 | The assignment rule annotates its node and operand. Each child's subtree records, at every node, the type its own rule gives (`ChildrenRecord`). |
| Annotation.BlockRuleAnnotates | PA4/semant.cc:529-537 | The block rule annotates its node and every expression. Each child's subtree records, at every node, the type its own rule gives (`ChildrenRecord`). |
| Annotation.UnaryRuleAnnotates | PA4/semant.cc:561-579 | The unary rules annotate their node and operand. Each child's subtree records, at every node, the type its own rule gives (`ChildrenRecord`). |
| Annotation.BinaryRuleAnnotates | PA4/semant.cc:581-630 | The binary rules annotate their node and operands. Each child's subtree records, at every node, the type its own rule gives (`ChildrenRecord`). |
| Annotation.CondRuleAnnotates | PA4/semant.cc:632-656 | The `if` rule annotates its node and parts. Each child's subtree records, at every node, the type its own rule gives (`ChildrenRecord`). |
| Annotation.LoopRuleAnnotates | PA4/semant.cc:660-666 | The `while` rule annotates its node and parts. Each child's subtree records, at every node, the type its own rule gives (`ChildrenRecord`). |
| Annotation.LetRuleAnnotates | PA4/semant.cc:668-695 | The `let` rule annotates its node, initialiser and body. Each child's subtree records, at every node, the type its own rule gives (`ChildrenRecord`). |
| Annotation.CaseRuleAnnotates | PA4/semant.cc:698-750 | The `case` rule annotates its node, scrutinee and branch bodies. Each child's subtree records, at every node, the type its own rule gives (`ChildrenRecord`). |
| Annotation.DispatchRuleAnnotates | PA4/semant.cc:755-847 | The dispatch rule annotates its node, receiver and actuals. Each child's subtree records, at every node, the type its own rule gives (`ChildrenRecord`). |
| Annotation.StaticDispatchRuleAnnotates | PA4/semant.cc:852-929 | The static dispatch rule annotates its node, receiver and actuals. Each child's subtree records, at every node, the type its own rule gives (`ChildrenRecord`). |
| Annotation.SeqAnnotates | PA4/semant.cc:529-537 | Each tree of a checked list is its expression, annotated, and records at every node the type its own rule gives (`AllRecord`). |
| Annotation.CaseAnnotates | PA4/semant.cc:709-740 | Each checked branch keeps its name and type, and its body is annotated. |
| Annotation.CaseRecords | PA4/semant.cc:709-740 | Every checked branch body records, at every node, the types of the branch body checked with its variable bound. |
| TypingFacts.DynamicArgsAccepted | PA4/semant.cc:793-826 | With matching arity, there are no argument errors exactly when every actual is accepted. There is at most one error per argument. |
| TypingFacts.StaticArgsAccepted | PA4/semant.cc:898-916 | The same for static dispatch. |
| TypingFacts.BranchTypes | PA4/semant.cc:716-721 | Definition: the set of declared branch types. |
| TypingFacts.BranchTypesSnoc | PA4/semant.cc:716-721 | The branch types seen grow by the new branch's type. |
| TypingFacts.BranchTypesBound | PA4/semant.cc:716-721 | There are no more distinct branch types than branches. |
| TypingFacts.CaseFoldSnoc | PA4/semant.cc:709-740 | The effect of the last branch on the seen set, duplicate count, SELF_TYPE flag, types and errors: one more error for a repeated type, plus the body's errors. |
| TypingFacts.CaseDuplicates | PA4/semant.cc:716-721 | The seen set is the set of branch types. The duplicate count is the number of branches minus the number of distinct branch types. |
| TypingFacts.BodyErrors | PA4/semant.cc:723-728 | Definition: the errors of the branch bodies, each checked with its variable bound in a scope of its own. |
| TypingFacts.CaseErrorsSplit | PA4/semant.cc:709-740 | The walk's errors are its duplicate count plus the branch bodies' errors. |
| TypingFacts.CaseErrors | PA4/semant.cc:709-740 | The walk reports exactly one error per repeated branch type, plus the bodies' errors: `|bs| - |BranchTypes(bs)| + BodyErrors`. |
| TypingFacts.CaseAllSelf | PA4/semant.cc:731-746 | The SELF_TYPE flag is set exactly when every branch body has type SELF_TYPE. |
| TypingFacts.EmptyCaseIsSelfType | PA4/semant.cc:742-746 | A case with no branches has type SELF_TYPE and adds no error. |
| TypingFacts.CaseRunningBound | PA4/semant.cc:733-739 | Every normalised branch type conforms to the running result, which is never SELF_TYPE. |
| TypingFacts.CaseResultIsUpperBound | PA4/semant.cc:698-750 | Unless all branches are SELF_TYPE, every normalised branch type conforms to the case's type. |
| TypingFacts.JoinBelowBound | PA4/semant.cc:733-739 | One update of the running result keeps it a class below every common upper bound. |
| TypingFacts.CaseRunningLeast | PA4/semant.cc:709-740 | For a non-empty case whose normalised branch types are classes, the running result conforms to every common upper bound of those types. |
| TypingFacts.CaseResultIsLeast | PA4/semant.cc:698-750 | Unless all branches are SELF_TYPE, the case's type conforms to every common upper bound of the normalised branch types. With `CaseResultIsUpperBound`, it is their least upper bound. |
| TypingFacts.CondTypeIsLeastUpperBound | PA4/semant.cc:645-652 | Both normalised branch types conform to the conditional's type, which conforms to every common upper bound. |
| TypingFacts.AttrBindingsDomain | PA4/semant.cc:87-94 | A name is bound after adding the attributes exactly when it was bound before or some attribute of the class has that name. |
| TypingFacts.AttrBindingsLast | PA4/semant.cc:87-94 | A name gets the type of the last attribute of that name. |
| TypingFacts.ClassScopeHoldsOwnAttributes | PA4/semant.cc:319-325 | The class scope binds `self` and, otherwise, exactly the class's own attributes. |
| TypingFacts.RunChecksInOrder | PA4/semant.cc:309-388 | The run's i-th checked class is the i-th program class, checked. |
| TypingFacts.RunEarlierClassesClean | PA4/semant.cc:384-387 | Every class the run passed before its last one had no errors. |
| TypingFacts.RunCleanChecksAll | PA4/semant.cc:309-388 | A run that ends with no errors checked every class, and each had no errors. |
| TypingFacts.RunCleanWhenClassesClean | PA4/semant.cc:309-388 | When no class has errors, the run reports none. |
| TypingFacts.RunStopsAtFirstError | PA4/semant.cc:384-387 | A run that ends with errors stops at the class that had them, and its count is that class's. |
| TypingFacts.LetSelfInitRejected | PA4/semant.cc:676-683 | `let x : C <- self` inside class C is one error, because SELF_TYPE is not normalised before `conforms`. |
| RuleFacts.AssignOutcome | PA4/semant.cc:475-526 | Assigning to `self`: Object and one error. Otherwise the type of the RHS. An undeclared target adds one error. A declared target adds one exactly when `AssignOk` rejects the RHS. |
| RuleFacts.AssignToSelfTypeName | PA4/semant.cc:503-510 | A target declared SELF_TYPE accepts exactly an RHS of SELF_TYPE or No_type. |
| RuleFacts.BlockOutcome | PA4/semant.cc:529-537 | A block has the type of its last expression, or Object when empty. Its errors are those of its expressions. |
| RuleFacts.UnaryOutcome | PA4/semant.cc:561-579 | `isvoid` and `not` are Bool, `~` is Int. None adds an error of its own. |
| RuleFacts.BinaryOutcome | PA4/semant.cc:581-630 | Arithmetic is Int and comparison Bool. Neither adds an error of its own. |
| RuleFacts.LoopOutcome | PA4/semant.cc:660-666 | A loop is Object and adds no error of its own, whatever its predicate's type. |
| RuleFacts.LetOutcome | PA4/semant.cc:668-695 | A let has its body's type, with `x` bound to its declared type in the body only. The initialiser, checked in the outer scopes, adds one error when it is neither No_type nor conforming. |
| RuleFacts.CaseOutcome | PA4/semant.cc:698-750 | A case's errors are the scrutinee's, plus one per repeated branch type, plus the branch bodies'. Its type is `CaseResult` of the walk. |
| RuleFacts.CaseSelfType | PA4/semant.cc:742-746 | A case is SELF_TYPE exactly when every branch body is SELF_TYPE, no branches included. Otherwise its type is the running join, or Object. |
| RuleFacts.CondOutcome | PA4/semant.cc:632-656 | A non-Bool predicate is exactly one error. The type is SELF_TYPE exactly when both branches are. |
| RuleFacts.DynamicCallOutcome | PA4/semant.cc:771-845 | An undefined method is one error and Object. A wrong arity is exactly one error. Otherwise there are no errors exactly when every actual is accepted. A SELF_TYPE return becomes the receiver's type, SELF_TYPE for No_type. |
| RuleFacts.StaticCallOutcome | PA4/semant.cc:880-927 | The same for static dispatch, looked up on `T`. A SELF_TYPE return becomes `T` verbatim. |
| RuleFacts.DispatchOutcome | PA4/semant.cc:755-847 | A dispatch's errors are those of its receiver, its actuals and the call. |
| RuleFacts.StaticDispatchOutcome | PA4/semant.cc:852-929 | The same for static dispatch, plus one error when the receiver does not conform to `T`. |
| RuleFacts.ConstantTyping | PA4/semant.cc:447-559 | Literals, `new T` and `no_expr` add no error. Their types are String, Int, Bool, `T` verbatim and No_type. |
| RuleFacts.SingleActual | PA4/semant.cc:766-769 | One actual is checked as itself. |
| RuleFacts.OutStringResolves | PA4/semant.cc:150-160 | In every program, `IO.out_string` resolves to the built-in `out_string(arg : String) : SELF_TYPE`. |
| RuleFacts.IntIsNotString | PA4/semant.cc:392-403 | In every acyclic program, Int does not conform to String. |
| RuleFacts.OutStringCall | PA4/semant.cc:771-845 | Calling `out_string` on IO is IO, with one error exactly when the actual does not conform to String. |
| RuleFacts.OutStringDispatch | PA4/semant.cc:755-847 | The same for a whole dispatch on an error-free IO receiver. |
| RuleFacts.NewIOOutString | PA4/semant.cc:755-847 | `(new IO).out_string(lit)` is IO: no error for a String literal, one for an Int literal. |
| RuleFacts.OutStringOnNewIO | PA4/semant.cc:755-847 | The same in every acyclic program. |

## Left out

- Error messages and their `file:line:` prefix are not modelled. Only the counter increment is. `filename_of` is modelled, but its result only feeds messages.
- The two `exit(1)` halts are modelled as "stop and report the count". The halt right after the class table is built never fires, because the constructor reports no errors.
- `initialize_constants` and the interning tables `idtable`/`stringtable` are not modelled. Symbols are distinct datatype constants, and a user class name is `Id(text)`.
- The built-in classes' AST constructors are not modelled. The five classes are a constant list with their declared methods, parents and file.
- `SymbolTable` is modelled as a stack of maps with innermost-first lookup. `symtab.h` is not part of this model.
- The list protocol `first`/`more`/`next`/`nth` and the `dynamic_cast`s are replaced by sequences and datatype matching. A feature that is neither an attribute nor a method cannot occur.
- Inheritance cycles are not modelled: the source never checks them. Every walk up a chain requires an acyclic class list, and on a cyclic one the source would not terminate.
- Inheritance.SelfTypeNotAncestor: holds only for programs in which no class is named or inherits SELF_TYPE (`Wellformed`). The source accepts such classes.
- Inheritance.SelfTypeConformance: the same assumption as above.
- Inheritance.JoinNotSelfType: the same assumption. With two classes inheriting SELF_TYPE, the source's `lub` of them is SELF_TYPE.
- Inheritance.JoinIsClass: the same assumption.
- RuleFacts.CondOutcome: the same assumption. With two classes inheriting SELF_TYPE, an `if` over them has type SELF_TYPE although neither branch does.
- RuleFacts.CaseSelfType: the same assumption.
- TypingFacts.CaseRunningBound: the same assumption.
- TypingFacts.CaseResultIsUpperBound: the same assumption.
- TypingFacts.CaseResultIsLeast: the same assumption. It also assumes that no normalised branch type is No_type or No_class.
- TypingFacts.CaseRunningLeast: the same assumptions as CaseResultIsLeast.
- TypingFacts.JoinBelowBound: the same assumption.
- TypingFacts.LetSelfInitRejected: the same assumption.
- The mutable `type` field of each node is modelled as an annotated copy of the tree that the checker returns, not as an update in place.
