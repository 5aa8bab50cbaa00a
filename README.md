# mustcc core, modelled in Dafny

`mustcc` compiles a small Rust-like language to C and to native code. This project models its front and middle end. It covers the passes from the namespace tree to the layouts of the intermediate representation, together with the helpers the lowering passes share. Each source file of that core has a Dafny module that does what the file's functions do. Values become datatypes and functions. Objects whose fields change become classes whose methods change them. Loops stay loops, with invariants. Panics and `todo!()` become explicit outcomes. Every module states and proves what its operations promise.

The stages, in the order the compiler runs them:

- **Types and unification** (`tp/`). Type variables have ids handed out from a counter. Unification variables live in an arena class whose `Find` compresses paths. `Union` and `Resolve` rewrite roots, and `occurs` compares nodes. `view` looks through resolved classes. `unify` is modelled arm by arm; a stack-depth bound stands for the recursion of the source, which can overflow on cyclic types.
- **Namespace tree** (`mod_tree/`). Scopes, the recursive `find_path` with its privacy guard, and the construction environment. Modules, structs, enums, constructors and functions are registered, and import trees are flattened. The import solver is a fixed-point loop over snapshots.
- **Resolution** (`resolve/`). A stack of local scopes, symbol and type lookup, and type variables for structs and enums. Functions, expressions, clauses and patterns are translated.
- **Symbol table** (`symtable/`). The reverse graph, Kahn's topological sort, the dependency tree, `sizeof` and the size checks. Symbol information and its attributes.
- **Type checker** (`typecheck/`). The scoped environment with `finish`, and `check_expr` arm by arm. Checking appends diagnostics to the context and grows the unification arena.
- **Literal decoders** (`parser/mod.rs`). JSON string unescaping, C character literals, and module paths from file names.
- **Lowering helpers** (`mir/`, `core/env.rs`, `codegen/`). Variable id spawners and the three variable environments. Type layouts and the argument/return classification of a function signature. The C declarators of `Type::with_name` and the `Display` of ids, values and statements.

Diagnostics are values appended to a context. Positions are opaque. A panic of the source is an outcome carrying its message, or, inside the type checker, a `Halt` reason whose message `Typecheck.Message` gives.

## Model

| member | source | states |
|---|---|---|
| TVars.TVarGen.constructor | src/tp/tvar.rs:11-16 | the counter starts one below the first id, so the first variable made gets id 65 |
| TVars.TVarGen.New | src/tp/tvar.rs:11-16 | bumps the counter by one and returns it as the id, so every id made is at least 65 and ids strictly increase |
| TVars.OfBuiltin | src/tp/tvar.rs:28-35 | succeeds exactly for "never" (id 1) and "bool" (id 2), both proper type variables; any other name panics |
| TVars.OfBuiltinRejectsNumeric | src/tp/tvar.rs:28-35 | "i32", "u8" and "usize" have no reserved type variable: asking for one panics |
| TVars.OfBuiltinNotFresh | src/tp/tvar.rs:11-35 | a reserved builtin variable never equals one made by `TVar::new` |
| Types.NamedVarOf | src/tp/mod.rs:88-93 | fails exactly for a type constructor, with a type-parameter mismatch of its arity against 0 at the given position; otherwise the named variable |
| Types.TypeAppOf | src/tp/mod.rs:120-134 | succeeds exactly for a type constructor given its arity of arguments; otherwise the mismatch reports the expected arity (0 for a non-constructor) and the number given |
| Types.Builtin | src/tp/mod.rs:115-118 | succeeds exactly when `TVar::of_builtin` does, giving the named variable of that type variable |
| Types.Never | src/tp/mod.rs:115-118 | the never type is what `Type::builtin("never")` returns |
| Types.Bool | src/tp/mod.rs:115-118 | the bool type is what `Type::builtin("bool")` returns |
| Types.BuiltinI32Panics | src/tp/mod.rs:115-118 | `Type::builtin("i32")` panics |
| UVars.Root | src/tp/uvar.rs:41-51 | the representative of a node is an unlinked node of the same flavour, of higher rank unless the node is itself unlinked |
| UVars.ViewIn | src/tp/mod.rs:48-66 | `view` never shows a variable whose class is resolved; a non-variable type, or a variable of an open class, is shown unchanged |
| UVars.RelinkRoots | src/tp/uvar.rs:41-51 | pointing a linked node straight at its root (path compression) leaves every node's root unchanged |
| UVars.SameClassesView | src/tp/mod.rs:48-66 | two arena states with the same classes show every type the same way |
| UVars.OpenEndView | src/tp/mod.rs:48-66 | a chain of resolutions ending in an open numeric class shows that class's numeric variable |
| UVars.ResolveValid | src/tp/uvar.rs:65-72 | resolving an open root keeps the arena well formed and every node's root unchanged |
| UVars.UnionValid | src/tp/uvar.rs:54-60 | linking one open root under another of the same flavour keeps the arena well formed; the roots are those of before, with the first root renamed to the second |
| UVars.ExtendValid | src/tp/uvar.rs:21-27 | a new unresolved node at the end keeps the arena well formed and every old node's root |
| UVars.SameClassesOccurs | src/tp/uvar.rs:83-95 | `occurs` answers the same on two states with the same classes, so its own path compression cannot change its answer |
| UVars.OccursComparesNodes | src/tp/uvar.rs:83-95 | `occurs` compares nodes, not classes: a different node of an open class does not occur, the node itself does |
| UVars.OccursThroughPointers | src/tp/uvar.rs:83-95 | a variable occurs in `*T` and in `*mut T` exactly when it occurs in `T` |
| UVars.Arena.constructor | src/tp/uvar.rs:13-27 | an empty arena whose counter makes the first id 65 |
| UVars.Arena.New | src/tp/uvar.rs:21-27 | bumps the counter and appends one unresolved node carrying it; no old node's root changes |
| UVars.Arena.Id | src/tp/uvar.rs:30-36 | the id exists exactly when the node's class is unresolved, and is the id of its root |
| UVars.Arena.TryResolved | src/tp/uvar.rs:75-80 | some type exactly when this very node (not its root) is resolved, and then that type |
| UVars.Arena.Find | src/tp/uvar.rs:41-51 | returns the root of the node; afterwards the node links straight to it and every class is as before |
| UVars.Arena.Union | src/tp/uvar.rs:54-60 | when the roots differ, the first root is linked under the second and every other node keeps its content; when they agree, the classes are unchanged |
| UVars.Arena.Resolve | src/tp/uvar.rs:65-72 | succeeds exactly when the root was not resolved yet (the source panics otherwise); then the root holds the type and no root changes |
| UVars.Arena.View | src/tp/mod.rs:48-66 | returns the view of the type on the arena it started from, changing only the links (not the classes) |
| UVars.Arena.ViewNode | src/tp/mod.rs:48-66 | the view of a variable node on the arena it started from, changing only the links, not the classes |
| UVars.Arena.Occurs | src/tp/uvar.rs:83-95 | returns `occurs` evaluated on the state before the call, keeping the classes; None stands for running out of stack |
| UVars.Arena.OccursAny | src/tp/uvar.rs:83-95 | whether the node occurs in any of the types, evaluated on the state before the call |
| Unification.ArmOf | src/tp/mod.rs:246-327 | the first arm is taken exactly when the actual type views as a never type variable |
| Unification.ViewBoth | src/tp/mod.rs:246 | the two views are those of the arena before the call, the expected type's first |
| Unification.UnionOpen | src/tp/mod.rs:252-256 | the two classes become one, rooted at the actual type's root; every other node keeps its root, and every root other than the expected type's keeps what it held |
| Unification.Bind | src/tp/mod.rs:257-272 | the occurs check comes first: an occurrence or a disallowed binding fails without resolving; otherwise the root of the variable is resolved to the other type, every node keeps its root and every other root keeps what it held; failures only compress paths |
| Unification.Unify | src/tp/mod.rs:245-328 | with no fuel it overflows and changes nothing; otherwise, on the views of both types from the arena it started from: never fits anything; two type variables fit exactly when equal; two open variables of one flavour are merged, no other class or root content changing; an open variable is bound to the other type unless it occurs there; a numeric variable is bound only to a numeric type variable; pointers unify their pointees and equal-length arrays their elements (unequal lengths fail untouched); tuples and type applications unify their items pairwise in order up to the shorter list, stopping at the first pair that does not succeed, and type applications succeed only with the same constructor; function types unify their results, then their arguments, and by `len1 != len2` never succeed at equal arity; anything else fails |
| Unification.OccursInVar | src/tp/uvar.rs:83-95 | no node occurs in a type that views as a type variable |
| Unification.UnifyUnionArm | src/tp/mod.rs:252-256 | two open variables of the same flavour always unify, by merging their classes and leaving every other class and root unchanged |
| Unification.UnifyApps | src/tp/mod.rs:274-281 | the arguments are unified pairwise even when the constructors differ; success exactly when the constructors are the same type variable and every pair unified; an overflow in the pairs is the result |
| Unification.UnifyArrays | src/tp/mod.rs:283 | arrays of different lengths fail without touching the arena; arrays of equal length give exactly the result and the arena of unifying their elements |
| Unification.UnifyFuns | src/tp/mod.rs:313-324 | the results are unified first and an overflow there ends it; then the arguments pairwise; success exactly when the arities differ and both unifications succeed, so equal arities never unify (as written, see Left out) |
| Unification.UnifyAll | src/tp/mod.rs:276-279 | the pairs up to the shorter list are unified in order, each from the arena the previous one left; the first pair that does not succeed ends the walk with its result; an empty list succeeds untouched |
| Unification.UnifyPtrs | src/tp/mod.rs:308-311 | two pointers, `*mut` in place of `*` allowed, give exactly the result and the arena of unifying their pointees |
| Unification.Both | src/tp/mod.rs:280 | overflow exactly when the pairwise walk overflowed; success exactly when the flag holds and the walk succeeded |
| Unification.UnifyShapes | src/tp/mod.rs:274-324 | the five arms that look inside the types do what the specification of `unify` says, starting from the arena the views left |
| Unification.UnifyLeaves | src/tp/mod.rs:247-306 | the arms that decide without looking inside the types (never, equal type variables, union, binding, numeric binding, no match) do what the specification of `unify` says, including that a union or binding leaves every other class and root unchanged |
| Unification.UnifyPlain | src/tp/mod.rs:247-256 | never, equal type variables, no matching arm and the union of two open variables: the result and the new arena are those the specification gives; a union changes no other class or root |
| Unification.UnifyBindArm | src/tp/mod.rs:257-272 | an open variable on either side is bound to the other type, as `Bind` specifies with the binding allowed: only the variable's root changes |
| Unification.UnifyNumArm | src/tp/mod.rs:290-306 | a numeric variable on either side is bound to the other type only when that is a numeric type variable and the variable does not occur in it; nothing else in the arena changes |
| Unification.UnifyAppArm | src/tp/mod.rs:274-281 | the type-application arm, one level of stack down, from the arena it is given |
| Unification.UnifyArrayArm | src/tp/mod.rs:283 | the array arm, one level of stack down, from the arena it is given |
| Unification.UnifyTupleArm | src/tp/mod.rs:285-288 | the tuple arm: the items unified pairwise one level of stack down |
| Unification.UnifyPtrArm | src/tp/mod.rs:308-311 | the pointer arm: the pointees unified one level of stack down |
| Unification.UnifyFunArm | src/tp/mod.rs:313-324 | the function arm, one level of stack down, from the arena it is given |
| Unification.ShapeSpec | src/tp/mod.rs:274-324 | a structural arm run from any state with the classes of the start state meets the specification of `unify` for those views |
| Unification.AppShape | src/tp/mod.rs:274-281 | the type-application relation one level down is the structural arm for two type applications |
| Unification.ArrayShape | src/tp/mod.rs:283 | the array relation one level down is the structural arm for two arrays |
| Unification.TupleShape | src/tp/mod.rs:285-288 | pairwise unification of the items one level down is the structural arm for two tuples |
| Unification.PtrArmOf | src/tp/mod.rs:308-311 | the pointer arm is taken only for two pointers (`*` or `*mut`) whose pointees are well formed |
| Unification.PtrShape | src/tp/mod.rs:308-311 | unifying the pointees one level down is the structural arm for two pointers |
| Unification.FunShape | src/tp/mod.rs:313-324 | the function relation one level down is the structural arm for two function types |
| Unification.BindArmSpec | src/tp/mod.rs:257-306 | a binding as `Bind` specifies, of the variable the arm names to the other type (allowed for a plain variable, only for a numeric type variable otherwise), meets the specification of `unify` |
| Unification.UnifiesLeaves | src/tp/mod.rs:245-328 | without fuel `unify` overflows; with fuel, no matching arm fails and an actual type that views as never succeeds |
| Unification.PlainArmSpec | src/tp/mod.rs:246-326 | for never, equal type variables and no match, answering as the arm says with only path compression meets the specification |
| Unification.UnionArmShape | src/tp/mod.rs:252-253 | the union arm is taken only for two open variables of the same flavour |
| Unification.ViewOpen | src/tp/mod.rs:48-66 | a type that views as an open variable shows a node of the arena of the matching flavour whose root is unresolved |
| Unification.UnionArmSpec | src/tp/mod.rs:252-256 | merging the two classes with success meets the specification of `unify` for the union arm |
| TypeOps.Substitute | src/tp/mod.rs:136-169 | the substituted type is well formed over the same unification variables |
| TypeOps.SubstituteNode | src/tp/mod.rs:137-168 | on the view: open variables and unknown are kept, a type variable is replaced by its entry if it has one, and every other shape is kept with the same constructor, length and arity |
| TypeOps.SubstituteAll | src/tp/mod.rs:144-145 | item `k` of the result is item `k` substituted |
| TypeOps.SubstituteEmpty | src/tp/mod.rs:136-169 | substituting with no entries denotes the same type (identity up to seeing through resolved variables) |
| TypeOps.SizeDependencies | src/tp/mod.rs:173-199 | the dependencies never include a type parameter |
| TypeOps.SizeDependenciesNode | src/tp/mod.rs:174-198 | open variables panic; unknown, pointers and function types have none; a non-parameter type variable depends on itself; an array on its element; a tuple on the union of its items, failing exactly when an item fails |
| TypeOps.SizeDependenciesAll | src/tp/mod.rs:186-191 | succeeds exactly when every item does, and then holds exactly the items' dependencies |
| Common.NameStr | src/common/mod.rs:51-53 | the name is the identifier's text |
| Common.PushBack | src/common/mod.rs:33-36 | one segment longer, the old path as prefix and the identifier last |
| Common.PopBack | src/common/mod.rs:38-41 | an empty path stays empty; otherwise the path minus its last segment |
| Common.PopBackPushBack | src/common/mod.rs:33-41 | popping right after pushing gives back the path |
| Common.PushFront | src/mod_tree/scope_info.rs:121 | one segment longer, the identifier first and the old path after it |
| Common.TryLast | src/mod_tree/import_solve.rs:68 | none exactly for the empty path; otherwise its last segment |
| Common.IfSingle | src/resolve/env.rs:91 | some exactly for a one-segment path, and then that segment |
| Common.JoinNames | src/common/mod.rs:19-29 | no names give the empty text; one name gives that name alone |
| Common.ShowPath | src/common/mod.rs:18-29 | the empty path prints as nothing, a one-segment path as its name; ShowPathPushBack gives the "::" separator |
| Common.ShowPathPushBack | src/common/mod.rs:19-29 | appending a segment appends "::" and its name to a non-empty path's text, or gives the bare name for the empty path |
| Common.Context.constructor | src/error/context.rs:23-29 | no diagnostics yet |
| Common.Context.Report | src/error/context.rs:42-44 | the diagnostic is appended; earlier ones stay in order |
| NodeIds.NodeIdGen.constructor | src/common/node_id.rs:11-16 | the counter starts so that the first global id is past the reserved ones |
| NodeIds.NodeIdGen.NewGlobal | src/common/node_id.rs:11-16 | bumps the counter and returns it: every global id is past the reserved ids and larger than any before |
| NodeIds.OfRoot | src/common/node_id.rs:19-21 | the root module has id 0 |
| NodeIds.OfBuiltinType | src/common/node_id.rs:28-46 | succeeds exactly for a builtin type name, with the id that is that name's index in the builtin table; other names panic |
| NodeIds.OfBuiltinTypeInjective | src/common/node_id.rs:28-46 | different builtin names get different ids |
| NodeIds.NeverIsRoot | src/common/node_id.rs:19-31 | the id of "never" is the root module's id 0 |
| NodeIds.FreshIsNotReserved | src/common/node_id.rs:11-46 | a global id is neither the root's nor any builtin type's |
| ModTreeAst.EmptyModule | src/mod_tree/ast.rs:91-103 | a private module with no items, the given id and the placeholder name "<unknown>" |
| ModTreeEnv.Env.Init | src/mod_tree/env.rs:24-37 | starts at the root module with an empty path, only the root scope registered, and the given files |
| ModTreeEnv.Env.Enter | src/mod_tree/env.rs:39-51 | succeeds exactly when the name is bound in the current scope, and then moves to the id it is bound to; scopes and files are untouched |
| ModTreeEnv.Env.Leave | src/mod_tree/env.rs:53-63 | succeeds exactly when the current scope is a module or an enum scope (a struct scope is never left), and then moves to its parent and drops the last name of the path; scopes and files are untouched |
| ModTreeEnv.Env.RemoveModule | src/mod_tree/env.rs:65-67 | returns the file's module exactly when the path was present, and removes it; nothing else changes |
| ModTreeEnv.Env.AddItem | src/mod_tree/env.rs:69-82 | a reserved name panics; a name already bound in the current scope reports `AlreadyBound` at the name and changes nothing; otherwise exactly that binding is added |
| ModTreeEnv.Env.AddModInfo | src/mod_tree/env.rs:92-94 | the scope is registered under the id, replacing any earlier one |
| ModTreeEnv.Env.AddImport | src/mod_tree/env.rs:100-108 | in a module scope the import is appended to its imports; anywhere else nothing changes (the source panics) |
| ModTreeEnv.PopLast | src/mod_tree/env.rs:53-63 | drops the last name of the path; an empty path stays empty |
| ModTreeEnv.PopLastAppend | src/mod_tree/env.rs:39-63 | leaving after entering gives back the name path |
| Scopes.Parent | src/mod_tree/scope.rs:15-22 | none exactly for the root scope; otherwise the recorded parent |
| Scopes.ParentIgnoresItems | src/mod_tree/scope.rs:15-22 | the parent does not depend on the items or the imports of a scope |
| Scopes.FindPath | src/mod_tree/scope_info.rs:47-130 | a successful lookup never yields an ambiguous symbol |
| Scopes.FindPathPrivate | src/mod_tree/scope_info.rs:57-61 | a private binding found without the guard is reported as `PrivateItem` at the segment |
| Scopes.FindPathLast | src/mod_tree/scope_info.rs:62-67 | the last segment yields its binding, or `AmbiguousSymbol` at the segment when it is ambiguous |
| Scopes.FindPathDescends | src/mod_tree/scope_info.rs:68-88 | through a module the rest is looked up inside it with the guard cleared; through a struct or enum with the guard set |
| Scopes.FindPathThroughFunc | src/mod_tree/scope_info.rs:89-96 | a function or constructor cannot be looked into: `CannotImportFrom` at the segment |
| Scopes.FindPathSuper | src/mod_tree/scope_info.rs:101-117 | under the guard, an unbound `super` is the parent module as the last segment, continues in the parent otherwise, and panics at the root |
| Scopes.FindPathUnbound | src/mod_tree/scope_info.rs:118-127 | any other unbound name is retried from the root with the guard cleared when guarded, and is `UnboundVariable` at the segment otherwise |
| ImportSolve.Lookup | src/mod_tree/import_solve.rs:111-117 | the slot of the name exactly when it is bound |
| ImportSolve.MakeAmbiguous | src/mod_tree/import_solve.rs:183-189 | same visibility and kind; the symbol becomes ambiguous between exactly the two ids |
| ImportSolve.ExactUpdate | src/mod_tree/import_solve.rs:101-136 | an exact import touches only its own name and keeps its visibility and kind: a free name becomes an import of the target; a glob binding there becomes an exact import keeping the glob's id; a local or exact binding of the same id stays, of another id becomes ambiguous between the two; an ambiguous binding gains the id; a change is reported exactly when the items changed |
| ImportSolve.GlobCell | src/mod_tree/import_solve.rs:155-178 | one glob-imported name: a free slot gets a glob binding with the import's visibility; a local or exact import is never shadowed and leaves the flag alone; a glob binding of the same id stays and leaves the flag alone, of another id becomes ambiguous; an ambiguous slot gains the id, setting the flag exactly when the id is new; the flag is set true exactly when the slot changes |
| ImportSolve.GlobApplied | src/mod_tree/import_solve.rs:144-179 | the names afterwards are the old ones plus every offered name of the target (non-ambiguous, and public unless guarded) |
| ImportSolve.GlobChangeLost | src/mod_tree/import_solve.rs:168-177 | as written, a glob import can add a binding and still report no change (see Findings) |
| ImportSolve.GlobAsWritten | src/mod_tree/import_solve.rs:144-179 | the glob loop as written, with the flag overwritten by every visited name: the names afterwards include the old ones and are among the old ones plus the visited ones |
| ImportSolve.ResolveGlob | src/mod_tree/import_solve.rs:144-180 | the corrected glob loop: every target name visited once, in any order; reports a change exactly when the items changed |
| ImportSolve.GlobTurn | src/mod_tree/import_solve.rs:144-179 | one turn of the glob loop extends the applied set by one name and keeps the flag true exactly when the items changed |
| ImportSolve.GlobStep | src/mod_tree/import_solve.rs:144-179 | visiting one more offered name updates only that name's slot, from its value before the loop |
| ImportSolve.ResolveImport | src/mod_tree/import_solve.rs:83-181 | (corrected glob loop, see Findings) whenever it returns, the change flag is true exactly when the items changed (a failed lookup or a non-namespace glob changes nothing) |
| ImportSolve.ResolveImportStep | src/mod_tree/import_solve.rs:83-181 | (corrected glob loop, see Findings) computes `ResolveImport` |
| ImportSolve.ApplyImportsUnchanged | src/mod_tree/import_solve.rs:31-33 | (corrected glob loop, see Findings) when no import of a scope reports a change, its items are exactly as before |
| ImportSolve.ResolveScope | src/mod_tree/import_solve.rs:31-33 | the imports of one scope applied in order, or the first panic |
| ImportSolve.ApplyImports | src/mod_tree/import_solve.rs:31-33 | the imports of one scope applied in order, the flags or-ed; no contract of its own: ApplyImportsUnchanged and ApplyImportsPanics state it |
| ImportSolve.StepScope | src/mod_tree/import_solve.rs:26-33 | a module scope applies its imports; any other scope keeps its items and reports no change |
| ImportSolve.ApplyImportsPanics | src/mod_tree/import_solve.rs:31-33 | a panic in an import ends the scope's loop with that panic |
| ImportSolve.Pass | src/mod_tree/import_solve.rs:24-34 | a pass keeps the scope ids and every scope's kind; only items change |
| ImportSolve.PassFixedPoint | src/mod_tree/import_solve.rs:23-35 | (corrected glob loop, see Findings) a pass that reports no change returns the tree it was given: the loop stops exactly at a fixed point |
| ImportSolve.RunPass | src/mod_tree/import_solve.rs:24-34 | computes `Pass`, panicking exactly when it does |
| ImportSolve.ImportErrors | src/mod_tree/import_solve.rs:48-81 | at most one report per import: the lookup's diagnostic when it fails; otherwise a report only for a glob whose target is not a namespace |
| ImportSolve.ReportScope | src/mod_tree/import_solve.rs:41-43 | the reports of one scope's imports are appended in import order, unless one panics |
| ImportSolve.ScopeErrorsPanics | src/mod_tree/import_solve.rs:41-43 | a panic in one import's report makes the scope's reporting panic |
| ImportSolve.ScopeErrors | src/mod_tree/import_solve.rs:41-43 | a scope's reports number at most one per import |
| ImportSolve.Settle | src/mod_tree/import_solve.rs:20-35 | (corrected glob loop, see Findings) a solved tree is a fixed point of a pass and has the scope ids and kinds it started with |
| ImportSolve.ReportAll | src/mod_tree/import_solve.rs:36-44 | on success every module scope visited had its reports appended |
| ImportSolve.Solve | src/mod_tree/import_solve.rs:19-46 | (corrected glob loop, see Findings) the solved tree is a fixed point, keeps ids and kinds, and every module's imports were reported |
| ModTree.ImportsOf | src/mod_tree/mod.rs:154-192 | every import produced by a `use` tree has the statement's visibility and starts with the path prefix seen so far; a glob import has no alias and an exact import names at least one segment more than its prefix |
| ModTree.ImportsOfAll | src/mod_tree/mod.rs:186-190 | the same for the imports of a braced list of paths |
| ModTree.Prefixed | src/mod_tree/mod.rs:181-185 | the imports kept one for one, each path extended in front by the prefix |
| ModTree.PrefixedAppend | src/mod_tree/mod.rs:186-190 | prefixing distributes over concatenation of import lists |
| ModTree.ImportsOfPrefix | src/mod_tree/mod.rs:154-192 | walking a `use` tree under prefix `p + q` is walking it under `q` and prefixing every result with `p` |
| ModTree.ImportsOfAllPrefix | src/mod_tree/mod.rs:186-190 | the same for a braced list |
| ModTree.ImportCollector.TrImportMany | src/mod_tree/mod.rs:186-190 | a `{a, b, ...}` group collects the imports of each member in order under the same prefix, and the prefix is restored |
| ModTree.ImportCollector.TrImportPath | src/mod_tree/mod.rs:154-192 | the collector's path is restored after the walk and its list grows by exactly the imports of the tree under the current prefix |
| ModTree.GenerateImports | src/mod_tree/mod.rs:144-152 | the imports of a statement are those of its tree under the empty prefix |
| ModTree.GrowsTrans | src/mod_tree/mod.rs:42-142 | the "scopes only grow" relation is transitive |
| ModTree.ItemBinding | src/mod_tree/mod.rs:47-51 | every declared item is bound as a local symbol |
| ModTree.AddedGrows | src/mod_tree/env.rs:69-82 | binding a new name in the current scope grows the scope table and leaves the name bound to that binding |
| ModTree.TrFunc | src/mod_tree/mod.rs:328-352 | a function takes a fresh id and is bound under its name; an already bound name gives the `AlreadyBound` diagnostic and leaves the scopes unchanged |
| ModTree.TrStruct | src/mod_tree/mod.rs:295-326 | a struct takes a fresh id and is bound; a taken name is reported and the struct dropped (`None`) with the scopes unchanged |
| ModTree.TrCons | src/mod_tree/mod.rs:253-293 | a tuple constructor takes a fresh id and is bound with the enum's visibility; a taken name is an `AlreadyBound` error; a struct constructor aborts (it is `todo!()`) |
| ModTree.TrEnumScope | src/mod_tree/mod.rs:224-238 | inside the enum's own scope the kept constructors are bound; the scope is left again, restoring the current module and path, and the enum stays registered under its name |
| ModTree.TrEnumConstructors | src/mod_tree/mod.rs:226-236 | the constructor loop never ends in a diagnostic error, since a taken name is reported and skipped: it either aborts (`todo!()`) or keeps at most one constructor per declared one, each registered in the enum scope with the enum's visibility |
| ModTree.TrEnum | src/mod_tree/mod.rs:194-251 | a taken enum name is reported and the enum dropped with the scopes unchanged; otherwise the enum is bound, has its own enum scope under the current module, and every kept constructor is bound there |
| ModTree.ItemsRegisteredGrows | src/mod_tree/mod.rs:80-125 | items registered in a scope stay registered as the scope table grows |
| ModTree.TrModule | src/mod_tree/mod.rs:42-142 | a taken module name is reported and gives the empty placeholder module; otherwise the module is bound in its parent, has a module scope whose parent is the enclosing module, and every item it keeps is registered in it; the current module and path are restored |
| ModTree.TrItems | src/mod_tree/mod.rs:80-125 | the loop over a module's items: the scopes only grow and every kept item is registered in the module's scope |
| ModTree.TrItem | src/mod_tree/mod.rs:81-124 | one item: an import statement queues exactly its generated imports on the current module and adds no scope; an out-of-line module with no file gives the `MissingModule` diagnostic; a kept item is registered or is the placeholder |
| ModTree.QueueImports | src/mod_tree/mod.rs:96-101 | the generated imports are appended to the current module's imports, in order; nothing else changes but the scope table's growth |
| ModTree.Translate | src/mod_tree/mod.rs:23-40 | (corrected glob loop, see Findings) a missing root file is the internal error "failed to load root module"; on success the root scope exists and the imports are at a fixed point |
| SymInfos.Build | src/symtable/mod.rs:196-205 | a fresh record keeps the name, position and kind, has no builtin name, is not extern and is mangled |
| SymInfos.WithAttributes | src/symtable/mod.rs:208-217 | an `extern` attribute sets the extern flag, `no_mangle` clears mangling, any other attribute changes nothing, and no other field changes |
| SymInfos.HasAttrSnoc | src/symtable/mod.rs:208-217 | one more attribute carries a name exactly when the prefix does or the new attribute has it |
| SymInfos.GetBuiltinId | src/symtable/mod.rs:155-164 | a found id is a declaration whose builtin name is the one asked for; `None` exactly when no declaration has that builtin name |
| ResolveEnv.InLocals | src/resolve/env.rs:92-97 | true exactly when some local scope of the stack holds the name |
| ResolveEnv.Env.Init | src/resolve/env.rs:111-120 | starts at the root module, with the given namespace tree and type variables, empty tables and no local scope |
| ResolveEnv.Env.NewScope | src/resolve/env.rs:23-25 | pushes one empty local scope and changes nothing else |
| ResolveEnv.Env.LeaveScope | src/resolve/env.rs:83-88 | pops the innermost scope; panics (with nothing changed) exactly when there is none |
| ResolveEnv.Env.AddLocal | src/resolve/env.rs:122-127 | adds the name to the innermost scope only; panics exactly when there is no scope |
| ResolveEnv.Env.AddSymInfo | src/resolve/env.rs:133-135 | records the symbol under the id, replacing an earlier record, and changes nothing else |
| ResolveEnv.Env.AddTypeInfo | src/resolve/env.rs:147-149 | records the type under the type variable, replacing an earlier record, and changes nothing else |
| ResolveEnv.Env.GetTvar | src/resolve/env.rs:137-145 | the declaration's type variable exactly when it has one, otherwise an internal error; never panics |
| ResolveEnv.Env.FindSymbol | src/resolve/env.rs:90-109 | a local reference exactly when the path is a single name held by a local scope; otherwise the outcome of the guarded `find_path` from the current module, giving the id of the binding it finds |
| ResolveEnv.Env.ResolveType | src/resolve/env.rs:27-81 | the resolved type has the shape of the syntax (pointer for slice, and so on); a path that does not resolve is reported and becomes the unknown type; a path to a declaration with a plain type variable becomes the named variable of exactly that type variable, printed as the path; a local path and type application panic; the only error is internal |
| ResolveEnv.Env.ResolveVar | src/resolve/env.rs:33-48 | a path that does not resolve is reported and becomes the unknown type; a declaration with a type variable becomes the named variable of exactly that type variable, printed as the path, or, for a type constructor, the unknown type with an arity-mismatch diagnostic; a declaration without one is an internal error |
| ResolveEnv.Env.ResolveTypes | src/resolve/env.rs:50-65 | a resolved list has one type of the same shape per syntax element |
| ResolveEnv.Wrap | src/resolve/env.rs:58-59 | a pointer or mutable pointer to the resolved type, with failures and diagnostics passed on unchanged |
| ResolveEnv.ReportType | src/resolve/env.rs:27-81 | returns `ResolveType`'s result and appends its diagnostics to the context in order |
| ResolveExpr.ScopesExtendTrans | src/resolve/mod.rs:314-507 | the "same local scopes, each possibly larger" relation between scope stacks is transitive |
| ResolveExpr.TrExpr | src/resolve/mod.rs:314-507 | the declaration tables and current module never change and diagnostics are only appended; a result corresponds to the input all the way down (same constructor, position, literals, names and number of parts at every level, each part corresponding to its source) and leaves the scope stack the same or extended; when nothing was reported, every path and struct literal in it is resolved |
| ResolveExpr.TrSub | src/resolve/mod.rs:314-507 | a sub-expression keeps the tables, only appends diagnostics and corresponds to its source all the way down; fully resolved when nothing was reported |
| ResolveExpr.TrOther | src/resolve/mod.rs:451-461 | literals keep their values; tuples and array literals correspond part by part, translated left to right; fully resolved when nothing was reported |
| ResolveExpr.TrItems | src/resolve/mod.rs:451-461 | a tuple or array literal becomes one with the same number of items, each corresponding to its source, translated left to right; fully resolved when nothing was reported |
| ResolveExpr.TrCall | src/resolve/mod.rs:431-438 | a function or method call corresponds to its source: callee or receiver first, then each argument, the method name kept; fully resolved when nothing was reported |
| ResolveExpr.TrUnary | src/resolve/mod.rs:359-498 | `return` (a missing value becomes `()`), field access (the field name kept), `&`, `&mut`, `*` and `[x; n]` correspond to their source operand by operand; fully resolved when nothing was reported |
| ResolveExpr.TrCast | src/resolve/mod.rs:499-503 | a cast's operand corresponds to its source and its target type is resolved to a type of the same shape; fully resolved when nothing was reported |
| ResolveExpr.TrVar | src/resolve/mod.rs:325-331 | a path that resolves becomes a reference to that symbol; one that does not has its diagnostic reported and becomes an error node, and translation goes on |
| ResolveExpr.TrCompound | src/resolve/mod.rs:332-503 | every non-variable expression corresponds to its source all the way down, leaves the tables untouched and the scope stack the same or extended; fully resolved when nothing was reported |
| ResolveExpr.TrAnnotation | src/resolve/mod.rs:376-379 | an absent annotation stays absent; a present one is resolved to a type of the same shape |
| ResolveExpr.TrBinary | src/resolve/mod.rs:426-498 | assignment, `while` and indexing correspond operand by operand, left operand first; fully resolved when nothing was reported |
| ResolveExpr.TrExprs | src/resolve/mod.rs:433-436 | a list of expressions becomes a list of the same length whose every element corresponds to its source; all fully resolved when nothing was reported |
| ResolveExpr.TrBlock | src/resolve/mod.rs:336-358 | a block opens a scope for its statements and closes it: the scope stack is the same afterwards; every statement corresponds to its source, and a closed block ends in `()`; fully resolved when nothing was reported |
| ResolveExpr.TrLet | src/resolve/mod.rs:369-387 | `let` panics when no scope is open; otherwise its name is in the innermost scope before the initialiser is translated, so an initialiser naming the same variable reads the new local; the result corresponds to the source (annotation of the same shape, initialiser all the way down), fully resolved when nothing was reported |
| ResolveExpr.TrLetInit | src/resolve/mod.rs:376-387 | with the name already in the innermost scope, the annotation is resolved to a type of the same shape and the initialiser corresponds to its source; an initialiser that is the bound name itself resolves to the new local |
| ResolveExpr.TrIf | src/resolve/mod.rs:388-399 | condition, then branch and else branch correspond to their sources; a missing else becomes `()`; fully resolved when nothing was reported |
| ResolveExpr.TrStructCons | src/resolve/mod.rs:400-425 | a struct path that does not resolve is reported and gives an error node; a local name panics; otherwise the literal names the id found and each field maps to the translation of its last initialiser, which corresponds to it; fully resolved when nothing was reported |
| ResolveExpr.TrFields | src/resolve/mod.rs:412-423 | the map of field initialisers has exactly the names given; each name keeps the value of its last initialiser, and every repeated name is reported as a duplicate |
| ResolveExpr.TrFieldsLoop | src/resolve/mod.rs:412-423 | the initialiser loop keeps the tables; on success the map holds every name with its last initialiser, each repeat reported, and every value corresponds to its initialiser (fully resolved when nothing was reported) |
| ResolveExpr.TrField | src/resolve/mod.rs:413-423 | one more initialiser extends the bookkeeping of the loop by one field |
| ResolveExpr.FieldsSoFarStep | src/resolve/mod.rs:413-423 | the loop invariant of the initialiser loop survives one more insertion |
| ResolveExpr.CorrespondsStep | src/resolve/mod.rs:413-423 | a translated initialiser that corresponds to its source extends the field-by-field correspondence, fully resolved when no diagnostic was added |
| ResolveExpr.LastWinsStep | src/resolve/mod.rs:415 | after one more insertion every name still maps to its last initialiser so far |
| ResolveExpr.DuplicatesStep | src/resolve/mod.rs:415-422 | every repeated name seen so far has been reported, with one more field taken |
| ResolveExpr.InsertField | src/resolve/mod.rs:415-422 | inserting a field overwrites its slot and reports a duplicate exactly when the name was given before |
| ResolveExpr.FieldNamesStep | src/resolve/mod.rs:415 | one more field adds its name to the set of names; it was there before exactly when it is not the name's first occurrence |
| ResolveExpr.TrMatch | src/resolve/mod.rs:462-469 | the scrutinee, then every clause, correspond to their sources, clause by clause with positions kept; fully resolved when nothing was reported |
| ResolveExpr.TrClauses | src/resolve/mod.rs:462-469 | the clauses become as many clauses, each keeping its positions and a body that corresponds to its source; the scope stack is unchanged |
| ResolveExpr.TrClause | src/resolve/mod.rs:509-527 | a clause's pattern variables live in a scope that is closed afterwards: the scope stack is unchanged; the clause keeps its positions and its body corresponds to the source body (fully resolved when nothing was reported) |
| ResolveExpr.BoundVars | src/resolve/mod.rs:538-542 | a variable pattern binds its name; wildcard, number and error patterns bind nothing |
| ResolveExpr.TrPattern | src/resolve/mod.rs:529-572 | every variable the resolved pattern binds is in the innermost scope; a variable pattern panics exactly when no scope is open; a constructor path naming a local, or not resolving, is reported and gives an error pattern |
| ResolveExpr.TrPatterns | src/resolve/mod.rs:544-560 | the sub-patterns keep their number and positions, and all the variables they bind are in the innermost scope |
| Resolve.BuiltinName | src/resolve/mod.rs:48-57 | a builtin name found implies there were attributes to scan |
| Resolve.BuiltinPanics | src/resolve/mod.rs:50-57 | the scan panics exactly when some `builtin` attribute has no argument |
| Resolve.BuiltinNone | src/resolve/mod.rs:47-62 | the scan finds nothing exactly when no attribute is `builtin` |
| Resolve.BuiltinFound | src/resolve/mod.rs:47-62 | a found name is the first argument of the last `builtin` attribute |
| Resolve.BuiltinNameSpec | src/resolve/mod.rs:47-65 | the scan panics exactly when some `builtin` attribute has no argument; finds nothing exactly when there is no `builtin` attribute; otherwise yields the first argument of the last `builtin` attribute |
| Resolve.GetTvarMaybeBuiltin | src/resolve/mod.rs:47-65 | the reserved type variable of the builtin name when there is one (no fresh id used), a fresh proper type variable when there is none, a panic when the attribute has no argument |
| Resolve.TypeIdsOfSnoc | src/resolve/mod.rs:31-44 | the struct and enum ids of a prefix of items grow by those of the next item |
| Resolve.GenerateTvars | src/resolve/mod.rs:30-45 | exactly the structs and enums of the module tree gain an entry, each a proper type variable; entries for other ids are kept |
| Resolve.GenerateItemTvars | src/resolve/mod.rs:32-43 | one item: a submodule recurses, a function adds nothing, a struct or enum adds its own id |
| Resolve.ArgTypes | src/resolve/mod.rs:201-213 | the parameter types, one per parameter, in order |
| Resolve.TrArgs | src/resolve/mod.rs:203-277 | every parameter name, `self` included, goes into the function's scope; parameters keep their number and shape, `self` taking the type of the enclosing type (or a pointer to it); on a free function a `self` parameter is reported and ends the translation with nothing |
| Resolve.TrSignature | src/resolve/mod.rs:196-277 | opens exactly one new scope; the return type defaults to `()`; the signature is dropped exactly when a free function has a `self` parameter, which is then reported |
| Resolve.TrFuncBody | src/resolve/mod.rs:279-311 | the function's symbol record (parameter types, return type, attributes) is entered; a body-less function gives nothing and is reported unless extern; the scope opened for the function is closed; a body keeps its shape |
| Resolve.TrFuncAsWritten | src/resolve/mod.rs:221-229 | as written, dropping a free function with a `self` parameter leaves its scope, holding `self`, open (see Findings) |
| Resolve.LeakedSelfShadows | src/resolve/mod.rs:90-98 | while such a leaked scope is open, every later `self` resolves to that stale local instead of being looked up |
| Resolve.TrFunc | src/resolve/mod.rs:190-312 | the corrected `tr_func`: the scope stack is the same afterwards on every path; a free function with `self` is reported and dropped with no record; otherwise the record is entered, and a function with a body comes back with the same id, name, parameter count and shape |
| Resolve.MethodsMap | src/resolve/mod.rs:97-101 | the method table has exactly the method names as keys |
| Resolve.MethodsMapLast | src/resolve/mod.rs:97-101 | each name maps to the id of its last method |
| Resolve.ResolveFields | src/resolve/mod.rs:88-96 | the field table has exactly the field names, each mapped to a type of the same shape as its syntax; success implies the names are distinct (a repeated field panics) |
| Resolve.ReportTypes | src/resolve/mod.rs:136-139 | the constructor parameter types, one per parameter, of the same shape as the syntax |
| Resolve.DeclareStruct | src/resolve/mod.rs:86-115 | an id without a type variable is an internal error and nothing is recorded; otherwise the type record (name, position, method table, fields) is stored under the struct's type variable and its symbol record under its id, attributes applied, and nothing else changes |
| Resolve.ConsIds | src/resolve/mod.rs:126-158 | the constructor ids in declaration order |
| Resolve.TrConstructor | src/resolve/mod.rs:128-156 | a tuple constructor records its parameter types and the enum as parent under its id; a struct-like constructor panics (`todo!()`) |
| Resolve.ConsTurn | src/resolve/mod.rs:127-157 | one constructor: a struct-like one fails with the records unchanged; a tuple one adds exactly its own record, an enum constructor with that parent |
| Resolve.TrConstructors | src/resolve/mod.rs:127-158 | the constructors in order, any struct-like one failing; other records are kept |
| Resolve.DeclareEnum | src/resolve/mod.rs:123-177 | an id without a type variable is an internal error; on success the type record lists the constructor ids and methods, the enum's symbol record is stored and every constructor has a record |
| Resolve.IdsOfAppend | src/resolve/mod.rs:78 | the ids of concatenated function lists are concatenated |
| Resolve.TrMethods | src/resolve/mod.rs:116-121 | every method gets a symbol record, and the ids of the emitted functions are exactly those of the methods with a body |
| Resolve.EmittedIdsOfSnoc | src/resolve/mod.rs:73-186 | the emitted ids of a prefix of items grow by those of the next item |
| Resolve.TrModule | src/resolve/mod.rs:67-188 | (corrected `tr_func`, see Findings) every struct and enum of the module tree gets a record; the ids of the emitted functions are exactly those of the functions and methods with a body, leaving out free functions with a `self` parameter, which are reported and dropped; the scope stack is unchanged |
| Resolve.TrModuleItem | src/resolve/mod.rs:74-185 | (corrected `tr_func`, see Findings) one item of a module: its types get records, and the ids of the functions it emits are those with a body, free functions with `self` left out |
| TypeGraph.ReverseGraph | src/symtable/type_sort.rs:26-40 | every node of the graph has an entry in the reverse graph; an entry exists otherwise only for an edge target; `f` is in the entry of `t` exactly when the graph has an edge from `f` to `t` |
| TypeGraph.EmptyEntries | src/symtable/type_sort.rs:29-31 | exactly the graph's nodes, each with an empty entry |
| TypeGraph.AddReversedEdges | src/symtable/type_sort.rs:34-36 | one node joins the entry of each of its targets, creating missing entries, and nothing is lost |
| TypeGraph.InDegrees | src/symtable/type_sort.rs:46-48 | the in-degree of each reverse-graph node is the number of its dependents |
| TypeGraph.Seeds | src/symtable/type_sort.rs:50-55 | the queue holds, once each, exactly the graph's nodes of in-degree zero |
| TypeGraph.ProcessEdges | src/symtable/type_sort.rs:59-67 | emitting one node keeps Kahn's invariant: counts are the dependents not yet emitted, the queue holds exactly the ready nodes, and the order respects every edge |
| TypeGraph.LeftOver | src/symtable/type_sort.rs:70-74 | exactly the nodes whose in-degree stays above zero, without repeats |
| TypeGraph.NoDependentCycle | src/symtable/type_sort.rs:59-68 | in a graph ranked along its edges, no node of a set in which each node has a dependent can sit below any rank |
| TypeGraph.NothingLeft | src/symtable/type_sort.rs:70-76 | in a graph without cycles nothing is left over |
| TypeGraph.TopoSort | src/symtable/type_sort.rs:42-79 | panics only when an edge leads outside the graph and never when all edges stay inside; otherwise the order lists graph nodes once each, every edge goes forward in it and every emitted node's dependents come first; the left-over nodes are exactly the rest, each with a dependent among them; nothing is left exactly when every node is emitted, which is always the case without cycles |
| TypeSort.TvarsOfNode | src/symtable/type_sort.rs:126-155 | unknown and pointers yield nothing; open variables and type applications panic; a named or plain type variable yields itself; an array yields its element's; a tuple or function type yields the union of its parts', failing when a part does |
| TypeSort.TvarsOfType | src/symtable/type_sort.rs:126-155 | on the view of the type: unknown and pointers yield nothing; open variables and type applications panic; a type variable yields itself |
| TypeSort.TvarsOfAll | src/symtable/type_sort.rs:137-139 | a list of types yields a value exactly when each type does, and then exactly the union of their type variables |
| TypeSort.SizeDependenciesWithinTvars | src/symtable/type_sort.rs:126-155 | whatever a type's size depends on is among the type variables collected for it |
| TypeSort.ConsTvars | src/symtable/type_sort.rs:107-118 | a constructor yields a value only when its record exists and is an enum constructor, and then the type variables of its arguments |
| TypeSort.StructTvars | src/symtable/type_sort.rs:98-102 | the fields of a struct yield a value exactly when each field type does, and then the union of their type variables |
| TypeSort.EnumTvars | src/symtable/type_sort.rs:103-120 | the constructors of an enum yield a value exactly when each does, and then the union of their type variables |
| TypeSort.GetTvars | src/symtable/type_sort.rs:95-124 | the type variables a nominal type holds, panicking exactly when a part panics |
| TypeSort.DepEdgesCoverSizes | src/symtable/type_sort.rs:95-124 | every type variable a field's or constructor argument's size depends on is an edge of the type in the dependency tree |
| TypeSort.MakeDepTree | src/symtable/type_sort.rs:81-93 | one entry per nominal type, holding exactly what `get_tvars` collects for it; panics exactly when some type's collection does |
| TypeSort.CalculateSize | src/symtable/type_sort.rs:9-24 | no type variable receives a size (the loop body is commented out) |
| SymTables.AsUsize | src/symtable/mod.rs:175-182 | a number exactly when the size is known, and then that number |
| SymTables.SumFirstMissing | src/symtable/mod.rs:115-125 | a tuple's sum has a size exactly when every item has one; otherwise it is the status of the first item without one |
| SymTables.Sizeof | src/symtable/mod.rs:105-153 | computes the size specification: unknown stays unknown, an open unification variable is not unified, a nominal type has its recorded size or is unsized, a tuple sums its items, an array multiplies, a function sums arguments and return, a pointer is 8 |
| SymTables.SizeofNode | src/symtable/mod.rs:106-152 | the size of a viewed type, as the specification gives it |
| SymTables.ArraySize | src/symtable/mod.rs:127-132 | the element size times the length, or the element's status |
| SymTables.FunSize | src/symtable/mod.rs:133-150 | the arguments' sum plus the return size, the first missing size winning |
| SymTables.SumSizes | src/symtable/mod.rs:116-125 | the loop returns the specification's sum, stopping at the first item without a size |
| SymTables.SizedDependencies | src/symtable/mod.rs:105-153 | a type with a size depends only on type variables that have a recorded size |
| SymTables.EmptySizesSized | src/symtable/mod.rs:33 | with no recorded sizes a type has a size only when its size depends on no type variable |
| SymTables.TypesReportsPanic | src/symtable/mod.rs:60-69 | the reports for a list of types panic exactly when some type has an open unification variable |
| SymTables.TypesReportsCount | src/symtable/mod.rs:60-69 | otherwise there is one unsized-type diagnostic at the declaration for each unsized type, and nothing else |
| SymTables.SymReportsMeaning | src/symtable/mod.rs:57-93 | the reports for one declaration are unsized-type diagnostics at its position, one exactly when some argument or return type is unsized |
| SymTables.ReportedAt | src/symtable/mod.rs:64-66 | a declaration with an unsized argument or return type is reported at its position |
| SymTables.ReportsSound | src/symtable/mod.rs:56-95 | every report of `check_sizes` is an unsized-type diagnostic at a visited declaration that has an unsized type |
| SymTables.ReportsComplete | src/symtable/mod.rs:56-95 | every visited declaration with an unsized type is reported at its position |
| SymTables.CheckType | src/symtable/mod.rs:70-77 | one type: reported when unsized, a panic when not unified, otherwise silent |
| SymTables.CheckTypes | src/symtable/mod.rs:60-69 | the argument loop appends exactly the reports of its types, or panics |
| SymTables.CheckSym | src/symtable/mod.rs:58-92 | functions check arguments then return type, constructors their arguments, structs and enums nothing |
| SymTables.CheckNext | src/symtable/mod.rs:57-93 | one more declaration appends exactly its reports |
| SymTables.CheckSizes | src/symtable/mod.rs:56-95 | succeeds exactly when no declaration panics, visiting every declaration once and appending all their reports in that order |
| SymTables.NominalReported | src/symtable/mod.rs:109-113 | since no size is ever recorded, a declaration with a nominal argument or return type is always reported as unsized |
| SymTables.RecursiveReports | src/symtable/mod.rs:29-32 | one recursive-type diagnostic per left-over type, in order, at its declaration |
| SymTables.LeftAreKeys | src/symtable/mod.rs:29-30 | when edges stay inside the graph, every left-over type is a key, so the lookup does not fail |
| SymTables.ReportCyclic | src/symtable/mod.rs:29-32 | succeeds exactly when every left-over type has a record, and then appends their recursive-type diagnostics in order |
| SymTables.SortTypes | src/symtable/mod.rs:27-28 | the dependency tree of the nominal types, then its topological sort |
| SymTables.Init | src/symtable/mod.rs:22-42 | the table keeps both maps, records no sizes, orders types topologically, reports each type on a cycle as recursive and then the unsized declarations |
| VarIds.VarID.Get | src/mir/ast.rs:85-89 | reading the number back rebuilds the same id |
| VarIds.VarSpawner.Fresh | src/mir/ast.rs:98-101 | the counter goes up by one and the id returned is the new counter, never handed out before |
| VarIds.FreshFromNew | src/mir/ast.rs:94-101 | a new spawner hands out 1 and then 2 |
| SymLayouts.RequireStack | src/symtable/layout.rs:29-37 | true exactly for non-primitive layouts, empty structs and unions included |
| MirAst.RequireStack | src/mir/ast.rs:41-52 | true exactly for array and tuple layouts; a simple value never needs the stack |
| MirEnvs.Env.FreshVar | src/mir/env.rs:14-16 | a never-issued id; no name binding changes |
| MirEnvs.Env.AddVar | src/mir/env.rs:18-22 | a never-issued id, bound to the name in place of any earlier binding, which the name now looks up |
| MirEnvs.Env.Lookup | src/mir/env.rs:40-42 | the name's id exactly when it is bound; otherwise a panic |
| VarIds.VarSpawner.constructor | src/mir/ast.rs:94-96 | the counter starts at 0 and nothing has been handed out |
| MirEnvs.Env.constructor | src/mir/env.rs:24-29 | no names bound and a new spawner at 0 |
| CoreEnvs.Env.FreshVar | src/core/env.rs:10-12 | a never-issued core id; the map is unchanged |
| CoreEnvs.Env.AddVar | src/core/env.rs:14-18 | maps the MIR id to a never-issued core id, which lookup then returns; re-adding a MIR id rebinds it to a different, newer id |
| CoreEnvs.Env.Lookup | src/core/env.rs:27-29 | the core id exactly when the MIR id is mapped; otherwise a panic |
| CodegenEnvs.Env.FreshVar | src/codegen/env.rs:14-16 | a never-issued id; no name binding changes |
| CodegenEnvs.Env.AddVar | src/codegen/env.rs:18-22 | a never-issued id bound to the name, which lookup then returns as a local variable |
| CodegenEnvs.Env.DeclareVar | src/codegen/env.rs:31-39 | a never-issued id, bound to the name only when one is given, returned as a local variable together with the declaration of that same id and type |
| CodegenEnvs.Env.Lookup | src/codegen/env.rs:41-45 | the local variable of the name's id exactly when it is bound; otherwise a panic |
| Emit.Digit | src/codegen/emit.rs:118 | a decimal digit character whose value is the digit |
| Emit.ShowNat | src/codegen/emit.rs:118 | a number prints as decimal digits without a leading zero |
| Emit.ReadShowNat | src/codegen/emit.rs:118 | reading the printed digits back gives the number |
| Emit.ShowNatInjective | src/codegen/emit.rs:118 | two numbers print alike exactly when they are equal |
| Emit.ShowTVarById | src/codegen/emit.rs:116-120 | type variables print alike ("tv_" and the id) exactly when their ids are equal |
| Emit.ShowTVar | src/codegen/emit.rs:116-120 | a type variable prints as "tv_" followed by digits that read back as its id |
| Emit.ShowNodeId | src/codegen/emit.rs:253-257 | a node id prints as "id_" followed by digits that read back as its number |
| Emit.ShowVarRefInjective | src/codegen/emit.rs:244-257 | two variable references print alike exactly when they are equal: a global prints "id_" and digits, a local bare digits |
| Emit.ShowVarRef | src/codegen/emit.rs:244-251 | a local prints as digits that read back as its number; a global as "id_" followed by digits that read back as its node id |
| Emit.ShowLValue | src/codegen/emit.rs:200-212 | a place prints exactly when it is a variable reference; field access and dereference are `todo!()` |
| Emit.ShowRValue | src/codegen/emit.rs:214-242 | a value prints exactly when it is a number, an array initialiser, a tuple or a printable place; calls, references and struct literals are `todo!()` |
| Emit.ShowStmt | src/codegen/emit.rs:166-198 | a `return` always prints; an assignment prints exactly when its place and its value do |
| Emit.ShowLines | src/codegen/emit.rs:178-193 | the body of an `if` or `while` prints one line, ending in a newline, per statement |
| Emit.WithNameSplices | src/codegen/emit.rs:123-163 | the declarator of a named variable is the unnamed declarator with the name inserted at one place that does not depend on the name (none for a tuple, whose name is dropped); whether it panics does not depend on the name |
| Emit.WithNameNodeSplices | src/codegen/emit.rs:124-162 | the same on the view of a type |
| Emit.WithNamePrintable | src/codegen/emit.rs:123-163 | `with_name` returns a declarator exactly when the type, looked through resolved unification variables, contains no unknown type, open unification variable or type application |
| Emit.WithNameNodePrintable | src/codegen/emit.rs:124-162 | the same on the view of a type |
| Emit.WithName | src/codegen/emit.rs:123-163 | `with_name` on the view of the type; no contract of its own: WithNamePrintable and WithNameSplices state when it panics and where the name goes |
| Emit.WithNameNode | src/codegen/emit.rs:124-162 | the match of `with_name` on a viewed type; no contract of its own: WithNameNodePrintable and WithNameNodeSplices state its properties |
| Emit.PointerTo | src/codegen/emit.rs:158 | the pointee declared without a name, then " *" and the name; no contract of its own: WithNameSplices states it |
| Emit.TupleFields | src/codegen/emit.rs:129-141 | the tuple fields "__0", "__1", ... each followed by ";"; no contract of its own: TupleFieldsPrintable states it |
| Emit.ArgList | src/codegen/emit.rs:145-157 | the unnamed argument declarators joined by ", "; no contract of its own: ArgListPrintable states it |
| Emit.TupleFieldsPrintable | src/codegen/emit.rs:133-137 | a tuple's fields render exactly when every item is printable |
| Emit.ArgListPrintable | src/codegen/emit.rs:149-153 | a function's argument list renders exactly when every argument type is printable |
| CoreEnvs.Env.constructor | src/core/env.rs:20-25 | an empty map and a new spawner at 0 |
| CodegenEnvs.Env.constructor | src/codegen/env.rs:24-29 | no names bound and a new spawner at 0 |
| Emit.TupleInitsCount | src/codegen/emit.rs:234-236 | the initialisers of a tuple value hold exactly one `=` per field |
| Emit.ShowTupleValue | src/codegen/emit.rs:233-238 | a tuple value always prints, between braces, with exactly one initialiser per field |
| Parser.Utf8Len | src/parser/mod.rs:220 | a character takes one to four bytes, one exactly when it is ASCII |
| Parser.ByteLen | src/parser/mod.rs:220-223 | a string takes at least as many bytes as characters, exactly as many when it is all ASCII |
| Parser.HexValue | src/parser/mod.rs:189 | the value of n hexadecimal digits is below 16^n |
| Parser.FromHex | src/parser/mod.rs:189 | `from_str_radix(_, 16)`: a value exactly for a non-empty run of hexadecimal digits, or, when the sign is allowed, a '+' followed by one; the value is that of the digits |
| Parser.StepAt | src/parser/mod.rs:174-207 | one step of the decoding loop consumes at least one and at most the remaining characters |
| Parser.Decode | src/parser/mod.rs:172-210 | decoding the body of a string literal never panics |
| Parser.Unescape | src/parser/mod.rs:166-211 | `unescape_json_string` panics exactly when the literal is shorter than two characters or its first or last character is not ASCII (the byte slicing of the quotes); otherwise it decodes the body |
| Parser.PrependPrepend | src/parser/mod.rs:177-206 | text pushed in two steps is the text pushed at once |
| Parser.ReadOne | src/parser/mod.rs:175-207 | one loop iteration reads the step the decoding specification gives at that index, under the given hexadecimal rule |
| Parser.UnescapeJsonString | src/parser/mod.rs:166-211 | the loop computes the decoder specification on the text between the quotes under the given hexadecimal rule (`SignAllowed` is the source's `from_str_radix`, `DigitsOnly` the corrected reading), with the same panics on a short or non-ASCII-bounded literal |
| Parser.DecodeBody | src/parser/mod.rs:171-210 | the `while let` loop over the body returns exactly the decoding of the whole body under the given hexadecimal rule: the first error, or every pushed character in order |
| Parser.DecodeTurn | src/parser/mod.rs:173-207 | one turn either ends the loop with the error the rest of the body decodes to, or consumes at least one character and pushes what keeps the decoded whole unchanged, under the given hexadecimal rule |
| Parser.DecodePlain | src/parser/mod.rs:205-207 | a body without backslashes is copied unchanged |
| Parser.DecodeTrailingBackslash | src/parser/mod.rs:203 | a lone backslash at the end gives "Incomplete escape" |
| Parser.DecodeUnicodeEscape | src/parser/mod.rs:185-201 | a `\u` escape with four hexadecimal digits gives the character with that code, or "Invalid unicode escape" for a surrogate |
| Parser.SurrogatePairRejected | src/parser/mod.rs:190-194 | the two halves of a surrogate pair are never joined: the pair for U+1F600 is rejected at its first half |
| Parser.DecodeShortEscape | src/parser/mod.rs:177-184 | each of the eight short escapes decodes to its character |
| Parser.DecodeEscape | src/parser/mod.rs:166-211 | decoding undoes JSON escaping: every string survives the round trip, under either hexadecimal rule |
| Parser.DecodeAcceptsStandard | src/parser/mod.rs:174-204 | the corrected decoder accepts a body exactly when all its escapes are well formed |
| Parser.UnicodeEscapeSignAccepted | src/parser/mod.rs:187-189 | as written, "\u+041" decodes to "A" although it is not a valid escape; the corrected decoder rejects it (see Findings) |
| Parser.CSimpleEscape | src/parser/mod.rs:229-240 | each single-character C escape stands for an ASCII byte; `x` is not one of them |
| Parser.ByteLenShort | src/parser/mod.rs:223 | a body of one byte is exactly one ASCII character |
| Parser.ParseCharLiteral | src/parser/mod.rs:213-254 | a literal yields a byte; it panics only on the single quote `'`, where the slice bounds cross |
| Parser.ParseQuotedEscape | src/parser/mod.rs:228-240 | a quoted single-character escape yields its C value |
| Parser.ParseQuotedHex | src/parser/mod.rs:241-248 | a quoted two-digit `\x` escape yields the byte of those digits |
| Parser.ParseCharLiteralOf | src/parser/mod.rs:213-254 | reading back the literal written for any byte gives that byte |
| Parser.ParseHexEscape | src/parser/mod.rs:241-248 | with the corrected rule, a `\x` escape is accepted exactly for one or two hexadecimal digits and stands for their value; an empty or longer tail is "invalid hex escape", other text "invalid hex digits" |
| Parser.HexEscapeSignAccepted | src/parser/mod.rs:247 | as written, `'\x+f'` is accepted as 15; the corrected rule rejects it (see Findings) |
| Parser.ModulePathOf | src/parser/mod.rs:43-69 | never panics; a module path keeps the directory names in order and adds the file's module name unless the file is `mod.mst` |
| Parser.ModulePathOfFiles | src/parser/mod.rs:40-42 | `m/mod.mst` and `m.mst` both name module path `m` (the latter unless the last name is `mod`) |
| Parser.GetModulePath | src/parser/mod.rs:43-69 | the reversing and extending loops compute the module path specification |
| TypecheckEnv.LookupInFinds | src/typecheck/env.rs:61-68 | a name is found exactly when some scope binds it |
| TypecheckEnv.LookupIn | src/typecheck/env.rs:61-68 | a binding found is that of the innermost scope holding the name: no later scope binds it |
| TypecheckEnv.Bound | src/typecheck/env.rs:31-36 | binding touches only the innermost scope |
| TypecheckEnv.LookupBound | src/typecheck/env.rs:31-36 | after binding, the name finds the new binding (shadowing outer ones) and every other name finds what it found before |
| TypecheckEnv.LookupNewScope | src/typecheck/env.rs:70-76 | an empty innermost scope changes no lookup, and popping it restores the stack |
| TypecheckEnv.I32Panic | src/typecheck/env.rs:46 | `Type::builtin("i32")`, which `finish` uses, panics (the builtin registry is `todo!()`) |
| TypecheckEnv.Viewed | src/typecheck/env.rs:39-40 | the recorded types, each replaced by its view, positions kept |
| TypecheckEnv.FinishSilent | src/typecheck/env.rs:38-59 | `finish` reports nothing and does not panic exactly when every recorded type views as neither an open `UVar` nor an open `NumericUVar` |
| TypecheckEnv.FinishReportsOpen | src/typecheck/env.rs:41-43 | every report of `finish` is a `cannot_infer_type`, at most one per recorded type |
| TypecheckEnv.FinishOne | src/typecheck/env.rs:40-56 | one recorded type: a report for an open `UVar`, a stop for an open `NumericUVar`, nothing otherwise; the arena only compresses paths |
| TypecheckEnv.FinishFrom | src/typecheck/env.rs:39-57 | the walk from index i stops (the `Type::builtin("i32")` panic) exactly when some type from i on is an open numeric variable |
| TypecheckEnv.FinishLoop | src/typecheck/env.rs:39-57 | the loop appends exactly the specification's reports and stops exactly where it says |
| TypecheckEnv.Env.constructor | src/typecheck/env.rs:17-23 | one empty scope, nothing recorded, the given return type |
| TypecheckEnv.Env.FreshUVar | src/typecheck/env.rs:25-29 | a new plain unification variable, recorded with its position and returned; scopes unchanged |
| TypecheckEnv.Env.NumericUVar | src/typecheck/env.rs:82-86 | a new numeric unification variable, recorded with its position and returned; scopes unchanged |
| TypecheckEnv.Env.AddVar | src/typecheck/env.rs:31-36 | binds in the innermost scope, replacing a binding there; panics with nothing changed when there is no scope |
| TypecheckEnv.Env.Lookup | src/typecheck/env.rs:61-68 | the innermost binding of the name; unreachable when no scope binds it |
| TypecheckEnv.Env.NewScope | src/typecheck/env.rs:70-72 | pushes one empty scope |
| TypecheckEnv.Env.LeaveScope | src/typecheck/env.rs:74-76 | pops the innermost scope; on an empty stack it does nothing |
| TypecheckEnv.Env.Finish | src/typecheck/env.rs:38-59 | the classes of the arena are unchanged; the reports appended are exactly those of the specification over the viewed recorded types; it panics exactly when one of them is an open numeric variable |
| Typecheck.ClosedWf | src/typecheck/mod.rs:236-239 | a type with no unification variable (every annotation and signature the resolver hands over) is well formed over any arena |
| Typecheck.LookupWf | src/typecheck/mod.rs:72-73 | the binding found for a local is well formed whenever every scope is |
| Typecheck.Expect | src/typecheck/mod.rs:77-79 | `unify(exp, act)` leaves the arena as its specification says, and a `type_mismatch` is appended exactly when it fails; no fuel: overflow; no arm: mismatch; never: success |
| Typecheck.Unified | src/typecheck/mod.rs:150-152 | the arena goes from its state before the call to the one the specification of `unify` gives for the two types, and one `type_mismatch` at the position is appended exactly when it fails |
| Typecheck.EndsIntro | src/typecheck/mod.rs:194-201 | a step that unified two types and reported its failure is one the state ends with |
| Typecheck.UnifiedFromIntro | src/typecheck/mod.rs:150-152 | the arena and diagnostics `Expect` leaves are those of unifying the two types and reporting a failure |
| Typecheck.MutReport | src/typecheck/mod.rs:74-76 | `expected_mutable` is reported exactly when a mutable place is expected of an immutable binding |
| Typecheck.GrewTrans | src/typecheck/mod.rs:61-68 | the growth of diagnostics and arena that every arm keeps is transitive |
| Typecheck.FreshKeeps | src/typecheck/mod.rs:124 | a fresh variable keeps every scope, the return type and the given types well formed |
| Typecheck.Fresh | src/typecheck/mod.rs:124 | `Type::fresh_uvar` yields a new plain variable and changes nothing else |
| Typecheck.Sub | src/typecheck/mod.rs:126 | a recursive `check_expr` keeps the state grown, never leaks an inner scope on success, and never reaches "never always coerces" |
| Typecheck.Conclude | src/typecheck/mod.rs:194-201 | the closing `unify(exp, act)` of an arm: the arm's value when unification does not overflow, a stack overflow when it does; the final arena and diagnostics are those that unification and its report leave, a `type_mismatch` exactly when it fails |
| Typecheck.CheckExpr | src/typecheck/mod.rs:61-351 | diagnostics and arena only grow, the scope stack is restored on success, `return` never panics while never is never, and every kind left to `todo!()` stops there |
| Typecheck.CheckCompound | src/typecheck/mod.rs:123-202 | what every arm keeps (diagnostics and arena only grow, scopes restored on success, never-coercion unreachable, `todo!()` kinds stop), for calls, field accesses and tuples |
| Typecheck.CheckControl | src/typecheck/mod.rs:204-270 | the same guarantees for `return`, blocks and `if` |
| Typecheck.CheckBinding | src/typecheck/mod.rs:231-285 | the same guarantees for `let` and assignment |
| Typecheck.CheckPlace | src/typecheck/mod.rs:286-327 | the same guarantees for `&`, `&mut` and `*` |
| Typecheck.CheckLocal | src/typecheck/mod.rs:72-84 | an unbound name is unreachable; a bound one yields its binding's type, with `expected_mutable` then `type_mismatch` reported exactly as the source orders them |
| Typecheck.ConsType | src/typecheck/mod.rs:101-108 | a constructor without arguments has its enum's type, one with arguments a function to it |
| Typecheck.CheckGlobal | src/typecheck/mod.rs:85-119 | a missing symbol unwraps `None`; a function has its signature's type; a constructor the type of its enum, or "parent of an enum cons is enum" when the parent is no enum; structs and enums are `todo!()`; a global that checks ends by unifying the expected type with its type, reporting `type_mismatch` exactly when that fails |
| Typecheck.CheckNumLit | src/typecheck/mod.rs:329-335 | a literal gets a new numeric variable and ends by unifying the expected type with it, reporting `type_mismatch` exactly when that fails; it fails only by running out of stack |
| Typecheck.CheckCall | src/typecheck/mod.rs:123-162 | a checked call has one checked argument per parameter, every surplus argument is reported as unexpected, numbered from the parameter count plus one, and the call ends by unifying the expected type with the callee's return type at its position |
| Typecheck.CheckCallee | src/typecheck/mod.rs:124-132 | the callee is checked against a fresh variable that must view as a function (`not_a_function` is `todo!()`) |
| Typecheck.CheckArgs | src/typecheck/mod.rs:133-146 | each argument is checked against its parameter in order; a missing argument stops at `todo!()` |
| Typecheck.SurplusAt | src/typecheck/mod.rs:147-150 | one `unexpected_argument` per surplus argument, in order, the argument at index k numbered k + 1 |
| Typecheck.ReportSurplus | src/typecheck/mod.rs:147-150 | appends exactly those reports |
| Typecheck.FieldOf | src/typecheck/mod.rs:167-192 | a field is found exactly when the object views as a type variable of a struct that has it, and its type is the declared one; a variable without type information unwraps `None` |
| Typecheck.CheckField | src/typecheck/mod.rs:164-202 | a field access that checks has the declared type of that field of some struct and ends by unifying the expected type with it; otherwise `no_such_field` is the last report and the result is the error expression |
| Typecheck.CheckObject | src/typecheck/mod.rs:165-167 | the object is checked against a fresh variable with the expected mutability |
| Typecheck.CheckReturn | src/typecheck/mod.rs:204-215 | the value is checked against the function's return type, which the result records |
| Typecheck.CheckBlock | src/typecheck/mod.rs:216-229 | a block checks in a scope of its own, which it removes; one checked statement per statement, and the block has the expected type |
| Typecheck.CheckStmts | src/typecheck/mod.rs:218-221 | every statement is checked against unit, in order |
| Typecheck.CheckLet | src/typecheck/mod.rs:231-254 | the binding is added after its initialiser, with the annotated type or a fresh variable, shadowing in the innermost scope; with no scope it cannot succeed; it ends by unifying the expected type with unit |
| Typecheck.LetType | src/typecheck/mod.rs:237-240 | the annotation, or a new plain variable when there is none |
| Typecheck.CheckInit | src/typecheck/mod.rs:241-243 | the initialiser is checked in a scope of its own, which it removes |
| Typecheck.CheckIf | src/typecheck/mod.rs:256-270 | both branches share a fresh variable, which is the type of the result and is unified with the expected type at the end |
| Typecheck.CheckBranches | src/typecheck/mod.rs:258-260 | the condition is checked against bool, then the else branch, then the then branch |
| Typecheck.CheckAssign | src/typecheck/mod.rs:272-284 | both sides share a fresh variable, which the result records; it ends by unifying the expected type with unit |
| Typecheck.CheckRef | src/typecheck/mod.rs:286-310 | `&e` has type pointer to a fresh variable, `&mut e` mutable pointer to one, and that type is unified with the expected type at the end |
| Typecheck.CheckDeref | src/typecheck/mod.rs:312-327 | the inner type of a dereference is a fresh variable, which is unified with the expected type at the end |
| Typecheck.CheckTuple | src/typecheck/mod.rs:337-347 | a tuple has one checked item per item |
| Typecheck.CheckItems | src/typecheck/mod.rs:340-345 | each item is checked against its own fresh variable, in order |
| Typecheck.TrFunc | src/typecheck/mod.rs:30-59 | a checked function keeps its id, name, return type and parameters |
| Typecheck.Translate | src/typecheck/mod.rs:14-28 | one checked function per function, in order, each keeping its identity; the first panic stops the whole |
| MirLayout.FieldTypes | src/mir/mod.rs:458-459 | the field types of a struct, one per field name, in the visiting order given |
| MirLayout.Packed | src/mir/mod.rs:489-494 | each item placed at the sum of the sizes of the items before it |
| MirLayout.LayoutOf | src/mir/mod.rs:430-527 | every layout `get_layout` returns starts at offset 0 with alignment 3 |
| MirLayout.NamedLayout | src/mir/mod.rs:435-483 | the layout of a named type: its builtin size as a simple machine type, else its struct laid out as a tuple; also offset 0 and alignment 3 |
| MirLayout.ItemLayouts | src/mir/mod.rs:489-495 | one layout per remaining item |
| MirLayout.GetLayout | src/mir/mod.rs:430-527 | the recursive method computes exactly the specification's layout or panic |
| MirLayout.GetNamedLayout | src/mir/mod.rs:435-483 | the loop over the struct's fields computes exactly the specification's layout |
| MirLayout.PackItems | src/mir/mod.rs:485-505 | the tuple loop computes exactly the tuple layout of its items' layouts |
| MirLayout.ItemLayoutsOf | src/mir/mod.rs:489-495 | the item loop computes exactly the items' layouts, stopping at the first panic |
| MirLayout.SizeSumPacked | src/mir/mod.rs:492-493 | placing items does not change their running size total |
| MirLayout.WellPackedMoved | src/mir/mod.rs:491 | moving a layout to another offset keeps it consistent |
| MirLayout.TupleOfWellPacked | src/mir/mod.rs:496-504 | a tuple of consistent layouts is consistent |
| MirLayout.LayoutWellPacked | src/mir/mod.rs:430-527 | every layout produced is consistent all the way down: a tuple counts its fields, each field starts where the previous ends, the tuple is as large as its fields together, an array has size 0 |
| MirLayout.ItemsWellPacked | src/mir/mod.rs:489-495 | every item layout produced is consistent |
| MirLayout.ItemLayoutsAre | src/mir/mod.rs:489-495 | the items' layouts exist exactly when each item's does, and are those; otherwise the panic is the first item's panic |
| MirLayout.TupleLayoutIs | src/mir/mod.rs:485-505 | a tuple has a layout exactly when every item has one; it counts its items, item k sits at the size of the items before it, and the tuple is as large as all of them |
| MirLayout.StructIsTuple | src/mir/mod.rs:451-475 | a struct without builtin size is laid out as the tuple of its field types in the map's visiting order, with one field per entry |
| MirLayout.DistinctListing | src/mir/mod.rs:458 | a visiting order of a map's keys without repetition has one entry per key |
| MirLayout.FixedShapes | src/mir/mod.rs:431-433 | unknown and unification types panic; an array records its length and element layout with size 0; functions and pointers are 8-byte machine words |
| MirLayout.ArgType | src/mir/mod.rs:93-100 | a simple layout is passed as its machine type, an aggregate by address |
| MirLayout.SignatureTypes | src/mir/mod.rs:91-104 | the parameter types, then the return type |
| MirLayout.LowerSignature | src/mir/mod.rs:86-114 | panics exactly when some parameter or the result has no layout; otherwise one fresh variable per parameter bound to its name, aggregates by address and on the stack; an aggregate result adds the hidden `__ret_var` argument and returns nothing, a simple one is returned in a register |
| MirLayout.BindParams | src/mir/mod.rs:91-102 | each parameter gets a fresh variable bound to its name, with its mutability and passing type, and aggregates marked as living on the stack |

## Left out

- Reading files, the generated parser, command-line driving, and the C and native back ends (`parse_project`, `parse_file`, `driver.rs`, `cl_backend`): input/output and a foreign library.
- The lowering passes that are still mostly stubs (`flatten`, `cfg`, `core/mod.rs`, `codegen/mod.rs`, and `tr_expr`/`deblock` in `mir/mod.rs`). Only their shared helpers are modelled.
- `emit_code`, which writes to an output stream, and the debug `println!` calls. The renderings are modelled as functions returning text.
- The diagnostic builders and their rendering (`error/`, `common/sources.rs`, `common/position.rs`). A diagnostic is its kind and position.
- HashMap iteration order. It is a parameter wherever the source depends on it: struct fields in `get_layout`, `make_dep_tree`, and ties in `topo_sort`. Properties are stated for every order.
- Recursion depth. `unify`, `occurs`, `check_expr` and the struct case of `get_layout` take a stack bound; running out stands for the stack overflow the source can reach on cyclic types.
- The `usize` counters and sums (`COUNTER`, `sizeof`, layout offsets) are unbounded; wrap-around is not modelled.
- `TVar::is_numeric`, `is_never`, `is_builtin` and `builtin_size` are `todo!()` in the source. They are an oracle parameter. `builtin_as_mir_type` is not defined in the repository; it is a table in the lowering parameters.
- Symbol-table accessors (`find_sym_info`, `find_type_info`, `get_type_order`, `get_items`, `destroy_for_items`) are map lookups inlined where used.
- SymTables.Init: `topo_sort` returns a list, but `init` destructures it as a pair. The model returns the order and the nodes left over, which are the ones `topo_sort` prints as cyclic.
- TypeSort.CalculateSize: the source's loop body is empty and the result is always the empty map, which is what is modelled.
- Type parameters are not keys of the type-variable map. A generic struct whose field has a parameter type therefore panics in `topo_sort` or `init`, and that outcome is part of the contracts.
- ImportSolve.Settle: the fixed-point loop takes a bound on the number of passes and reports `Unfinished` when it is exhausted. The source loops until nothing changes. Its fixed point also rests on the corrected glob loop (see Findings).
- The resolver's `translate` and `finish` (src/resolve/mod.rs:17-28) only sequence the modelled passes and are not modelled themselves.
- Typecheck.CheckExpr: `check_expr` never returns `Err`, so its result type holds only the value or the panic. Its contract states what every arm keeps, not how the result relates to the expected type. Of the arms, CheckLocal, CheckGlobal, CheckNumLit, CheckCall, CheckField, CheckLet, CheckIf, CheckAssign, CheckRef and CheckDeref state their closing unification; the lines below name what the others, and the inner checks of all of them, leave unstated.
- CheckCallee: a callee whose type does not view as a function stops at `todo!()` (`not_a_function`); the contract states only the shared guarantees and that the function type found is well formed.
- CheckArgs: a missing argument stops at `todo!()`; the contract says only that such a call does not succeed, and not that each argument is checked against its parameter.
- CheckObject: the object is checked against a fresh variable with the expected mutability; the contract does not relate the type returned to the view of that variable.
- CheckField: the contract names some struct that has the field, not the struct the object's type views as.
- CheckBlock: the statements are checked against unit; the contract states the scope, the count and the block's type, not those checks.
- CheckStmts: the contract states the count of checked statements, not that each is checked against unit.
- CheckLet: the initialiser is checked against the binding's type in a scope of its own; the contract states the binding and the closing unification, not the initialiser's check.
- CheckBranches: the condition is checked against bool, then the else branch, then the then branch, both against the shared variable; the contract does not state this order.
- CheckAssign: the left side is checked as a mutable place against the shared variable, then the right side against it; the contract states the result and its closing unification only.
- CheckRef: the operand of `&mut` is checked as a mutable place and that of `&` as any place; the contract states the pointer type and the closing unification only.
- CheckItems: each item is checked against its own fresh variable; the contract states only the count.
- CheckTuple: the tuple arm never unifies with the expected type, as in the source; the contract states only the shape of the result.
- CheckDeref: the operand is checked against `*mut` or `*` of the fresh variable, by the expected mutability; the contract states the closing unification, not the operand's check.
- CheckIf: the contract states the shared variable and the closing unification; the order of the branches is CheckBranches's.
- Typecheck.CheckField: `FieldAccess` in the source matches a `TypeInfo::Struct` variant that does not exist. The model reads the struct's fields from the type kind, and its report is `no_such_field`.
- Typecheck.CheckGlobal: the `BuiltinFunc` symbol kind is not a kind of the model's symbol table; the source marks it `todo!()` as well.
- TypecheckEnv.Env.Finish: `check_expr` creates its unification variables without recording them in the environment, so `finish` has nothing to do in the source's own use. Its contract is stated for any recorded list.
- MirLayout.GetLayout: layouts are computed on types after `view`, so a layout never depends on the arena. The callers in the lowering pass are not part of this model.
- MirLayout.LowerSignature: it computes every parameter and result layout before binding names, where the source interleaves the two. A panic ends the pass either way, so the outcome is the same.
- Parser.UnescapeJsonString: surrogate pairs are never joined, as in the source, which rejects each half. Octal C escapes and unescaped control characters are not recognised by the source and are not modelled.
- ImportSolve.ResolveImport: its change flag is that of the corrected glob loop (ResolveGlob, see Findings). As written, src/mod_tree/import_solve.rs:177 can lose a change, and the flag-iff-changed promise then fails.
- ImportSolve.ResolveImportStep: computes the corrected ResolveImport (see Findings), not the glob loop as written.
- ImportSolve.ApplyImportsUnchanged: rests on the corrected flag; for the source as written a scope can change while every import reports no change.
- ImportSolve.PassFixedPoint: the fixed point follows from the corrected flag; as written, a pass that lost its change stops the loop on a tree that is not a fixed point.
- ImportSolve.Solve: the solved tree is a fixed point because the corrected glob loop is used (see Findings).
- ModTree.Translate: the imports' fixed point comes from the corrected Solve (see Findings).
- Resolve.TrModule: it uses the corrected `tr_func` (see Findings). As written, a module holding a free `fn f(self)` returns with one leaked local scope, so `localScopes` is not restored.
- Resolve.TrModuleItem: it uses the corrected `tr_func` (see Findings), with the same leaked scope left out.
- Unification.UnifyFuns: `ret` starts from `items1.len() != items2.len()`, so two function types of the same arity never unify and two of different arities can. This looks inverted but is modelled, and stated, as written; the type checker's behaviour on function values depends on it.
- Parser.GetModulePath: paths are sequences of components, so the `to_str` failure on non-UTF-8 names is not modelled.
- Emit.ShowVarRef: the code generator's `VarID` has no `Display` implementation in the source; the model prints its number.
- Emit.ShowStmt: `if` and `while` are rendered, but only their line count (ShowLines) is stated, and a variable declaration is WithName's declarator; their full text is not stated.
- `Type::named_var` is called with two arguments where it takes three, and `Path` lacks `pop_front_inplace`, `push_inplace`, `try_last` and `if_single`. The model uses the evident three-argument form and the obvious deque operations.
- TypeOps.Finite: a ghost precondition that a type, looked at through its unification variables, ends within a given height. The source walks such types recursively with no bound and would overflow its stack on a variable resolved to a type containing itself; the members below are stated only for finite types and leave that overflow out.
- SymTables.Sizeof, SymTables.Init, SymTables.CheckSizes, SymTables.CheckSym, SymTables.CheckType, SymTables.CheckTypes, SymTables.SortTypes, SymTables.ArraySize, SymTables.FunSize, SymTables.SumSizes and SymTables.CheckNext require every type they visit to be `Finite` (directly or through `SymsFinite`); their contracts say nothing about a cyclic type.
- TypeSort.GetTvars, TypeSort.MakeDepTree, TypeSort.StructTvars, TypeSort.EnumTvars, TypeSort.TvarsOfType and TypeSort.TvarsOfAll require the types they collect variables from to be `Finite`; their contracts say nothing about a cyclic type.
- Emit.WithName, Emit.PointerTo, Emit.TupleFields and Emit.ArgList (and the statement renderings that reach them through a declared type) require the type they print to be `Finite`; their contracts say nothing about a cyclic type.
- CodegenAst: the statement `While` and the values `ArrayInit` and `Tuple` are not declared in src/codegen/ast.rs, yet src/codegen/mod.rs:177,186 builds them and src/codegen/emit.rs:188,230,233 prints them. The model declares them with the fields those uses give them.
- ModTree.TrStruct and ModTree.TrEnum: the translated struct and enum carry no methods (`methods: []`). The source's struct and enum literals in src/mod_tree/mod.rs:240,315 leave out the `methods` field that src/mod_tree/ast.rs:54,65 declares, so the mod-tree pass carries no methods over; Resolve.TrMethods therefore sees none coming from this pass.
- ResolveExpr.Corresponds: a pattern is related to its source only by position (its variables and constructor paths are TrPattern's contracts), and an expression's positions, names and literals are related but not the symbol every resolved path names.

## Findings

| source | as written | input that shows it | evidently intended | confidence | as-written member | corrected member |
|---|---|---|---|---|---|---|
| src/mod_tree/import_solve.rs:177 | inside the glob loop, `changed = ids.insert(..)` overwrites a `true` from an earlier item | glob import of a scope holding `a: Local 72, b: Local 71` into a scope whose `b` is `Ambiguous{70, 71}`: `a` is added, then `b` resets the flag to false | the pass reports a change whenever any item changed | high, not executed | ImportSolve.GlobChangeLost | ImportSolve.ResolveGlob |
| src/resolve/mod.rs:226-229 | a free function with a `self` parameter reports and returns without `leave_scope` (also at 244-247 and 262-265) | a free function `fn f(self)` followed by any declaration that mentions `self`: the leaked scope still binds `self`, so that mention resolves to the stale local | the scope opened for the function is closed on every path | high, not executed | Resolve.TrFuncAsWritten, Resolve.LeakedSelfShadows | Resolve.TrFunc |
| src/parser/mod.rs:187-189 | `u16::from_str_radix` accepts a leading `+`, so `\u` takes three hex digits after a sign | `"\u+041"` decodes to `A` | exactly four hexadecimal digits | high, not executed | Parser.UnicodeEscapeSignAccepted | Parser.DecodeAcceptsStandard |
| src/parser/mod.rs:247 | `u8::from_str_radix` accepts a leading `+` in `\x` | `'\x+f'` gives 15 | only hexadecimal digits after `\x` | high, not executed | Parser.HexEscapeSignAccepted | Parser.ParseHexEscape |
