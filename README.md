# Drop specialisation and operator tables

This project models two parts of the Roc compiler in Dafny.

**The drop-specialisation pass of the mono IR.** This is a Perceus-style rewrite of reference-counting statements. While the pass walks a procedure body, it keeps an environment of facts about the path so far:
- the layout of each symbol;
- which child symbols were projected out of which struct, union, box or list parent, and at which index;
- the known tag, literal index and list length of symbols;
- the outstanding increments ("reservations") of symbols.

An `inc` of a symbol is held back as a reservation. The reservation is emitted only after the continuation has been rewritten, and only for what is still outstanding. A `dec` of a symbol that has a reservation cancels one unit of it. A `dec` of a parent without one first pops one reservation from each of its children that has one. It is then handed to the specialiser for the parent's layout:
- a struct's decrement becomes per-field actions;
- a union's decrement becomes per-field actions, or an `is_unique` test with a unique and a shared arm;
- a box's decrement becomes a `DecRef` of the box;
- a list's decrement becomes per-element decrements and a `DecRef`.

Popped children that the specialiser did not use get their reservation back. The continuations of switch branches, join bodies, calls and `Struct`/`Tag` constructions run on a fork of the environment that has no reservations.

The model has three layers:
- **`DropSpec`** holds the pass as pure functions over an `Env` value and a fresh-symbol counter. A panic of the pass is an `Err`.
- **`DropPass`** holds the pass as the source writes it: methods that update a `DropSpecializationEnvironment` object and an `IdentIds` allocator in place. Each method is proved to compute exactly what `DropSpec` computes.
- **`DropSpecLemmas`**, **`DropRules`**, **`DropShapes`** and **`DropExamples`** state what the rewrite does. They cover the cancellation and merging rules, the shape of each specialiser's output, the facts the environment keeps, and worked examples.

**The binary-operator tables of the parser.** The `PRECEDENCES`, `ASSOCIATIVITIES` and `DISPLAY_STRINGS` pair lists are modelled in `CalledVia`, together with:
- the `while` loops that turn them into arrays indexed by the operator's discriminant;
- the `precedence`, `associativity` and `width` lookups;
- the `Ord` of operators, which compares by precedence.

The modules are:

| file | module | contents |
|---|---|---|
| `ir.dfy` | `Ir` | the statements, expressions, layouts and layout interner the pass inspects |
| `environment.dfy` | `Environment` | `Env` (the environment as a value), the class `DropSpecializationEnvironment`, and `IdentIds` |
| `tag_layout.dfy` | `TagLayout` | `get_union_tag_layout` |
| `slots.dfy` | `Slots` | the `index_symbols` loops: which child stands for each field |
| `fields.dfy` | `Fields` | the reverse loops over fields and list elements |
| `spec.dfy` | `DropSpec` | the whole pass as functions |
| `spec_lemmas.dfy`, `rules.dfy`, `shapes.dfy` | `DropSpecLemmas`, `DropRules`, `DropShapes` | its properties |
| `examples.dfy` | `DropExamples` | concrete rewrites |
| `pass.dfy` | `DropPass` | the imperative pass |
| `called_via.dfy` | `CalledVia` | the operator tables |

## Model

| member | source | states |
|---|---|---|
| Environment.Push | crates/compiler/mono/src/drop_specialization.rs:1179-1198 | registering a child appends it to the end of the parent's registry, creating the registry when absent; other parents' registries are unchanged |
| Environment.Env.WithoutIncremented | crates/compiler/mono/src/drop_specialization.rs:1146-1162 | the fork has no reservation and every other fact unchanged |
| Environment.Env.AddSymbolLayout | crates/compiler/mono/src/drop_specialization.rs:1169-1171 | the symbol's layout is recorded; every other symbol's layout and every other field of the environment are unchanged |
| Environment.Env.GetSymbolLayout | crates/compiler/mono/src/drop_specialization.rs:1173-1177 | succeeds exactly when a layout is recorded, and returns it; otherwise the `expect` panic |
| Environment.Env.AddStructChild | crates/compiler/mono/src/drop_specialization.rs:1179-1184 | the child is appended, with its field index, to the end of the struct registry of the parent; other parents' registries and every other field are unchanged |
| Environment.Env.AddUnionChild | crates/compiler/mono/src/drop_specialization.rs:1186-1191 | the child is appended, with its tag and field index, to the end of the union registry of the parent; other parents' registries and every other field are unchanged |
| Environment.Env.AddBoxChild | crates/compiler/mono/src/drop_specialization.rs:1193-1198 | the child is appended to the end of the box registry of the parent; other parents' registries and every other field are unchanged |
| Environment.Env.AddListChild | crates/compiler/mono/src/drop_specialization.rs:1200-1207 | a list child is registered only when the index symbol has a known literal value, at that value; otherwise nothing changes; other parents' list registries are never touched |
| Environment.Env.GetChildren | crates/compiler/mono/src/drop_specialization.rs:1209-1229 | a symbol is returned exactly when it is in one of the four registries of the parent; the result has one entry per registered entry, so its multiset of symbols is the sum of the four registries' and a child registered twice is returned (and later popped) twice |
| Environment.Env.AddIncremented | crates/compiler/mono/src/drop_specialization.rs:1234-1239 | the symbol's count grows by exactly `count`; no other symbol's count or presence changes; positive counts stay positive |
| Environment.Env.GetIncremented | crates/compiler/mono/src/drop_specialization.rs:1249-1251 | returns the symbol's total (0 when absent) and removes its entry; nothing else changes |
| Environment.Env.PopIncremented | crates/compiler/mono/src/drop_specialization.rs:1253-1265 | true exactly when there is an entry; lowers the count by exactly one and removes the entry when it reaches 0, so no zero count is stored; nothing else changes |
| Environment.Env.PopChildren | crates/compiler/mono/src/drop_specialization.rs:316-337 | the popped set holds only children that had a reservation; reservations only shrink; other facts are unchanged |
| Environment.Env.AddBack | crates/compiler/mono/src/drop_specialization.rs:399-402 | each given child gains exactly one reservation and no other count changes |
| Environment.Env.InsertBranchInfo | crates/compiler/mono/src/drop_specialization.rs:207-226 | branch information records the known tag (or list length) and never touches reservations |
| Environment.PopChildrenEffect | crates/compiler/mono/src/drop_specialization.rs:316-337 | popping distinct children takes one reservation from exactly those children that had one, and pops exactly them |
| Environment.AddBackOne | crates/compiler/mono/src/drop_specialization.rs:399-402 | giving back one child after a set equals giving back the set with it added |
| Environment.IdentIds.constructor | crates/compiler/mono/src/drop_specialization.rs:1164-1167 | the allocator starts at the given next identifier |
| Environment.IdentIds.Add | crates/compiler/mono/src/drop_specialization.rs:1164-1167 | returns a fresh identifier and advances the counter by one |
| Environment.DropSpecializationEnvironment.constructor | crates/compiler/mono/src/drop_specialization.rs:1128-1144 | a new environment has every map empty and the procedure's result layout |
| Environment.DropSpecializationEnvironment.CloneWithoutIncremented | crates/compiler/mono/src/drop_specialization.rs:1146-1162 | a new object holding every map of this one except an empty reservation map |
| Environment.DropSpecializationEnvironment.CreateSymbol | crates/compiler/mono/src/drop_specialization.rs:1164-1167 | the symbol is the allocator's next identifier, and the allocator advances by one |
| Environment.DropSpecializationEnvironment.AddSymbolLayout | crates/compiler/mono/src/drop_specialization.rs:1169-1171 | the object's state becomes `Env.AddSymbolLayout` of its old state |
| Environment.DropSpecializationEnvironment.GetSymbolLayout | crates/compiler/mono/src/drop_specialization.rs:1173-1177 | the recorded layout, or the missing-layout panic |
| Environment.DropSpecializationEnvironment.AddStructChild | crates/compiler/mono/src/drop_specialization.rs:1179-1184 | the state becomes `Env.AddStructChild` of its old state |
| Environment.DropSpecializationEnvironment.AddUnionChild | crates/compiler/mono/src/drop_specialization.rs:1186-1191 | the state becomes `Env.AddUnionChild` of its old state |
| Environment.DropSpecializationEnvironment.AddBoxChild | crates/compiler/mono/src/drop_specialization.rs:1193-1198 | the state becomes `Env.AddBoxChild` of its old state |
| Environment.DropSpecializationEnvironment.AddListChild | crates/compiler/mono/src/drop_specialization.rs:1200-1207 | the state becomes `Env.AddListChild` of its old state |
| Environment.DropSpecializationEnvironment.GetChildren | crates/compiler/mono/src/drop_specialization.rs:1209-1229 | the children are gathered from the four registries in the source's order: struct, union, box, then list |
| Environment.DropSpecializationEnvironment.AddIncremented | crates/compiler/mono/src/drop_specialization.rs:1234-1239 | the map entry is updated in place as `Env.AddIncremented` states |
| Environment.DropSpecializationEnvironment.AnyIncremented | crates/compiler/mono/src/drop_specialization.rs:1241-1243 | true exactly when the symbol has a reservation |
| Environment.DropSpecializationEnvironment.GetIncremented | crates/compiler/mono/src/drop_specialization.rs:1249-1251 | the entry is removed and its total returned, as `Env.GetIncremented` states |
| Environment.DropSpecializationEnvironment.PopIncremented | crates/compiler/mono/src/drop_specialization.rs:1253-1265 | the entry is lowered in place or removed, as `Env.PopIncremented` states |
| TagLayout.GetUnionTagLayout | crates/compiler/mono/src/drop_specialization.rs:927-984 | with no tag: `Unknown`, except `Found(fields, 0)` for a NonNullableUnwrapped union; with a tag, NonNullableUnwrapped is `Unknown` and plain unions index their tag table; NullableWrapped is `Null` exactly at the null id, and otherwise indexes the compacted table below or above it; NullableUnwrapped is `Null` exactly at the null tag; it fails exactly when a tag is past the end of its table |
| Slots.ScanIndexFirstPopped | crates/compiler/mono/src/drop_specialization.rs:531-542 | a field's slot is the first child registered at that index whose reservation was popped, and only that child leaves the popped set |
| Slots.ScanIndexLastUnpopped | crates/compiler/mono/src/drop_specialization.rs:531-542 | with no popped child at the index, the slot is the last child registered there, unpopped, and the popped set is unchanged |
| Slots.ScanIndexAbsent | crates/compiler/mono/src/drop_specialization.rs:531-542 | an index with no registered child gets no slot |
| Slots.ScanIndexEffect | crates/compiler/mono/src/drop_specialization.rs:531-542 | a scan removes from the popped set at most the child it marks popped; it finds a slot whenever some child is registered at the index, and the slot's child is registered there |
| Slots.IndexSymbols | crates/compiler/mono/src/drop_specialization.rs:531-542 | the slot map of indices `i` to `n - 1` scanned in ascending order; `ScanIndexFirstPopped` and `ScanIndexLastUnpopped` state which child a slot holds (the first popped child at the index, else the last child registered there); `IndexSymbolsEffect` states that every registered index gets a slot holding a child registered there, and what leaves the popped set; `ComputeIndexSymbols` is the loop that computes it |
| Slots.IndexSymbolsEffect | crates/compiler/mono/src/drop_specialization.rs:531-542 | every index below n with a registered child gets a slot holding a child registered at that index; the popped set loses exactly the children of the slots marked popped |
| Slots.ComputeIndexSymbols | crates/compiler/mono/src/drop_specialization.rs:531-542 | the nested loops, with their `break` on the first popped child, compute the slot map and remaining popped set that `IndexSymbols` defines |
| Fields.Act | crates/compiler/mono/src/drop_specialization.rs:548-588 | the `rc` closure's action: nothing, one `Dec`, or one `Inc(_, 1)` of the child |
| Fields.FieldPlan.FieldHeads | crates/compiler/mono/src/drop_specialization.rs:548-588 | a field without refcounted data gets nothing; a field whose child was popped gets the popped action on it; one whose child was not popped gets the unpopped action; a field with no child gets a fresh projection followed by the unpopped action |
| Fields.FieldPlan.WrapFromIsChain | crates/compiler/mono/src/drop_specialization.rs:548-588 | the reverse loop over fields emits the field actions in ascending field order before the continuation, and uses one fresh symbol per field that needs one |
| Fields.FieldPlan.AscendingHeadsMention | crates/compiler/mono/src/drop_specialization.rs:548-588 | the field actions mention an older symbol only when it is a field's child |
| Fields.WrapElementsIsChain | crates/compiler/mono/src/drop_specialization.rs:899-909 | with every element covered, the reverse loop decrements exactly the unpopped elements, in ascending index order, before the continuation |
| Fields.WrapElementsMissing | crates/compiler/mono/src/drop_specialization.rs:899-909 | an element index without a slot makes the loop's `unwrap` panic, on the highest such index |
| Fields.WrapElementsFails | crates/compiler/mono/src/drop_specialization.rs:899-909 | any element index without a slot makes the loop panic |
| Fields.ElementHeadsAreUnpoppedDecs | crates/compiler/mono/src/drop_specialization.rs:899-909 | every emitted element action decrements the child of an unpopped element |
| DropSpec.Specialize | crates/compiler/mono/src/drop_specialization.rs:68-510 | the reference definition of `specialize_drops_stmt`; `DropSpecLemmas.SpecializeSettled`, `DropRules.IncSettledOnce`, `DropRules.IncDecCancel`, `DropRules.DecRestoresChildren` and `DropRules.SwitchIgnoresReservations` state its behaviour |
| DropSpec.SpecializeBranches | crates/compiler/mono/src/drop_specialization.rs:228-263 | the branches of a switch, each on a fork; `DropSpecLemmas.BranchesSettled` and `DropRules.BranchesIgnoreReservations` state its behaviour |
| DropSpec.DispatchDec | crates/compiler/mono/src/drop_specialization.rs:342-397 | the specialiser chosen by the parent's layout; `DropSpecLemmas.DispatchSettled` and `DropRules.DecRestoresChildren` state its behaviour |
| DropSpec.KeepOriginalDecrement | crates/compiler/mono/src/drop_specialization.rs:613-619 | the plain `Dec` kept before the rewritten continuation; `DropShapes.KeepShape` and `DropSpecLemmas.KeepSettled` state its behaviour |
| DropSpec.SpecializeStruct | crates/compiler/mono/src/drop_specialization.rs:512-599 | the struct specialiser; `DropShapes.StructShape`, `DropShapes.StructNeverDecrementsItself` and `DropSpecLemmas.StructSettled` state its behaviour |
| DropSpec.SpecializeUnion | crates/compiler/mono/src/drop_specialization.rs:601-806 | the union specialiser; `DropShapes.UnionShape` and `DropSpecLemmas.UnionSettled` state its behaviour |
| DropSpec.SpecializeKnownUnion | crates/compiler/mono/src/drop_specialization.rs:621-805 | the union specialiser for a known tag; `DropShapes.KnownUnionShape` and `DropSpecLemmas.KnownUnionSettled` state its behaviour |
| DropSpec.UniqueSymbol | crates/compiler/mono/src/drop_specialization.rs:1053-1074 | the `is_unique` binding and Bool switch; `DropShapes.UniquenessTestOf` states its shape |
| DropSpec.BranchUniqueness | crates/compiler/mono/src/drop_specialization.rs:990-1050 | the uniqueness branch around the continuation; `DropShapes.BranchUniquenessShape`, `DropShapes.UniquenessTestShape` and `DropSpecLemmas.BranchUniquenessIds` state its behaviour |
| DropSpec.SpecializeBoxed | crates/compiler/mono/src/drop_specialization.rs:808-835 | the box specialiser; `DropShapes.BoxedShape` and `DropSpecLemmas.BoxedSettled` state its behaviour |
| DropSpec.SpecializeList | crates/compiler/mono/src/drop_specialization.rs:837-922 | the list specialiser; `DropShapes.ListShape`, `DropShapes.ListDuplicateIndexPanics` and `DropSpecLemmas.ListSettled` state its behaviour |
| DropSpec.SpecializeProc | crates/compiler/mono/src/drop_specialization.rs:51-66 | one procedure: argument layouts on an empty environment, then its body; `DropExamples.StructExample` is a worked instance |
| DropSpec.SpecializeAll | crates/compiler/mono/src/drop_specialization.rs:36-49 | every procedure in order, threading the fresh-symbol counter and stopping at the first panic; `DropSpecLemmas.SpecializeAllKeepsCount` and `DropSpecLemmas.SpecializeAllKeepsSignatures` state its behaviour |
| DropSpec.LiteralIndex | crates/compiler/mono/src/drop_specialization.rs:178-188 | a literal index is truncated to 64 bits, and indices that fit are kept |
| DropSpec.AddParams | crates/compiler/mono/src/drop_specialization.rs:480-490 | the join body's fork records, for every parameter symbol, the layout of its last parameter; other symbols keep their layouts; the key set grows by exactly the parameters' symbols and nothing else changes |
| DropSpec.Least | crates/compiler/mono/src/drop_specialization.rs:817-820 | the child the boxed specialiser takes is a member of the popped set, the least one |
| DropSpec.LeastExists | crates/compiler/mono/src/drop_specialization.rs:817-820 | every non-empty set of symbols has a least element |
| DropSpec.LetEnvironment | crates/compiler/mono/src/drop_specialization.rs:76-198 | a binding fails exactly on a list-get with the wrong arity; facts only grow; a call, struct or tag continuation runs with no reservations, any other with the same ones; and each kind of binding gives exactly its environment: a call or struct the fork, a tag construction the fork with the binding's tag, a struct projection, union projection or unbox the child registered with its parent (a union projection also records the parent's tag), a list get `AddListChild`, an integer literal its truncated index, anything else no change |
| DropSpec.IncAbsorbed | crates/compiler/mono/src/drop_specialization.rs:276-305 | an increment of a symbol without reservation vanishes when its continuation used up the reservation |
| DropSpec.DecUnfolds | crates/compiler/mono/src/drop_specialization.rs:306-405 | a decrement without reservation is the specialiser's statement, on the environment whose unused popped children got their reservation back |
| DropSpecLemmas.SpecializeSettled | crates/compiler/mono/src/drop_specialization.rs:68-510 | rewriting a statement only grows facts, invents no reservation, never moves the fresh-symbol counter back, and stores no zero count when every `Inc` counts at least one |
| DropSpecLemmas.LetSettled | crates/compiler/mono/src/drop_specialization.rs:76-198 | the same for a binding |
| DropSpecLemmas.LetSettledFrom | crates/compiler/mono/src/drop_specialization.rs:111-125 | a forked binding leaves the parent with only the binding's layout added; any other passes on what its continuation left |
| DropSpecLemmas.SwitchSettled | crates/compiler/mono/src/drop_specialization.rs:200-273 | the same for a switch |
| DropSpecLemmas.BranchesSettled | crates/compiler/mono/src/drop_specialization.rs:228-247 | the branches keep their number and only advance the fresh-symbol counter |
| DropSpecLemmas.IncSettled | crates/compiler/mono/src/drop_specialization.rs:276-305 | the same for an increment |
| DropSpecLemmas.DecSettled | crates/compiler/mono/src/drop_specialization.rs:306-405 | the same for a decrement |
| DropSpecLemmas.JoinSettled | crates/compiler/mono/src/drop_specialization.rs:474-506 | the same for a join point |
| DropSpecLemmas.DispatchSettled | crates/compiler/mono/src/drop_specialization.rs:342-397 | each specialiser hands back only popped children and keeps the same facts |
| DropSpecLemmas.KeepSettled | crates/compiler/mono/src/drop_specialization.rs:613-619 | the same for the kept decrement |
| DropSpecLemmas.StructSettled | crates/compiler/mono/src/drop_specialization.rs:512-599 | the same for the struct specialiser |
| DropSpecLemmas.UnionSettled | crates/compiler/mono/src/drop_specialization.rs:601-806 | the same for the union specialiser |
| DropSpecLemmas.KnownUnionSettled | crates/compiler/mono/src/drop_specialization.rs:621-805 | the same for a union with a known tag |
| DropSpecLemmas.BranchUniquenessIds | crates/compiler/mono/src/drop_specialization.rs:990-1050 | the uniqueness branch always takes at least one fresh symbol |
| DropSpecLemmas.BoxedSettled | crates/compiler/mono/src/drop_specialization.rs:808-835 | the same for the boxed specialiser |
| DropSpecLemmas.ListSettled | crates/compiler/mono/src/drop_specialization.rs:837-922 | the same for the list specialiser |
| DropSpecLemmas.SpecializeAllKeepsCount | crates/compiler/mono/src/drop_specialization.rs:36-49 | the pass keeps the number of procedures and only advances the fresh-symbol counter |
| DropSpecLemmas.SpecializeAllKeepsSignatures | crates/compiler/mono/src/drop_specialization.rs:36-66 | each procedure keeps its arguments and result layout; only its body is rewritten |
| DropRules.IncMerged | crates/compiler/mono/src/drop_specialization.rs:276-305 | an increment of a symbol that already has a reservation emits nothing, and its count joins the reservation |
| DropRules.IncSettledOnce | crates/compiler/mono/src/drop_specialization.rs:276-305 | the first increment on a path emits exactly one `Inc` of what the continuation left outstanding, or nothing when that is 0; afterwards that reservation is gone and no other is touched |
| DropRules.IncDecCancel | crates/compiler/mono/src/drop_specialization.rs:276-325 | `inc x; dec x; k` is rewritten exactly as `k` |
| DropRules.IncDecMerge | crates/compiler/mono/src/drop_specialization.rs:276-325 | `inc x n; dec x; k` is rewritten as `inc x (n-1); k` |
| DropRules.IncCongruent | crates/compiler/mono/src/drop_specialization.rs:276-305 | two first increments whose continuations give the same result give the same result |
| DropRules.DecCancelled | crates/compiler/mono/src/drop_specialization.rs:316-325 | a decrement of a symbol with a reservation emits nothing and consumes exactly one unit |
| DropRules.DecRestoresChildren | crates/compiler/mono/src/drop_specialization.rs:306-405 | a decrement without reservation succeeds exactly when its specialiser does, emits what the specialiser emits, and gives back exactly one reservation to each popped child the specialiser did not use |
| DropRules.BranchesIgnoreReservations | crates/compiler/mono/src/drop_specialization.rs:228-264 | branches run on forks without reservations, so reservations made before the switch cannot change them |
| DropRules.SwitchIgnoresReservations | crates/compiler/mono/src/drop_specialization.rs:200-273 | a switch is rewritten the same whatever the reservations before it, and leaves the environment before it untouched |
| DropRules.ForkedLetIgnoresReservations | crates/compiler/mono/src/drop_specialization.rs:111-137 | the continuation of a call, struct or tag is rewritten the same whatever the reservations, and the parent only gains the binding's layout |
| DropRules.JoinBodyIgnoresReservations | crates/compiler/mono/src/drop_specialization.rs:474-506 | a join body runs on a fork holding only the parameters' layouts, whatever the reservations |
| DropShapes.SlotActionEmitted | crates/compiler/mono/src/drop_specialization.rs:548-588 | the action on each field some child stands for appears among the emitted field actions |
| DropShapes.SharedHeadsArePoppedIncs | crates/compiler/mono/src/drop_specialization.rs:777-797 | the shared arm emits only `Inc(child, 1)`, one for each popped child of a refcounted field, and uses no fresh symbol |
| DropShapes.UniqueHeadsAreDecs | crates/compiler/mono/src/drop_specialization.rs:753-776 | the unique arm emits no increment; each action decrements an unpopped child or a fresh projection; every unpopped child of a refcounted field is decremented |
| DropShapes.UniquenessTestShape | crates/compiler/mono/src/drop_specialization.rs:1053-1074 | the test binds a fresh `is_unique` symbol after both arms' fresh symbols; the unique arm runs the unique field actions, the shared arm the shared ones, each followed by `DecRef(x)` and the continuation |
| DropShapes.ArmsAreChains | crates/compiler/mono/src/drop_specialization.rs:743-800 | both arms' loops emit their actions in ascending order; the shared arm's fresh symbols start where the unique arm's end |
| DropShapes.UniquenessTestOf | crates/compiler/mono/src/drop_specialization.rs:1053-1074 | the test is the fresh `is_unique` binding and the two-way switch over the two arms |
| DropShapes.BranchUniquenessShape | crates/compiler/mono/src/drop_specialization.rs:990-1050 | a `Ret` or `Jump` continuation is copied into both arms; any other becomes a join point without parameters that both arms jump to |
| DropShapes.StructShape | crates/compiler/mono/src/drop_specialization.rs:512-599 | with registered children, the field actions run in ascending order before the continuation, with no decrement of the struct; without any, a plain `Dec` is kept |
| DropShapes.StructNeverDecrementsItself | crates/compiler/mono/src/drop_specialization.rs:522-588 | no field action of a struct is a `Dec` or an `Inc` of the struct itself |
| DropShapes.UnionShape | crates/compiler/mono/src/drop_specialization.rs:601-806 | a tag out of range panics; an unknown tag, or a union without children, keeps the plain `Dec`; `Null` emits nothing; otherwise the known-union specialiser runs |
| DropShapes.KeepShape | crates/compiler/mono/src/drop_specialization.rs:613-619 | the kept decrement is the plain `Dec` before the rewritten continuation |
| DropShapes.KnownUnionShape | crates/compiler/mono/src/drop_specialization.rs:621-805 | a NonRecursive union gets the field actions only and no `DecRef`; every other kind gets the uniqueness branch |
| DropShapes.BoxedShape | crates/compiler/mono/src/drop_specialization.rs:808-835 | `DecRef` of the box exactly when some popped child exists, which the box then takes; a plain `Dec` otherwise |
| DropShapes.ListShape | crates/compiler/mono/src/drop_specialization.rs:837-922 | a list that fails the guard keeps its plain `Dec`; one with every index covered decrements the unpopped elements in ascending order, then `DecRef`s the list; an uncovered index panics |
| DropShapes.ListDuplicateIndexPanics | crates/compiler/mono/src/drop_specialization.rs:862-909 | the guard counts registered elements, not distinct indices: two elements at index 0 of a two-element list pass it, and the loop then panics on index 1 |
| DropExamples.StructParentDec | crates/compiler/mono/src/drop_specialization.rs:512-599 | `dec b` of a struct whose field 0 has child `a` becomes `dec a`, a fresh projection of field 1 and its `dec` |
| DropExamples.StructExample | crates/compiler/mono/src/drop_specialization.rs:68-599 | `let a = b.0; inc a; dec a; dec b; ret b`: the `inc`/`dec` pair of `a` cancels, and `dec b` becomes per-field decrements in field order |
| DropExamples.ListTakesBoth | crates/compiler/mono/src/drop_specialization.rs:837-922 | a list whose two elements were both popped takes both and emits only `DecRef` |
| DropExamples.ListPopsBoth | crates/compiler/mono/src/drop_specialization.rs:316-339 | the decrement of the list pops the one reservation of each element |
| DropExamples.ListParentDec | crates/compiler/mono/src/drop_specialization.rs:306-405 | `dec l` with both elements reserved becomes `DecRef(l)` and consumes both reservations |
| DropExamples.ListIncrementsCancelled | crates/compiler/mono/src/drop_specialization.rs:276-405 | `inc a; inc b; dec l` becomes `DecRef(l)` alone |
| DropExamples.ListAccesses | crates/compiler/mono/src/drop_specialization.rs:97-110 | two list gets at known indices register both elements, and the increments after them cancel against the list's decrement |
| DropExamples.ListExample | crates/compiler/mono/src/drop_specialization.rs:76-405 | a whole procedure body of literal indices, list gets, increments and a list decrement is rewritten to the gets and `DecRef(l)`, with no fresh symbol |
| DropPass.ApplyRc | crates/compiler/mono/src/drop_specialization.rs:668-742 | the `rc` closure puts the action on the child before the continuation |
| DropPass.SpecializeDropsStmt | crates/compiler/mono/src/drop_specialization.rs:68-510 | the statement, final environment and fresh-symbol counter are exactly those of `DropSpec.Specialize` on the old state, or its panic |
| DropPass.SpecializeLet | crates/compiler/mono/src/drop_specialization.rs:76-198 | the same for a binding |
| DropPass.RecordBinding | crates/compiler/mono/src/drop_specialization.rs:97-198 | a binding that does not fork updates the environment in place as `LetEnvironment` says, or panics as it does |
| DropPass.InsertBranchInfo | crates/compiler/mono/src/drop_specialization.rs:207-226 | the environment becomes `Env.InsertBranchInfo` of its old state |
| DropPass.SpecializeSwitch | crates/compiler/mono/src/drop_specialization.rs:200-273 | the same as `SpecializeDropsStmt`, for a switch |
| DropPass.SpecializeInc | crates/compiler/mono/src/drop_specialization.rs:276-305 | the same, for an increment |
| DropPass.PopChildren | crates/compiler/mono/src/drop_specialization.rs:333-339 | the loop over the children computes `Env.PopChildren` |
| DropPass.AddBack | crates/compiler/mono/src/drop_specialization.rs:399-402 | the loop computes `Env.AddBack` |
| DropPass.SpecializeDec | crates/compiler/mono/src/drop_specialization.rs:306-405 | the same as `SpecializeDropsStmt`, for a decrement |
| DropPass.DispatchDec | crates/compiler/mono/src/drop_specialization.rs:342-397 | the specialiser chosen by the layout agrees with `DropSpec.DispatchDec` |
| DropPass.KeepOriginalDecrement | crates/compiler/mono/src/drop_specialization.rs:613-619 | agrees with `DropSpec.KeepOriginalDecrement` |
| DropPass.RefcountFields | crates/compiler/mono/src/drop_specialization.rs:668-728 | the reverse field loop computes `FieldPlan.WrapFrom` |
| DropPass.SpecializeStruct | crates/compiler/mono/src/drop_specialization.rs:512-599 | agrees with `DropSpec.SpecializeStruct` |
| DropPass.SpecializeUnion | crates/compiler/mono/src/drop_specialization.rs:601-806 | agrees with `DropSpec.SpecializeUnion` |
| DropPass.SpecializeKnownUnion | crates/compiler/mono/src/drop_specialization.rs:621-805 | agrees with `DropSpec.SpecializeKnownUnion` |
| DropPass.BranchUniqueness | crates/compiler/mono/src/drop_specialization.rs:990-1050 | computes `DropSpec.BranchUniqueness` and advances the allocator by as many symbols |
| DropPass.UniqueSymbol | crates/compiler/mono/src/drop_specialization.rs:1053-1074 | binds the allocator's next symbol to the `is_unique` test and advances it by one |
| DropPass.SpecializeBoxed | crates/compiler/mono/src/drop_specialization.rs:808-835 | agrees with `DropSpec.SpecializeBoxed` |
| DropPass.SpecializeList | crates/compiler/mono/src/drop_specialization.rs:837-922 | agrees with `DropSpec.SpecializeList` |
| DropPass.SpecializeJoin | crates/compiler/mono/src/drop_specialization.rs:474-506 | the same as `SpecializeDropsStmt`, for a join point |
| DropPass.AddParams | crates/compiler/mono/src/drop_specialization.rs:480-490 | records each parameter's layout, as `DropSpec.AddParams` says |
| DropPass.SpecializeDropsProc | crates/compiler/mono/src/drop_specialization.rs:51-66 | the arguments' layouts are recorded and the body is rewritten as `DropSpec.SpecializeProc` says |
| DropPass.SpecializeDrops | crates/compiler/mono/src/drop_specialization.rs:36-49 | every procedure of the array is rewritten in place, each on a fresh environment for its result layout, as `DropSpec.SpecializeAll` says; the first panic is reported |
| CalledVia.Discriminant | crates/compiler/module/src/called_via.rs:105-129 | every operator's discriminant is below 20 |
| CalledVia.OpAt | crates/compiler/module/src/called_via.rs:105-129 | the operator at a discriminant has that discriminant |
| CalledVia.DiscriminantInjective | crates/compiler/module/src/called_via.rs:105-129 | distinct operators have distinct discriminants |
| CalledVia.OpAtDiscriminant | crates/compiler/module/src/called_via.rs:105-129 | `OpAt` inverts `Discriminant` |
| CalledVia.PrecedencesIndexed | crates/compiler/module/src/called_via.rs:6-28 | entry `i` of `PRECEDENCES` is the operator whose discriminant is `i` |
| CalledVia.AssociativitiesIndexed | crates/compiler/module/src/called_via.rs:30-52 | entry `i` of `ASSOCIATIVITIES` is the operator whose discriminant is `i` |
| CalledVia.DisplayStringsIndexed | crates/compiler/module/src/called_via.rs:54-75 | entry `i` of `DISPLAY_STRINGS` is the operator whose discriminant is `i` |
| CalledVia.LastPairedIndexed | crates/compiler/module/src/called_via.rs:221-231 | for an indexed pair list, the last value paired with an operator is the one at its discriminant |
| CalledVia.Table | crates/compiler/module/src/called_via.rs:221-255 | a table has one entry per discriminant |
| CalledVia.TableIndexed | crates/compiler/module/src/called_via.rs:221-255 | the table of an indexed pair list holds, at each operator's discriminant, the value paired with it |
| CalledVia.GenerateTable | crates/compiler/module/src/called_via.rs:221-255 | the `while` loop fills a new array whose entry at each operator's discriminant is the value last paired with that operator |
| CalledVia.GeneratePrecedenceTable | crates/compiler/module/src/called_via.rs:221-231 | `table[op as usize]` is the precedence of every usable operator |
| CalledVia.GenerateAssociativityTable | crates/compiler/module/src/called_via.rs:233-243 | `table[op as usize]` is the associativity of every usable operator |
| CalledVia.GenerateDisplayTable | crates/compiler/module/src/called_via.rs:245-255 | `table[op as usize]` is the display string of every usable operator |
| CalledVia.PrecedenceTable | crates/compiler/module/src/called_via.rs:221-231 | the table holds, at each discriminant, the precedence paired with that operator |
| CalledVia.AssociativityTable | crates/compiler/module/src/called_via.rs:233-243 | the same for associativities |
| CalledVia.DisplayTable | crates/compiler/module/src/called_via.rs:245-255 | the same for display strings |
| CalledVia.Precedence | crates/compiler/module/src/called_via.rs:183-193 | a usable operator's precedence is the value `PRECEDENCES` pairs with it, at most 7 |
| CalledVia.GetAssociativity | crates/compiler/module/src/called_via.rs:171-181 | a usable operator's associativity is the value `ASSOCIATIVITIES` pairs with it; `AssociativityClasses` gives the values |
| CalledVia.Display | crates/compiler/module/src/called_via.rs:208-219 | a usable operator's display string is the one `DISPLAY_STRINGS` pairs with it, and is not empty |
| CalledVia.Width | crates/compiler/module/src/called_via.rs:133-140 | a usable operator is 1 or 2 characters wide |
| CalledVia.DisplayStringLengths | crates/compiler/module/src/called_via.rs:54-70 | the display strings of the 16 usable operators have the listed lengths |
| CalledVia.WidthIsDisplayLength | crates/compiler/module/src/called_via.rs:133-140 | `width` is the length of the operator's display string |
| CalledVia.Cmp | crates/compiler/module/src/called_via.rs:196-206 | operators compare as their precedences do, in each of the three outcomes |
| CalledVia.CmpTotalPreorder | crates/compiler/module/src/called_via.rs:196-206 | the comparison is reflexive and transitive; a Less one way is a Greater the other way, and Equal both ways: a total preorder |
| CalledVia.CmpNotAntisymmetric | crates/compiler/module/src/called_via.rs:196-206 | distinct operators of equal precedence, such as `*` and `/`, compare `Equal` |
| CalledVia.LevelAtNonIncreasing | crates/compiler/module/src/called_via.rs:6-22 | the precedence levels do not increase along the list |
| CalledVia.PrecedencesLevels | crates/compiler/module/src/called_via.rs:6-22 | each of the first 16 entries of `PRECEDENCES` carries `LevelAt(i)`, the level of its position `i`: 7 for `Caret`, down to 0 for `And` and `Or` |
| CalledVia.PrecedenceByPosition | crates/compiler/module/src/called_via.rs:183-193 | a usable operator's precedence is the level at its discriminant |
| CalledVia.PrecedenceNonIncreasing | crates/compiler/module/src/called_via.rs:6-22 | precedence does not increase in declaration order, from `Caret` at 7 down to `And` and `Or` at 0 |
| CalledVia.PrecedenceLevels | crates/compiler/module/src/called_via.rs:6-22 | which operators sit at each precedence level, in both directions |
| CalledVia.AssociativitiesGrouping | crates/compiler/module/src/called_via.rs:30-46 | the associativities of the 16 usable entries by position |
| CalledVia.AssociativityClasses | crates/compiler/module/src/called_via.rs:171-181 | right-associative exactly for `Caret`, `And` and `Or`; non-associative exactly for the six comparisons; left-associative exactly for the arithmetic operators and `Pizza` |
| CalledVia.SameLevelSameAssociativity | crates/compiler/module/src/called_via.rs:171-206 | operators that compare `Equal` have the same associativity |

## Left out

- Low-level wrapper calls are not represented. A call's type is stored in `Ir.CallType` after `replace_lowlevel_wrapper`, which is what the pass matches on. The rewritten output therefore carries the replaced call type, whereas the source emits the original expression, wrapper call included.
- The layout interner (`contains_refcounted`, `runtime_representation`, `chase_recursive_in`) is not part of this model. It is a parameter holding three uninterpreted functions.
- Bump-arena allocation, lifetimes, `clone` of arena vectors, `home` and `target_info` carry no behaviour here and are left out.
- `IdentIds::add_str`/`Symbol::new` are a counter of fresh symbols. The debug names given to fresh symbols are dropped.
- `specialize_drops` iterates a hash map of procedures. The model rewrites an array of procedures in array order. Each procedure gets its own environment, so the order only changes which fresh symbols each one receives.
- `specialize_boxed` takes `iter().next()` of a hash set, whose order is unspecified. The model takes the least symbol of the set.
- Environment.Env.AddIncremented: counts are unbounded naturals, so the `u64` overflow of `*c += count` is not modelled.
- Environment.Env.PopIncremented: a stored count of 0 (only reachable through `Inc(x, 0)`) wraps to `u64::MAX` as release builds do. Debug builds panic instead, and that panic is not modelled.
- `debug_assert!`s and other debug-only checks of the pass are not modelled (release behaviour).
- `Display::fmt` writes the display string to a formatter. That is I/O; only the table lookup (`CalledVia.Display`) is modelled.
- CalledVia.Width, CalledVia.Precedence, CalledVia.GetAssociativity, CalledVia.Display and CalledVia.Cmp (through `Precedence`, on both operators) require a usable operator. They are unreachable for `Assignment`, `IsAliasType`, `IsOpaqueType` and `Backpassing`, where the source panics or asserts.
- The inert expression kinds (`Reuse`, `Reset`, `ResetRef`, `ExprBox`, arrays and the rest) are one pass-through constructor. So are the literal kinds other than integers.
- DropPass.SpecializeDropsProc states the rewritten body and the counter, not the procedure's environment afterwards, which the caller discards.
- No proof shows that the rewritten program has the same reference-counting behaviour as the original. That would need an operational semantics of the whole IR.
