# Tau rewriting and normalisation core, in Dafny

This project models the rewriting engine of the Tau language: the trees it
rewrites, the builders that make new trees from templates, the callback
evaluator that computes Boolean-algebra operations and syntactic checks
inside a tree, the two rule drivers `nso_rr_apply_if` and `nso_rr_apply`, the
step combinators and the six-stage normaliser, and the three combinatorial
iterators (a loopless Gray-code generator, a power-set iterator and a
partitions iterator).

The modules follow the source:

- `TauTree` (tree.dfy): a node is `Node(value, children)`, with a value that
  is a grammar symbol, an algebra element or an offset; the category
  predicates, the child selectors `|` and `||`, the extractors, and `replace`,
  `select_all` and `find_top`, which the engine uses everywhere.
- `Binding` (bind.dfy): `name_binder` and `bind_transformer`, a class with the
  memo map it updates.
- `Builders` (builders.dfy): `make_rule`, `tau_apply_builder`, the builder
  templates and every `build_*` constructor, plus a truth-value reading of
  the wff and tau connectives used to state what the derived connectives mean.
- `SyntacticChecks` (syntactic.dfy): `has_subformula`, the clashing check and
  `are_equal`.
- `QuantifierElimination` (quantifiers.dfy): `get_leaves` and the five
  quantifier-removal callbacks.
- `Callbacks` (callbacks.dfy): the algebra operations, the relations, the
  constant checks, the tau callbacks and the dispatcher `callback_applier`.
- `Drivers` (drivers.dfy): both rule drivers, for one rule and for a list.
- `Combinators` (combinators.dfy): `step`, `steps`, `repeat_once`,
  `repeat_each`, `repeat_all` and the `operator|` compositions.
- `Libraries` (libraries.dfy): the rule libraries, as ordered lists of rule
  names.
- `Normalizer` (normalizer.dfy): `normalizer_step`, `is_equivalent_predicate`
  and the `normalizer` loop.
- `Iterators` (iterators.dfy): the Gray-code, power-set and partitions
  iterators as classes over their fields, their ranges, and the runs the unit
  tests in tests/unit/test_iterators.cpp expect.

The Boolean algebra is an opaque element type with its operations passed in
as an `Algebra` record. The pattern matcher `apply_with_skip` lives in
rewriting.h, which is not part of this model; it is a parameter of type
`Matcher`, and the drivers are proved for every matcher. `tau_apply` lives
in formula.h, which is not part of this model either; it is the parameter
`Engine` of the combinators, and `SinglePass` reads it as one pass of
`nso_rr_apply` over a library. The body of `compute_next_delta_`, the Gray
code's step, is not part of the available source either: it is modelled as
Algorithm L (loopless Gray binary generation) of Knuth, The Art of Computer
Programming, Volume 4A, section 7.2.1.1, which the header cites.

Loops that the source does not bound (a rule driven to its fixed point,
`repeat_each`, `repeat_all` and `normalizer`) take a `fuel` argument and
return `None` when it runs out.

### Behaviour kept as written

The model follows the code where it differs from what its names suggest.
Each item below is stated by a lemma.

- The `_xor` operation of `callback_applier` computes `l | r`
  (src/nso_rr.h:1374-1378). See `Callbacks.XorCallback`.
- `bldr_wff_T` is built from the `F` builder text, so `_T` is the false
  formula (src/nso_rr.h:1097, 1155-1156). See `Builders.TrueIsFalse` and
  `Builders.TrueConstantValues`.
- `is_callback` does not accept `tau_collapse_positives_cb` or
  `tau_positives_upwards_cb`. The two tau cases of the dispatch
  (src/nso_rr.h:1350-1351) are therefore never reached. See
  `Callbacks.TauCallbacksUnchanged`.
- `are_equal` stops when either child list runs out, so a tree is
  `are_equal` to every tree that extends its children
  (src/nso_rr.h:1480-1494). See `SyntacticChecks.AreEqualPrefix`.
- `apply_wff_remove_existential` rewrites every disequation of the whole
  callback node from each disjunct in turn. The last disjunct therefore
  decides the form of every disequation (src/nso_rr.h:1446-1475). See
  `QuantifierElimination.LastLeafDecides`. Each disjunct's top-most equation
  `f = 0` becomes `all v f = 0`, and nothing else is replaced. See
  `QuantifierElimination.AllLeafChangesMeaning`.
- `build_bf_less` joins its two equations with the bf `|` builder rather than
  the wff `||` (src/nso_rr.h:1260-1265). See `Builders.BfLessShape`.
- In `nso_rr_apply`, a shift whose left operand is smaller than its right one
  makes the call return its original input. The matcher's rewrite and every
  other change are discarded (src/nso_rr.h:1658-1661). See
  `Drivers.UnderflowDiscardsRewrite`.
- Two rules are unsound as written: `BF_SIMPLIFY_ZERO_0` rewrites `0 & $X`
  to `1` (src/normalizer2.h:36), and `WFF_DISTRIBUTE_0` does not distribute
  (src/normalizer2.h:77). Rules are opaque in this model, so this is recorded
  in libraries.dfy only.
- `is_equivalent_predicate` tests `main | wff | wff_t`, which looks two
  levels down (src/normalizer2.h:497). See `Normalizer.HasWffTLevels`.
- Partitions `operator*` builds both vectors from `first_`, and they hold
  the indices rather than the elements (src/iterators.h:231-235). See
  `Iterators.PartitionsIterator.Current`.
- Partitions `operator++(int)` toggles only `first_`
  (src/iterators.h:212-221). See `Iterators.PostMoveOverlaps`.

## Model

| member | source | states |
|---|---|---|
| TauTree.Wrap | src/nso_rr.h:1051-1056 | `wrap(t, n)` is a `t` node whose only child is `n` |
| TauTree.CategoryPredicates | src/nso_rr.h:120-249 | terminal and nonterminal nodes exclude each other and cover every grammar symbol; captures are variables-or-captures and neither quantifiers nor callbacks; quantifiers are not callbacks; every category implies a nonterminal; the two tau callbacks are not callbacks |
| TauTree.Filter | src/nso_rr.h:294-303 | the selection is no longer than the child list |
| TauTree.FilterMembers | src/nso_rr.h:294-303 | `n \|\| nt` keeps exactly the children that are `nt` nodes |
| TauTree.Children | src/nso_rr.h:294-303 | `n \|\| nt` returns at most as many nodes as `n` has children |
| TauTree.FirstOf | src/nso_rr.h:263-269 | what `n \| nt` finds is an `nt` child of `n` |
| TauTree.FirstOfNone | src/nso_rr.h:263-269 | `n \| nt` is empty exactly when no child is an `nt` node |
| TauTree.FirstOfFirst | src/nso_rr.h:263-269 | `n \| nt` is the `nt` child that no other `nt` child precedes |
| TauTree.FilterHead | src/nso_rr.h:263-303 | the first `nt` child is the head of the `nt` children, and exists exactly when they are not empty |
| TauTree.ChildIsFirstOfChildren | src/nso_rr.h:263-303 | `n \| nt` is the head of `n \|\| nt` |
| TauTree.TerminalOf | src/nso_rr.h:367-392 | `terminal_extractor` gives a character exactly for non-null terminal nodes, and the node holds it |
| TauTree.NonTerminalOf | src/nso_rr.h:394-420 | `non_terminal_extractor` gives `nt` exactly when the node is an `nt` node |
| TauTree.OffsetOf | src/nso_rr.h:422-450 | `offset_extractor` gives `k` exactly when the node holds the offset `k` |
| TauTree.BaOf | src/nso_rr.h:453-481 | `ba_extractor` gives `e` exactly when the node holds the element `e` |
| TauTree.OnlyChild | src/nso_rr.h:483-510 | `only_child_extractor` succeeds exactly on nodes with one child, and returns that child |
| TauTree.OnlyChildren | src/nso_rr.h:492-497 | the vector form returns at most one node per input node, and returns exactly the only children of the input nodes that have one |
| TauTree.BaElements | src/nso_rr.h:463-468 | the vector form returns at most one element per input node, and returns exactly the elements the input nodes hold |
| TauTree.ExtractAppend | src/nso_rr.h:463-497 | both vector extractors keep the order of their input: extracting from `a + b` is extracting from `a`, then from `b` |
| TauTree.LeafRoundTrips | src/nso_rr.h:422-510 | extracting from a freshly built element leaf, offset leaf or one-child node gives back what was stored, and nothing of the other kind |
| TauTree.CallbackArgsOf | src/nso_rr.h:1541 | for a callback holding its arguments of one kind followed by those of another, `n \|\| arg \|\| only_child_extractor` gives back the arguments of either kind, in order |
| TauTree.ReplaceAll | src/nso_rr.h:1415-1418 | replacing in a child list replaces in each child, position by position |
| TauTree.ReplaceUntouched | src/nso_rr.h:1415-1418 | `replace` leaves alone a tree in which no key occurs |
| TauTree.ReplaceNothing | src/nso_rr.h:1600 | `replace` with no changes is the identity |
| TauTree.ReplaceSingle | src/nso_rr.h:1415-1418 | the image of a key that occurs in the tree occurs in the result |
| TauTree.SelectAllMembers | src/nso_rr.h:1498 | `select_all(n, p)` holds exactly the subtrees of `n` that satisfy `p` |
| TauTree.SelectAllInMembers | src/nso_rr.h:1498 | the same, over a list of trees |
| TauTree.FindTop | src/nso_rr.h:1448 | `find_top` returns a subtree that satisfies `p`, and returns nothing only when no subtree does |
| TauTree.FindTopIn | src/nso_rr.h:1448 | the same, over a list of trees |
| TauTree.FindTopIsFirstSelected | src/nso_rr.h:1448 | `find_top` is the first element of `select_all` in pre-order |
| TauTree.FindTopInIsFirstSelected | src/nso_rr.h:1448 | the same, over a list of trees |
| Binding.NameBindSpelledOut | src/nso_rr.h:651-673 | a binding node's name is its characters with the whitespace skipped, and a bound name becomes a leaf holding the bound element |
| Binding.SpelledText | src/nso_rr.h:598-603 | `make_string_with_skip` drops the whitespace subtrees and keeps every other character, in order |
| Binding.BindAllEach | src/nso_rr.h:624-626 | the children are bound one by one, each on its own |
| Binding.BindWithoutBindings | src/nso_rr.h:617-631 | a tree with no binding node is left as it is, whatever the binder |
| Binding.BindIdempotent | src/nso_rr.h:938-943 | binding constants by name twice is the same as binding them once |
| Binding.SettledGrows | src/nso_rr.h:618-629 | adding to the memo map keeps every node already settled settled |
| Binding.BindTransformer.constructor | src/nso_rr.h:615 | a new transformer has the given binder and an empty memo map |
| Binding.BindTransformer.Apply | src/nso_rr.h:617-631 | on a node whose children were visited, returns the bound tree, keeps the memo map valid and only adds to it |
| Binding.BindTransformer.BoundChildren | src/nso_rr.h:622-626 | the new child list is the bound children, and equals the old one when nothing was memoised |
| Binding.BindTransformer.Run | src/nso_rr.h:927-935 | the post-order traversal returns the tree with every binding node bound, and keeps the memo map valid |
| Binding.BindConstants | src/nso_rr.h:938-943 | `bind_tau_code_using_bindings` returns the tree with every binding node bound by name |
| Builders.MakeRule | src/nso_rr.h:816-824 | a rule is read only from a node whose only child is a bf, wff or tau rule |
| Builders.MakeRuleOfNode | src/nso_rr.h:807-811 | `make_rule(rule_t, matcher_t, body_t, r)` reads back the matcher and body the rule node holds |
| Builders.MakeRuleRoundTrip | src/nso_rr.h:816-824 | reading a rule of any of the three kinds out of a rule node gives its matcher and body |
| Builders.CaptureMap | src/nso_rr.h:1040-1043 | the capture map binds exactly the captures of the builder head |
| Builders.CaptureMapLast | src/nso_rr.h:1040-1043 | a capture not repeated later in the head is bound to the argument at its own position |
| Builders.TauApplyBuilder | src/nso_rr.h:1038-1044 | the loop fills the map and returns the body with each capture replaced by its argument |
| Builders.InstantiateCaptureFree | src/nso_rr.h:1038-1044 | a body that mentions no capture comes back unchanged |
| Builders.HeadCaptures | src/nso_rr.h:1064-1087 | the one- and two-capture builder heads list `$X`, and `$X $Y`, in order |
| Builders.TrueIsFalse | src/nso_rr.h:1097 | as written, `_T` is the same tree as `_F` and not the canonical `T` |
| Builders.TrueConstantValues | src/nso_rr.h:1155-1156 | `_T` evaluates to false, while the canonical `T` evaluates to true |
| Builders.BuildWffEq | src/nso_rr.h:1159-1164 | the result is a `wff` node with one child, so it can be an operand of another builder |
| Builders.BuildWffNeq | src/nso_rr.h:1166-1170 | the result is a `wff` node with one child, so it can be an operand of another builder |
| Builders.BuildWffAnd | src/nso_rr.h:1172-1176 | the result is a `wff` node with one child, so it can be an operand of another builder |
| Builders.BuildWffOr | src/nso_rr.h:1178-1182 | the result is a `wff` node with one child, so it can be an operand of another builder |
| Builders.BuildWffNeg | src/nso_rr.h:1190-1194 | the result is a `wff` node with one child, so it can be an operand of another builder |
| Builders.BuildWffImply | src/nso_rr.h:1196-1199 | the result is a `wff` node with one child, so it can be an operand of another builder |
| Builders.BuildWffXor | src/nso_rr.h:1185-1188 | the result is a `wff` node with one child, so it can be an operand of another builder |
| Builders.BuildWffConditional | src/nso_rr.h:1202-1204 | the result is a `wff` node with one child, so it can be an operand of another builder |
| Builders.BuildWffEquiv | src/nso_rr.h:1207-1209 | the result is a `wff` node with one child, so it can be an operand of another builder |
| Builders.BuildWffAll | src/nso_rr.h:1212-1216 | the result is a `wff` node with one child, so it can be an operand of another builder |
| Builders.BuildWffEx | src/nso_rr.h:1218-1222 | the result is a `wff` node with one child, so it can be an operand of another builder |
| Builders.BuildWffBall | src/nso_rr.h:1224-1228 | the result is a `wff` node with one child, so it can be an operand of another builder |
| Builders.BuildWffBex | src/nso_rr.h:1230-1234 | the result is a `wff` node with one child, so it can be an operand of another builder |
| Builders.BuildBfAnd | src/nso_rr.h:1236-1240 | the result is a `bf` node with one child, so it can be an operand of another builder |
| Builders.BuildBfOr | src/nso_rr.h:1242-1246 | the result is a `bf` node with one child, so it can be an operand of another builder |
| Builders.BuildBfNeg | src/nso_rr.h:1248-1252 | the result is a `bf` node with one child, so it can be an operand of another builder |
| Builders.BuildBfXor | src/nso_rr.h:1254-1258 | the result is a `bf` node with one child, so it can be an operand of another builder |
| Builders.BuildBfLess | src/nso_rr.h:1260-1265 | as written, the result is a `bf` node with one child |
| Builders.BuildBfLessEqual | src/nso_rr.h:1267-1270 | the result is a `wff` node with one child, so it can be an operand of another builder |
| Builders.BuildBfAll | src/nso_rr.h:1281-1285 | the result is a `bf` node with one child, so it can be an operand of another builder |
| Builders.BuildBfEx | src/nso_rr.h:1287-1291 | the result is a `bf` node with one child, so it can be an operand of another builder |
| Builders.BuildTauAnd | src/nso_rr.h:1294-1298 | the result is a `tau` node with one child, so it can be an operand of another builder |
| Builders.BuildTauOr | src/nso_rr.h:1300-1304 | the result is a `tau` node with one child, so it can be an operand of another builder |
| Builders.BuildTauNeg | src/nso_rr.h:1316-1320 | the result is a `tau` node with one child, so it can be an operand of another builder |
| Builders.BuildTauEquiv | src/nso_rr.h:1306-1309 | the result is a `tau` node with one child, so it can be an operand of another builder |
| Builders.BuildTauXor | src/nso_rr.h:1311-1314 | the result is a `tau` node with one child, so it can be an operand of another builder |
| Builders.WffAndShape | src/nso_rr.h:1067 | the `&&` builder puts its two arguments, each under `wff`, under a `wff_and` |
| Builders.WffOrShape | src/nso_rr.h:1068 | the `\|\|` builder puts its two arguments, each under `wff`, under a `wff_or` |
| Builders.WffEqShape | src/nso_rr.h:1064-1065 | the `= 0` and `!= 0` builders make the equation and the disequation of their argument with `0` |
| Builders.BfAndShape | src/nso_rr.h:1076 | the bf `&` builder puts its two arguments, each under `bf`, under a `bf_and` |
| Builders.BfOrShape | src/nso_rr.h:1077 | the bf `\|` builder puts its two arguments, each under `bf`, under a `bf_or` |
| Builders.BfNegShape | src/nso_rr.h:1078 | the bf `'` builder puts its argument under a `bf_neg` |
| Builders.TauAndShape | src/nso_rr.h:1085 | the tau `&&&` builder puts its two arguments, each under `tau`, under a `tau_and` |
| Builders.TauOrShape | src/nso_rr.h:1086 | the tau `\|\|\|` builder puts its two arguments, each under `tau`, under a `tau_or` |
| Builders.TauNegShape | src/nso_rr.h:1087 | the tau `!!!` builder puts its argument under a `tau_neg` |
| Builders.WffShapes | src/nso_rr.h:1172-1194 | on wrapped operands `build_wff_and`, `build_wff_or` and `build_wff_neg` put the operands themselves under the new connective |
| Builders.BfShapes | src/nso_rr.h:1236-1252 | on wrapped operands the bf `&`, `\|` and `'` constructors put the operands themselves under the connective, and `build_wff_eq`/`build_wff_neq` compare the operand itself with `0` |
| Builders.TauShapes | src/nso_rr.h:1294-1320 | on wrapped operands the tau `&&&`, `\|\|\|` and `!!!` constructors put the operands themselves under the connective |
| Builders.WffQuantifierShapes | src/nso_rr.h:1211-1233 | `all`, `ex`, `ball` and `bex` keep the variable as given and quantify the wrapped body itself |
| Builders.BfQuantifierShapes | src/nso_rr.h:1281-1291 | `fall` and `fex` keep the variable as given and quantify the wrapped body itself |
| Builders.BfConstantShape | src/nso_rr.h:1082 | the constant builder wraps an element leaf as `{ e }` |
| Builders.BfXorShape | src/nso_rr.h:1254-1258 | `build_bf_xor(l, r)` is `(l' & r) \| (r' & l)` |
| Builders.BfLessEqualShape | src/nso_rr.h:1267-1270 | `build_bf_less_equal(l, r)` is the equation `(l & r') = 0` |
| Builders.BfLessShape | src/nso_rr.h:1260-1265 | as written, `build_bf_less(l, r)` puts `(l & r') = 0` and `(l + r') != 0` under a bf `\|` |
| Builders.WffBuildersInstantiate | src/nso_rr.h:1159-1194 | each primitive wff constructor is its builder applied to the trimmed operands |
| Builders.BfBuildersInstantiate | src/nso_rr.h:1236-1252 | each primitive bf constructor is its builder applied to the trimmed operands |
| Builders.TauBuildersInstantiate | src/nso_rr.h:1294-1320 | each primitive tau constructor is its builder applied to the trimmed operands |
| Builders.BinderBuildersInstantiate | src/nso_rr.h:1211-1291 | each quantifier constructor applies its builder to the variable as given and the trimmed body |
| Builders.WffImplyMeaning | src/nso_rr.h:1196-1199 | `build_wff_imply(l, r)` is true exactly when `l` is false or `r` is true |
| Builders.WffXorMeaning | src/nso_rr.h:1184-1188 | `build_wff_xor(l, r)` is true exactly when `l` and `r` differ |
| Builders.WffEquivMeaning | src/nso_rr.h:1206-1209 | `build_wff_equiv(l, r)` is true exactly when `l` and `r` agree |
| Builders.WffConditionalMeaning | src/nso_rr.h:1201-1204 | `build_wff_conditional(x, y, z)` has the value of `y` when `x` holds and of `z` otherwise |
| Builders.TauXorMeaning | src/nso_rr.h:1311-1314 | `build_tau_xor(l, r)` is true exactly when `l` and `r` differ |
| Builders.TauEquivMeaning | src/nso_rr.h:1306-1309 | `build_tau_equiv(l, r)` is true exactly when `l` and `r` agree |
| SyntacticChecks.HasSubformula | src/nso_rr.h:1496-1502 | with arguments `[f, s, r]` the result is `r` when `s` is a subtree of `f` and `f` otherwise; with `[f, s]` it is `f` when `s` does not occur in `f`; a node with fewer arguments is returned as it is |
| SyntacticChecks.ConjunctLiteralsFail | src/nso_rr.h:1510-1514 | once the scan of a prefix of a conjunction's children throws, the scan of the whole conjunction throws |
| SyntacticChecks.OperandLiteralsFail | src/nso_rr.h:1508-1514 | once the scan of a prefix of the subtrees throws, the whole first phase throws |
| SyntacticChecks.GatherConjunct | src/nso_rr.h:1510-1514 | the inner loop pushes each literal of one conjunction onto the positives or the negatives |
| SyntacticChecks.FindClash | src/nso_rr.h:1515-1522 | the second loop computes `FirstClash`: a clash at the first negation whose negated formula is a positive, none when there is no such negation, and a throw at a negation with nothing under it |
| SyntacticChecks.ClashingSubformulas | src/nso_rr.h:1506-1523 | the check returns its formula argument, its replacement argument, or, on a malformed node, the node itself; a node with fewer than two arguments is returned as it is |
| SyntacticChecks.ClashingSubformulasCheck | src/nso_rr.h:1506-1523 | the two-phase method computes the clashing check |
| SyntacticChecks.GatherOperands | src/nso_rr.h:1508-1514 | the outer loop over every subtree of the formula gathers the literals of every conjunction |
| SyntacticChecks.FirstClashMeaning | src/nso_rr.h:1515-1522 | when every negation negates something, a clash is found exactly when some negated formula is a positive literal |
| SyntacticChecks.ConjunctLiteralsSound | src/nso_rr.h:1510-1514 | every literal pushed comes from a `wff` child of a conjunction, and the negatives are exactly the negations |
| SyntacticChecks.OperandLiteralsSound | src/nso_rr.h:1508-1514 | the same, for every conjunction in the formula |
| SyntacticChecks.ClashingSubformulasMeaning | src/nso_rr.h:1506-1523 | on well-formed literals, the check returns its second argument exactly when some conjunction holds `w` and some conjunction holds `!w`, and its first argument otherwise |
| SyntacticChecks.CompareTrees | src/nso_rr.h:1480-1494 | the two-iterator loop of `are_equal` computes `AreEqual` |
| SyntacticChecks.SkipNonEssential | src/nso_rr.h:1486 | a non-essential child is skipped by the comparison |
| SyntacticChecks.AreEqualReflexive | src/nso_rr.h:1480-1494 | every tree is `are_equal` to itself |
| SyntacticChecks.AreEqualPrefix | src/nso_rr.h:1485-1492 | as written, a tree is `are_equal` to a different tree that extends its children |
| QuantifierElimination.CollectLeaves | src/nso_rr.h:1396-1403 | the recursion appends the leaves of `n` to the vector it is given |
| QuantifierElimination.CollectLeavesAll | src/nso_rr.h:1398 | the loop appends the leaves of every `skip` child of the branch, in order |
| QuantifierElimination.LeavesSound | src/nso_rr.h:1396-1409 | every leaf is a subtree of `n` with no `branch` child |
| QuantifierElimination.LeavesAllSound | src/nso_rr.h:1396-1409 | every leaf of a list is a subtree of one of its trees, with no `branch` child |
| QuantifierElimination.LeafOfItself | src/nso_rr.h:1400-1401 | a node without a `branch` child is its own only leaf |
| QuantifierElimination.Constituents | src/nso_rr.h:1411-1420 | the two instances exist exactly when the node has at least four arguments |
| QuantifierElimination.RemoveBUniversal | src/nso_rr.h:1422-1425 | the result is a `wff` node with one child, or the node itself when it is malformed; a node with fewer than four arguments is returned as it is |
| QuantifierElimination.RemoveBExistential | src/nso_rr.h:1427-1430 | the result is a `wff` node with one child, or the node itself when it is malformed; a node with fewer than four arguments is returned as it is |
| QuantifierElimination.RemoveFUniversal | src/nso_rr.h:1432-1435 | the result is a `bf` node with one child, or the node itself when it is malformed; a node with fewer than four arguments is returned as it is |
| QuantifierElimination.RemoveFExistential | src/nso_rr.h:1437-1440 | the result is a `bf` node with one child, or the node itself when it is malformed; a node with fewer than four arguments is returned as it is |
| QuantifierElimination.BooleanRemovalShape | src/nso_rr.h:1422-1430 | `buniversal` is `f[v := T] && f[v := F]` and `bexistential` is `f[v := T] \|\| f[v := F]`, the `T` side first |
| QuantifierElimination.BooleanRemovalMeaning | src/nso_rr.h:1422-1430 | the Boolean removals are true exactly when both, or either, of the two instances is true |
| QuantifierElimination.FunctionalRemovalShape | src/nso_rr.h:1432-1440 | `funiversal` is the bf `&` and `fexistential` the bf `\|` of the two instances, the first constant's side first |
| QuantifierElimination.NeqChangesFail | src/nso_rr.h:1457-1466 | once the loop over a prefix of the disequations throws, the whole inner loop throws |
| QuantifierElimination.AllLeafChangesFail | src/nso_rr.h:1446-1475 | once the loop over a prefix of the leaves throws, the whole outer loop throws |
| QuantifierElimination.RemoveExistential | src/nso_rr.h:1442-1478 | the node itself when it has fewer than two arguments or its variable argument has no only child; otherwise the node or the formula argument with some subtrees replaced |
| QuantifierElimination.NeqChangesStep | src/nso_rr.h:1457-1466 | each round of the inner loop adds the new form of one disequation to the map |
| QuantifierElimination.RewriteDisequations | src/nso_rr.h:1457-1466 | the inner loop computes the map of new disequations |
| QuantifierElimination.RewriteLeaf | src/nso_rr.h:1447-1474 | the body of the outer loop computes the changes of one leaf |
| QuantifierElimination.RemoveExistentialLoop | src/nso_rr.h:1442-1478 | the nested loops compute `apply_wff_remove_existential` |
| QuantifierElimination.NeqChangesResult | src/nso_rr.h:1457-1466 | the map holds the old keys and the disequations; each disequation maps to its new form and every other key keeps its value |
| QuantifierElimination.LastLeafDecides | src/nso_rr.h:1446-1475 | as written, every disequation of the node ends up with the form the last leaf gives it |
| QuantifierElimination.AllLeafChangesKeys | src/nso_rr.h:1446-1475 | the change map holds only the disequations of the node and the top-most equations of the disjuncts |
| QuantifierElimination.AllLeafChangesEquations | src/nso_rr.h:1449-1455 | every disjunct's top-most equation `f = 0` is in the change map, sent to `all v f = 0` |
| QuantifierElimination.AllLeafChangesMeaning | src/nso_rr.h:1446-1475 | the outer loop's map has exactly those keys, equations go to `all v f = 0` and disequations to the form the last disjunct gives them |
| QuantifierElimination.RemoveExistentialMeaning | src/nso_rr.h:1442-1478 | with a variable and a formula: the node itself when a disjunct throws; otherwise the formula replaced by a map whose keys are only the node's disequations and the disjuncts' top-most equations, each equation `f = 0` going to `all v f = 0` and each disequation to the form the last disjunct gives it |
| QuantifierElimination.RemoveExistentialNoConstraints | src/nso_rr.h:1442-1478 | with no equations in the formula and no disequations in the node, the formula comes back unchanged |
| QuantifierElimination.NoEquationsNoChanges | src/nso_rr.h:1446-1475 | leaves without equations, with no disequations, produce no changes |
| Callbacks.ConstantNodeIsBuilt | src/nso_rr.h:1082 | the constant builder applied to an element leaf makes the constant `{ e }` |
| Callbacks.EqualityRelation | src/nso_rr.h:1539-1544 | the relation returns one of the node's wff arguments, or the node itself when it is malformed |
| Callbacks.ConstantRoundTrip | src/nso_rr.h:1548-1549 | the element read back out of a constant is the element it was built from |
| Callbacks.ConstantCheck | src/nso_rr.h:1546-1551 | the check returns one of the node's bf arguments, or the node itself when it is malformed |
| Callbacks.PositivesUpwardsChoice | src/nso_rr.h:1561-1565 | `tau_positives_upwards` returns its second argument when the first holds a wff, and the node otherwise |
| Callbacks.CollapsePositivesShape | src/nso_rr.h:1567-1573 | two positive tau arguments collapse to the tau of the conjunction of their wffs |
| Callbacks.CollapsePositivesThree | src/nso_rr.h:1567-1575 | with a third argument, that conjunction is joined to it by the tau `&&&` |
| Callbacks.ApplyCallback | src/nso_rr.h:1330-1354 | a node `is_callback` rejects is returned unchanged |
| Callbacks.TauCallbacksUnchanged | src/nso_rr.h:1350-1351 | the two tau callbacks come back unevaluated |
| Callbacks.AndCallback | src/nso_rr.h:1335 | `bf_and_cb` on `a` and `b` is the constant `{ a & b }` |
| Callbacks.OrCallback | src/nso_rr.h:1336 | `bf_or_cb` on `a` and `b` is the constant `{ a \| b }` |
| Callbacks.XorCallback | src/nso_rr.h:1374-1378 | as written, `bf_xor_cb` on `a` and `b` is `{ a \| b }` |
| Callbacks.NegCallback | src/nso_rr.h:1334 | `bf_neg_cb` on `a` is the constant `{ ~a }` |
| Callbacks.AlgebraCallbackUnevaluated | src/nso_rr.h:1525-1530 | a binary algebra callback with fewer than two element operands is left as it is |
| Callbacks.RelationChoice | src/nso_rr.h:1539-1544 | the relation returns its first wff argument when the element passes the test and its second otherwise |
| Callbacks.EqCallback | src/nso_rr.h:1390 | `bf_eq_cb` returns its first wff argument when the element is zero and its second otherwise |
| Callbacks.NeqCallback | src/nso_rr.h:1391 | `bf_neq_cb` makes the opposite choice |
| Callbacks.ConstantChoice | src/nso_rr.h:1546-1551 | the check on `{e}` and `r` returns `r` when `e` passes the test and `{e}` otherwise |
| Callbacks.IsZeroCallback | src/nso_rr.h:1393 | `bf_is_zero_cb {e} r` returns `r` when `e` is zero and `{e}` otherwise |
| Callbacks.IsOneCallback | src/nso_rr.h:1392 | `bf_is_one_cb {e} r` returns `r` when `e` is one and `{e}` otherwise |
| Callbacks.BfHasSubformulaCallback | src/nso_rr.h:1342 | `bf_has_subformula_cb f s r` returns `r` when `s` is a subtree of `f` and `f` otherwise |
| Callbacks.WffHasSubformulaCallback | src/nso_rr.h:1344 | `wff_has_subformula_cb f s r` returns `r` when `s` is a subtree of `f` and `f` otherwise |
| Callbacks.ClashingCallbackMeaning | src/nso_rr.h:1506-1523 | `wff_has_clashing_subformulas_cb f r` on well-formed literals returns `r` exactly when a negated literal of some conjunction of `f` is a positive literal of some conjunction, and `f` otherwise |
| Callbacks.RemoveExistentialCallbackMeaning | src/nso_rr.h:1442-1478 | `wff_remove_existential_cb v' f`, when no disjunct throws, is `f` replaced by a map whose keys are only the node's disequations and the disjuncts' top-most equations: each equation `f = 0` becomes `all v f = 0`, each disequation `ex v g' != 0` with `g'` decided by the last disjunct; without disjuncts, or without equations and disequations, it is `f` |
| Callbacks.BExistentialCallbackMeaning | src/nso_rr.h:1427-1430 | `wff_remove_bexistential_cb v f T F` on a wrapped `f` is `f[v := T] \|\| f[v := F]`, true exactly when either instance is |
| Callbacks.BUniversalCallbackMeaning | src/nso_rr.h:1422-1425 | `wff_remove_buniversal_cb v f T F` on a wrapped `f` is `f[v := T] && f[v := F]`, true exactly when both instances are |
| Callbacks.FUniversalCallbackMeaning | src/nso_rr.h:1432-1435 | `bf_remove_funiversal_cb v f c d` on a wrapped `f` is the bf `&` of `f[v := c]` and `f[v := d]` |
| Callbacks.FExistentialCallbackMeaning | src/nso_rr.h:1437-1440 | `bf_remove_fexistential_cb v f c d` on a wrapped `f` is the bf `\|` of `f[v := c]` and `f[v := d]` |
| Drivers.CallbackChangesAre | src/nso_rr.h:1596-1599 | the callback loop maps exactly the callbacks it saw, each to its value, whatever their order |
| Drivers.NoCallbacksUnchanged | src/nso_rr.h:1593-1606 | a rewrite with no callbacks comes through the callback stage unchanged |
| Drivers.RootCallbackEvaluated | src/nso_rr.h:1593-1600 | a rewrite that is itself a callback becomes that callback's value |
| Drivers.FixedCallbacksUnchanged | src/nso_rr.h:1593-1600 | callbacks the applier leaves alone do not change the tree |
| Drivers.CallbackStageCases | src/nso_rr.h:1593-1606 | the callback stage leaves a tree without callbacks as it is, and turns a tree that is itself a callback into its value |
| Drivers.ApplyIf | src/nso_rr.h:1584-1607 | `nso_rr_apply_if` returns the matcher's rewrite when it holds no callback, and the callback's value when the rewrite is a callback |
| Drivers.ReplaceFixed | src/nso_rr.h:1600 | `replace` with a map that sends each key to itself is the identity |
| Drivers.Fixpoint | src/nso_rr.h:1617-1620 | what the `while (nnn != nn)` loop returns is a tree the rule no longer changes |
| Drivers.FixpointMoreFuel | src/nso_rr.h:1617-1620 | a fixed point reached with some fuel is reached with more, and is the same |
| Drivers.FixpointOfFixed | src/nso_rr.h:1616-1617 | a tree the rule leaves alone is returned at once |
| Drivers.ApplyIfAllFixed | src/nso_rr.h:1611-1623 | the result of `nso_rr_apply_if` over a list is a fixed point of the last rule |
| Drivers.ApplyIfAllOrder | src/nso_rr.h:1615-1621 | running `rs + ts` runs `rs` to the end, then `ts` on its result |
| Drivers.NsoRrApplyIf | src/nso_rr.h:1584-1607 | one rule: the matcher's rewrite, with every callback in it replaced by its value |
| Drivers.CollectCallbacks | src/nso_rr.h:1596-1599 | the loop builds the map of callback values |
| Drivers.NsoRrApplyIfRules | src/nso_rr.h:1611-1623 | the nested loops compute `ApplyIfAll`: each rule driven to its own fixed point, in list order |
| Drivers.RunRule | src/nso_rr.h:1616-1620 | one rule is driven to its fixed point |
| Drivers.NumNode | src/nso_rr.h:1663-1664 | the new `num` node holds the given offset |
| Drivers.FoldShiftOfNumbers | src/nso_rr.h:1654-1665 | a shift of `a` by `b` folds to `a - b`, or underflows when `a < b` |
| Drivers.ShiftChangesFolded | src/nso_rr.h:1653-1666 | each shift that folds is mapped to the `num` of its difference |
| Drivers.ShiftChangesKept | src/nso_rr.h:1653-1666 | the shift loop adds only folded shifts to the map, and every other key keeps its callback value |
| Drivers.ShiftChangesStep | src/nso_rr.h:1653-1666 | each round of the shift loop adds the fold of one shift |
| Drivers.ApplyOnce | src/nso_rr.h:1628-1681 | `nso_rr_apply` returns its input or the matcher's rewrite with some subtrees replaced |
| Drivers.UnderflowDiscardsRewrite | src/nso_rr.h:1658-1661 | as written, one underflowing shift anywhere in the rewrite makes `nso_rr_apply` return its original input |
| Drivers.PlainRewrite | src/nso_rr.h:1671-1677 | with no callback and no shift, `nso_rr_apply` is the matcher's rewrite |
| Drivers.EmptySelection | src/nso_rr.h:1652 | `select_all` over a tree with no qualifying subtree is empty |
| Drivers.NumNodeSelects | src/nso_rr.h:1652 | a selection over a `num` node is empty when the predicate rejects the node and its leaf, as the shift selection does |
| Drivers.ShiftOfNumbersSelects | src/nso_rr.h:1652 | a selection over a shift of two numbers finds at most the shift itself |
| Drivers.ShiftOfNumbersChanges | src/nso_rr.h:1650-1668 | for a shift of `a` by `b`, `b <= a`, the change map sends the shift to `num(a - b)` |
| Drivers.ShiftRootFolded | src/nso_rr.h:1629-1681 | a rewrite that is a shift of `a` by `b`, `b <= a`, is folded to `num(a - b)` |
| Drivers.NsoRrApply | src/nso_rr.h:1629-1681 | one rule: the matcher's rewrite, then the callback values and folded shifts in one replacement, or the input when a shift underflows |
| Drivers.FoldShifts | src/nso_rr.h:1652-1668 | the shift loop succeeds exactly when no shift underflows, and then builds the map of folds |
| Drivers.ApplyAll | src/nso_rr.h:1683-1688 | with no rules, `nso_rr_apply` over a list returns its input |
| Drivers.ApplyAllOrder | src/nso_rr.h:1682-1688 | running `rs + ts` once runs `rs`, then `ts` on its result |
| Drivers.NsoRrApplyRules | src/nso_rr.h:1682-1688 | the loop computes `ApplyAll`: each rule applied once, in list order |
| Combinators.RunStepsAppend | src/normalizer2.h:280-285 | running `a + b` runs `a`, then `b` on its result |
| Combinators.RunStepsFlatten | src/normalizer2.h:265-266 | with single-pass steps, a sequence of libraries runs like one library holding all their rules in order |
| Combinators.StepsApply | src/normalizer2.h:280-285 | `steps` runs its libraries left to right, each on the previous output, and is the identity when empty |
| Combinators.RepeatOnceApply | src/normalizer2.h:338-344 | `repeat_once` runs each library exactly once, in order |
| Combinators.IterateShift | src/normalizer2.h:321-325 | applying `f` `k` times to `f(n)` is applying it `k + 1` times to `n` |
| Combinators.OutputsShift | src/normalizer2.h:321-325 | the outputs of `k + 1` rounds from `n` are `f(n)` and the outputs of `k` rounds from `f(n)` |
| Combinators.CycleSeen | src/normalizer2.h:321-325 | the loop returns an output that was already in `visited` or produced earlier |
| Combinators.CycleOfFixed | src/normalizer2.h:321-325 | a tree the step leaves alone is returned |
| Combinators.CycleOfIdempotent | src/normalizer2.h:321-325 | when a second application changes nothing, the loop returns the first output |
| Combinators.RepeatAll | src/normalizer2.h:318-327 | when `repeat_all` returns, it returns the `j`-th output of the whole sequence, which it had already produced earlier |
| Combinators.RepeatEach | src/normalizer2.h:296-307 | `repeat_each` with no libraries is the identity, and fails when the repetition of its first library runs out |
| Combinators.RepeatAllSeen | src/normalizer2.h:318-327 | `repeat_all` returns the `j`-th output of the whole sequence, equal to an earlier output `i < j` |
| Combinators.OutputIndex | src/normalizer2.h:321-325 | every element of the visited set is one of the outputs so far |
| Combinators.CycleSameSteps | src/normalizer2.h:321-325 | the loop depends only on the values of the step |
| Combinators.RepeatEachSingle | src/normalizer2.h:296-307 | with one library, `repeat_each` and `repeat_all` agree |
| Combinators.RepeatEachAppend | src/normalizer2.h:298-305 | `repeat_each` over `a + b` repeats the libraries of `a`, then those of `b`, each with a fresh visited set |
| Combinators.RepeatAllApply | src/normalizer2.h:318-327 | the loop with one visited set computes `repeat_all` |
| Combinators.RepeatEachApply | src/normalizer2.h:296-307 | the loops with a fresh visited set per library compute `repeat_each` |
| Combinators.RepeatStep | src/normalizer2.h:299-304 | the inner loop repeats one library until an output recurs |
| Combinators.Pair | src/normalizer2.h:351-369 | `l \| r` is a two-element `steps`, `l` first |
| Combinators.Append | src/normalizer2.h:372-390 | `s \| l` is `s` with `l` appended at the end |
| Combinators.PipeMeaning | src/normalizer2.h:393-395 | `(s \| l)(n)` is `l(s(n))` and `(l \| r)(n)` is `r(l(n))` |
| Normalizer.RunStagesTrace | src/normalizer2.h:426-449 | the stages run one after the other, each `repeat_all` on the output of the one before; when every stage returns, the last output is the result, otherwise the stage after the last output ran out of fuel |
| Normalizer.NormalizerStep | src/normalizer2.h:426-454 | `normalizer_step` keeps the recurrence relations |
| Normalizer.NormalizerStepStages | src/normalizer2.h:426-454 | `normalizer_step` keeps the recurrence relations and changes `main` by the six stages in their fixed order |
| Normalizer.FreeVariablesAre | src/normalizer2.h:505-509 | the free variables are exactly the captures occurring in the tree |
| Normalizer.CloseAll | src/normalizer2.h:493 | the closure has a child, so it can be closed further |
| Normalizer.CloseAllLast | src/normalizer2.h:493 | closing under one more variable puts its `all` outermost |
| Normalizer.CloseAllBinds | src/normalizer2.h:492-493 | the closure contains the body and every variable it was closed over |
| Normalizer.CloseAllAppend | src/normalizer2.h:493 | each round of the loop is `build_wff_all` of the next variable and the closure so far |
| Normalizer.HasWffTLevels | src/normalizer2.h:497 | the test looks two levels down: the tree `T` itself fails it, a node holding `T` passes |
| Normalizer.CloseUnderAll | src/normalizer2.h:493 | the loop closes the formula under every variable of the set, each once |
| Normalizer.IsEquivalent | src/normalizer2.h:489-499 | true exactly when the normalised `all`-closure of `equiv(node, n)` over the captures of both trees passes `\| wff \| wff_t` |
| Normalizer.NormalizeFromSeen | src/normalizer2.h:519-525 | from any round, the loop returns the formula after some step `k`, equivalent to the one after an earlier step |
| Normalizer.NormalizeSeen | src/normalizer2.h:512-526 | `normalizer` returns the formula after `k` steps, whose main tree is equivalent to the main tree after an earlier step |
| Normalizer.StepNKeepsRelations | src/normalizer2.h:454 | repeated steps that keep the recurrence relations keep them |
| Normalizer.NormalizeKeepsRelations | src/normalizer2.h:512-526 | `normalizer` keeps the recurrence relations |
| Normalizer.FindEquivalent | src/normalizer2.h:522 | the search finds an earlier main tree equivalent to the current one exactly when one exists |
| Normalizer.NormalizeApply | src/normalizer2.h:519-525 | the loop, as intended, computes `normalizer` |
| Iterators.Init | src/iterators.h:42 | a new Gray-code state is well formed |
| Iterators.Next | src/iterators.h:44 | a step keeps the state well formed, yields a delta below the size while not at `end`, and changes nothing at `end` |
| Iterators.Run | src/iterators.h:29-58 | every state reached by increments is well formed |
| Iterators.RunStaysDone | src/iterators.h:48 | once at `end`, the iterator stays there |
| Iterators.Code | tests/unit/test_iterators.cpp:31-33 | the code has one bit per position |
| Iterators.CodeStep | tests/unit/test_iterators.cpp:29-59 | while not at `end`, consecutive codes differ in exactly the bit the delta names |
| Iterators.GreyCodeIterator.constructor | src/iterators.h:42 | a new iterator of size `n` is in the initial state |
| Iterators.GreyCodeIterator.Empty | src/iterators.h:43 | the default iterator has size 0 and is already at `end` |
| Iterators.GreyCodeIterator.Increment | src/iterators.h:44 | `operator++` takes one step of Algorithm L in place |
| Iterators.GreyCodeIterator.PostIncrement | src/iterators.h:45 | `operator++(int)` returns the state before the step and takes the step |
| Iterators.GreyCodeIterator.Current | src/iterators.h:50 | `operator*` is an index below the size while not at `end` |
| Iterators.GreyCodeIterator.AtEnd | src/iterators.h:48 | at `end` a further step changes nothing; before `end` the current delta is an index below the size |
| Iterators.AscendingIs | src/iterators.h:129-135 | the indices are listed exactly once each, in increasing order |
| Iterators.Toggle | src/iterators.h:92-100 | toggling changes the membership of the delta and of no other index |
| Iterators.ToggleInvolution | src/iterators.h:92-100 | toggling twice with the same delta gives the set back |
| Iterators.PowerSetIterator.constructor | src/iterators.h:90 | a new iterator has the empty subset and a fresh Gray code of the vector's size |
| Iterators.PowerSetIterator.Increment | src/iterators.h:92-100 | `operator++` steps the Gray code and toggles the index it yields |
| Iterators.PowerSetIterator.PostIncrement | src/iterators.h:102-111 | `operator++(int)` returns the subset before the step, steps the Gray code and toggles the index it yields |
| Iterators.PowerSetIterator.Current | src/iterators.h:129-135 | `operator*` returns the elements at the subset's indices, in ascending index order |
| Iterators.PowerSetIterator.Equals | src/iterators.h:113-115 | every iterator equals itself, and equal iterators dereference to the same vector |
| Iterators.PowerSetIterator.AtEnd | src/iterators.h:77-79 | at `end` a further step changes nothing; before `end` the Gray code's delta is an index of the vector |
| Iterators.Move | src/iterators.h:201-209 | the delta ends up in exactly one half, on the other side of `first_` from where it was, and every other index stays where it was |
| Iterators.MoveKeepsDisjoint | src/iterators.h:201-209 | moving the delta keeps the halves disjoint, adds it to their union, and flips which half holds it |
| Iterators.PostMove | src/iterators.h:212-221 | as written, `second_` is kept and only the delta's membership of `first_` changes |
| Iterators.PostMoveOverlaps | src/iterators.h:212-221 | as written, the post-increment can put an index in both halves |
| Iterators.PartitionsIterator.constructor | src/iterators.h:199 | a new iterator has both halves empty and a fresh Gray code of the vector's size |
| Iterators.PartitionsIterator.Increment | src/iterators.h:201-209 | `operator++` steps the Gray code and moves the index it yields to the other half |
| Iterators.PartitionsIterator.PostIncrement | src/iterators.h:212-221 | `operator++(int)` returns the halves before the step and toggles only `first_` |
| Iterators.PartitionsIterator.Current | src/iterators.h:231-235 | as written, both vectors are the indices of `first_` in ascending order |
| Iterators.PartitionsIterator.Equals | src/iterators.h:224-226 | every iterator equals itself, and equal iterators dereference to the same pair |
| Iterators.PartitionsIterator.AtEnd | src/iterators.h:48 | at `end` a further step changes nothing; before `end` the Gray code's delta is an index of the vector |
| Iterators.PowersetRange.constructor | src/iterators.h:150 | the range holds the given vector |
| Iterators.PowersetRange.Empty | src/iterators.h:152-154 | `empty()` holds exactly when `begin()` is already at `end` |
| Iterators.PowersetRange.Begin | src/iterators.h:156-159 | `begin()` is a fresh iterator at the empty subset |
| Iterators.PartitionRange.constructor | src/iterators.h:251 | the range holds the given vector |
| Iterators.PartitionRange.Empty | src/iterators.h:253-255 | `empty()` holds exactly when `begin()` is already at `end` |
| Iterators.PartitionRange.Begin | src/iterators.h:257-260 | `begin()` is a fresh iterator with both halves empty |
| Iterators.RunIsTrace | tests/unit/test_iterators.cpp:29-59 | a sequence of states that starts at the initial state and follows the step is what the increments produce |
| Iterators.CodeIsTrace | tests/unit/test_iterators.cpp:31-33 | codes that flip each delta along such a sequence are what the test's flipping produces |
| Iterators.SubsetIsTrace | tests/unit/test_iterators.cpp:65-90 | index sets that toggle each delta along such a sequence are the power-set iterator's subsets |
| Iterators.RunFour | tests/unit/test_iterators.cpp:36-58 | for size 4 the iterator passes seventeen listed states: fifteen deltas, then `end` |
| Iterators.GreyCodeFour | tests/unit/test_iterators.cpp:40-55 | for size 4 the sixteen codes are those of the test, in its order |
| Iterators.PowerSetFourOrder | tests/unit/test_iterators.cpp:71-86 | over `{1, 2, 3, 4}` the sixteen subsets are those of the test, in its order |
| Iterators.EmptyAtEnd | tests/unit/test_iterators.cpp:24-27 | the iterator of size 0 is at `end` from the start, and a step leaves it there |

## Left out

- Builders.BuildWffEq: its own contract only says the result is a `wff` node with one child; the tree it builds is stated by `WffBuildersInstantiate` and `BfShapes`.
- Builders.BuildWffNeq: its own contract only says the result is a `wff` node with one child; the tree it builds is stated by `WffBuildersInstantiate` and `BfShapes`.
- Builders.BuildWffAnd: its own contract only says the result is a `wff` node with one child; the tree it builds is stated by `WffShapes`.
- Builders.BuildWffOr: its own contract only says the result is a `wff` node with one child; the tree it builds is stated by `WffShapes`.
- Builders.BuildWffNeg: its own contract only says the result is a `wff` node with one child; the tree it builds is stated by `WffShapes`.
- Builders.BuildWffImply: its own contract only says the result is a `wff` node with one child; its meaning is stated by `WffImplyMeaning`.
- Builders.BuildBfAnd: its own contract only says the result is a `bf` node with one child; the tree it builds is stated by `BfShapes`.
- Builders.BuildBfOr: its own contract only says the result is a `bf` node with one child; the tree it builds is stated by `BfShapes`.
- Builders.BuildBfNeg: its own contract only says the result is a `bf` node with one child; the tree it builds is stated by `BfShapes`.
- Builders.BuildBfXor: its own contract only says the result is a `bf` node with one child; the tree it builds is stated by `BfXorShape`.
- Builders.BuildBfAll: its own contract only says the result is a `bf` node with one child; the tree it builds is stated by `BfQuantifierShapes`.
- Builders.BuildBfEx: its own contract only says the result is a `bf` node with one child; the tree it builds is stated by `BfQuantifierShapes`.
- Builders.BuildTauAnd: its own contract only says the result is a `tau` node with one child; the tree it builds is stated by `TauShapes`.
- Builders.BuildTauOr: its own contract only says the result is a `tau` node with one child; the tree it builds is stated by `TauShapes`.
- Builders.BuildTauNeg: its own contract only says the result is a `tau` node with one child; the tree it builds is stated by `TauShapes`.
- Builders.BuildWffXor: its own contract only says the result is a `wff` node with one child; its meaning is stated by `WffXorMeaning`.
- Builders.BuildWffConditional: its own contract only says the result is a `wff` node with one child; its meaning is stated by `WffConditionalMeaning`.
- Builders.BuildWffEquiv: its own contract only says the result is a `wff` node with one child; its meaning is stated by `WffEquivMeaning`.
- Builders.BuildWffAll: its own contract only says the result is a `wff` node with one child; the tree it builds is stated by `WffQuantifierShapes` and `BinderBuildersInstantiate`.
- Builders.BuildWffEx: its own contract only says the result is a `wff` node with one child; the tree it builds is stated by `WffQuantifierShapes` and `BinderBuildersInstantiate`.
- Builders.BuildWffBall: its own contract only says the result is a `wff` node with one child; the tree it builds is stated by `WffQuantifierShapes` and `BinderBuildersInstantiate`.
- Builders.BuildWffBex: its own contract only says the result is a `wff` node with one child; the tree it builds is stated by `WffQuantifierShapes` and `BinderBuildersInstantiate`.
- Builders.BuildBfLess: its own contract only says the result is a `bf` node with one child; the tree it builds is stated by `BfLessShape`.
- Builders.BuildBfLessEqual: its own contract only says the result is a `wff` node with one child; the tree it builds is stated by `BfLessEqualShape`.
- Builders.BuildTauEquiv: its own contract only says the result is a `tau` node with one child; its meaning is stated by `TauEquivMeaning`.
- Builders.BuildTauXor: its own contract only says the result is a `tau` node with one child; its meaning is stated by `TauXorMeaning`.
- Builders.MakeRule: its own contract only says which nodes a rule is read from; what is read back is stated by `MakeRuleRoundTrip` and `MakeRuleOfNode`.
- Normalizer.CloseAll: its own contract only says the closure has a child; its shape and what it binds are stated by `CloseAllLast`, `CloseAllBinds` and `CloseAllAppend`.
- SyntacticChecks.ClashingSubformulas: its own contract only says which of its inputs it returns; when it returns which is stated by `ClashingSubformulasMeaning` and `Callbacks.ClashingCallbackMeaning`.
- SyntacticChecks.HasSubformula: with exactly two arguments and `s` occurring in `f`, the source reads a third argument past the end of the vector; the model returns the node as it is.
- QuantifierElimination.RemoveBUniversal: its own contract only says the malformed case and the kind of the result; the tree it builds and its truth value are stated by `BooleanRemovalShape`, `BooleanRemovalMeaning` and `Callbacks.BUniversalCallbackMeaning`.
- QuantifierElimination.RemoveBExistential: its own contract only says the malformed case and the kind of the result; the tree it builds and its truth value are stated by `BooleanRemovalShape`, `BooleanRemovalMeaning` and `Callbacks.BExistentialCallbackMeaning`.
- QuantifierElimination.RemoveFUniversal: its own contract only says the malformed case and the kind of the result; the tree it builds is stated by `FunctionalRemovalShape` and `Callbacks.FUniversalCallbackMeaning`.
- QuantifierElimination.RemoveFExistential: its own contract only says the malformed case and the kind of the result; the tree it builds is stated by `FunctionalRemovalShape` and `Callbacks.FExistentialCallbackMeaning`.
- QuantifierElimination.RemoveExistential: its own contract only says the malformed cases and that the result is the node or the formula with some subtrees replaced; which replacements are made, and that nothing else is replaced, is stated by `RemoveExistentialMeaning` and `Callbacks.RemoveExistentialCallbackMeaning`. Where a disjunct would throw (an equation or disequation without a `bf` child, or a term the builders trim to nothing), the model returns the callback node as it is.
- Drivers.ApplyOnce: its own contract only says the result is the input or the rewrite with some subtrees replaced; which case applies is stated by `UnderflowDiscardsRewrite`, `PlainRewrite`, `ShiftRootFolded` and `NsoRrApply`.
- Drivers.ApplyAll: its own contract only covers the empty list; the order of the rules is stated by `ApplyAllOrder` and `NsoRrApplyRules`.
- Combinators.RepeatEach: its own contract only covers the empty list and the failure of the first library; the composition is stated by `RepeatEachAppend` and `RepeatEachSingle`.
- Normalizer.NormalizerStep: its own contract only says the recurrence relations are kept; the six stages are stated by `NormalizerStepStages` and `RunStagesTrace`.
- `build_bf_greater` (src/nso_rr.h:1272-1279) is not modelled: it calls a `build_bf_eq` that does not exist and passes two arguments to the one-argument `build_wff_neq`, so it cannot be compiled.
- `apply_subs` (src/nso_rr.h:1553-1559) is not modelled: no case of the dispatch reaches it.
- The pattern matcher `apply_with_skip` and the traversers of rewriting.h are not modelled: rewriting.h is not part of this model, and the matcher is a parameter. `replace`, `select_all` and `find_top` are defined here as recursive functions with the behaviour the engine relies on. `replace` rewrites the top-most keys and does not revisit replacements. `select_all` and `find_top` work in pre-order, root first.
- Trees are taken in their cleaned shape: punctuation and whitespace terminals are dropped and the parser's helper `_R` nodes are flattened, as `clean_tau_source` (src/nso_rr.h:867) is declared to do; its body and the generated parser are not part of this model. Members that build or read a concrete tree rely on that shape: `Drivers.FoldShiftOfNumbers`, `Drivers.ShiftOfNumbersChanges`, `Drivers.ShiftRootFolded`, `Drivers.NumNodeSelects`, `Drivers.ShiftOfNumbersSelects` and `Builders.HeadCaptures`.
- `is_non_essential` (src/nso_rr.h:218-222) calls `is_non_essential_sym`, which is declared `extern` (src/nso_rr.h:212-214) and whose body is not part of this model. `TauTree.IsNonEssential` reads it as "a whitespace symbol"; `SyntacticChecks.SkipNonEssential`, `CompareTrees` and `AreEqualPrefix` depend on that reading.
- Nodes are compared by value. The source holds nodes through `sp_tau_node` pointers and compares them in the `changes` maps of the drivers and of the quantifier removals, in the `while (nnn != nn)` loop (src/nso_rr.h:1617) and in `subformula == args[1]` (src/nso_rr.h:1499). How those pointers compare is defined outside the files modelled here; the model reads every such comparison as structural equality. Where two structurally equal trees compared unequal as pointers, the source could miss a key, a subformula or a fixed point that the model finds.
- `tau_apply` (formula.h) is not modelled: formula.h is not part of this model, and it is the `Engine` parameter of the combinators.
- Parsing is not modelled: the parser, `make_tau_source`, `make_library`, `make_builder` and the `make_nso_rr_*` entry points. Builders are given trees, and the rule libraries are lists of rule names whose parsed rules come in through a parameter. So the rewrites the individual rules perform, including the two unsound rules, are not modelled.
- `make_rec_relation`, `make_rules`, `factory_binder`, `resolve_types` and `process_digits` are not modelled. They are parsing-side helpers and not part of the engine modelled here.
- Malformed nodes are not modelled faithfully. Where the source throws `bad_optional_access`, indexes past the end of a vector, or reaches `assert(false)`, the model mostly returns the node unchanged or `None`. There are two exceptions. A shift whose `num` children hold no offset is skipped and the fold goes on (`Drivers.FoldShift`, result `Malformed`); the source throws there (src/nso_rr.h:1656-1657). An underflowing shift anywhere in the rewrite makes the model return the input, even when a malformed shift comes first, where the source would throw at the malformed one. `std::get<tau_source_sym>` is not modelled either: on the rewrite's root (src/nso_rr.h:1662) and in `wrap` (src/nso_rr.h:1053), which throws on an element or offset leaf where `TauTree.Wrap` wraps any node. The `std::visit` type-mismatch exception of the algebra operations is not modelled: elements are of one type.
- Sizes and offsets are unbounded naturals. The `size_t` subtraction in the shift fold cannot wrap, because the underflow case returns first.
- The fixed-point loops carry a fuel bound. The model says nothing about runs that need more rounds than the fuel allows, and termination is not claimed.
- `normalizer` (src/normalizer2.h:519-525) is modelled as intended, against an abstract equivalence oracle. The code as written calls `find_if(previous.rend(), previous.rbegin(), ...)` with its bounds reversed, and builds its predicate once from the first result; neither is reproduced.
- The body of `compute_next_delta_` is not part of the available source; the Gray code follows Algorithm L. Three behaviours come from the unit tests rather than from code: the end flag, the iterator of size 0 being at `end`, and a step at `end` changing nothing. Once at `end`, the last delta is kept, so a power-set or partitions increment that reaches `end` toggles that index once more.
- The Gray-code iterator's `operator==` between two iterators, and every `operator!=`, are not modelled; the comparison with the `end` sentinel is the `AtEnd` predicate. The partitions sentinel compares against a power-set iterator (src/iterators.h:184-193), so `partition_range::end()` cannot be compared with a partitions iterator; that comparison is not modelled either.
- The iterators hold a reference to the caller's vector; the model copies the vector, so aliasing with the caller is not captured.
- Iterators.Run: for a general size `n` the model proves only that every state is well formed, that a step flips exactly the delta's bit (`CodeStep`) and that `end` is absorbing. It does not prove that `end` is reached after `2^n - 1` deltas, that the `2^n` codes are pairwise distinct, or that the power-set iterator visits every subset once. These are checked only for size 4, against the sixteen listed codes and subsets (`RunFour`, `GreyCodeFour`, `PowerSetFourOrder`); pairwise distinctness is not stated even there.
- Logging, the `operator<<` printers and the I/O of the `normalizer` overloads that read source text are not modelled.
