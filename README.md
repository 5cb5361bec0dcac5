# Sequent-calculus prover: a verified model of its core

The prover decides whether a first-order formula is valid. It does so by
backward proof search over sequents `antecedent |- succedent`, in the style
of Gentzen's calculus LK. This project models its two core files in Dafny
and proves properties of the model.

- `ast.py` holds the formula tree:
  - terms, atoms, the four connectives, `forall`, `exists`, and the
    pending instantiation `Substitution`;
  - validating constructors;
  - structural and binder-aware equality;
  - the left and right introduction rule of every node kind;
  - `substitute`, which renames a binder equal to the variable being
    replaced;
  - the global counter `index`, which mints the fresh names `_v<N>` and
    `_c<N>`.
- `solver.py` holds the search:
  - `solve__internal` reorders both sides and checks for an axiom. It then
    scans the antecedent and the succedent (`check_side`) for a formula to
    decompose (`prepare_and_resolve`) or a pending instantiation to try
    witnesses for (`enumerate_available_substitutions`,
    `traverse_expression_tree`, `contains`).
  - It returns as soon as a branch decides the answer.

Modules, in dependency order:

| module | file | contents |
|---|---|---|
| `Wrappers` | wrappers.dfy | `Option`, `Result` |
| `Formulas` | formulas.dfy | the `Formula` datatype, well-formedness, `copy`, the validating constructors |
| `Names` | names.dfy | decimal numerals and the fresh names `_v<N>` / `_c<N>` |
| `Substitutions` | substitutions.dfy | `substitute` as a function and as the source's copy-then-overwrite method |
| `Equality` | equality.dfy | `__eq__` of every node kind, `in` and `list.remove` |
| `Rules` | rules.dfy | `introduce_to_antecedent` and `introduce_to_succedent`, with the propositional reading of sequents |
| `Witnesses` | witnesses.dfy | `contains`, `traverse_expression_tree`, witness enumeration, `collision` |
| `Search` | search.dfy | `solve__internal`, `check_side` and `prepare_and_resolve` as functions |
| `SearchProperties` | search_properties.dfy | properties of the search: the axiom shortcut, the stuck case, fuel, the counter |
| `Decision` | decision.dfy | on propositional input, every answer the search reaches is right, and with more fuel than the sequent's total size it always reaches one |
| `Engine` | engine.dfy | the search as the source writes it: loops, list copies, `remove`/`insert`, early returns |

The global counter is threaded explicitly. Every operation that can bump it
takes the counter `n` and returns the new value. As in the source, a fresh
name is built from the value after the increment.

There is no bound on the source's recursion, so the search carries a fuel
argument. It answers `Valid`, `Invalid` or `OutOfFuel`. Each recursive call
of `solve__internal` spends one unit, and an exhausted budget aborts the
whole search with `OutOfFuel`.

A formula is an immutable value. The `doubled` flag of a quantifier is part
of the value. The reusable rule removes the unmarked formula and adds two
marked copies. Because of this, each branch carries its own flag; the
source's shared object is left out.

## Model

| member | source | states |
|---|---|---|
| Formulas.MkTerm | ast.py:4-13 | a term builds exactly when every argument is a term; no argument list gives an argless term, and a list (even an empty one) gives a compound term with those arguments |
| Formulas.MkAtom | ast.py:36-44 | an atom builds exactly when every argument is a term; otherwise the error names an argument that is not a term |
| Formulas.MkNegation | ast.py:61-67 | a negation builds exactly when its operand is not a term |
| Formulas.MkBinary | ast.py:84-95 | an implication, disjunction or conjunction builds exactly when neither operand is a term; otherwise the error names the left operand if it is a term, else the right one |
| Formulas.MkForall | ast.py:155-167 | a `forall` builds exactly when the binder is an argless term and the body is not a term; it starts with `doubled` false; the error says which condition failed first |
| Formulas.MkExists | ast.py:193-201 | the same acceptance condition for `exists`, with its single combined error |
| Formulas.RebuildAcceptsExactlyWellFormed | ast.py:4-201 | rebuilding a tree through the constructors succeeds exactly on well-formed trees, and returns the tree's copy |
| Formulas.CopyKeepsWellFormed | ast.py:72-73 | a copy of a well-formed formula is well-formed and is a term exactly when the original is |
| Formulas.CopyIsUndoubled | ast.py:100-101 | copying goes through the constructors, so no quantifier in a copy is marked doubled |
| Names.FreshInjective | ast.py:185 | fresh names minted at different counter values differ |
| Names.FamiliesDisjoint | ast.py:272-275 | a `_v` name never equals a `_c` name |
| Names.FamilyOfFresh | ast.py:246-249 | a renamed binder keeps the family prefix (`_v` or `_c`) it was minted with |
| Substitutions.Substitute | ast.py:254-282 | the copy-then-overwrite method, loops over arguments included, computes `Subst` with the same final counter |
| Substitutions.SubstWithoutRebinding | ast.py:254-282 | when no binder below is named like the variable, substitution is plain replacement of its occurrences and leaves the counter alone |
| Substitutions.SubstEliminatesFree | ast.py:254-282 | if the new term does not mention the variable, the result has no free occurrence of it |
| Substitutions.SubstAdvancesCounter | ast.py:270-271 | the counter grows by at least one for every binder named like the variable |
| Substitutions.SubstKeepsWellFormed | ast.py:254-282 | substituting a well-formed term into a well-formed formula gives a well-formed formula, a term exactly when the input was |
| Substitutions.ShadowingBinderOnlyRenames | ast.py:266-277 | under a binder equal to the variable, the binder is renamed to the next fresh name of its family, the body is renamed consistently, the new term never enters, and the counter ticks once |
| Substitutions.CaptureExample | ast.py:266-268 | a binder that occurs only in the new term is not renamed: `x := y` under `forall y` captures `y` |
| Substitutions.ReplaceAfterRename | ast.py:276-277 | after renaming the variable away, the second substitution of the rename step changes nothing |
| Equality.EqReflexive | ast.py:15-21 | every formula equals itself and the comparison leaves the counter alone |
| Equality.EqQuantifierFree | ast.py:46-49 | when either side is quantifier-free, `__eq__` is exactly structural equality: names, arities and arguments pairwise, with an argless term unequal to an empty-argument term |
| Equality.EqQuantifiedIff | ast.py:169-176 | two quantifiers over quantifier-free bodies are equal iff renaming the first binder to the second turns the first body into the second |
| Equality.EqRenamedBinder | ast.py:169-176 | a quantifier equals its own renaming whatever the `doubled` flags are |
| Equality.EqNotSymmetric | ast.py:169-176 | equality is not symmetric: `forall x. P(x,y)` equals `forall y. P(y,y)` but not the reverse |
| Equality.EqIgnoresKind | ast.py:97-98 | two pending instantiations compare binder and body only, not their kind |
| Equality.EqAdvancesCounter | ast.py:172 | a comparison never moves the counter backwards |
| Equality.InListFinds | solver.py:161 | `x in side` asks each element `e` whether `e == x`, so it holds exactly when the scan for the first element equal to `x` finds one |
| Equality.FindEqualIsFirst | solver.py:91-94 | for a quantifier-free `x`, the scan finds the first position holding `x`, or none when `x` is absent, and bumps nothing |
| Equality.RemoveFirstDeletesOne | solver.py:91-94 | `remove` of an element that is present deletes exactly one element, the first `e` with `e == x`, which sits at or before the first occurrence of the element itself; the rest keep their order |
| Equality.RemoveFirstQuantifierFree | solver.py:91-94 | for a quantifier-free `x`, `remove` deletes its first occurrence without touching the counter |
| Equality.WithoutDeletesOne | solver.py:91-94 | deleting the first occurrence takes exactly one copy out of the multiset of the side |
| Rules.IntroduceToAntecedent | ast.py:120-149 | a left rule gives one or two branch specs, each removing the formula itself; only the quantifier rules touch the counter |
| Rules.IntroduceToSuccedent | ast.py:120-149 | the same for the right rules |
| Rules.AntecedentRuleInvertible | ast.py:120-149 | for every propositional connective, a left rule is sound and invertible: under any valuation, the sequent holds exactly when all its branch sequents hold |
| Rules.SuccedentRuleInvertible | ast.py:120-149 | the same for every right rule |
| Rules.AntecedentRuleShrinks | ast.py:120-149 | every left propositional rule adds formulas of smaller total size than the one it removes |
| Rules.SuccedentRuleShrinks | ast.py:120-149 | the same for the right rules |
| Rules.AntecedentRuleKeepsProper | ast.py:178-190 | the formulas a left rule adds are well-formed and not terms |
| Rules.SuccedentRuleKeepsProper | ast.py:212-224 | the same for the right rules |
| Rules.QuantifierRulesTick | ast.py:178-190 | every quantifier rule bumps the counter at least once, and exactly once when the body does not rebind the variable |
| Rules.RebindingTicksTwice | ast.py:212-215 | `exists x. forall x. p` on the left bumps the counter twice, once for the rule and once for the rename |
| Rules.QuantifierRulesInstantiate | ast.py:187-190 | a one-shot rule gives one branch that moves the instance to the other side, the same for `forall` on the right and `exists` on the left; the instance has no free occurrence of the bound variable once `_c<N>` differs from it, and is the plain replacement of the variable by `_c<N>` when the body does not rebind it |
| Rules.DuplicationHappensOnce | ast.py:178-183 | an unmarked reusable quantifier (`forall` on the left, `exists` on the right) comes back as two marked copies, each equal to the original under `__eq__` at any counter, with one tick |
| Rules.MarkedQuantifierInstantiates | ast.py:184-185 | a marked copy is never duplicated again: it adds only a single pending instantiation over `_v<N>`, `N` the counter after the tick, whose body has no free occurrence of the bound variable |
| Witnesses.TraverseTree | solver.py:115-141 | the tree walk yields exactly the pre-order sequence of `Traverse`, including the `None` end markers |
| Witnesses.TraverseFindsOccurrences | solver.py:115-141 | a term is yielded iff it occurs in the formula and contains no variable bound above it |
| Witnesses.TraverseYieldsTerms | solver.py:115-141 | every non-`None` value yielded is a term |
| Witnesses.TraverseTermFirst | solver.py:116-118 | the walk of a term yields the term itself first, before any of its subterms |
| Witnesses.ContainsIsOccurrence | solver.py:144-149 | `contains(t, v)` holds exactly when the variable `v` occurs in the term `t` |
| Witnesses.EnumerateCandidates | solver.py:102-105 | the enumeration loop collects the candidate terms of antecedent then succedent, in traversal order |
| Witnesses.CandidatesAreOccurrences | solver.py:102-105 | a term is a candidate iff it occurs, unshadowed, in some formula of the sequent |
| Witnesses.CandidatesAppend | solver.py:103 | the candidates of `antecedent + succedent` are those of the antecedent followed by those of the succedent |
| Witnesses.CandidatesWellFormed | solver.py:102-105 | every candidate of a well-formed sequent is a well-formed term |
| Witnesses.Collision | ast.py:243-251 | `collision` renames the binder to the next fresh name of its family and computes `Fallback` |
| Witnesses.FallbackRenames | solver.py:109-112 | the fallback bumps the counter and, when the fresh name is new, leaves no free occurrence of the old binder in the body |
| Search.ReorderPermutes | solver.py:17-18 | reordering a side is a permutation of it |
| Search.ReorderPartitions | solver.py:17-18 | after reordering, every pending instantiation comes after every other formula |
| Search.FiltersKeepOrder | solver.py:17-18 | both filters keep the original order, since they distribute over concatenation |
| Search.ReorderIdempotent | solver.py:17-18 | reordering twice is reordering once |
| Search.ContraversialFindsShared | solver.py:160-161 | if some formula is on both sides, the axiom check fires |
| Search.AxiomCheckIsOriented | solver.py:160-161 | the axiom check asks the antecedent formula whether it equals the succedent one: with `forall x. P(x, y)` on the left and `forall y. P(y, y)` on the right it fires, with the two swapped it does not |
| Search.ContraversialQuantifierFree | solver.py:160-161 | on a quantifier-free succedent, the axiom check fires exactly when the sides share a formula, and it bumps nothing |
| Search.CheckSide | solver.py:39-82 | `check_side` hands back the `exists_mode` it was given |
| Search.Decompose | solver.py:85-97 | the successor of a decomposition step is again a sequent of well-formed non-term formulas |
| Search.Instantiate | solver.py:50-58 | the successor of an instantiation step is again such a sequent |
| SearchProperties.AxiomShortcut | solver.py:22-23 | a sequent with a formula on both sides is `Valid` whenever any fuel is left |
| SearchProperties.ScanStopsAtNonAtom | solver.py:43-82 | with the flag off, a scan that comes back empty has seen only atoms |
| SearchProperties.ScanSkipsAtoms | solver.py:72 | a side of atoms alone yields no verdict and leaves the counter alone |
| SearchProperties.StuckIsInvalid | solver.py:33-36 | when both scans come back empty, `exists_mode` is set or every formula is an atom, so the final `return True` is never reached |
| SearchProperties.AtomsAloneAreInvalid | solver.py:33-34 | a sequent of atoms with no shared formula is `Invalid` |
| SearchProperties.SolveFuelMonotone | solver.py:16-36 | one more unit of fuel leaves a definite answer, and the final counter, unchanged |
| SearchProperties.FuelMonotone | solver.py:16-99 | a definite answer is the same with any larger budget, counter included |
| SearchProperties.SolveAdvancesCounter | solver.py:16-99 | the search never moves the counter backwards |
| Decision.SolveDecidesPropositional | solver.py:16-99 | on a quantifier-free sequent, `Valid` implies a tautology and `Invalid` implies not one |
| Decision.SolveTerminatesPropositional | solver.py:16-36 | on a quantifier-free sequent, fuel larger than the sequent's total size never runs out |
| Decision.BranchesAreLighter | solver.py:85-97 | every branch sequent of a propositional step weighs less than the sequent it came from |
| Decision.PropositionalDecided | solver.py:16-99 | with fuel larger than the total size, a quantifier-free sequent is `Valid` exactly when it is a tautology and `Invalid` otherwise |
| Decision.ChildrenDecide | solver.py:73-76 | the branch sequents of a connective are all tautologies iff the sequent is |
| Decision.AtomsCounterexample | solver.py:33-34 | a sequent of atoms with disjoint sides has a falsifying valuation |
| Engine.Remove | solver.py:91-94 | `list.remove` on a copied side computes `RemoveFirst` |
| Engine.IntroduceToAntecedent | ast.py:178-190 | the left rules, counter updates included, equal `Rules.IntroduceToAntecedent` |
| Engine.IntroduceToSuccedent | ast.py:212-224 | the right rules equal `Rules.IntroduceToSuccedent` |
| Engine.Solve | solver.py:16-36 | the imperative `solve__internal` returns `Search.Solve`'s verdict and counter |
| Engine.CheckSide | solver.py:39-82 | the scan loop with early returns computes `Search.CheckSide` |
| Engine.AllBranches | solver.py:73-76 | `all(map(check, ...))` stops at the first failing branch and computes `Search.TryBranches` |
| Engine.PrepareAndResolve | solver.py:85-99 | copy, remove, prepend and recurse, as `Search.PrepareAndResolve` |
| Engine.TryInstances | solver.py:44-70 | the witness loop with its three early exits and the `not reversed` default computes `Search.Enumerate` |
| Engine.Attempt | solver.py:50-60 | one witness: substitute, remove, insert at the front, recurse with `reversed` as the new mode |
| Engine.Prove | solver.py:5-9 | the top-level call searches the sequent with an empty antecedent and `[f]` as succedent, with the flag off, the counter taken from and handed back to the caller |

## Left out

- Parsing: `solve` starts from the text parser, which wraps an external
  parser generator. The model starts from a `Formula` value; parsec.py is
  not part of this model.
- Presentation: `pprint`, every `print`, every `show` method, and the
  `depth` argument, which is used only for printing.
- The write-back in `Forall.__eq__` and `Exists.__eq__`, which overwrites
  the left operand's binder and body with the renamed ones. The model's
  equality is pure: it renames a copy and leaves both operands unchanged.
- Object identity: the source shares one `doubled` flag among every list
  that holds the same quantifier object. The model keeps the flag inside
  the value, so each branch has its own.
- Termination: the search is bounded by fuel, and running out aborts with
  `OutOfFuel`. The source may recurse without bound instead.
- A `Term` at the top level of a sequent, where the source would call an
  introduction rule that terms do not have. The search requires
  `SequentOk`: well-formed and not a term.
- `in` and `list.remove` are read as the equality test `e == x` of each
  element `e` against the sought `x`, that is the element's `__eq__`, as
  Python's list does. Python's identity shortcut changes nothing here,
  because `Equality.EqReflexive` shows every formula equals itself.
- Engine.Prove: the counter comes in as a parameter. In the source it is
  the module-level `index` of ast.py, never reset, so a second proof in
  the same process starts where the first one stopped; the caller hands
  back the returned counter to get the same behaviour.
- Rules.QuantifierRulesTick: promises exactly one tick only when the body
  does not rebind the variable. `substitute` ticks once more for every
  binder named like the replaced variable, as `Rules.RebindingTicksTwice`
  shows.
- Substitutions.Substitute: renames only a binder equal to the replaced
  variable, as ast.py:266-277 does. It therefore does not avoid capture of
  free variables of the new term (`Substitutions.CaptureExample`), which a
  capture-avoiding substitution would rename. Equality
  inherits this, so it is not symmetric (`Equality.EqNotSymmetric`).
- Decision.SolveDecidesPropositional: covers quantifier-free sequents
  only. On first-order input, the model proves the structural properties
  above and no soundness or completeness.
- The final `else: return True` of `solve__internal` (solver.py:35-36)
  cannot be reached (`SearchProperties.StuckIsInvalid`). The model keeps
  the branch as written.
- Witness enumeration is lazy in the source. The model collects the
  candidate terms first, which has no effect on the counter, and
  substitutes each candidate only when it is tried, so counter effects
  happen in the same order.
