/** The search decides propositional logic.  On a sequent with no
    quantifier and no pending instantiation anywhere, `solve__internal`
    without the flag answers `True` exactly for the sequents that hold under
    every assignment of truth values to the atoms: every answer it reaches
    is right, in both directions, and with more fuel than the sequent's
    total size it always reaches one (PropositionalDecided).

    On such sequents equality is structural equality (Equality.EqQuantifierFree),
    `remove` deletes the formula itself (Equality.RemoveFirstQuantifierFree),
    the rules are the invertible propositional rules (Rules.AntecedentRuleInvertible)
    and nothing ever sets the flag. */
module Decision {
  import opened Wrappers
  import opened Formulas
  import opened Equality
  import opened Rules
  import opened Search
  import opened SearchProperties

  predicate AllQuantifierFree(s: seq<Formula>) {
    forall f | f in s :: QuantifierFree(f)
  }

  /** A propositional sequent in the sense of this module. */
  predicate PropositionalSequent(ante: seq<Formula>, succ: seq<Formula>) {
    SequentOk(ante, succ) && AllQuantifierFree(ante) && AllQuantifierFree(succ)
  }

  /** The sequent holds under every assignment. */
  ghost predicate Tautology(ante: seq<Formula>, succ: seq<Formula>) {
    forall val: Formula -> bool :: SequentHolds(ante, succ, val)
  }

  /** The sides of the branch `b` once its formula is taken off its side:
      the reference for `Decompose` when equality is structural. */
  function Child(ante: seq<Formula>, succ: seq<Formula>, reversed: bool, b: Branch): (seq<Formula>, seq<Formula>) {
    if reversed then (b.ante + ante, b.succ + Without(b.removed, succ))
    else (b.ante + Without(b.removed, ante), b.succ + succ)
  }

  function Branches(i: Formula, reversed: bool, n: nat): seq<Branch>
    requires IsDecomposable(i)
  {
    if reversed then IntroduceToSuccedent(i, n).0 else IntroduceToAntecedent(i, n).0
  }

  // ---------------------------------------------------------------------------
  // Facts about one step
  // ---------------------------------------------------------------------------

  /** Only the order and the number of copies on a side are irrelevant to its
      truth. */
  lemma SameElementsSameTruth(a: seq<Formula>, a': seq<Formula>, val: Formula -> bool)
    requires multiset(a) == multiset(a')
    ensures AllHold(a, val) == AllHold(a', val)
    ensures SomeHolds(a, val) == SomeHolds(a', val)
  {
    assert forall f :: f in a <==> f in multiset(a);
    assert forall f :: f in a' <==> f in multiset(a');
    if SomeHolds(a, val) {
      var f :| f in a && Holds(f, val);
      assert f in a';
    }
    if SomeHolds(a', val) {
      var f :| f in a' && Holds(f, val);
      assert f in a;
    }
  }

  lemma WithoutKeeps(x: Formula, s: seq<Formula>)
    requires x in s
    ensures forall g | g in Without(x, s) :: g in s
  {
    WithoutDeletesOne(x, s);
    assert forall g | g in Without(x, s) :: g in multiset([x] + Without(x, s));
  }

  /** The branches of a propositional step on a propositional sequent:
      each takes off the formula it decomposes and adds propositional
      formulas only. */
  predicate PropositionalBranches(ante: seq<Formula>, succ: seq<Formula>, reversed: bool, branches: seq<Branch>) {
    forall b | b in branches ::
      b.removed in Side(ante, succ, reversed) && AllProper(Added(b)) && AllQuantifierFree(Added(b))
  }

  lemma BranchesArePropositional(ante: seq<Formula>, succ: seq<Formula>, reversed: bool, i: Formula, m: nat)
    requires PropositionalSequent(ante, succ) && i in Side(ante, succ, reversed) && Propositional(i)
    ensures PropositionalBranches(ante, succ, reversed, Branches(i, reversed, m))
  {
    assert Proper(i) && QuantifierFree(i);
    AntecedentRuleKeepsProper(i, m);
    SuccedentRuleKeepsProper(i, m);
  }

  /** A decomposition step keeps the sequent propositional, and for such a
      sequent `Decompose` builds exactly `Child` and leaves the counter. */
  lemma DecomposeIsChild(ante: seq<Formula>, succ: seq<Formula>, reversed: bool, b: Branch, n: nat)
    requires PropositionalSequent(ante, succ) && b.removed in Side(ante, succ, reversed)
    requires AllProper(Added(b)) && AllQuantifierFree(Added(b))
    ensures Decompose(ante, succ, reversed, b, n) == (Child(ante, succ, reversed, b).0, Child(ante, succ, reversed, b).1, n)
    ensures PropositionalSequent(Child(ante, succ, reversed, b).0, Child(ante, succ, reversed, b).1)
  {
    var side := Side(ante, succ, reversed);
    assert QuantifierFree(b.removed);
    RemoveFirstQuantifierFree(b.removed, side, n);
    WithoutKeeps(b.removed, side);
    assert forall g | g in b.ante :: g in Added(b);
    assert forall g | g in b.succ :: g in Added(b);
  }

  /** `prepare_and_resolve` on such a branch searches its `Child`. */
  lemma PrepareSearchesChild(ante: seq<Formula>, succ: seq<Formula>, reversed: bool, b: Branch, n: nat, fuel: nat)
    requires PropositionalSequent(ante, succ) && b.removed in Side(ante, succ, reversed) && fuel > 0
    requires AllProper(Added(b)) && AllQuantifierFree(Added(b))
    ensures PropositionalSequent(Child(ante, succ, reversed, b).0, Child(ante, succ, reversed, b).1)
    ensures PrepareAndResolve(ante, succ, reversed, false, b, n, fuel)
            == Solve(Child(ante, succ, reversed, b).0, Child(ante, succ, reversed, b).1, false, n, fuel - 1)
  {
    DecomposeIsChild(ante, succ, reversed, b, n);
  }

  /** The sequent a branch leads to holds under every assignment. */
  ghost predicate ChildTautology(ante: seq<Formula>, succ: seq<Formula>, reversed: bool, b: Branch) {
    Tautology(Child(ante, succ, reversed, b).0, Child(ante, succ, reversed, b).1)
  }

  /** Every branch from the `k`-th on leads to a tautology. */
  ghost predicate ChildrenFrom(ante: seq<Formula>, succ: seq<Formula>, reversed: bool, branches: seq<Branch>, k: nat) {
    forall j | k <= j < |branches| :: ChildTautology(ante, succ, reversed, branches[j])
  }

  lemma ChildrenFromStep(ante: seq<Formula>, succ: seq<Formula>, reversed: bool, branches: seq<Branch>, k: nat)
    requires k < |branches|
    ensures ChildrenFrom(ante, succ, reversed, branches, k)
            <==> ChildTautology(ante, succ, reversed, branches[k]) && ChildrenFrom(ante, succ, reversed, branches, k + 1)
  {
    if ChildTautology(ante, succ, reversed, branches[k]) && ChildrenFrom(ante, succ, reversed, branches, k + 1) {
      forall j | k <= j < |branches|
        ensures ChildTautology(ante, succ, reversed, branches[j])
      {
        if j > k {
          assert k + 1 <= j;
        }
      }
    }
  }

  /** A propositional rule step: the sequent holds under `val` exactly when
      every branch's child does. */
  lemma StepInvertible(ante: seq<Formula>, succ: seq<Formula>, reversed: bool, i: Formula, n: nat, val: Formula -> bool)
    requires i in Side(ante, succ, reversed) && Propositional(i)
    ensures SequentHolds(ante, succ, val)
            <==> forall b | b in Branches(i, reversed, n) ::
                   SequentHolds(Child(ante, succ, reversed, b).0, Child(ante, succ, reversed, b).1, val)
  {
    var branches := Branches(i, reversed, n);
    assert forall b | b in branches :: b.removed == i;
    if reversed {
      var delta := Without(i, succ);
      WithoutDeletesOne(i, succ);
      SameElementsSameTruth([i] + delta, succ, val);
      SuccedentRuleInvertible(i, ante, delta, val, n);
      assert forall b | b in branches :: Child(ante, succ, reversed, b) == (b.ante + ante, b.succ + delta);
    } else {
      var gamma := Without(i, ante);
      WithoutDeletesOne(i, ante);
      SameElementsSameTruth([i] + gamma, ante, val);
      assert SequentHolds(ante, succ, val) == SequentHolds([i] + gamma, succ, val);
      AntecedentRuleInvertible(i, gamma, succ, val, n);
      assert forall b | b in branches :: Child(ante, succ, reversed, b) == (b.ante + gamma, b.succ + succ);
    }
  }

  /** A sequent of atoms with nothing in common is falsified by making the
      antecedent's atoms true and every other formula false. */
  lemma AtomsCounterexample(ante: seq<Formula>, succ: seq<Formula>)
    requires AllAtoms(ante) && AllAtoms(succ)
    requires forall f | f in succ :: f !in ante
    ensures !Tautology(ante, succ)
  {
    var val := (f: Formula) => f in ante;
    assert forall f | f in ante :: Holds(f, val);
    assert forall f | f in succ :: !Holds(f, val);
    assert !SequentHolds(ante, succ, val);
  }

  /** A propositional step is invertible: the sequent is a tautology
      exactly when every branch leads to one. */
  lemma ChildrenDecide(ante: seq<Formula>, succ: seq<Formula>, reversed: bool, i: Formula, n: nat)
    requires i in Side(ante, succ, reversed) && Propositional(i)
    ensures ChildrenFrom(ante, succ, reversed, Branches(i, reversed, n), 0) <==> Tautology(ante, succ)
  {
    var branches := Branches(i, reversed, n);
    if ChildrenFrom(ante, succ, reversed, branches, 0) {
      forall val: Formula -> bool
        ensures SequentHolds(ante, succ, val)
      {
        StepInvertible(ante, succ, reversed, i, n, val);
        forall b | b in branches
          ensures SequentHolds(Child(ante, succ, reversed, b).0, Child(ante, succ, reversed, b).1, val)
        {
          var j :| 0 <= j < |branches| && branches[j] == b;
          assert ChildTautology(ante, succ, reversed, branches[j]);
        }
      }
    } else {
      var j :| 0 <= j < |branches| && !ChildTautology(ante, succ, reversed, branches[j]);
      var val :| !SequentHolds(Child(ante, succ, reversed, branches[j]).0, Child(ante, succ, reversed, branches[j]).1, val);
      assert branches[j] in branches;
      StepInvertible(ante, succ, reversed, i, n, val);
    }
  }

  // ---------------------------------------------------------------------------
  // The theorem
  // ---------------------------------------------------------------------------

  /** `solve__internal(ante, succ, False, ...)` on a propositional sequent:
      `True` only for a tautology and `False` only for a sequent that is
      not one. */
  lemma {:induction false} SolveDecidesPropositional(ante: seq<Formula>, succ: seq<Formula>, n: nat, fuel: nat)
    requires PropositionalSequent(ante, succ)
    ensures var r := Solve(ante, succ, false, n, fuel).0;
            (r == Valid ==> Tautology(ante, succ)) && (r == Invalid ==> !Tautology(ante, succ))
    decreases fuel, 4, 0
  {
    if fuel > 0 {
      ReorderWithoutPending(ante);
      ReorderWithoutPending(succ);
      ContraversialQuantifierFree(ante, succ, n);
      if exists f | f in succ :: f in ante {
        var f :| f in succ && f in ante;
        assert forall val: Formula -> bool :: Holds(f, val) ==> SomeHolds(succ, val);
      } else {
        ScanDecidesPropositional(ante, succ, false, 0, n, fuel);
        ScanStopsAtNonAtom(ante, succ, false, 0, n, fuel);
        var n2 := ScanSide(ante, succ, false, false, 0, n, fuel).1;
        ScanDecidesPropositional(ante, succ, true, 0, n2, fuel);
        ScanStopsAtNonAtom(ante, succ, true, 0, n2, fuel);
        if ScanSide(ante, succ, false, false, 0, n, fuel).0.None? && ScanSide(ante, succ, true, false, 0, n2, fuel).0.None? {
          AtomsCounterexample(ante, succ);
        }
      }
    }
  }

  lemma {:induction false} ScanDecidesPropositional(ante: seq<Formula>, succ: seq<Formula>, reversed: bool, k: nat, n: nat, fuel: nat)
    requires PropositionalSequent(ante, succ) && fuel > 0 && k <= |Side(ante, succ, reversed)|
    ensures var r := ScanSide(ante, succ, reversed, false, k, n, fuel).0;
            (r == Some(Valid) ==> Tautology(ante, succ)) && (r == Some(Invalid) ==> !Tautology(ante, succ))
    decreases fuel, 2, |Side(ante, succ, reversed)| - k
  {
    var side := Side(ante, succ, reversed);
    if k < |side| {
      var i := side[k];
      assert i in side && Proper(i) && QuantifierFree(i);
      if IsAtom(i) {
        assert ScanSide(ante, succ, reversed, false, k, n, fuel) == ScanSide(ante, succ, reversed, false, k + 1, n, fuel);
        ScanDecidesPropositional(ante, succ, reversed, k + 1, n, fuel);
      } else {
        var branches := Branches(i, reversed, n);
        BranchesArePropositional(ante, succ, reversed, i, n);
        BranchesDecidePropositional(ante, succ, reversed, branches, 0, n, fuel);
        var r := TryBranches(ante, succ, reversed, false, branches, 0, n, fuel).0;
        assert ScanSide(ante, succ, reversed, false, k, n, fuel).0 == Some(r);
        ChildrenDecide(ante, succ, reversed, i, n);
      }
    }
  }

  /** `all(map(check, func))` over the branches of a propositional step:
      `True` when every child from `k` on is a tautology, `False` when one
      of them is not. */
  lemma {:induction false} BranchesDecidePropositional(ante: seq<Formula>, succ: seq<Formula>, reversed: bool,
                                                       branches: seq<Branch>, k: nat, n: nat, fuel: nat)
    requires PropositionalSequent(ante, succ) && fuel > 0 && k <= |branches|
    requires PropositionalBranches(ante, succ, reversed, branches)
    ensures var r := TryBranches(ante, succ, reversed, false, branches, k, n, fuel).0;
            (r == Valid ==> ChildrenFrom(ante, succ, reversed, branches, k))
            && (r == Invalid ==> !ChildrenFrom(ante, succ, reversed, branches, k))
    decreases fuel, 1, |branches| - k
  {
    if k < |branches| {
      var b := branches[k];
      assert b in branches;
      ChildDecidesPropositional(ante, succ, reversed, b, n, fuel);
      var (r, n1) := PrepareAndResolve(ante, succ, reversed, false, b, n, fuel);
      TryBranchesStep(ante, succ, reversed, false, branches, k, n, fuel);
      ChildrenFromStep(ante, succ, reversed, branches, k);
      if r == Valid {
        BranchesDecidePropositional(ante, succ, reversed, branches, k + 1, n1, fuel);
      }
    }
  }

  /** `prepare_and_resolve` on one branch of a propositional step decides
      whether the sequent it leads to is a tautology. */
  lemma {:induction false} ChildDecidesPropositional(ante: seq<Formula>, succ: seq<Formula>, reversed: bool,
                                                     b: Branch, n: nat, fuel: nat)
    requires PropositionalSequent(ante, succ) && b.removed in Side(ante, succ, reversed) && fuel > 0
    requires AllProper(Added(b)) && AllQuantifierFree(Added(b))
    ensures var r := PrepareAndResolve(ante, succ, reversed, false, b, n, fuel).0;
            (r == Valid ==> ChildTautology(ante, succ, reversed, b))
            && (r == Invalid ==> !ChildTautology(ante, succ, reversed, b))
    decreases fuel, 0, 0
  {
    PrepareSearchesChild(ante, succ, reversed, b, n, fuel);
    var (a', s') := Child(ante, succ, reversed, b);
    SolveDecidesPropositional(a', s', n, fuel - 1);
  }

  // ---------------------------------------------------------------------------
  // Enough fuel gives an answer
  // ---------------------------------------------------------------------------

  /** The total size of a sequent, which every propositional step shrinks. */
  function Weight(ante: seq<Formula>, succ: seq<Formula>): nat {
    SumSizes(ante) + SumSizes(succ)
  }

  lemma {:induction false} SumSizesAppend(a: seq<Formula>, b: seq<Formula>)
    ensures SumSizes(a + b) == SumSizes(a) + SumSizes(b)
  {
    if a != [] {
      assert (a + b)[0] == a[0] && (a + b)[1..] == a[1..] + b;
      SumSizesAppend(a[1..], b);
    } else {
      assert a + b == b;
    }
  }

  /** Taking one copy of `x` off a side takes exactly its size off. */
  lemma {:induction false} SumSizesWithout(x: Formula, s: seq<Formula>)
    requires x in s
    ensures SumSizes(Without(x, s)) + Size(x) == SumSizes(s)
  {
    if s[0] != x {
      SumSizesWithout(x, s[1..]);
      var w := [s[0]] + Without(x, s[1..]);
      assert w[0] == s[0] && w[1..] == Without(x, s[1..]);
    }
  }

  /** Every branch leads to a lighter sequent. */
  predicate LighterBranches(ante: seq<Formula>, succ: seq<Formula>, reversed: bool, branches: seq<Branch>) {
    forall b | b in branches ::
      Weight(Child(ante, succ, reversed, b).0, Child(ante, succ, reversed, b).1) < Weight(ante, succ)
  }

  lemma BranchesAreLighter(ante: seq<Formula>, succ: seq<Formula>, reversed: bool, i: Formula, n: nat)
    requires i in Side(ante, succ, reversed) && Propositional(i)
    ensures LighterBranches(ante, succ, reversed, Branches(i, reversed, n))
  {
    AntecedentRuleShrinks(i, n);
    SuccedentRuleShrinks(i, n);
    SumSizesWithout(i, Side(ante, succ, reversed));
    forall b | b in Branches(i, reversed, n)
      ensures Weight(Child(ante, succ, reversed, b).0, Child(ante, succ, reversed, b).1) < Weight(ante, succ)
    {
      assert b.removed == i;
      SumSizesAppend(b.ante, b.succ);
      if reversed {
        SumSizesAppend(b.ante, ante);
        SumSizesAppend(b.succ, Without(i, succ));
      } else {
        SumSizesAppend(b.ante, Without(i, ante));
        SumSizesAppend(b.succ, succ);
      }
    }
  }

  /** With more fuel than the sequent weighs, a propositional search never
      runs out of fuel. */
  lemma {:induction false} SolveTerminatesPropositional(ante: seq<Formula>, succ: seq<Formula>, n: nat, fuel: nat)
    requires PropositionalSequent(ante, succ) && fuel > Weight(ante, succ)
    ensures Solve(ante, succ, false, n, fuel).0 != OutOfFuel
    decreases fuel, 4, 0
  {
    ReorderWithoutPending(ante);
    ReorderWithoutPending(succ);
    var n1 := Contraversial(ante, succ, n).1;
    ScanTerminatesPropositional(ante, succ, false, 0, n1, fuel);
    var n2 := ScanSide(ante, succ, false, false, 0, n1, fuel).1;
    ScanTerminatesPropositional(ante, succ, true, 0, n2, fuel);
  }

  lemma {:induction false} ScanTerminatesPropositional(ante: seq<Formula>, succ: seq<Formula>, reversed: bool, k: nat, n: nat, fuel: nat)
    requires PropositionalSequent(ante, succ) && fuel > Weight(ante, succ) && k <= |Side(ante, succ, reversed)|
    ensures ScanSide(ante, succ, reversed, false, k, n, fuel).0 != Some(OutOfFuel)
    decreases fuel, 2, |Side(ante, succ, reversed)| - k
  {
    var side := Side(ante, succ, reversed);
    if k < |side| {
      var i := side[k];
      assert i in side && Proper(i) && QuantifierFree(i);
      if IsAtom(i) {
        assert ScanSide(ante, succ, reversed, false, k, n, fuel) == ScanSide(ante, succ, reversed, false, k + 1, n, fuel);
        ScanTerminatesPropositional(ante, succ, reversed, k + 1, n, fuel);
      } else {
        var branches := Branches(i, reversed, n);
        BranchesArePropositional(ante, succ, reversed, i, n);
        BranchesAreLighter(ante, succ, reversed, i, n);
        BranchesTerminatePropositional(ante, succ, reversed, branches, 0, n, fuel);
        var r := TryBranches(ante, succ, reversed, false, branches, 0, n, fuel).0;
        assert ScanSide(ante, succ, reversed, false, k, n, fuel).0 == Some(r);
      }
    }
  }

  lemma {:induction false} BranchesTerminatePropositional(ante: seq<Formula>, succ: seq<Formula>, reversed: bool,
                                                          branches: seq<Branch>, k: nat, n: nat, fuel: nat)
    requires PropositionalSequent(ante, succ) && fuel > Weight(ante, succ) && k <= |branches|
    requires PropositionalBranches(ante, succ, reversed, branches)
    requires LighterBranches(ante, succ, reversed, branches)
    ensures TryBranches(ante, succ, reversed, false, branches, k, n, fuel).0 != OutOfFuel
    decreases fuel, 1, |branches| - k
  {
    if k < |branches| {
      var b := branches[k];
      assert b in branches;
      ChildTerminatesPropositional(ante, succ, reversed, b, n, fuel);
      var (r, n1) := PrepareAndResolve(ante, succ, reversed, false, b, n, fuel);
      TryBranchesStep(ante, succ, reversed, false, branches, k, n, fuel);
      if r == Valid {
        BranchesTerminatePropositional(ante, succ, reversed, branches, k + 1, n1, fuel);
      }
    }
  }

  lemma {:induction false} ChildTerminatesPropositional(ante: seq<Formula>, succ: seq<Formula>, reversed: bool,
                                                        b: Branch, n: nat, fuel: nat)
    requires PropositionalSequent(ante, succ) && b.removed in Side(ante, succ, reversed)
    requires AllProper(Added(b)) && AllQuantifierFree(Added(b)) && fuel > Weight(ante, succ)
    requires Weight(Child(ante, succ, reversed, b).0, Child(ante, succ, reversed, b).1) < Weight(ante, succ)
    ensures PrepareAndResolve(ante, succ, reversed, false, b, n, fuel).0 != OutOfFuel
    decreases fuel, 0, 0
  {
    PrepareSearchesChild(ante, succ, reversed, b, n, fuel);
    var (a', s') := Child(ante, succ, reversed, b);
    SolveTerminatesPropositional(a', s', n, fuel - 1);
  }

  /** The search decides propositional logic: with more fuel than the
      sequent weighs, it answers `Valid` for a tautology and `Invalid` for
      any other sequent. */
  lemma PropositionalDecided(ante: seq<Formula>, succ: seq<Formula>, n: nat, fuel: nat)
    requires PropositionalSequent(ante, succ) && fuel > Weight(ante, succ)
    ensures Solve(ante, succ, false, n, fuel).0 == if Tautology(ante, succ) then Valid else Invalid
  {
    SolveTerminatesPropositional(ante, succ, n, fuel);
    SolveDecidesPropositional(ante, succ, n, fuel);
  }
}
