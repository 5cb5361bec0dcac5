/** What the search of solver.py promises, proved about the specification
    functions of module Search:

    - the axiom check answers first (solver.py:22-23);
    - the last `return True` of `solve__internal` (solver.py:36) is never
      reached: a scan comes back empty only over atoms or with the flag
      `exists_mode` set;
    - more fuel never changes an answer that was reached;
    - the counter never goes back, so fresh names are never reused;
    - on quantifier-free sequents every answer reached is right, and with
      more fuel than the sequent's total size an answer is always reached,
      so `Valid` comes exactly for the tautologies (module Decision). */
module SearchProperties {
  import opened Wrappers
  import opened Formulas
  import opened Names
  import opened Substitutions
  import opened Equality
  import opened Rules
  import opened Witnesses
  import opened Search

  // ---------------------------------------------------------------------------
  // The axiom check and the stuck sequent
  // ---------------------------------------------------------------------------

  /** A formula on both sides makes the sequent valid at once, whatever the
      flag and the counter. */
  lemma AxiomShortcut(ante: seq<Formula>, succ: seq<Formula>, existsMode: bool, f: Formula, n: nat, fuel: nat)
    requires SequentOk(ante, succ) && fuel > 0
    requires f in ante && f in succ
    ensures Solve(ante, succ, existsMode, n, fuel).0 == Valid
  {
    ReorderPermutes(ante);
    ReorderPermutes(succ);
    ContraversialFindsShared(Reorder(ante), Reorder(succ), f, n);
  }

  /** A scan without the flag decides at the first formula that is not an
      atom: it comes back empty only when the rest of the side is atoms. */
  lemma {:induction false} ScanStopsAtNonAtom(ante: seq<Formula>, succ: seq<Formula>, reversed: bool, k: nat, n: nat, fuel: nat)
    requires SequentOk(ante, succ) && fuel > 0 && k <= |Side(ante, succ, reversed)|
    ensures var side := Side(ante, succ, reversed);
            ScanSide(ante, succ, reversed, false, k, n, fuel).0.None? ==> forall j | k <= j < |side| :: IsAtom(side[j])
    decreases |Side(ante, succ, reversed)| - k
  {
    var side := Side(ante, succ, reversed);
    if k < |side| && IsAtom(side[k]) {
      ScanStopsAtNonAtom(ante, succ, reversed, k + 1, n, fuel);
    }
  }

  /** Over atoms a scan passes everything by and leaves the counter alone. */
  lemma {:induction false} ScanSkipsAtoms(ante: seq<Formula>, succ: seq<Formula>, reversed: bool, existsMode: bool, k: nat, n: nat, fuel: nat)
    requires SequentOk(ante, succ) && fuel > 0 && k <= |Side(ante, succ, reversed)|
    requires AllAtoms(Side(ante, succ, reversed))
    ensures ScanSide(ante, succ, reversed, existsMode, k, n, fuel) == (None, n)
    decreases |Side(ante, succ, reversed)| - k
  {
    var side := Side(ante, succ, reversed);
    if k < |side| {
      assert side[k] in side;
      ScanSkipsAtoms(ante, succ, reversed, existsMode, k + 1, n, fuel);
    }
  }

  /** The final `else: return True` of `solve__internal` is dead: when both
      scans come back empty the answer is `Invalid`.  Without the flag an
      empty scan means atoms only; with it the flag itself answers. */
  lemma StuckIsInvalid(ante: seq<Formula>, succ: seq<Formula>, existsMode: bool, n: nat, n': nat, fuel: nat)
    requires SequentOk(ante, succ) && fuel > 0
    ensures CheckSide(ante, succ, false, existsMode, n, fuel).0.None? &&
            CheckSide(ante, succ, true, existsMode, n', fuel).0.None?
            ==> existsMode || AllAtoms(ante + succ)
  {
    if !existsMode {
      ScanStopsAtNonAtom(ante, succ, false, 0, n, fuel);
      ScanStopsAtNonAtom(ante, succ, true, 0, n', fuel);
      assert forall f | f in ante + succ :: f in ante || f in succ;
    }
  }

  /** A sequent of atoms with nothing in common is not valid, whatever the
      flag, and deciding so does not touch the counter. */
  lemma AtomsAloneAreInvalid(ante: seq<Formula>, succ: seq<Formula>, existsMode: bool, n: nat, fuel: nat)
    requires SequentOk(ante, succ) && fuel > 0
    requires AllAtoms(ante) && AllAtoms(succ)
    requires forall f | f in succ :: QuantifierFree(f) && f !in ante
    ensures Solve(ante, succ, existsMode, n, fuel) == (Invalid, n)
  {
    ReorderWithoutPending(ante);
    ReorderWithoutPending(succ);
    ContraversialQuantifierFree(ante, succ, n);
    ScanSkipsAtoms(ante, succ, false, existsMode, 0, n, fuel);
    ScanSkipsAtoms(ante, succ, true, existsMode, 0, n, fuel);
    assert forall f | f in ante + succ :: f in ante || f in succ;
  }

  // ---------------------------------------------------------------------------
  // Fuel
  // ---------------------------------------------------------------------------

  /** One more unit of fuel leaves every reached answer, and the counter
      with it, as it was: fuel only cuts the search off. */
  lemma {:induction false} SolveFuelMonotone(ante: seq<Formula>, succ: seq<Formula>, existsMode: bool, n: nat, fuel: nat)
    requires SequentOk(ante, succ)
    ensures Solve(ante, succ, existsMode, n, fuel).0 != OutOfFuel
            ==> Solve(ante, succ, existsMode, n, fuel + 1) == Solve(ante, succ, existsMode, n, fuel)
    decreases fuel, 4, 0
  {
    if fuel > 0 {
      ReorderPermutes(ante);
      ReorderPermutes(succ);
      var ante', succ' := Reorder(ante), Reorder(succ);
      var n1 := Contraversial(ante', succ', n).1;
      ScanFuelMonotone(ante', succ', false, existsMode, 0, n1, fuel);
      var n2 := ScanSide(ante', succ', false, existsMode, 0, n1, fuel).1;
      ScanFuelMonotone(ante', succ', true, existsMode, 0, n2, fuel);
    }
  }

  lemma {:induction false} ScanFuelMonotone(ante: seq<Formula>, succ: seq<Formula>, reversed: bool, existsMode: bool,
                                            k: nat, n: nat, fuel: nat)
    requires SequentOk(ante, succ) && fuel > 0 && k <= |Side(ante, succ, reversed)|
    ensures ScanSide(ante, succ, reversed, existsMode, k, n, fuel).0 != Some(OutOfFuel)
            ==> ScanSide(ante, succ, reversed, existsMode, k, n, fuel + 1) == ScanSide(ante, succ, reversed, existsMode, k, n, fuel)
    decreases fuel, 2, |Side(ante, succ, reversed)| - k
  {
    var side := Side(ante, succ, reversed);
    if k < |side| {
      var i := side[k];
      assert i in side;
      if i.Substitution? {
        var cands := Candidates(ante + succ);
        forall t | t in cands
          ensures IsTerm(t) && WellFormed(t)
        {
          CandidatesWellFormed(ante + succ, t);
        }
        CandidatesFuelMonotone(ante, succ, reversed, existsMode, i, cands, 0, n, fuel);
      } else if IsAtom(i) {
        ScanFuelMonotone(ante, succ, reversed, existsMode, k + 1, n, fuel);
      } else {
        AntecedentRuleKeepsProper(i, n);
        SuccedentRuleKeepsProper(i, n);
        var (branches, n1) := if reversed then IntroduceToSuccedent(i, n) else IntroduceToAntecedent(i, n);
        BranchesFuelMonotone(ante, succ, reversed, existsMode, branches, 0, n1, fuel);
        var n2 := TryBranches(ante, succ, reversed, existsMode, branches, 0, n1, fuel).1;
        ScanFuelMonotone(ante, succ, reversed, existsMode, k + 1, n2, fuel);
      }
    }
  }

  lemma {:induction false} BranchesFuelMonotone(ante: seq<Formula>, succ: seq<Formula>, reversed: bool, existsMode: bool,
                                                branches: seq<Branch>, k: nat, n: nat, fuel: nat)
    requires SequentOk(ante, succ) && fuel > 0 && k <= |branches|
    requires forall b | b in branches :: AllProper(Added(b))
    ensures TryBranches(ante, succ, reversed, existsMode, branches, k, n, fuel).0 != OutOfFuel
            ==> TryBranches(ante, succ, reversed, existsMode, branches, k, n, fuel + 1)
                == TryBranches(ante, succ, reversed, existsMode, branches, k, n, fuel)
    decreases fuel, 1, |branches| - k
  {
    if k < |branches| {
      assert branches[k] in branches;
      var (ante', succ', n1) := Decompose(ante, succ, reversed, branches[k], n);
      SolveFuelMonotone(ante', succ', existsMode, n1, fuel - 1);
      var n2 := Solve(ante', succ', existsMode, n1, fuel - 1).1;
      BranchesFuelMonotone(ante, succ, reversed, existsMode, branches, k + 1, n2, fuel);
    }
  }

  lemma {:induction false} CandidatesFuelMonotone(ante: seq<Formula>, succ: seq<Formula>, reversed: bool, existsMode: bool,
                                                  mask: Formula, cands: seq<Formula>, k: nat, n: nat, fuel: nat)
    requires SequentOk(ante, succ) && fuel > 0 && k <= |cands| + 1
    requires mask.Substitution? && Proper(mask)
    requires forall t | t in cands :: IsTerm(t) && WellFormed(t)
    ensures TryCandidates(ante, succ, reversed, existsMode, mask, cands, k, n, fuel).0 != OutOfFuel
            ==> TryCandidates(ante, succ, reversed, existsMode, mask, cands, k, n, fuel + 1)
                == TryCandidates(ante, succ, reversed, existsMode, mask, cands, k, n, fuel)
    decreases fuel, 1, |cands| + 1 - k
  {
    if k <= |cands| {
      var (j, n1) := Instance(mask, cands, k, n);
      var (ante', succ', n2) := Instantiate(ante, succ, reversed, mask, j, n1);
      SolveFuelMonotone(ante', succ', reversed, n2, fuel - 1);
      var n3 := Solve(ante', succ', reversed, n2, fuel - 1).1;
      CandidatesFuelMonotone(ante, succ, reversed, existsMode, mask, cands, k + 1, n3, fuel);
    }
  }

  /** Any larger budget gives the same answer once one is reached. */
  lemma {:induction false} FuelMonotone(ante: seq<Formula>, succ: seq<Formula>, existsMode: bool, n: nat, fuel: nat, fuel': nat)
    requires SequentOk(ante, succ) && fuel <= fuel'
    requires Solve(ante, succ, existsMode, n, fuel).0 != OutOfFuel
    ensures Solve(ante, succ, existsMode, n, fuel') == Solve(ante, succ, existsMode, n, fuel)
    decreases fuel' - fuel
  {
    if fuel < fuel' {
      SolveFuelMonotone(ante, succ, existsMode, n, fuel);
      FuelMonotone(ante, succ, existsMode, n, fuel + 1, fuel');
    }
  }

  // ---------------------------------------------------------------------------
  // The counter
  // ---------------------------------------------------------------------------

  lemma {:induction false} ContraversialAdvancesCounter(ante: seq<Formula>, succ: seq<Formula>, n: nat)
    ensures Contraversial(ante, succ, n).1 >= n
    decreases |succ|
  {
    if succ != [] {
      InListFinds(succ[0], ante, n);
      FindEqualAdvancesCounter(succ[0], ante, n);
      ContraversialAdvancesCounter(ante, succ[1..], InList(succ[0], ante, n).1);
    }
  }

  /** The counter after the search is never below the counter before it:
      the names minted during the search are all new (Names.FreshInjective). */
  lemma {:induction false} SolveAdvancesCounter(ante: seq<Formula>, succ: seq<Formula>, existsMode: bool, n: nat, fuel: nat)
    requires SequentOk(ante, succ)
    ensures Solve(ante, succ, existsMode, n, fuel).1 >= n
    decreases fuel, 4, 0
  {
    if fuel > 0 {
      ReorderPermutes(ante);
      ReorderPermutes(succ);
      var ante', succ' := Reorder(ante), Reorder(succ);
      ContraversialAdvancesCounter(ante', succ', n);
      var n1 := Contraversial(ante', succ', n).1;
      ScanAdvancesCounter(ante', succ', false, existsMode, 0, n1, fuel);
      var n2 := ScanSide(ante', succ', false, existsMode, 0, n1, fuel).1;
      ScanAdvancesCounter(ante', succ', true, existsMode, 0, n2, fuel);
    }
  }

  lemma {:induction false} ScanAdvancesCounter(ante: seq<Formula>, succ: seq<Formula>, reversed: bool, existsMode: bool,
                                               k: nat, n: nat, fuel: nat)
    requires SequentOk(ante, succ) && fuel > 0 && k <= |Side(ante, succ, reversed)|
    ensures ScanSide(ante, succ, reversed, existsMode, k, n, fuel).1 >= n
    decreases fuel, 2, |Side(ante, succ, reversed)| - k
  {
    var side := Side(ante, succ, reversed);
    if k < |side| {
      var i := side[k];
      assert i in side;
      if i.Substitution? {
        var cands := Candidates(ante + succ);
        forall t | t in cands
          ensures IsTerm(t) && WellFormed(t)
        {
          CandidatesWellFormed(ante + succ, t);
        }
        CandidatesAdvanceCounter(ante, succ, reversed, existsMode, i, cands, 0, n, fuel);
      } else if IsAtom(i) {
        ScanAdvancesCounter(ante, succ, reversed, existsMode, k + 1, n, fuel);
      } else {
        AntecedentRuleKeepsProper(i, n);
        SuccedentRuleKeepsProper(i, n);
        if i.Forall? || i.Exists? {
          QuantifierRulesTick(i, n);
        }
        var (branches, n1) := if reversed then IntroduceToSuccedent(i, n) else IntroduceToAntecedent(i, n);
        BranchesAdvanceCounter(ante, succ, reversed, existsMode, branches, 0, n1, fuel);
        var n2 := TryBranches(ante, succ, reversed, existsMode, branches, 0, n1, fuel).1;
        ScanAdvancesCounter(ante, succ, reversed, existsMode, k + 1, n2, fuel);
      }
    }
  }

  lemma {:induction false} BranchesAdvanceCounter(ante: seq<Formula>, succ: seq<Formula>, reversed: bool, existsMode: bool,
                                                  branches: seq<Branch>, k: nat, n: nat, fuel: nat)
    requires SequentOk(ante, succ) && fuel > 0 && k <= |branches|
    requires forall b | b in branches :: AllProper(Added(b))
    ensures TryBranches(ante, succ, reversed, existsMode, branches, k, n, fuel).1 >= n
    decreases fuel, 1, |branches| - k
  {
    if k < |branches| {
      var b := branches[k];
      assert b in branches;
      FindEqualAdvancesCounter(b.removed, Side(ante, succ, reversed), n);
      var (ante', succ', n1) := Decompose(ante, succ, reversed, b, n);
      SolveAdvancesCounter(ante', succ', existsMode, n1, fuel - 1);
      var n2 := Solve(ante', succ', existsMode, n1, fuel - 1).1;
      BranchesAdvanceCounter(ante, succ, reversed, existsMode, branches, k + 1, n2, fuel);
    }
  }

  lemma {:induction false} CandidatesAdvanceCounter(ante: seq<Formula>, succ: seq<Formula>, reversed: bool, existsMode: bool,
                                                    mask: Formula, cands: seq<Formula>, k: nat, n: nat, fuel: nat)
    requires SequentOk(ante, succ) && fuel > 0 && k <= |cands| + 1
    requires mask.Substitution? && Proper(mask)
    requires forall t | t in cands :: IsTerm(t) && WellFormed(t)
    ensures TryCandidates(ante, succ, reversed, existsMode, mask, cands, k, n, fuel).1 >= n
    decreases fuel, 1, |cands| + 1 - k
  {
    if k <= |cands| {
      if k < |cands| {
        SubstAdvancesCounter(mask.binder, cands[k], mask.body, n);
      } else {
        FallbackRenames(mask, n);
      }
      var (j, n1) := Instance(mask, cands, k, n);
      FindEqualAdvancesCounter(mask, Side(ante, succ, reversed), n1);
      var (ante', succ', n2) := Instantiate(ante, succ, reversed, mask, j, n1);
      SolveAdvancesCounter(ante', succ', reversed, n2, fuel - 1);
      var n3 := Solve(ante', succ', reversed, n2, fuel - 1).1;
      CandidatesAdvanceCounter(ante, succ, reversed, existsMode, mask, cands, k + 1, n3, fuel);
    }
  }

  // ---------------------------------------------------------------------------
  // One step of the loops
  // ---------------------------------------------------------------------------

  /** `all(map(check, func))` goes on past branch `k` only when it is valid. */
  lemma TryBranchesStep(ante: seq<Formula>, succ: seq<Formula>, reversed: bool, existsMode: bool,
                        branches: seq<Branch>, k: nat, n: nat, fuel: nat)
    requires SequentOk(ante, succ) && fuel > 0 && k < |branches|
    requires forall b | b in branches :: AllProper(Added(b))
    ensures branches[k] in branches
    ensures var (r, n1) := PrepareAndResolve(ante, succ, reversed, existsMode, branches[k], n, fuel);
            TryBranches(ante, succ, reversed, existsMode, branches, k, n, fuel)
            == if r == Valid then TryBranches(ante, succ, reversed, existsMode, branches, k + 1, n1, fuel) else (r, n1)
  {
    assert branches[k] in branches;
  }
}
