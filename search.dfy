/** The proof search of solver.py (solver.py:16-99, 156-161) as a family
    of specification functions, one per Python function, with the loops of
    `check_side` and `all(map(check, func))` written as recursion over a
    position.

    The search has no bound in the source.  Here every call of `solve__internal`
    spends one unit of `fuel`; a search that runs out answers `OutOfFuel`,
    and that answer travels straight up to the root.  The global counter is
    threaded as `n`.  Every formula on a side of a sequent is `Proper`; the
    source would crash on a bare term there, and the rules and the
    instantiations never put one there. */
module Search {
  import opened Wrappers
  import opened Formulas
  import opened Names
  import opened Substitutions
  import opened Equality
  import opened Rules
  import opened Witnesses

  /** `True` and `False` of `solve__internal`, and running out of fuel. */
  datatype Outcome = Valid | Invalid | OutOfFuel

  predicate AllProper(s: seq<Formula>) {
    forall f | f in s :: Proper(f)
  }

  /** What the search demands of a sequent: no bare term on either side. */
  predicate SequentOk(ante: seq<Formula>, succ: seq<Formula>) {
    AllProper(ante) && AllProper(succ)
  }

  /** `all(map(has_next, s))` */
  predicate AllAtoms(s: seq<Formula>) {
    forall f | f in s :: IsAtom(f)
  }

  /** `iterable` of `check_side` */
  function Side(ante: seq<Formula>, succ: seq<Formula>, reversed: bool): seq<Formula> {
    if reversed then succ else ante
  }

  // ---------------------------------------------------------------------------
  // solver.py:17-18: pending instantiations go last
  // ---------------------------------------------------------------------------

  /** `[i for i in s if not isinstance(i, Substitution)]` */
  function Settled(s: seq<Formula>): seq<Formula> {
    if s == [] then []
    else (if s[0].Substitution? then [] else [s[0]]) + Settled(s[1..])
  }

  /** `[i for i in s if isinstance(i, Substitution)]` */
  function Pending(s: seq<Formula>): seq<Formula> {
    if s == [] then []
    else (if s[0].Substitution? then [s[0]] else []) + Pending(s[1..])
  }

  function Reorder(s: seq<Formula>): seq<Formula> {
    Settled(s) + Pending(s)
  }

  /** Reordering only moves formulas. */
  lemma {:induction false} ReorderPermutes(s: seq<Formula>)
    ensures multiset(Reorder(s)) == multiset(s)
    ensures forall f :: f in Reorder(s) <==> f in s
  {
    FiltersSplit(s);
    assert forall f :: f in Reorder(s) <==> f in multiset(Reorder(s));
  }

  lemma {:induction false} FiltersSplit(s: seq<Formula>)
    ensures multiset(Settled(s)) + multiset(Pending(s)) == multiset(s)
    decreases |s|
  {
    if s != [] {
      FiltersSplit(s[1..]);
      assert s == [s[0]] + s[1..];
    }
  }

  /** The settled part holds no pending instantiation and the pending part
      nothing else. */
  lemma {:induction false} FiltersSeparate(s: seq<Formula>)
    ensures forall f | f in Settled(s) :: !f.Substitution?
    ensures forall f | f in Pending(s) :: f.Substitution?
    decreases |s|
  {
    if s != [] {
      FiltersSeparate(s[1..]);
    }
  }

  /** After reordering, no formula follows a pending instantiation unless it
      is one too. */
  lemma ReorderPartitions(s: seq<Formula>)
    ensures forall i, j | 0 <= i < j < |Reorder(s)| && Reorder(s)[i].Substitution? :: Reorder(s)[j].Substitution?
  {
    FiltersSeparate(s);
    var a: seq<Formula>, b: seq<Formula> := Settled(s), Pending(s);
    assert forall i | 0 <= i < |a| :: (a + b)[i] == a[i] && a[i] in a;
    assert forall j | |a| <= j < |a + b| :: (a + b)[j] == b[j - |a|] && b[j - |a|] in b;
  }

  /** Both filters keep the original order: each distributes over
      concatenation, so each part lists its formulas as they came. */
  lemma {:induction false} FiltersKeepOrder(s: seq<Formula>, t: seq<Formula>)
    ensures Settled(s + t) == Settled(s) + Settled(t)
    ensures Pending(s + t) == Pending(s) + Pending(t)
    decreases |s|
  {
    if s == [] {
      assert s + t == t;
    } else {
      var st, rest := s + t, s[1..];
      assert st[0] == s[0] && st[1..] == rest + t;
      FiltersKeepOrder(rest, t);
      var h: seq<Formula> := if s[0].Substitution? then [] else [s[0]];
      var p: seq<Formula> := if s[0].Substitution? then [s[0]] else [];
      calc {
        Settled(st);
        h + Settled(rest + t);
        h + (Settled(rest) + Settled(t));
        (h + Settled(rest)) + Settled(t);
        Settled(s) + Settled(t);
      }
      calc {
        Pending(st);
        p + Pending(rest + t);
        p + (Pending(rest) + Pending(t));
        (p + Pending(rest)) + Pending(t);
        Pending(s) + Pending(t);
      }
    }
  }

  /** A side with no pending instantiation is left as it is. */
  lemma {:induction false} ReorderWithoutPending(s: seq<Formula>)
    requires forall f | f in s :: !f.Substitution?
    ensures Settled(s) == s && Pending(s) == []
    ensures Reorder(s) == s
    decreases |s|
  {
    if s != [] {
      ReorderWithoutPending(s[1..]);
      assert s == [s[0]] + s[1..];
    }
  }

  /** A side with only pending instantiations is left as it is. */
  lemma {:induction false} ReorderOnlyPending(s: seq<Formula>)
    requires forall f | f in s :: f.Substitution?
    ensures Settled(s) == [] && Pending(s) == s
    decreases |s|
  {
    if s != [] {
      ReorderOnlyPending(s[1..]);
      assert s == [s[0]] + s[1..];
    }
  }

  /** Reordering twice is reordering once. */
  lemma ReorderIdempotent(s: seq<Formula>)
    ensures Reorder(Reorder(s)) == Reorder(s)
  {
    var a, b := Settled(s), Pending(s);
    FiltersSeparate(s);
    ReorderWithoutPending(a);
    ReorderOnlyPending(b);
    FiltersKeepOrder(a, b);
    assert a + [] == a && [] + b == b;
    assert Settled(a + b) == a && Pending(a + b) == b;
  }

  // ---------------------------------------------------------------------------
  // solver.py:160-161: the axiom check
  // ---------------------------------------------------------------------------

  /** `any(map(lambda x: x in antecedent, succedent))`, which stops at the
      first succedent formula found in the antecedent. */
  function Contraversial(ante: seq<Formula>, succ: seq<Formula>, n: nat): (bool, nat)
    decreases |succ|
  {
    if succ == [] then (false, n)
    else
      var (found, n1) := InList(succ[0], ante, n);
      if found then (true, n1) else Contraversial(ante, succ[1..], n1)
  }

  /** A formula on both sides is always noticed. */
  lemma {:induction false} ContraversialFindsShared(ante: seq<Formula>, succ: seq<Formula>, f: Formula, n: nat)
    requires f in ante && f in succ
    ensures Contraversial(ante, succ, n).0
    decreases |succ|
  {
    if succ[0] == f {
      InListHolds(f, ante, n);
    } else {
      var (found, n1) := InList(succ[0], ante, n);
      if !found {
        ContraversialFindsShared(ante, succ[1..], f, n1);
      }
    }
  }

  /** With a quantifier-free succedent the check is plain membership and
      leaves the counter alone. */
  lemma {:induction false} ContraversialQuantifierFree(ante: seq<Formula>, succ: seq<Formula>, n: nat)
    requires forall f | f in succ :: QuantifierFree(f)
    ensures Contraversial(ante, succ, n) == ((exists f | f in succ :: f in ante), n)
    decreases |succ|
  {
    if succ != [] {
      InListFinds(succ[0], ante, n);
      FindEqualIsFirst(succ[0], ante, n);
      assert succ[0] in succ;
      assert forall f | f in succ[1..] :: f in succ;
      ContraversialQuantifierFree(ante, succ[1..], n);
      assert forall f | f in succ :: f == succ[0] || f in succ[1..] by {
        assert succ == [succ[0]] + succ[1..];
      }
    }
  }

  /** The check asks each antecedent formula whether it equals the
      succedent one, so its answer follows that orientation: `forall x.
      P(x, y) |- forall y. P(y, y)` is an axiom, the mirror sequent is not. */
  lemma AxiomCheckIsOriented()
    ensures var a := Forall("x", Atom("P", [Var("x"), Var("y")]), false);
            var b := Forall("y", Atom("P", [Var("y"), Var("y")]), false);
            Contraversial([a], [b], 0).0 && !Contraversial([b], [a], 0).0
  {
    var a := Forall("x", Atom("P", [Var("x"), Var("y")]), false);
    var b := Forall("y", Atom("P", [Var("y"), Var("y")]), false);
    EqNotSymmetric();
    assert [a][1..] == [] && [b][1..] == [];
    assert InList(b, [a], 0) == (true, Eq(a, b, 0).1);
    assert !InList(a, [b], 0).0;
  }

  // ---------------------------------------------------------------------------
  // The successor sequents
  // ---------------------------------------------------------------------------

  /** solver.py:86-97: the sides `prepare_and_resolve` hands on, with the
      removed formula taken off its own side and the branch's formulas put
      in front. */
  function Decompose(ante: seq<Formula>, succ: seq<Formula>, reversed: bool, b: Branch, n: nat)
    : (r: (seq<Formula>, seq<Formula>, nat))
    requires SequentOk(ante, succ) && AllProper(Added(b))
    ensures SequentOk(r.0, r.1)
  {
    var (rest, n1) := RemoveFirst(b.removed, Side(ante, succ, reversed), n);
    RemoveFirstKeeps(b.removed, Side(ante, succ, reversed), n);
    assert forall g | g in b.ante :: g in Added(b);
    assert forall g | g in b.succ :: g in Added(b);
    if reversed then (b.ante + ante, b.succ + rest, n1)
    else (b.ante + rest, b.succ + succ, n1)
  }

  /** solver.py:50-58: the sides for the instance `j` of the pending
      instantiation `mask`, which goes in place of `mask` at the front of
      its side. */
  function Instantiate(ante: seq<Formula>, succ: seq<Formula>, reversed: bool, mask: Formula, j: Formula, n: nat)
    : (r: (seq<Formula>, seq<Formula>, nat))
    requires SequentOk(ante, succ) && Proper(j)
    ensures SequentOk(r.0, r.1)
  {
    var (rest, n1) := RemoveFirst(mask, Side(ante, succ, reversed), n);
    RemoveFirstKeeps(mask, Side(ante, succ, reversed), n);
    if reversed then (ante, [j] + rest, n1) else ([j] + rest, succ, n1)
  }

  /** The `k`-th value of `enumerate_available_substitutions(mask, ...)`:
      the instance for the `k`-th candidate term, and after the last one the
      fallback with a fresh name. */
  function Instance(mask: Formula, cands: seq<Formula>, k: nat, n: nat): (r: (Formula, nat))
    requires mask.Substitution? && Proper(mask) && k <= |cands|
    requires forall t | t in cands :: IsTerm(t) && WellFormed(t)
    ensures Proper(r.0)
  {
    if k < |cands| then
      assert cands[k] in cands;
      SubstKeepsWellFormed(mask.binder, cands[k], mask.body, n);
      Subst(mask.binder, cands[k], mask.body, n)
    else
      CopyKeepsWellFormed(mask.body);
      SubstKeepsWellFormed(mask.binder, Var(Fresh(Family(mask.binder), n + 1)), Copy(mask.body), n + 1);
      Fallback(mask, n)
  }

  // ---------------------------------------------------------------------------
  // The search
  // ---------------------------------------------------------------------------

  /** `solve__internal(ante0, succ0, existsMode, depth)` */
  function Solve(ante0: seq<Formula>, succ0: seq<Formula>, existsMode: bool, n: nat, fuel: nat): (Outcome, nat)
    requires SequentOk(ante0, succ0)
    decreases fuel, 4, 0
  {
    if fuel == 0 then (OutOfFuel, n)
    else
      ReorderPermutes(ante0);
      ReorderPermutes(succ0);
      var ante, succ := Reorder(ante0), Reorder(succ0);
      var (axiom, n1) := Contraversial(ante, succ, n);
      if axiom then (Valid, n1)
      else
        var (left, mode1, n2) := CheckSide(ante, succ, false, existsMode, n1, fuel);
        if left.Some? then (left.value, n2)
        else
          var (right, mode2, n3) := CheckSide(ante, succ, true, mode1, n2, fuel);
          if right.Some? then (right.value, n3)
          else if mode2 || AllAtoms(ante + succ) then (Invalid, n3)
          else (Valid, n3)
  }

  /** `check_side`: the verdict of the first formula of the side that
      decides, or `None`; the flag comes back as it went in. */
  function CheckSide(ante: seq<Formula>, succ: seq<Formula>, reversed: bool, existsMode: bool, n: nat, fuel: nat)
    : (r: (Option<Outcome>, bool, nat))
    requires SequentOk(ante, succ) && fuel > 0
    ensures r.1 == existsMode
    decreases fuel, 3, 0
  {
    var (verdict, n1) := ScanSide(ante, succ, reversed, existsMode, 0, n, fuel);
    (verdict, existsMode, n1)
  }

  /** The `for i in iterable` loop of `check_side`, from position `k` on. */
  function ScanSide(ante: seq<Formula>, succ: seq<Formula>, reversed: bool, existsMode: bool, k: nat, n: nat, fuel: nat)
    : (Option<Outcome>, nat)
    requires SequentOk(ante, succ) && fuel > 0 && k <= |Side(ante, succ, reversed)|
    decreases fuel, 2, |Side(ante, succ, reversed)| - k
  {
    var side := Side(ante, succ, reversed);
    if k == |side| then (None, n)
    else
      var i := side[k];
      assert i in side;
      if i.Substitution? then
        var (verdict, n1) := Enumerate(ante, succ, reversed, existsMode, i, n, fuel);
        (Some(verdict), n1)
      else if IsAtom(i) then ScanSide(ante, succ, reversed, existsMode, k + 1, n, fuel)
      else
        AntecedentRuleKeepsProper(i, n);
        SuccedentRuleKeepsProper(i, n);
        var (branches, n1) := if reversed then IntroduceToSuccedent(i, n) else IntroduceToAntecedent(i, n);
        var (valid, n2) := TryBranches(ante, succ, reversed, existsMode, branches, 0, n1, fuel);
        if valid == OutOfFuel then (Some(OutOfFuel), n2)
        else if !existsMode && valid == Invalid then (Some(Invalid), n2)
        else if valid == Valid then (Some(Valid), n2)
        else ScanSide(ante, succ, reversed, existsMode, k + 1, n2, fuel)
  }

  /** `all(map(check, func))` from branch `k` on: the first branch that is
      not valid ends it. */
  function TryBranches(ante: seq<Formula>, succ: seq<Formula>, reversed: bool, existsMode: bool,
                       branches: seq<Branch>, k: nat, n: nat, fuel: nat): (Outcome, nat)
    requires SequentOk(ante, succ) && fuel > 0 && k <= |branches|
    requires forall b | b in branches :: AllProper(Added(b))
    decreases fuel, 1, |branches| - k
  {
    if k == |branches| then (Valid, n)
    else
      assert branches[k] in branches;
      var (r, n1) := PrepareAndResolve(ante, succ, reversed, existsMode, branches[k], n, fuel);
      if r == Valid then TryBranches(ante, succ, reversed, existsMode, branches, k + 1, n1, fuel)
      else (r, n1)
  }

  /** `prepare_and_resolve` */
  function PrepareAndResolve(ante: seq<Formula>, succ: seq<Formula>, reversed: bool, existsMode: bool,
                             b: Branch, n: nat, fuel: nat): (Outcome, nat)
    requires SequentOk(ante, succ) && fuel > 0 && AllProper(Added(b))
    decreases fuel, 0, 0
  {
    var (ante', succ', n1) := Decompose(ante, succ, reversed, b, n);
    Solve(ante', succ', existsMode, n1, fuel - 1)
  }

  /** The loop over `enumerate_available_substitutions(mask, ante + succ)`:
      the candidates are the terms of the whole sequent, each of them a
      well-formed term. */
  function Enumerate(ante: seq<Formula>, succ: seq<Formula>, reversed: bool, existsMode: bool,
                     mask: Formula, n: nat, fuel: nat): (Outcome, nat)
    requires SequentOk(ante, succ) && fuel > 0
    requires mask.Substitution? && Proper(mask)
    decreases fuel, 2, 0
  {
    var cands := Candidates(ante + succ);
    assert forall t | t in cands :: IsTerm(t) && WellFormed(t) by {
      forall t | t in cands
        ensures IsTerm(t) && WellFormed(t)
      {
        CandidatesWellFormed(ante + succ, t);
      }
    }
    TryCandidates(ante, succ, reversed, existsMode, mask, cands, 0, n, fuel)
  }

  /** The `for j in enumerate_available_substitutions(...)` loop of
      `check_side` from the `k`-th instance on.  The successors are searched
      with `existsMode` set to `reversed`. */
  function TryCandidates(ante: seq<Formula>, succ: seq<Formula>, reversed: bool, existsMode: bool,
                         mask: Formula, cands: seq<Formula>, k: nat, n: nat, fuel: nat): (Outcome, nat)
    requires SequentOk(ante, succ) && fuel > 0 && k <= |cands| + 1
    requires mask.Substitution? && Proper(mask)
    requires forall t | t in cands :: IsTerm(t) && WellFormed(t)
    decreases fuel, 1, |cands| + 1 - k
  {
    if k == |cands| + 1 then (if reversed then Invalid else Valid, n)
    else
      var (r, n3) := Attempt(ante, succ, reversed, mask, cands, k, n, fuel);
      if r == OutOfFuel then (OutOfFuel, n3)
      else if reversed && r == Valid then (Valid, n3)
      else if !reversed && !existsMode && r == Invalid then (Invalid, n3)
      else if !reversed && existsMode && r == Valid then (Valid, n3)
      else TryCandidates(ante, succ, reversed, existsMode, mask, cands, k + 1, n3, fuel)
  }

  /** One pass of that loop: the search of the sequent with the `k`-th
      instance in place of `mask`, with `existsMode` set to `reversed`. */
  function Attempt(ante: seq<Formula>, succ: seq<Formula>, reversed: bool,
                   mask: Formula, cands: seq<Formula>, k: nat, n: nat, fuel: nat): (Outcome, nat)
    requires SequentOk(ante, succ) && fuel > 0 && k <= |cands|
    requires mask.Substitution? && Proper(mask)
    requires forall t | t in cands :: IsTerm(t) && WellFormed(t)
    decreases fuel, 0, 0
  {
    var (j, n1) := Instance(mask, cands, k, n);
    var (ante', succ', n2) := Instantiate(ante, succ, reversed, mask, j, n1);
    Solve(ante', succ', reversed, n2, fuel - 1)
  }
}
