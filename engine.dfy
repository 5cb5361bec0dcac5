/** The solver as the source writes it: `solve__internal`, `check_side` and
    `prepare_and_resolve` (solver.py:16-99), the quantifier rules that bump
    the counter (ast.py:178-190, 212-224), and `list.remove` on the copied
    sides.  Loops, copies and early returns are kept; each method is proved
    to compute what the specification function of the same name in module
    Search (or Rules, or Equality) says, so every property proved there
    holds of these methods too.  The counter goes in as `index` and comes
    out as `index'`. */
module Engine {
  import opened Wrappers
  import opened Formulas
  import opened Names
  import opened Substitutions
  import opened Equality
  import R = Rules
  import opened Witnesses
  import S = Search

  // ---------------------------------------------------------------------------
  // list.remove
  // ---------------------------------------------------------------------------

  /** A position found in a suffix, read as a position in the whole list. */
  function Shifted(r: (Option<nat>, nat), k: nat): (Option<nat>, nat) {
    (if r.0.Some? then Some(r.0.value + k) else None, r.1)
  }

  /** One comparison of the scan: the search of the suffix from `k` either
      stops at `k` or goes on in the suffix from `k + 1`. */
  lemma FindEqualStep(x: Formula, s: seq<Formula>, k: nat, c: nat)
    requires k < |s|
    ensures var (e, c1) := Eq(s[k], x, c);
            Shifted(FindEqual(x, s[k..], c), k)
            == if e then (Some(k), c1) else Shifted(FindEqual(x, s[k + 1..], c1), k + 1)
  {
    assert s[k..][0] == s[k] && s[k..][1..] == s[k + 1..];
  }

  /** `s.remove(x)` on a copy of `s`: the first element equal to `x` goes;
      each element is asked whether it equals `x`, and every
      comparison made on the way can move the counter. */
  method Remove(s: seq<Formula>, x: Formula, index: nat) returns (s': seq<Formula>, index': nat)
    ensures (s', index') == RemoveFirst(x, s, index)
  {
    index' := index;
    var k := 0;
    assert s[0..] == s;
    while k < |s|
      invariant 0 <= k <= |s|
      invariant FindEqual(x, s, index) == Shifted(FindEqual(x, s[k..], index'), k)
      decreases |s| - k
    {
      var (e, i1) := Eq(s[k], x, index');
      FindEqualStep(x, s, k, index');
      if e {
        s', index' := s[..k] + s[k + 1..], i1;
        return;
      }
      index', k := i1, k + 1;
    }
    s' := s;
  }

  // ---------------------------------------------------------------------------
  // The rules that change the counter
  // ---------------------------------------------------------------------------

  /** `introduce_to_antecedent`: the quantifiers bump the counter first and
      then build their branch; the connectives only build theirs. */
  method IntroduceToAntecedent(f: Formula, index: nat) returns (branches: seq<R.Branch>, index': nat)
    requires IsDecomposable(f)
    ensures (branches, index') == R.IntroduceToAntecedent(f, index)
  {
    match f {
      case Forall(v, body, doubled) =>
        index' := index + 1;
        if !doubled {
          var again := Forall(v, body, true);
          branches := [R.Branch(f, [again, again], [])];
        } else {
          var name := Fresh("_v", index');
          var body';
          body', index' := Substitute(v, Var(name), body, index');
          branches := [R.Branch(f, [Substitution(name, body', ForallKind)], [])];
        }
      case Exists(v, body, _) =>
        index' := index + 1;
        var body';
        body', index' := Substitute(v, Var(Fresh("_c", index')), body, index');
        branches := [R.Branch(f, [body'], [])];
      case Negation(_) =>
        branches, index' := R.IntroduceToAntecedent(f, index).0, index;
      case Implication(_, _) =>
        branches, index' := R.IntroduceToAntecedent(f, index).0, index;
      case Disjunction(_, _) =>
        branches, index' := R.IntroduceToAntecedent(f, index).0, index;
      case Conjunction(_, _) =>
        branches, index' := R.IntroduceToAntecedent(f, index).0, index;
    }
  }

  /** `introduce_to_succedent`, the mirror image. */
  method IntroduceToSuccedent(f: Formula, index: nat) returns (branches: seq<R.Branch>, index': nat)
    requires IsDecomposable(f)
    ensures (branches, index') == R.IntroduceToSuccedent(f, index)
  {
    match f {
      case Forall(v, body, _) =>
        index' := index + 1;
        var body';
        body', index' := Substitute(v, Var(Fresh("_c", index')), body, index');
        branches := [R.Branch(f, [], [body'])];
      case Exists(v, body, doubled) =>
        index' := index + 1;
        if !doubled {
          var again := Exists(v, body, true);
          branches := [R.Branch(f, [], [again, again])];
        } else {
          var name := Fresh("_v", index');
          var body';
          body', index' := Substitute(v, Var(name), body, index');
          branches := [R.Branch(f, [], [Substitution(name, body', ExistsKind)])];
        }
      case Negation(_) =>
        branches, index' := R.IntroduceToSuccedent(f, index).0, index;
      case Implication(_, _) =>
        branches, index' := R.IntroduceToSuccedent(f, index).0, index;
      case Disjunction(_, _) =>
        branches, index' := R.IntroduceToSuccedent(f, index).0, index;
      case Conjunction(_, _) =>
        branches, index' := R.IntroduceToSuccedent(f, index).0, index;
    }
  }

  // ---------------------------------------------------------------------------
  // The solver
  // ---------------------------------------------------------------------------

  /** `solve__internal(ante0, succ0, existsMode, depth)` with `fuel` calls
      left. */
  method Solve(ante0: seq<Formula>, succ0: seq<Formula>, existsMode: bool, index: nat, fuel: nat)
    returns (r: S.Outcome, index': nat)
    requires S.SequentOk(ante0, succ0)
    ensures (r, index') == S.Solve(ante0, succ0, existsMode, index, fuel)
    decreases fuel, 4
  {
    if fuel == 0 {
      return S.OutOfFuel, index;
    }
    S.ReorderPermutes(ante0);
    S.ReorderPermutes(succ0);
    var ante := S.Reorder(ante0);
    var succ := S.Reorder(succ0);
    var (axiom, i1) := S.Contraversial(ante, succ, index);
    if axiom {
      return S.Valid, i1;
    }
    var left, mode1, i2 := CheckSide(ante, succ, false, existsMode, i1, fuel);
    if left.Some? {
      return left.value, i2;
    }
    var right, mode2, i3 := CheckSide(ante, succ, true, mode1, i2, fuel);
    if right.Some? {
      return right.value, i3;
    }
    if mode2 || S.AllAtoms(ante + succ) {
      return S.Invalid, i3;
    }
    return S.Valid, i3;
  }

  /** `check_side`: the loop over one side, which returns from inside at the
      first formula that decides. */
  method CheckSide(ante: seq<Formula>, succ: seq<Formula>, reversed: bool, existsMode: bool, index: nat, fuel: nat)
    returns (verdict: Option<S.Outcome>, mode: bool, index': nat)
    requires S.SequentOk(ante, succ) && fuel > 0
    ensures (verdict, mode, index') == S.CheckSide(ante, succ, reversed, existsMode, index, fuel)
    decreases fuel, 3
  {
    var side := if reversed then succ else ante;
    mode, index' := existsMode, index;
    var k := 0;
    while k < |side|
      invariant 0 <= k <= |side|
      invariant S.ScanSide(ante, succ, reversed, existsMode, 0, index, fuel)
                == S.ScanSide(ante, succ, reversed, existsMode, k, index', fuel)
      decreases |side| - k
    {
      var i := side[k];
      assert i in side;
      if i.Substitution? {
        var out, i1 := TryInstances(ante, succ, reversed, existsMode, i, index', fuel);
        return Some(out), existsMode, i1;
      } else if !IsAtom(i) {
        R.AntecedentRuleKeepsProper(i, index');
        R.SuccedentRuleKeepsProper(i, index');
        var branches, i1;
        if reversed {
          branches, i1 := IntroduceToSuccedent(i, index');
        } else {
          branches, i1 := IntroduceToAntecedent(i, index');
        }
        var valid, i2 := AllBranches(ante, succ, reversed, existsMode, branches, i1, fuel);
        if valid == S.OutOfFuel {
          return Some(S.OutOfFuel), existsMode, i2;
        } else if !existsMode && valid == S.Invalid {
          return Some(S.Invalid), existsMode, i2;
        } else if valid == S.Valid {
          return Some(S.Valid), existsMode, i2;
        }
        index' := i2;
      }
      k := k + 1;
    }
    verdict := None;
  }

  /** `all(map(check, func))`: the branches in order, stopping at the first
      that is not valid. */
  method AllBranches(ante: seq<Formula>, succ: seq<Formula>, reversed: bool, existsMode: bool,
                     branches: seq<R.Branch>, index: nat, fuel: nat) returns (r: S.Outcome, index': nat)
    requires S.SequentOk(ante, succ) && fuel > 0
    requires forall b | b in branches :: S.AllProper(R.Added(b))
    ensures (r, index') == S.TryBranches(ante, succ, reversed, existsMode, branches, 0, index, fuel)
    decreases fuel, 2
  {
    index' := index;
    var k := 0;
    while k < |branches|
      invariant 0 <= k <= |branches|
      invariant S.TryBranches(ante, succ, reversed, existsMode, branches, 0, index, fuel)
                == S.TryBranches(ante, succ, reversed, existsMode, branches, k, index', fuel)
      decreases |branches| - k
    {
      assert branches[k] in branches;
      var res, i1 := PrepareAndResolve(ante, succ, reversed, existsMode, branches[k], index', fuel);
      if res != S.Valid {
        return res, i1;
      }
      index', k := i1, k + 1;
    }
    r := S.Valid;
  }

  /** `prepare_and_resolve`: copy both sides, remove the branch's formula
      from its own side, put the branch's formulas in front, recurse. */
  method PrepareAndResolve(ante: seq<Formula>, succ: seq<Formula>, reversed: bool, existsMode: bool,
                           b: R.Branch, index: nat, fuel: nat) returns (r: S.Outcome, index': nat)
    requires S.SequentOk(ante, succ) && fuel > 0 && S.AllProper(R.Added(b))
    ensures (r, index') == S.PrepareAndResolve(ante, succ, reversed, existsMode, b, index, fuel)
    decreases fuel, 1
  {
    var anteNext, succNext := ante, succ;
    var i1;
    if reversed {
      succNext, i1 := Remove(succNext, b.removed, index);
    } else {
      anteNext, i1 := Remove(anteNext, b.removed, index);
    }
    assert (b.ante + anteNext, b.succ + succNext, i1) == S.Decompose(ante, succ, reversed, b, index);
    r, index' := Solve(b.ante + anteNext, b.succ + succNext, existsMode, i1, fuel - 1);
  }

  /** The `k`-th value `enumerate_available_substitutions` yields: the
      instance for the `k`-th candidate, or the fallback after the last. */
  method NextInstance(mask: Formula, cands: seq<Formula>, k: nat, index: nat) returns (j: Formula, index': nat)
    requires mask.Substitution? && R.Proper(mask) && k <= |cands|
    requires forall t | t in cands :: IsTerm(t) && WellFormed(t)
    ensures (j, index') == S.Instance(mask, cands, k, index)
  {
    if k < |cands| {
      j, index' := Substitute(mask.binder, cands[k], mask.body, index);
    } else {
      j, index' := Collision(mask, index);
    }
  }

  /** Copy both sides, remove `mask` from its own side and insert `j` at
      the front of that side. */
  method PutInstance(ante: seq<Formula>, succ: seq<Formula>, reversed: bool, mask: Formula, j: Formula, index: nat)
    returns (anteNext: seq<Formula>, succNext: seq<Formula>, index': nat)
    requires S.SequentOk(ante, succ) && R.Proper(j)
    ensures (anteNext, succNext, index') == S.Instantiate(ante, succ, reversed, mask, j, index)
  {
    anteNext, succNext := ante, succ;
    if reversed {
      succNext, index' := Remove(succNext, mask, index);
      succNext := [j] + succNext;
    } else {
      anteNext, index' := Remove(anteNext, mask, index);
      anteNext := [j] + anteNext;
    }
  }

  /** One pass of that loop: build the instance, put it in place of `mask`
      on copies of the sides, and search the result. */
  method Attempt(ante: seq<Formula>, succ: seq<Formula>, reversed: bool,
                 mask: Formula, cands: seq<Formula>, k: nat, index: nat, fuel: nat) returns (r: S.Outcome, index': nat)
    requires S.SequentOk(ante, succ) && fuel > 0 && k <= |cands|
    requires mask.Substitution? && R.Proper(mask)
    requires forall t | t in cands :: IsTerm(t) && WellFormed(t)
    ensures (r, index') == S.Attempt(ante, succ, reversed, mask, cands, k, index, fuel)
    decreases fuel, 1
  {
    var j, i1 := NextInstance(mask, cands, k, index);
    var anteNext, succNext, i2 := PutInstance(ante, succ, reversed, mask, j, i1);
    r, index' := Solve(anteNext, succNext, reversed, i2, fuel - 1);
  }

  /** The loop over `enumerate_available_substitutions(mask, ante + succ)`:
      the candidate terms are listed first, and each instance is built
      only when its turn comes, so the counter moves only for the instances
      tried; the fallback comes last. */
  method TryInstances(ante: seq<Formula>, succ: seq<Formula>, reversed: bool, existsMode: bool,
                      mask: Formula, index: nat, fuel: nat) returns (r: S.Outcome, index': nat)
    requires S.SequentOk(ante, succ) && fuel > 0
    requires mask.Substitution? && R.Proper(mask)
    ensures (r, index') == S.Enumerate(ante, succ, reversed, existsMode, mask, index, fuel)
    decreases fuel, 2
  {
    var cands := EnumerateCandidates(ante + succ);
    forall t | t in cands
      ensures IsTerm(t) && WellFormed(t)
    {
      CandidatesWellFormed(ante + succ, t);
    }
    assert S.Enumerate(ante, succ, reversed, existsMode, mask, index, fuel)
           == S.TryCandidates(ante, succ, reversed, existsMode, mask, cands, 0, index, fuel);
    index' := index;
    var k := 0;
    while k <= |cands|
      invariant 0 <= k <= |cands| + 1
      invariant S.TryCandidates(ante, succ, reversed, existsMode, mask, cands, 0, index, fuel)
                == S.TryCandidates(ante, succ, reversed, existsMode, mask, cands, k, index', fuel)
      decreases |cands| + 1 - k
    {
      var res, i3 := Attempt(ante, succ, reversed, mask, cands, k, index', fuel);
      ghost var rest := S.TryCandidates(ante, succ, reversed, existsMode, mask, cands, k, index', fuel);
      assert rest == if res == S.OutOfFuel then (S.OutOfFuel, i3)
                     else if reversed && res == S.Valid then (S.Valid, i3)
                     else if !reversed && !existsMode && res == S.Invalid then (S.Invalid, i3)
                     else if !reversed && existsMode && res == S.Valid then (S.Valid, i3)
                     else S.TryCandidates(ante, succ, reversed, existsMode, mask, cands, k + 1, i3, fuel);
      if res == S.OutOfFuel {
        return S.OutOfFuel, i3;
      }
      if reversed {
        if res == S.Valid {
          return S.Valid, i3;
        }
      } else if !existsMode && res == S.Invalid {
        return S.Invalid, i3;
      } else if existsMode && res == S.Valid {
        return S.Valid, i3;
      }
      index', k := i3, k + 1;
    }
    r := if reversed then S.Invalid else S.Valid;
  }

  /** `solve(string)` after parsing: a formula is proved when the sequent
      with `f` alone on the right is valid.  The literal `0` of the call is
      the printing depth; the counter is the module-level `index`, which is
      never reset, so it comes in as `index` and goes out as `index'` for
      the next proof. */
  method Prove(f: Formula, index: nat, fuel: nat) returns (r: S.Outcome, index': nat)
    requires R.Proper(f)
    ensures (r, index') == S.Solve([], [f], false, index, fuel)
  {
    r, index' := Solve([], [f], false, index, fuel);
  }
}
