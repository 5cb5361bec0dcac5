/** The introduction rules of ast.py (ast.py:120-149, 178-190, 212-224):
    `introduce_to_antecedent` and `introduce_to_succedent` of each
    connective and quantifier.  A rule returns the branches of the sequent
    rule, each as `(removed, added to the antecedent, added to the
    succedent)`; the solver proves every branch.

    The quantifier rules mint one fresh name with the global counter, which
    is threaded here.  On the side where a quantifier may be used again
    (`forall` on the left, `exists` on the right) the first use only marks
    the formula `doubled` and puts it back twice; the source sets the flag
    on the shared object, the model returns the two marked copies. */
module Rules {
  import opened Formulas
  import opened Names
  import opened Substitutions
  import opened Equality

  /** One branch: the formula taken out and the formulas put in front of
      each side. */
  datatype Branch = Branch(removed: Formula, ante: seq<Formula>, succ: seq<Formula>)

  /** `f.introduce_to_antecedent()` with the counter at `n`. */
  function IntroduceToAntecedent(f: Formula, n: nat): (r: (seq<Branch>, nat))
    requires IsDecomposable(f)
    ensures 1 <= |r.0| <= 2
    ensures forall b | b in r.0 :: b.removed == f
    ensures !f.Forall? && !f.Exists? ==> r.1 == n
  {
    match f
    case Negation(a) => ([Branch(f, [], [a])], n)
    case Implication(a, b) => ([Branch(f, [], [a]), Branch(f, [b], [])], n)
    case Disjunction(a, b) => ([Branch(f, [a], []), Branch(f, [b], [])], n)
    case Conjunction(a, b) => ([Branch(f, [a, b], [])], n)
    case Forall(v, body, doubled) =>
      if !doubled then
        var again := Forall(v, body, true);
        ([Branch(f, [again, again], [])], n + 1)
      else
        var name := Fresh("_v", n + 1);
        var (body', n') := Subst(v, Var(name), body, n + 1);
        ([Branch(f, [Substitution(name, body', ForallKind)], [])], n')
    case Exists(v, body, _) =>
      var (body', n') := Subst(v, Var(Fresh("_c", n + 1)), body, n + 1);
      ([Branch(f, [body'], [])], n')
  }

  /** `f.introduce_to_succedent()` with the counter at `n`. */
  function IntroduceToSuccedent(f: Formula, n: nat): (r: (seq<Branch>, nat))
    requires IsDecomposable(f)
    ensures 1 <= |r.0| <= 2
    ensures forall b | b in r.0 :: b.removed == f
    ensures !f.Forall? && !f.Exists? ==> r.1 == n
  {
    match f
    case Negation(a) => ([Branch(f, [a], [])], n)
    case Implication(a, b) => ([Branch(f, [a], [b])], n)
    case Disjunction(a, b) => ([Branch(f, [], [a, b])], n)
    case Conjunction(a, b) => ([Branch(f, [], [a]), Branch(f, [], [b])], n)
    case Forall(v, body, _) =>
      var (body', n') := Subst(v, Var(Fresh("_c", n + 1)), body, n + 1);
      ([Branch(f, [], [body'])], n')
    case Exists(v, body, doubled) =>
      if !doubled then
        var again := Exists(v, body, true);
        ([Branch(f, [], [again, again])], n + 1)
      else
        var name := Fresh("_v", n + 1);
        var (body', n') := Subst(v, Var(name), body, n + 1);
        ([Branch(f, [], [Substitution(name, body', ExistsKind)])], n')
  }

  /** What a branch adds, both sides together. */
  function Added(b: Branch): seq<Formula> {
    b.ante + b.succ
  }

  // ---------------------------------------------------------------------------
  // Counter and renaming
  // ---------------------------------------------------------------------------

  /** Every quantifier rule ticks the counter at least once, and exactly once
      when its body does not rebind the quantified variable. */
  lemma QuantifierRulesTick(f: Formula, n: nat)
    requires f.Forall? || f.Exists?
    ensures IntroduceToAntecedent(f, n).1 >= n + 1
    ensures IntroduceToSuccedent(f, n).1 >= n + 1
    ensures CountBinders(f.binder, f.body) == 0
            ==> IntroduceToAntecedent(f, n).1 == n + 1 && IntroduceToSuccedent(f, n).1 == n + 1
  {
    SubstAdvancesCounter(f.binder, Var(Fresh("_v", n + 1)), f.body, n + 1);
    SubstAdvancesCounter(f.binder, Var(Fresh("_c", n + 1)), f.body, n + 1);
    if CountBinders(f.binder, f.body) == 0 {
      SubstWithoutRebinding(f.binder, Var(Fresh("_v", n + 1)), f.body, n + 1);
      SubstWithoutRebinding(f.binder, Var(Fresh("_c", n + 1)), f.body, n + 1);
    }
  }

  /** A body that rebinds the quantified variable costs a second tick:
      `exists x. forall x. p` on the left moves the counter by two. */
  lemma RebindingTicksTwice(x: string, p: Formula, d: bool, d': bool, n: nat)
    requires CountBinders(x, p) == 0
    requires Fresh(Family(x), n + 2) != x
    ensures IntroduceToAntecedent(Exists(x, Forall(x, p, d), d'), n).1 == n + 2
  {
    var t := Var(Fresh("_c", n + 1));
    ShadowingBinderOnlyRenames(x, t, p, n + 1);
  }

  /** The one-shot rules (`forall` on the right, `exists` on the left) add
      one and the same instance of the body at the constant `_c<N>`, with
      `N` the counter after its tick.  The bound variable no longer occurs
      free in it (unless it is itself named `_c<N>`), and when the body
      does not rebind the variable the instance is plain replacement. */
  lemma QuantifierRulesInstantiate(v: string, body: Formula, d: bool, n: nat)
    ensures var r := IntroduceToSuccedent(Forall(v, body, d), n).0;
            var l := IntroduceToAntecedent(Exists(v, body, d), n).0;
            var c := Fresh("_c", n + 1);
            |r| == 1 && |l| == 1 && r[0].ante == [] && l[0].succ == [] && |r[0].succ| == 1
            && l[0].ante == r[0].succ
            && (c != v ==> !FreeIn(v, r[0].succ[0]))
            && (CountBinders(v, body) == 0 ==> r[0].succ[0] == Replace(v, Var(c), body))
  {
    var c := Fresh("_c", n + 1);
    if c != v {
      SubstEliminatesFree(v, Var(c), body, n + 1);
    }
    if CountBinders(v, body) == 0 {
      SubstWithoutRebinding(v, Var(c), body, n + 1);
    }
  }

  /** Duplication of an unmarked reusable quantifier: it comes back twice,
      marked, with one tick, and each copy is equal to the formula it
      replaces for `in`, `remove` and the axiom check, at any counter. */
  lemma DuplicationHappensOnce(v: string, body: Formula, n: nat)
    ensures var f := Forall(v, body, false);
            var (b, n') := IntroduceToAntecedent(f, n);
            n' == n + 1 && |b| == 1 && b[0].succ == [] && |b[0].ante| == 2
            && forall g, m: nat | g in b[0].ante :: g == Forall(v, body, true) && Eq(g, f, m) == (true, m)
    ensures var f := Exists(v, body, false);
            var (b, n') := IntroduceToSuccedent(f, n);
            n' == n + 1 && |b| == 1 && b[0].ante == [] && |b[0].succ| == 2
            && forall g, m: nat | g in b[0].succ :: g == Exists(v, body, true) && Eq(g, f, m) == (true, m)
  {
    forall m: nat
      ensures Eq(body, body, m) == (true, m)
    {
      EqReflexive(body, m);
    }
  }

  /** A marked copy never duplicates again: it adds a single pending
      instantiation over the eigenvariable `_v<N>`, `N` the counter after
      its tick, in which the bound variable no longer occurs free (unless
      it is itself named `_v<N>`). */
  lemma MarkedQuantifierInstantiates(v: string, body: Formula, n: nat)
    ensures var added := Added(IntroduceToAntecedent(Forall(v, body, true), n).0[0]);
            |added| == 1 && added[0].Substitution? && added[0].binder == Fresh("_v", n + 1)
            && (Fresh("_v", n + 1) != v ==> !FreeIn(v, added[0].body))
    ensures var added := Added(IntroduceToSuccedent(Exists(v, body, true), n).0[0]);
            |added| == 1 && added[0].Substitution? && added[0].binder == Fresh("_v", n + 1)
            && (Fresh("_v", n + 1) != v ==> !FreeIn(v, added[0].body))
  {
    var name := Fresh("_v", n + 1);
    var body' := Subst(v, Var(name), body, n + 1).0;
    assert Added(IntroduceToAntecedent(Forall(v, body, true), n).0[0]) == [Substitution(name, body', ForallKind)];
    assert Added(IntroduceToSuccedent(Exists(v, body, true), n).0[0]) == [Substitution(name, body', ExistsKind)];
    if name != v {
      SubstEliminatesFree(v, Var(name), body, n + 1);
    }
  }

  // ---------------------------------------------------------------------------
  // Well-formedness
  // ---------------------------------------------------------------------------

  /** A formula that may stand on a side of a sequent. */
  predicate Proper(f: Formula) {
    WellFormed(f) && !IsTerm(f)
  }

  /** The rules take well formed formulas to well formed formulas, none of
      them a bare term. */
  lemma AntecedentRuleKeepsProper(f: Formula, n: nat)
    requires IsDecomposable(f) && WellFormed(f)
    ensures forall b | b in IntroduceToAntecedent(f, n).0 :: forall g | g in Added(b) :: Proper(g)
  {
    match f
    case Forall(v, body, doubled) =>
      if doubled {
        SubstKeepsWellFormed(v, Var(Fresh("_v", n + 1)), body, n + 1);
      }
    case Exists(v, body, _) =>
      SubstKeepsWellFormed(v, Var(Fresh("_c", n + 1)), body, n + 1);
    case _ =>
  }

  lemma SuccedentRuleKeepsProper(f: Formula, n: nat)
    requires IsDecomposable(f) && WellFormed(f)
    ensures forall b | b in IntroduceToSuccedent(f, n).0 :: forall g | g in Added(b) :: Proper(g)
  {
    match f
    case Forall(v, body, _) =>
      SubstKeepsWellFormed(v, Var(Fresh("_c", n + 1)), body, n + 1);
    case Exists(v, body, doubled) =>
      if doubled {
        SubstKeepsWellFormed(v, Var(Fresh("_v", n + 1)), body, n + 1);
      }
    case _ =>
  }

  lemma SmallSums(a: Formula, b: Formula)
    ensures SumSizes([a]) == Size(a)
    ensures SumSizes([a, b]) == Size(a) + Size(b)
  {
    assert [a][1..] == [];
    assert [a, b][1..] == [b];
    assert [b][1..] == [];
  }

  /** The propositional rules add only immediate subformulas: smaller, and
      together smaller than the formula they replace. */
  lemma AntecedentRuleShrinks(f: Formula, n: nat)
    requires Propositional(f)
    ensures forall b | b in IntroduceToAntecedent(f, n).0 :: SumSizes(Added(b)) < Size(f)
  {
    var a := if f.Negation? then f.argument else f.left;
    var b := if f.Negation? then f.argument else f.right;
    SmallSums(a, b);
    SmallSums(b, a);
    assert [] + [a] == [a] + [] == [a] && [b] + [] == [b] && [a, b] + [] == [a, b];
  }

  lemma SuccedentRuleShrinks(f: Formula, n: nat)
    requires Propositional(f)
    ensures forall b | b in IntroduceToSuccedent(f, n).0 :: SumSizes(Added(b)) < Size(f)
  {
    var a := if f.Negation? then f.argument else f.left;
    var b := if f.Negation? then f.argument else f.right;
    SmallSums(a, b);
    SmallSums(b, a);
    assert [a] + [] == [] + [a] == [a] && [] + [b] == [b] && [a] + [b] == [] + [a, b] == [a, b];
  }

  // ---------------------------------------------------------------------------
  // Soundness and invertibility of the propositional rules
  // ---------------------------------------------------------------------------

  /** The four connectives: the rules that neither tick the counter nor
      reuse a formula. */
  predicate Propositional(f: Formula) {
    f.Negation? || f.Implication? || f.Disjunction? || f.Conjunction?
  }

  /** The truth value of a formula read propositionally: the connectives by
      their truth tables, every other formula (atom, quantifier, pending
      instantiation) by the assignment `val`. */
  predicate Holds(f: Formula, val: Formula -> bool) {
    match f
    case Negation(a) => !Holds(a, val)
    case Implication(a, b) => !Holds(a, val) || Holds(b, val)
    case Disjunction(a, b) => Holds(a, val) || Holds(b, val)
    case Conjunction(a, b) => Holds(a, val) && Holds(b, val)
    case _ => val(f)
  }

  predicate AllHold(s: seq<Formula>, val: Formula -> bool) {
    forall f | f in s :: Holds(f, val)
  }

  predicate SomeHolds(s: seq<Formula>, val: Formula -> bool) {
    exists f | f in s :: Holds(f, val)
  }

  /** The sequent `ante |- succ` is true under `val`. */
  predicate SequentHolds(ante: seq<Formula>, succ: seq<Formula>, val: Formula -> bool) {
    AllHold(ante, val) ==> SomeHolds(succ, val)
  }

  /** Truth of the short sides the rules add. */
  lemma ShortSides(a: Formula, b: Formula, val: Formula -> bool)
    ensures AllHold([], val) && !SomeHolds([], val)
    ensures AllHold([a], val) == Holds(a, val) && SomeHolds([a], val) == Holds(a, val)
    ensures AllHold([a, b], val) == (Holds(a, val) && Holds(b, val))
    ensures SomeHolds([a, b], val) == (Holds(a, val) || Holds(b, val))
  {
    assert forall g | g in [a, b] :: g == a || g == b;
    assert a in [a, b] && b in [a, b];
  }

  /** Each propositional left rule is sound and invertible: under every
      assignment, `f, gamma |- delta` is true exactly when every branch's
      sequent is. */
  lemma AntecedentRuleInvertible(f: Formula, gamma: seq<Formula>, delta: seq<Formula>, val: Formula -> bool, n: nat)
    requires Propositional(f)
    ensures var branches := IntroduceToAntecedent(f, n).0;
            SequentHolds([f] + gamma, delta, val)
            <==> forall b | b in branches :: SequentHolds(b.ante + gamma, b.succ + delta, val)
  {
    SidesSplit([f], gamma, val);
    var branches := IntroduceToAntecedent(f, n).0;
    forall b | b in branches
      ensures AllHold(b.ante + gamma, val) == (AllHold(b.ante, val) && AllHold(gamma, val))
      ensures SomeHolds(b.succ + delta, val) == (SomeHolds(b.succ, val) || SomeHolds(delta, val))
    {
      SidesSplit(b.ante, gamma, val);
      SidesSplit(b.succ, delta, val);
    }
    match f
    case Negation(a) => ShortSides(f, a, val); ShortSides(a, a, val);
    case Implication(a, b) => ShortSides(f, a, val); ShortSides(a, b, val); ShortSides(b, b, val);
    case Disjunction(a, b) => ShortSides(f, a, val); ShortSides(a, b, val); ShortSides(b, b, val);
    case Conjunction(a, b) => ShortSides(f, a, val); ShortSides(a, b, val);
  }

  /** Each propositional right rule is sound and invertible. */
  lemma SuccedentRuleInvertible(f: Formula, gamma: seq<Formula>, delta: seq<Formula>, val: Formula -> bool, n: nat)
    requires Propositional(f)
    ensures var branches := IntroduceToSuccedent(f, n).0;
            SequentHolds(gamma, [f] + delta, val)
            <==> forall b | b in branches :: SequentHolds(b.ante + gamma, b.succ + delta, val)
  {
    SidesSplit([f], delta, val);
    var branches := IntroduceToSuccedent(f, n).0;
    forall b | b in branches
      ensures AllHold(b.ante + gamma, val) == (AllHold(b.ante, val) && AllHold(gamma, val))
      ensures SomeHolds(b.succ + delta, val) == (SomeHolds(b.succ, val) || SomeHolds(delta, val))
    {
      SidesSplit(b.ante, gamma, val);
      SidesSplit(b.succ, delta, val);
    }
    match f
    case Negation(a) => ShortSides(f, a, val); ShortSides(a, a, val);
    case Implication(a, b) => ShortSides(f, a, val); ShortSides(a, b, val); ShortSides(b, b, val);
    case Disjunction(a, b) => ShortSides(f, a, val); ShortSides(a, b, val);
    case Conjunction(a, b) => ShortSides(f, a, val); ShortSides(a, b, val); ShortSides(b, b, val);
  }

  /** Truth of a concatenated side splits over the two parts. */
  lemma SidesSplit(s: seq<Formula>, t: seq<Formula>, val: Formula -> bool)
    ensures AllHold(s + t, val) == (AllHold(s, val) && AllHold(t, val))
    ensures SomeHolds(s + t, val) == (SomeHolds(s, val) || SomeHolds(t, val))
  {
    assert forall f | f in s + t :: f in s || f in t;
    if SomeHolds(s, val) {
      var f :| f in s && Holds(f, val);
      assert f in s + t;
    }
    if SomeHolds(t, val) {
      var f :| f in t && Holds(f, val);
      assert f in s + t;
    }
  }
}
