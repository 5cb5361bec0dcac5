/** The witness search of solver.py: `contains` (solver.py:141-147),
    `traverse_expression_tree` (solver.py:115-138) and the candidate list
    of `enumerate_available_substitutions` (solver.py:102-112).

    `traverse_expression_tree` is a recursive generator that ends every
    call with `yield None`; `Traverse` is the list it produces, markers
    included, and `TraverseTree` builds that list one element at a time.
    The traversal has no side effect, so the candidate terms are computed
    in full here; the substitutions made with them, which move the
    counter, are made one at a time by the search. */
module Witnesses {
  import opened Wrappers
  import opened Formulas
  import opened Names
  import opened Substitutions

  /** `contains(box, item)`: `item` is `None` or the argless term `Var(v)`,
      given here as `Some(v)`.  On anything but a term the source returns
      `None`, which the callers read as false. */
  predicate Contains(box: Formula, item: Option<string>)
    decreases Size(box), 0
  {
    match box
    case Var(name) => item == Some(name)
    case App(_, args) => ContainsSome(args, item)
    case _ => false
  }

  /** `any(map(lambda x: contains(x, item), args))` */
  predicate ContainsSome(args: seq<Formula>, item: Option<string>)
    decreases SumSizes(args), 1
  {
    args != [] && (Contains(args[0], item) || ContainsSome(args[1..], item))
  }

  /** The filter of the generator: a marker always passes, a term passes
      when it does not contain `key`. */
  predicate Passes(x: Option<Formula>, key: Option<string>) {
    x.None? || !Contains(x.value, key)
  }

  function Keep(items: seq<Option<Formula>>, key: Option<string>): (r: seq<Option<Formula>>)
    ensures |r| <= |items|
  {
    if items == [] then []
    else
      var last := items[|items| - 1];
      Keep(items[..|items| - 1], key) + (if Passes(last, key) then [last] else [])
  }

  /** `list(traverse_expression_tree(source))` */
  function Traverse(source: Formula): seq<Option<Formula>>
    decreases Size(source), 0
  {
    match source
    case Var(_) =>
      (if !Contains(source, None) then [Some(source)] else []) + [None]
    case App(_, args) =>
      (if !Contains(source, None) then [Some(source)] else []) + Keep(TraverseArgs(args), None) + [None]
    case Atom(_, args) => TraverseArgs(args) + [None]
    case Negation(a) => Traverse(a) + [None]
    case Forall(v, body, _) => Keep(Traverse(body), Some(v)) + [None]
    case Exists(v, body, _) => Keep(Traverse(body), Some(v)) + [None]
    case Substitution(v, body, _) => Keep(Traverse(body), Some(v)) + [None]
    case Implication(l, r) => Traverse(l) + Traverse(r) + [None]
    case Disjunction(l, r) => Traverse(l) + Traverse(r) + [None]
    case Conjunction(l, r) => Traverse(l) + Traverse(r) + [None]
  }

  /** The items of the arguments, one argument after the other. */
  function TraverseArgs(args: seq<Formula>): seq<Option<Formula>>
    decreases SumSizes(args), 1
  {
    if args == [] then [] else Traverse(args[0]) + TraverseArgs(args[1..])
  }

  /** The values of the items, markers dropped. */
  function Values(items: seq<Option<Formula>>): (r: seq<Formula>)
    ensures |r| <= |items|
  {
    if items == [] then []
    else
      var last := items[|items| - 1];
      Values(items[..|items| - 1]) + (if last.Some? then [last.value] else [])
  }

  /** The candidate terms of `enumerate_available_substitutions(mask, array)`
      before the fallback: the terms of each formula of `area`, in order. */
  function Candidates(area: seq<Formula>): seq<Formula>
  {
    if area == [] then []
    else Candidates(area[..|area| - 1]) + Values(Traverse(area[|area| - 1]))
  }

  /** The last candidate, after all the terms: the pending instantiation's
      body once `collision` (ast.py:243-251) has renamed its binder to a
      fresh name of the same family.  The copy taken first resets `doubled`. */
  function Fallback(mask: Formula, n: nat): (r: (Formula, nat))
    requires mask.Substitution?
  {
    var name := Fresh(Family(mask.binder), n + 1);
    Subst(mask.binder, Var(name), Copy(mask.body), n + 1)
  }

  // ---------------------------------------------------------------------------
  // The generators, one element at a time
  // ---------------------------------------------------------------------------

  /** solver.py:115-138. */
  method TraverseTree(source: Formula) returns (items: seq<Option<Formula>>)
    ensures items == Traverse(source)
    decreases Size(source), 0
  {
    items := [];
    if source.Var? || source.App? {
      if !Contains(source, None) {
        items := items + [Some(source)];
      }
      if source.App? {
        var rest := TraverseArgsInOrder(source.args);
        var filtered := Filter(rest, None);
        items := items + filtered;
      }
    } else if source.Atom? {
      items := TraverseArgsInOrder(source.args);
    } else if source.Negation? {
      items := TraverseTree(source.argument);
    } else if IsBinder(source) {
      var inner := TraverseTree(source.body);
      items := Filter(inner, Some(source.binder));
    } else {
      var left := TraverseTree(source.left);
      var right := TraverseTree(source.right);
      items := left + right;
    }
    items := items + [None];
  }

  /** `for arg in args: for item in traverse_expression_tree(arg): ...` */
  method TraverseArgsInOrder(args: seq<Formula>) returns (items: seq<Option<Formula>>)
    ensures items == TraverseArgs(args)
    decreases SumSizes(args), 1
  {
    items := [];
    for i := 0 to |args|
      invariant items == TraverseArgs(args[..i])
    {
      ArgSmaller(args, i);
      var sub := TraverseTree(args[i]);
      TraverseArgsSnoc(args, i);
      items := items + sub;
    }
    assert args[..|args|] == args;
  }

  /** The `if not contains(item, key): yield item` of one loop. */
  method Filter(items: seq<Option<Formula>>, key: Option<string>) returns (kept: seq<Option<Formula>>)
    ensures kept == Keep(items, key)
  {
    kept := [];
    for j := 0 to |items|
      invariant kept == Keep(items[..j], key)
    {
      assert items[..j + 1][..j] == items[..j];
      if items[j].None? || !Contains(items[j].value, key) {
        kept := kept + [items[j]];
      }
    }
    assert items[..|items|] == items;
  }

  /** solver.py:102-107: every non-`None` item of every formula of the
      sequent, antecedent first. */
  method EnumerateCandidates(area: seq<Formula>) returns (cands: seq<Formula>)
    ensures cands == Candidates(area)
  {
    cands := [];
    for i := 0 to |area|
      invariant cands == Candidates(area[..i])
    {
      var items := TraverseTree(area[i]);
      assert area[..i + 1][..i] == area[..i];
      var found := [];
      for j := 0 to |items|
        invariant found == Values(items[..j])
      {
        assert items[..j + 1][..j] == items[..j];
        if items[j].Some? {
          found := found + [items[j].value];
        }
      }
      assert items[..|items|] == items;
      cands := cands + found;
    }
    assert area[..|area|] == area;
  }

  /** `collision` on a copy of the mask (ast.py:243-251, solver.py:109-112). */
  method Collision(mask: Formula, index: nat) returns (body: Formula, index': nat)
    requires mask.Substitution?
    ensures (body, index') == Fallback(mask, index)
  {
    var copy := Copy(mask);
    index' := index + 1;
    var name := if StartsWithV(copy.binder) then Fresh("_v", index') else Fresh("_c", index');
    body, index' := Substitute(copy.binder, Var(name), copy.body, index');
  }

  lemma TraverseArgsSnoc(args: seq<Formula>, i: nat)
    requires i < |args|
    ensures TraverseArgs(args[..i + 1]) == TraverseArgs(args[..i]) + Traverse(args[i])
  {
    TraverseArgsAppend(args[..i], [args[i]]);
    assert args[..i + 1] == args[..i] + [args[i]];
    assert TraverseArgs([args[i]]) == Traverse(args[i]) by {
      assert [args[i]][1..] == [];
    }
  }

  lemma {:induction false} TraverseArgsAppend(xs: seq<Formula>, ys: seq<Formula>)
    ensures TraverseArgs(xs + ys) == TraverseArgs(xs) + TraverseArgs(ys)
    decreases |xs|
  {
    if xs == [] {
      assert xs + ys == ys;
    } else {
      assert (xs + ys)[1..] == xs[1..] + ys;
      assert (xs + ys)[0] == xs[0];
      TraverseArgsAppend(xs[1..], ys);
    }
  }

  // ---------------------------------------------------------------------------
  // Properties
  // ---------------------------------------------------------------------------

  /** `contains(t, None)` never holds, so the filter of the term branch
      lets everything through. */
  lemma {:induction false} ContainsNoneFalse(t: Formula)
    ensures !Contains(t, None)
    decreases Size(t), 0
  {
    if t.App? {
      ContainsSomeNoneFalse(t.args);
    }
  }

  lemma {:induction false} ContainsSomeNoneFalse(args: seq<Formula>)
    ensures !ContainsSome(args, None)
    decreases SumSizes(args), 1
  {
    if args != [] {
      ContainsNoneFalse(args[0]);
      ContainsSomeNoneFalse(args[1..]);
    }
  }

  /** On a well formed term, `contains(t, Var(v))` says that `v` occurs in `t`. */
  lemma {:induction false} ContainsIsOccurrence(t: Formula, v: string)
    requires IsTerm(t) && WellFormed(t)
    ensures Contains(t, Some(v)) <==> FreeIn(v, t)
    decreases Size(t), 0
  {
    if t.App? {
      ContainsSomeIsOccurrence(t.args, v);
    }
  }

  lemma {:induction false} ContainsSomeIsOccurrence(args: seq<Formula>, v: string)
    requires forall a | a in args :: IsTerm(a) && WellFormed(a)
    ensures ContainsSome(args, Some(v)) <==> FreeInSome(v, args)
    decreases SumSizes(args), 1
  {
    if args != [] {
      assert args[0] in args;
      assert forall a | a in args[1..] :: a in args;
      ContainsIsOccurrence(args[0], v);
      ContainsSomeIsOccurrence(args[1..], v);
    }
  }

  /** The term occurrences the traversal reports, as a relation: a term is
      reported with its subterms, and under a binder only the terms that do
      not contain the bound variable survive. */
  predicate OccursIn(t: Formula, f: Formula) {
    match f
    case Var(_) => t == f
    case App(_, args) => t == f || exists a | a in args :: OccursIn(t, a)
    case Atom(_, args) => exists a | a in args :: OccursIn(t, a)
    case Negation(a) => OccursIn(t, a)
    case Implication(l, r) => OccursIn(t, l) || OccursIn(t, r)
    case Disjunction(l, r) => OccursIn(t, l) || OccursIn(t, r)
    case Conjunction(l, r) => OccursIn(t, l) || OccursIn(t, r)
    case Forall(v, b, _) => OccursIn(t, b) && !Contains(t, Some(v))
    case Exists(v, b, _) => OccursIn(t, b) && !Contains(t, Some(v))
    case Substitution(v, b, _) => OccursIn(t, b) && !Contains(t, Some(v))
  }

  lemma {:induction false} KeepMembership(items: seq<Option<Formula>>, key: Option<string>, x: Option<Formula>)
    ensures x in Keep(items, key) <==> x in items && Passes(x, key)
    decreases |items|
  {
    if items != [] {
      var init := items[..|items| - 1];
      KeepMembership(init, key, x);
      assert items == init + [items[|items| - 1]];
    }
  }

  lemma {:induction false} TraverseArgsMembership(args: seq<Formula>, x: Option<Formula>)
    ensures x in TraverseArgs(args) <==> exists a | a in args :: x in Traverse(a)
    decreases |args|
  {
    if args != [] {
      TraverseArgsMembership(args[1..], x);
      assert forall a | a in args :: a == args[0] || a in args[1..];
      assert args[0] in args;
      assert forall a | a in args[1..] :: a in args;
    }
  }

  /** Every value the traversal yields is a term. */
  lemma {:induction false} TraverseYieldsTerms(f: Formula, x: Option<Formula>)
    requires x in Traverse(f)
    ensures x.Some? ==> IsTerm(x.value)
    decreases f
  {
    match f
    case Var(_) =>
    case App(_, args) =>
      KeepMembership(TraverseArgs(args), None, x);
      if x in TraverseArgs(args) {
        TraverseArgsMembership(args, x);
        var a :| a in args && x in Traverse(a);
        TraverseYieldsTerms(a, x);
      }
    case Atom(_, args) =>
      if x in TraverseArgs(args) {
        TraverseArgsMembership(args, x);
        var a :| a in args && x in Traverse(a);
        TraverseYieldsTerms(a, x);
      }
    case Negation(a) =>
      if x in Traverse(a) { TraverseYieldsTerms(a, x); }
    case Implication(l, r) =>
      if x in Traverse(l) { TraverseYieldsTerms(l, x); }
      if x in Traverse(r) { TraverseYieldsTerms(r, x); }
    case Disjunction(l, r) =>
      if x in Traverse(l) { TraverseYieldsTerms(l, x); }
      if x in Traverse(r) { TraverseYieldsTerms(r, x); }
    case Conjunction(l, r) =>
      if x in Traverse(l) { TraverseYieldsTerms(l, x); }
      if x in Traverse(r) { TraverseYieldsTerms(r, x); }
    case Forall(v, b, _) =>
      KeepMembership(Traverse(b), Some(v), x);
      if x in Traverse(b) { TraverseYieldsTerms(b, x); }
    case Exists(v, b, _) =>
      KeepMembership(Traverse(b), Some(v), x);
      if x in Traverse(b) { TraverseYieldsTerms(b, x); }
    case Substitution(v, b, _) =>
      KeepMembership(Traverse(b), Some(v), x);
      if x in Traverse(b) { TraverseYieldsTerms(b, x); }
  }

  /** The traversal yields exactly the occurrences: a term is yielded if
      and only if it occurs in the formula outside the reach of a binder of
      a variable it contains. */
  lemma {:induction false} TraverseFindsOccurrences(t: Formula, f: Formula)
    ensures Some(t) in Traverse(f) <==> OccursIn(t, f)
    decreases f
  {
    ContainsNoneFalse(f);
    ContainsNoneFalse(t);
    match f
    case Var(_) =>
    case App(_, args) =>
      KeepMembership(TraverseArgs(args), None, Some(t));
      ArgsFindOccurrences(t, args);
    case Atom(_, args) =>
      ArgsFindOccurrences(t, args);
    case Negation(a) => TraverseFindsOccurrences(t, a);
    case Implication(l, r) => TraverseFindsOccurrences(t, l); TraverseFindsOccurrences(t, r);
    case Disjunction(l, r) => TraverseFindsOccurrences(t, l); TraverseFindsOccurrences(t, r);
    case Conjunction(l, r) => TraverseFindsOccurrences(t, l); TraverseFindsOccurrences(t, r);
    case Forall(v, b, _) =>
      KeepMembership(Traverse(b), Some(v), Some(t));
      TraverseFindsOccurrences(t, b);
    case Exists(v, b, _) =>
      KeepMembership(Traverse(b), Some(v), Some(t));
      TraverseFindsOccurrences(t, b);
    case Substitution(v, b, _) =>
      KeepMembership(Traverse(b), Some(v), Some(t));
      TraverseFindsOccurrences(t, b);
  }

  lemma {:induction false} ArgsFindOccurrences(t: Formula, args: seq<Formula>)
    ensures Some(t) in TraverseArgs(args) <==> exists a | a in args :: OccursIn(t, a)
    decreases args
  {
    TraverseArgsMembership(args, Some(t));
    forall a | a in args
      ensures Some(t) in Traverse(a) <==> OccursIn(t, a)
    {
      TraverseFindsOccurrences(t, a);
    }
  }

  /** A compound term is yielded before its subterms: it comes first. */
  lemma TraverseTermFirst(f: Formula)
    requires IsTerm(f)
    ensures Traverse(f)[0] == Some(f)
  {
    ContainsNoneFalse(f);
  }

  lemma {:induction false} ValuesMembership(items: seq<Option<Formula>>, t: Formula)
    ensures t in Values(items) <==> Some(t) in items
    decreases |items|
  {
    if items != [] {
      var init := items[..|items| - 1];
      ValuesMembership(init, t);
      assert items == init + [items[|items| - 1]];
    }
  }

  /** The candidates are the occurrences in the formulas of the sequent. */
  lemma {:induction false} CandidatesAreOccurrences(area: seq<Formula>, t: Formula)
    ensures t in Candidates(area) <==> exists f | f in area :: OccursIn(t, f)
    decreases |area|
  {
    if area != [] {
      var init := area[..|area| - 1];
      var last := area[|area| - 1];
      CandidatesAreOccurrences(init, t);
      ValuesMembership(Traverse(last), t);
      TraverseFindsOccurrences(t, last);
      assert area == init + [last];
      assert forall f | f in area :: f in init || f == last;
      assert last in area;
      assert forall f | f in init :: f in area;
    }
  }

  lemma CandidatesSnoc(area: seq<Formula>, f: Formula)
    ensures Candidates(area + [f]) == Candidates(area) + Values(Traverse(f))
  {
    assert (area + [f])[..|area|] == area;
  }

  /** The antecedent's candidates come before the succedent's. */
  lemma {:induction false} CandidatesAppend(xs: seq<Formula>, ys: seq<Formula>)
    ensures Candidates(xs + ys) == Candidates(xs) + Candidates(ys)
    decreases |ys|
  {
    if ys == [] {
      assert xs + ys == xs;
    } else {
      var init, last := ys[..|ys| - 1], ys[|ys| - 1];
      var c := Values(Traverse(last));
      calc {
        Candidates(xs + ys);
        { assert xs + ys == (xs + init) + [last]; }
        Candidates((xs + init) + [last]);
        { CandidatesSnoc(xs + init, last); }
        Candidates(xs + init) + c;
        { CandidatesAppend(xs, init); }
        (Candidates(xs) + Candidates(init)) + c;
        Candidates(xs) + (Candidates(init) + c);
        { CandidatesSnoc(init, last); }
        Candidates(xs) + Candidates(init + [last]);
        { assert ys == init + [last]; }
        Candidates(xs) + Candidates(ys);
      }
    }
  }

  /** Every candidate of a sequent of well formed formulas is a term. */
  lemma CandidatesAreTerms(area: seq<Formula>, t: Formula)
    requires t in Candidates(area)
    ensures IsTerm(t)
  {
    CandidatesAreOccurrences(area, t);
    var f :| f in area && OccursIn(t, f);
    TraverseFindsOccurrences(t, f);
    TraverseYieldsTerms(f, Some(t));
  }

  /** An occurrence inside a well formed formula is itself well formed. */
  lemma {:induction false} OccurrenceWellFormed(t: Formula, f: Formula)
    requires WellFormed(f) && OccursIn(t, f)
    ensures WellFormed(t)
    decreases f
  {
    match f
    case Var(_) =>
    case App(_, args) =>
      if t != f {
        var a :| a in args && OccursIn(t, a);
        OccurrenceWellFormed(t, a);
      }
    case Atom(_, args) =>
      var a :| a in args && OccursIn(t, a);
      OccurrenceWellFormed(t, a);
    case Negation(a) => OccurrenceWellFormed(t, a);
    case Implication(l, r) => if OccursIn(t, l) { OccurrenceWellFormed(t, l); } else { OccurrenceWellFormed(t, r); }
    case Disjunction(l, r) => if OccursIn(t, l) { OccurrenceWellFormed(t, l); } else { OccurrenceWellFormed(t, r); }
    case Conjunction(l, r) => if OccursIn(t, l) { OccurrenceWellFormed(t, l); } else { OccurrenceWellFormed(t, r); }
    case Forall(_, b, _) => OccurrenceWellFormed(t, b);
    case Exists(_, b, _) => OccurrenceWellFormed(t, b);
    case Substitution(_, b, _) => OccurrenceWellFormed(t, b);
  }

  /** The candidates drawn from well formed formulas are well formed terms,
      so substituting one keeps a formula well formed. */
  lemma CandidatesWellFormed(area: seq<Formula>, t: Formula)
    requires forall f | f in area :: WellFormed(f)
    requires t in Candidates(area)
    ensures IsTerm(t) && WellFormed(t)
  {
    CandidatesAreTerms(area, t);
    CandidatesAreOccurrences(area, t);
    var f :| f in area && OccursIn(t, f);
    OccurrenceWellFormed(t, f);
  }

  /** The fallback ticks the counter and, when the fresh name is new to the
      binder, no free occurrence of the old binder is left in it. */
  lemma FallbackRenames(mask: Formula, n: nat)
    requires mask.Substitution?
    ensures Fallback(mask, n).1 >= n + 1
    ensures Fresh(Family(mask.binder), n + 1) != mask.binder ==> !FreeIn(mask.binder, Fallback(mask, n).0)
  {
    var name := Fresh(Family(mask.binder), n + 1);
    SubstAdvancesCounter(mask.binder, Var(name), Copy(mask.body), n + 1);
    if name != mask.binder {
      SubstEliminatesFree(mask.binder, Var(name), Copy(mask.body), n + 1);
    }
  }
}
