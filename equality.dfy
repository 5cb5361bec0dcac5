/** The `__eq__` methods of ast.py (ast.py:15-21, 46-49, 71-72, 97-98,
    169-176, 203-210), and the list operations of the solver that go
    through them: `x in list` and `list.remove(x)`.

    Equality of two quantifiers renames the first one's binder to the
    second's with `substitute` before comparing the bodies, so it can move
    the counter: `Eq` takes the counter and returns it.  The source also
    stores the renamed binder and body into the first operand; the model
    compares values and does not write anything back. */
module Equality {
  import opened Wrappers
  import opened Formulas
  import opened Substitutions

  /** `a == b`, with the counter at `n`. */
  function Eq(a: Formula, b: Formula, n: nat): (bool, nat)
    decreases Size(a), 0
  {
    match a
    case Var(x) => (b.Var? && b.name == x, n)
    case App(x, args) =>
      if b.App? && b.name == x && |b.args| == |args| then EqArgs(args, b.args, n) else (false, n)
    case Atom(x, args) =>
      if b.Atom? && b.name == x && |b.args| == |args| then EqArgs(args, b.args, n) else (false, n)
    case Negation(p) =>
      if b.Negation? then Eq(p, b.argument, n) else (false, n)
    case Implication(l, r) =>
      if b.Implication? then EqBoth(l, r, b.left, b.right, n) else (false, n)
    case Disjunction(l, r) =>
      if b.Disjunction? then EqBoth(l, r, b.left, b.right, n) else (false, n)
    case Conjunction(l, r) =>
      if b.Conjunction? then EqBoth(l, r, b.left, b.right, n) else (false, n)
    case Forall(v, body, _) =>
      if b.Forall? then EqUnder(v, body, b.binder, b.body, n) else (false, n)
    case Exists(v, body, _) =>
      if b.Exists? then EqUnder(v, body, b.binder, b.body, n) else (false, n)
    case Substitution(v, body, _) =>
      if b.Substitution? && b.binder == v then Eq(body, b.body, n) else (false, n)
  }

  /** `all([i == j for i, j in zip(xs, ys)])`: the list is built in full, so
      every pair is compared, left to right. */
  function EqArgs(xs: seq<Formula>, ys: seq<Formula>, n: nat): (bool, nat)
    requires |xs| == |ys|
    decreases SumSizes(xs), 1
  {
    if xs == [] then (true, n)
    else
      var (h, n1) := Eq(xs[0], ys[0], n);
      var (t, n2) := EqArgs(xs[1..], ys[1..], n1);
      (h && t, n2)
  }

  /** `self.left == other.left and self.right == other.right`: the right
      operands are compared only when the left ones are equal. */
  function EqBoth(l: Formula, r: Formula, l': Formula, r': Formula, n: nat): (bool, nat)
    decreases Size(l) + Size(r), 1
  {
    var (e, n1) := Eq(l, l', n);
    if !e then (false, n1) else Eq(r, r', n1)
  }

  /** ast.py:169-176: rename the binder `v` of the body to `w` when they
      differ, then compare the bodies. */
  function EqUnder(v: string, body: Formula, w: string, body': Formula, n: nat): (bool, nat)
    decreases Size(body), 1
  {
    if v != w then
      var (renamed, n1) := Subst(v, Var(w), body, n);
      Eq(renamed, body', n1)
    else Eq(body, body', n)
  }

  // ---------------------------------------------------------------------------
  // Properties
  // ---------------------------------------------------------------------------

  /** Every formula is equal to itself, and comparing it with itself renames
      nothing.  (Python's `in` and `remove` test identity before calling
      `__eq__`; this is why the model need not.) */
  lemma {:induction false} EqReflexive(f: Formula, n: nat)
    ensures Eq(f, f, n) == (true, n)
    decreases Size(f), 0
  {
    match f
    case Var(_) =>
    case App(_, args) => EqArgsReflexive(args, n);
    case Atom(_, args) => EqArgsReflexive(args, n);
    case Negation(a) => EqReflexive(a, n);
    case Implication(l, r) => EqReflexive(l, n); EqReflexive(r, n);
    case Disjunction(l, r) => EqReflexive(l, n); EqReflexive(r, n);
    case Conjunction(l, r) => EqReflexive(l, n); EqReflexive(r, n);
    case Forall(_, b, _) => EqReflexive(b, n);
    case Exists(_, b, _) => EqReflexive(b, n);
    case Substitution(_, b, _) => EqReflexive(b, n);
  }

  lemma {:induction false} EqArgsReflexive(fs: seq<Formula>, n: nat)
    ensures EqArgs(fs, fs, n) == (true, n)
    decreases SumSizes(fs), 1
  {
    if fs != [] {
      EqReflexive(fs[0], n);
      EqArgsReflexive(fs[1..], n);
    }
  }

  /** When either side has no quantifier and no pending instantiation,
      equality is plain structural equality and the counter is left alone. */
  lemma {:induction false} EqQuantifierFree(a: Formula, b: Formula, n: nat)
    requires QuantifierFree(a) || QuantifierFree(b)
    ensures Eq(a, b, n) == (a == b, n)
    decreases Size(a), 0
  {
    match a
    case Var(_) =>
    case App(_, args) =>
      if b.App? && |b.args| == |args| {
        EqArgsQuantifierFree(args, b.args, n);
      }
    case Atom(_, args) =>
      if b.Atom? && |b.args| == |args| {
        EqArgsQuantifierFree(args, b.args, n);
      }
    case Negation(p) =>
      if b.Negation? {
        EqQuantifierFree(p, b.argument, n);
      }
    case Implication(l, r) =>
      if b.Implication? {
        EqBothQuantifierFree(l, r, b.left, b.right, n);
      }
    case Disjunction(l, r) =>
      if b.Disjunction? {
        EqBothQuantifierFree(l, r, b.left, b.right, n);
      }
    case Conjunction(l, r) =>
      if b.Conjunction? {
        EqBothQuantifierFree(l, r, b.left, b.right, n);
      }
    case Forall(_, _, _) =>
    case Exists(_, _, _) =>
    case Substitution(_, _, _) =>
  }

  lemma {:induction false} EqBothQuantifierFree(l: Formula, r: Formula, l': Formula, r': Formula, n: nat)
    requires (QuantifierFree(l) && QuantifierFree(r)) || (QuantifierFree(l') && QuantifierFree(r'))
    ensures EqBoth(l, r, l', r', n) == (l == l' && r == r', n)
    decreases Size(l) + Size(r), 1
  {
    EqQuantifierFree(l, l', n);
    EqQuantifierFree(r, r', n);
  }

  lemma {:induction false} EqArgsQuantifierFree(xs: seq<Formula>, ys: seq<Formula>, n: nat)
    requires |xs| == |ys|
    requires (forall a | a in xs :: QuantifierFree(a)) || (forall a | a in ys :: QuantifierFree(a))
    ensures EqArgs(xs, ys, n) == (xs == ys, n)
    decreases SumSizes(xs), 1
  {
    if xs != [] {
      assert xs[0] in xs && ys[0] in ys;
      assert forall a | a in xs[1..] :: a in xs;
      assert forall a | a in ys[1..] :: a in ys;
      EqQuantifierFree(xs[0], ys[0], n);
      EqArgsQuantifierFree(xs[1..], ys[1..], n);
      assert xs == [xs[0]] + xs[1..] && ys == [ys[0]] + ys[1..];
    }
  }

  /** A quantifier is equal to its own alpha-renaming, whatever the
      `doubled` flags say. */
  lemma EqRenamedBinder(v: string, w: string, b: Formula, d: bool, d': bool, n: nat)
    requires v != w
    ensures var (renamed, n1) := Subst(v, Var(w), b, n);
            Eq(Forall(v, b, d), Forall(w, renamed, d'), n) == (true, n1)
            && Eq(Exists(v, b, d), Exists(w, renamed, d'), n) == (true, n1)
  {
    var (renamed, n1) := Subst(v, Var(w), b, n);
    EqReflexive(renamed, n1);
  }

  /** Two quantifiers over quantifier-free bodies are equal exactly when
      renaming the first binder to the second turns the first body into
      the second, and the comparison leaves the counter alone. */
  lemma EqQuantifiedIff(v: string, b: Formula, d: bool, w: string, c: Formula, d': bool, n: nat)
    requires QuantifierFree(b)
    ensures Eq(Forall(v, b, d), Forall(w, c, d'), n)
            == (if v == w then b == c else Replace(v, Var(w), b) == c, n)
  {
    QuantifierFreeHasNoBinders(v, b);
    if v != w {
      SubstWithoutRebinding(v, Var(w), b, n);
      ReplaceKeepsQuantifierFree(v, Var(w), b);
      EqQuantifierFree(Replace(v, Var(w), b), c, n);
    } else {
      EqQuantifierFree(b, c, n);
    }
  }

  /** ast.py:97-98: a pending instantiation compares binder and body only;
      which quantifier it came from does not matter. */
  lemma EqIgnoresKind(v: string, b: Formula, n: nat)
    ensures Eq(Substitution(v, b, ForallKind), Substitution(v, b, ExistsKind), n) == (true, n)
  {
    EqReflexive(b, n);
  }

  /** Equality is not symmetric: renaming `x` to `y` in `P(x, y)` captures
      the free `y`, so `forall x. P(x, y)` equals `forall y. P(y, y)` but not
      the other way round. */
  lemma EqNotSymmetric()
    ensures var a := Forall("x", Atom("P", [Var("x"), Var("y")]), false);
            var b := Forall("y", Atom("P", [Var("y"), Var("y")]), false);
            Eq(a, b, 0).0 && !Eq(b, a, 0).0
  {
    var pxy := Atom("P", [Var("x"), Var("y")]);
    var pyy := Atom("P", [Var("y"), Var("y")]);
    var pxx := Atom("P", [Var("x"), Var("x")]);
    assert QuantifierFree(pxy) && QuantifierFree(pyy);
    EqQuantifiedIff("x", pxy, false, "y", pyy, false, 0);
    EqQuantifiedIff("y", pyy, false, "x", pxy, false, 0);
    var xy := [Var("x"), Var("y")];
    assert xy[1..] == [Var("y")] && xy[1..][1..] == [];
    assert ReplaceAll("x", Var("y"), xy) == [Var("y"), Var("y")];
    var yy := [Var("y"), Var("y")];
    assert yy[1..] == [Var("y")] && yy[1..][1..] == [];
    assert ReplaceAll("y", Var("x"), yy) == [Var("x"), Var("x")];
    assert Replace("y", Var("x"), pyy) == pxx != pxy;
  }

  /** Comparing never moves the counter backwards. */
  lemma {:induction false} EqAdvancesCounter(a: Formula, b: Formula, n: nat)
    ensures Eq(a, b, n).1 >= n
    decreases Size(a), 0
  {
    match a
    case Var(_) =>
    case App(_, args) =>
      if b.App? && |b.args| == |args| {
        EqArgsAdvancesCounter(args, b.args, n);
      }
    case Atom(_, args) =>
      if b.Atom? && |b.args| == |args| {
        EqArgsAdvancesCounter(args, b.args, n);
      }
    case Negation(p) => if b.Negation? { EqAdvancesCounter(p, b.argument, n); }
    case Implication(l, r) => if b.Implication? { EqBothAdvancesCounter(l, r, b.left, b.right, n); }
    case Disjunction(l, r) => if b.Disjunction? { EqBothAdvancesCounter(l, r, b.left, b.right, n); }
    case Conjunction(l, r) => if b.Conjunction? { EqBothAdvancesCounter(l, r, b.left, b.right, n); }
    case Forall(v, body, _) => if b.Forall? { EqUnderAdvancesCounter(v, body, b.binder, b.body, n); }
    case Exists(v, body, _) => if b.Exists? { EqUnderAdvancesCounter(v, body, b.binder, b.body, n); }
    case Substitution(_, body, _) => if b.Substitution? { EqAdvancesCounter(body, b.body, n); }
  }

  lemma {:induction false} EqBothAdvancesCounter(l: Formula, r: Formula, l': Formula, r': Formula, n: nat)
    ensures EqBoth(l, r, l', r', n).1 >= n
    decreases Size(l) + Size(r), 1
  {
    EqAdvancesCounter(l, l', n);
    EqAdvancesCounter(r, r', Eq(l, l', n).1);
  }

  lemma {:induction false} EqUnderAdvancesCounter(v: string, body: Formula, w: string, body': Formula, n: nat)
    ensures EqUnder(v, body, w, body', n).1 >= n
    decreases Size(body), 1
  {
    if v != w {
      SubstAdvancesCounter(v, Var(w), body, n);
      EqAdvancesCounter(Subst(v, Var(w), body, n).0, body', Subst(v, Var(w), body, n).1);
    } else {
      EqAdvancesCounter(body, body', n);
    }
  }

  lemma {:induction false} EqArgsAdvancesCounter(xs: seq<Formula>, ys: seq<Formula>, n: nat)
    requires |xs| == |ys|
    ensures EqArgs(xs, ys, n).1 >= n
    decreases SumSizes(xs), 1
  {
    if xs != [] {
      EqAdvancesCounter(xs[0], ys[0], n);
      EqArgsAdvancesCounter(xs[1..], ys[1..], Eq(xs[0], ys[0], n).1);
    }
  }

  // ---------------------------------------------------------------------------
  // Lists compared by equality
  // ---------------------------------------------------------------------------

  /** `x in s`: the elements are tried in order, up to the first equal one.
      CPython asks each element `e` whether `e == x`, so `e.__eq__` runs with
      `x` as its argument; the order matters because equality of
      quantifiers is not symmetric (`EqNotSymmetric`). */
  function InList(x: Formula, s: seq<Formula>, n: nat): (bool, nat)
  {
    if s == [] then (false, n)
    else
      var (e, n1) := Eq(s[0], x, n);
      if e then (true, n1) else InList(x, s[1..], n1)
  }

  /** The position of the first element `e` with `e == x`, if any. */
  function FindEqual(x: Formula, s: seq<Formula>, n: nat): (r: (Option<nat>, nat))
    ensures r.0.Some? ==> r.0.value < |s|
  {
    if s == [] then (None, n)
    else
      var (e, n1) := Eq(s[0], x, n);
      if e then (Some(0), n1)
      else
        var (k, n2) := FindEqual(x, s[1..], n1);
        (if k.Some? then Some(k.value + 1) else None, n2)
  }

  /** `s.remove(x)` on a list that holds `x`: the first element `e` with
      `e == x` goes. */
  function RemoveFirst(x: Formula, s: seq<Formula>, n: nat): (seq<Formula>, nat)
  {
    var (k, n1) := FindEqual(x, s, n);
    if k.Some? then (s[..k.value] + s[k.value + 1..], n1) else (s, n1)
  }

  /** `in` answers yes exactly when there is an equal element, with the
      same counter effect. */
  lemma {:induction false} InListFinds(x: Formula, s: seq<Formula>, n: nat)
    ensures InList(x, s, n) == (FindEqual(x, s, n).0.Some?, FindEqual(x, s, n).1)
    decreases |s|
  {
    if s != [] {
      InListFinds(x, s[1..], Eq(s[0], x, n).1);
    }
  }

  /** The element found is equal to `x`, and no earlier one is. */
  lemma {:induction false} FindEqualIsFirst(x: Formula, s: seq<Formula>, n: nat)
    requires QuantifierFree(x)
    ensures FindEqual(x, s, n).1 == n
    ensures var k := FindEqual(x, s, n).0;
            (k.Some? ==> s[k.value] == x && x !in s[..k.value]) && (k.None? ==> x !in s)
    decreases |s|
  {
    if s != [] {
      EqQuantifierFree(s[0], x, n);
      FindEqualIsFirst(x, s[1..], n);
      var k := FindEqual(x, s[1..], n).0;
      if k.Some? {
        assert s[1..][..k.value] == s[1..k.value + 1];
        assert s[..k.value + 1] == [s[0]] + s[1..k.value + 1];
      }
      assert s == [s[0]] + s[1..];
    }
  }

  /** Every list holding `x` holds an element equal to it, so `remove`
      finds one: the list loses exactly one element, at or before the first
      occurrence of `x` itself. */
  lemma {:induction false} RemoveFirstDeletesOne(x: Formula, s: seq<Formula>, n: nat)
    requires x in s
    ensures var k := FindEqual(x, s, n).0;
            k.Some? && (forall j | 0 <= j < |s| && s[j] == x :: k.value <= j)
            && RemoveFirst(x, s, n).0 == s[..k.value] + s[k.value + 1..]
    decreases |s|
  {
    var (e, n1) := Eq(s[0], x, n);
    if s[0] == x {
      EqReflexive(x, n);
    } else if !e {
      RemoveFirstDeletesOne(x, s[1..], n1);
      forall j | 0 < j < |s| && s[j] == x
        ensures FindEqual(x, s, n).0.value <= j
      {
        assert s[1..][j - 1] == x;
      }
    }
  }

  /** `remove` only deletes: every element left was in the list. */
  lemma RemoveFirstKeeps(x: Formula, s: seq<Formula>, n: nat)
    ensures forall g | g in RemoveFirst(x, s, n).0 :: g in s
  {
    var k := FindEqual(x, s, n).0;
    if k.Some? {
      assert forall g | g in s[..k.value] + s[k.value + 1..] :: g in s[..k.value] || g in s[k.value + 1..];
    }
  }

  /** Deleting the first occurrence of `x` itself: the reference for
      `remove` when equality is plain structural equality. */
  function Without(x: Formula, s: seq<Formula>): seq<Formula> {
    if s == [] then []
    else if s[0] == x then s[1..]
    else [s[0]] + Without(x, s[1..])
  }

  /** Putting the deleted formula back gives the same multiset. */
  lemma {:induction false} WithoutDeletesOne(x: Formula, s: seq<Formula>)
    requires x in s
    ensures multiset([x] + Without(x, s)) == multiset(s)
  {
    if s[0] != x {
      WithoutDeletesOne(x, s[1..]);
      assert s == [s[0]] + s[1..];
    } else {
      assert s == [x] + s[1..];
    }
  }

  /** `Without` cuts the list at the first occurrence, and leaves a list
      without one alone. */
  lemma {:induction false} WithoutCuts(x: Formula, s: seq<Formula>, k: nat)
    requires k <= |s| && x !in s[..k]
    ensures k < |s| && s[k] == x ==> Without(x, s) == s[..k] + s[k + 1..]
    ensures k == |s| ==> Without(x, s) == s
    decreases k
  {
    if k > 0 {
      assert s[0] in s[..k];
      assert s[1..][..k - 1] == s[1..k];
      assert x !in s[1..][..k - 1] by {
        assert forall g | g in s[1..k] :: g in s[..k];
      }
      WithoutCuts(x, s[1..], k - 1);
      assert s[..k] == [s[0]] + s[1..k];
    } else if s != [] && s[0] == x {
      assert s[..0] == [];
    }
  }

  /** For a quantifier-free formula, `remove` is `Without` and leaves the
      counter alone. */
  lemma RemoveFirstQuantifierFree(x: Formula, s: seq<Formula>, n: nat)
    requires QuantifierFree(x)
    ensures RemoveFirst(x, s, n) == (Without(x, s), n)
  {
    FindEqualIsFirst(x, s, n);
    var k := FindEqual(x, s, n).0;
    if k.Some? {
      WithoutCuts(x, s, k.value);
    } else {
      assert s[..|s|] == s;
      WithoutCuts(x, s, |s|);
    }
  }

  /** A list that holds `x` answers yes to `x in list`. */
  lemma InListHolds(x: Formula, s: seq<Formula>, n: nat)
    requires x in s
    ensures InList(x, s, n).0
  {
    InListFinds(x, s, n);
    RemoveFirstDeletesOne(x, s, n);
  }

  /** Searching a list never moves the counter back. */
  lemma {:induction false} FindEqualAdvancesCounter(x: Formula, s: seq<Formula>, n: nat)
    ensures FindEqual(x, s, n).1 >= n
    decreases |s|
  {
    if s != [] {
      EqAdvancesCounter(s[0], x, n);
      FindEqualAdvancesCounter(x, s[1..], Eq(s[0], x, n).1);
    }
  }
}
