/** `substitute(old, t, expr)` of ast.py: rewrite every occurrence of the
    variable `old` in `expr` by `t`, renaming a binder that is itself
    named `old` to a fresh name first.

    `Subst` is the specification, a function of the counter that returns the
    new counter; `Substitute` is the imperative procedure of the source
    (copy the node, then overwrite its fields one by one), proved to compute
    `Subst`.  The substituted variable is always an argless term (a binder),
    so it is given by its name `x`. */
module Substitutions {
  import opened Formulas
  import opened Names

  /** How many binders named `x` the tree has: substitute renames each. */
  function CountBinders(x: string, e: Formula): nat
    decreases Size(e), 0
  {
    match e
    case Var(_) => 0
    case App(_, args) => CountBindersIn(x, args)
    case Atom(_, args) => CountBindersIn(x, args)
    case Negation(a) => CountBinders(x, a)
    case Implication(l, r) => CountBinders(x, l) + CountBinders(x, r)
    case Disjunction(l, r) => CountBinders(x, l) + CountBinders(x, r)
    case Conjunction(l, r) => CountBinders(x, l) + CountBinders(x, r)
    case Forall(v, b, _) => (if v == x then 1 else 0) + CountBinders(x, b)
    case Exists(v, b, _) => (if v == x then 1 else 0) + CountBinders(x, b)
    case Substitution(v, b, _) => (if v == x then 1 else 0) + CountBinders(x, b)
  }

  function CountBindersIn(x: string, fs: seq<Formula>): nat
    decreases SumSizes(fs), 1
  {
    if fs == [] then 0 else CountBinders(x, fs[0]) + CountBindersIn(x, fs[1..])
  }

  /** The variable `x` occurs free in `e`. */
  predicate FreeIn(x: string, e: Formula)
    decreases Size(e), 0
  {
    match e
    case Var(y) => x == y
    case App(_, args) => FreeInSome(x, args)
    case Atom(_, args) => FreeInSome(x, args)
    case Negation(a) => FreeIn(x, a)
    case Implication(l, r) => FreeIn(x, l) || FreeIn(x, r)
    case Disjunction(l, r) => FreeIn(x, l) || FreeIn(x, r)
    case Conjunction(l, r) => FreeIn(x, l) || FreeIn(x, r)
    case Forall(v, b, _) => v != x && FreeIn(x, b)
    case Exists(v, b, _) => v != x && FreeIn(x, b)
    case Substitution(v, b, _) => v != x && FreeIn(x, b)
  }

  predicate FreeInSome(x: string, fs: seq<Formula>)
    decreases SumSizes(fs), 1
  {
    fs != [] && (FreeIn(x, fs[0]) || FreeInSome(x, fs[1..]))
  }

  /** The variable `x` occurs in `e`, free or bound (binders themselves not counted). */
  predicate Mentions(x: string, e: Formula)
    decreases Size(e), 0
  {
    match e
    case Var(y) => x == y
    case App(_, args) => MentionsSome(x, args)
    case Atom(_, args) => MentionsSome(x, args)
    case Negation(a) => Mentions(x, a)
    case Implication(l, r) => Mentions(x, l) || Mentions(x, r)
    case Disjunction(l, r) => Mentions(x, l) || Mentions(x, r)
    case Conjunction(l, r) => Mentions(x, l) || Mentions(x, r)
    case Forall(_, b, _) => Mentions(x, b)
    case Exists(_, b, _) => Mentions(x, b)
    case Substitution(_, b, _) => Mentions(x, b)
  }

  predicate MentionsSome(x: string, fs: seq<Formula>)
    decreases SumSizes(fs), 1
  {
    fs != [] && (Mentions(x, fs[0]) || MentionsSome(x, fs[1..]))
  }

  // ---------------------------------------------------------------------------
  // The specification
  // ---------------------------------------------------------------------------

  /** substitute(Var(x), t, e) with the counter at `n`; returns the result
      and the counter afterwards. */
  function Subst(x: string, t: Formula, e: Formula, n: nat): (r: (Formula, nat))
    ensures t.Var? ==> Size(r.0) == Size(e)
    decreases Size(e), 0
  {
    match e
      case Var(y) => if y == x then (t, n) else (e, n)
      case App(name, args) =>
        var (args', n') := SubstArgs(x, t, args, n);
        (App(name, args'), n')
      case Atom(name, args) =>
        var (args', n') := SubstArgs(x, t, args, n);
        (Atom(name, args'), n')
      case Negation(a) =>
        var (a', n') := Subst(x, t, a, n);
        (Negation(a'), n')
      case Implication(l, rt) =>
        var (l', n1) := Subst(x, t, l, n);
        var (r', n2) := Subst(x, t, rt, n1);
        (Implication(l', r'), n2)
      case Disjunction(l, rt) =>
        var (l', n1) := Subst(x, t, l, n);
        var (r', n2) := Subst(x, t, rt, n1);
        (Disjunction(l', r'), n2)
      case Conjunction(l, rt) =>
        var (l', n1) := Subst(x, t, l, n);
        var (r', n2) := Subst(x, t, rt, n1);
        (Conjunction(l', r'), n2)
      case Forall(v, b, _) =>
        var (v', b', n') := SubstUnder(x, t, v, b, n);
        (Forall(v', b', false), n')
      case Exists(v, b, _) =>
        var (v', b', n') := SubstUnder(x, t, v, b, n);
        (Exists(v', b', false), n')
      case Substitution(v, b, k) =>
        var (v', b', n') := SubstUnder(x, t, v, b, n);
        (Substitution(v', b', k), n')
  }

  /** The argument loop: each argument in turn, the counter threaded through. */
  function SubstArgs(x: string, t: Formula, args: seq<Formula>, n: nat): (r: (seq<Formula>, nat))
    ensures |r.0| == |args|
    ensures t.Var? ==> SumSizes(r.0) == SumSizes(args)
    decreases SumSizes(args), 1
  {
    if args == [] then ([], n)
    else
      var (a, n1) := Subst(x, t, args[0], n);
      var (rest, n2) := SubstArgs(x, t, args[1..], n1);
      ([a] + rest, n2)
  }

  /** Under a binder `v` with body `b`: a binder other than `x` is kept; a
      binder named `x` is renamed to the next fresh name of its family (the
      counter goes up first), that renaming is applied to the body, and
      only then is `x` substituted. */
  function SubstUnder(x: string, t: Formula, v: string, b: Formula, n: nat): (r: (string, Formula, nat))
    ensures t.Var? ==> Size(r.1) == Size(b)
    ensures v != x ==> r.0 == v
    ensures v == x ==> r.0 == Fresh(Family(v), n + 1)
    decreases Size(b), 1
  {
    if v != x then
      var (b', n1) := Subst(x, t, b, n);
      (v, b', n1)
    else
      var v' := Fresh(Family(v), n + 1);
      var (b1, n1) := Subst(v, Var(v'), b, n + 1);
      var (b2, n2) := Subst(x, t, b1, n1);
      (v', b2, n2)
  }

  // ---------------------------------------------------------------------------
  // The imperative procedure
  // ---------------------------------------------------------------------------

  lemma {:induction false} ArgSmaller(args: seq<Formula>, i: nat)
    requires i < |args|
    ensures Size(args[i]) <= SumSizes(args)
  {
    if i > 0 {
      ArgSmaller(args[1..], i - 1);
    }
  }

  /** ast.py:254-282: copy the node, then overwrite its argument list,
      operand or binder and body in place; `index` is the global counter. */
  method Substitute(x: string, t: Formula, expr: Formula, index: nat) returns (res: Formula, index': nat)
    ensures (res, index') == Subst(x, t, expr, index)
    decreases Size(expr), 0
  {
    index' := index;
    if expr == Var(x) {
      res := t;
    } else if expr.App? || expr.Atom? {
      var args;
      args, index' := SubstituteArgs(x, t, expr.args, index');
      res := if expr.App? then App(expr.name, args) else Atom(expr.name, args);
    } else if expr.Negation? {
      var a;
      a, index' := Substitute(x, t, expr.argument, index');
      res := Negation(a);
    } else if IsBinder(expr) {
      var v, body;
      v, body, index' := SubstituteUnder(x, t, expr.binder, expr.body, index');
      res := match expr
        case Forall(_, _, _) => Forall(v, body, false)
        case Exists(_, _, _) => Exists(v, body, false)
        case Substitution(_, _, k) => Substitution(v, body, k);
    } else if expr.Implication? || expr.Disjunction? || expr.Conjunction? {
      var l, r;
      l, index' := Substitute(x, t, expr.left, index');
      r, index' := Substitute(x, t, expr.right, index');
      res := match expr
        case Implication(_, _) => Implication(l, r)
        case Disjunction(_, _) => Disjunction(l, r)
        case Conjunction(_, _) => Conjunction(l, r);
    } else {
      res := expr;
    }
  }

  /** The argument loop of ast.py:258-263, writing `res.args[i]` in place. */
  method SubstituteArgs(x: string, t: Formula, fs: seq<Formula>, index: nat) returns (args: seq<Formula>, index': nat)
    ensures (args, index') == SubstArgs(x, t, fs, index)
    decreases SumSizes(fs), 1
  {
    args, index' := fs, index;
    assert fs[0..] == fs && args[..0] == [];
    assert SubstArgs(x, t, fs, index).0 == [] + SubstArgs(x, t, fs, index).0;
    for i := 0 to |fs|
      invariant |args| == |fs|
      invariant SubstArgs(x, t, fs, index) == Glue(args[..i], SubstArgs(x, t, fs[i..], index'))
    {
      ArgSmaller(fs, i);
      ghost var done := args[..i];
      SubstArgsStep(x, t, fs, i, index', done);
      var a;
      a, index' := Substitute(x, t, fs[i], index');
      args := args[i := a];
      assert args[..i + 1] == done + [a];
    }
    assert args[..|fs|] == args && fs[|fs|..] == [];
    assert args + [] == args;
  }

  /** A prefix already substituted, glued in front of the substituted rest. */
  function Glue(done: seq<Formula>, rest: (seq<Formula>, nat)): (seq<Formula>, nat) {
    (done + rest.0, rest.1)
  }

  lemma SubstArgsStep(x: string, t: Formula, fs: seq<Formula>, i: nat, n: nat, done: seq<Formula>)
    requires i < |fs|
    ensures var (a, n1) := Subst(x, t, fs[i], n);
            Glue(done, SubstArgs(x, t, fs[i..], n)) == Glue(done + [a], SubstArgs(x, t, fs[i + 1..], n1))
  {
    assert fs[i..][0] == fs[i] && fs[i..][1..] == fs[i + 1..];
    var (a, n1) := Subst(x, t, fs[i], n);
    var rest := SubstArgs(x, t, fs[i + 1..], n1).0;
    assert done + ([a] + rest) == (done + [a]) + rest;
  }

  /** The binder branch of ast.py:268-280. */
  method SubstituteUnder(x: string, t: Formula, binder: string, body: Formula, index: nat)
    returns (v: string, b: Formula, index': nat)
    ensures (v, b, index') == SubstUnder(x, t, binder, body, index)
    decreases Size(body), 1
  {
    v, b, index' := binder, body, index;
    if binder != x {
      b, index' := Substitute(x, t, b, index');
    } else {
      index' := index' + 1;
      v := Fresh(Family(binder), index');
      b, index' := Substitute(binder, Var(v), b, index');
      b, index' := Substitute(x, t, b, index');
    }
  }

  // ---------------------------------------------------------------------------
  // Properties
  // ---------------------------------------------------------------------------

  /** A reference definition: plain replacement of every `Var(x)` by `t`,
      binders untouched (and `doubled` reset, as the copies do). */
  function Replace(x: string, t: Formula, e: Formula): Formula
    decreases Size(e), 0
  {
    match e
      case Var(y) => if y == x then t else e
      case App(name, args) => App(name, ReplaceAll(x, t, args))
      case Atom(name, args) => Atom(name, ReplaceAll(x, t, args))
      case Negation(a) => Negation(Replace(x, t, a))
      case Implication(l, r) => Implication(Replace(x, t, l), Replace(x, t, r))
      case Disjunction(l, r) => Disjunction(Replace(x, t, l), Replace(x, t, r))
      case Conjunction(l, r) => Conjunction(Replace(x, t, l), Replace(x, t, r))
      case Forall(v, b, _) => Forall(v, Replace(x, t, b), false)
      case Exists(v, b, _) => Exists(v, Replace(x, t, b), false)
      case Substitution(v, b, k) => Substitution(v, Replace(x, t, b), k)
  }

  function ReplaceAll(x: string, t: Formula, fs: seq<Formula>): (r: seq<Formula>)
    ensures |r| == |fs|
    decreases SumSizes(fs), 1
  {
    if fs == [] then [] else [Replace(x, t, fs[0])] + ReplaceAll(x, t, fs[1..])
  }

  /** When no binder is named `x`, substitute is plain replacement and leaves
      the counter alone, whatever its value. */
  lemma {:induction false} SubstWithoutRebinding(x: string, t: Formula, e: Formula, n: nat)
    requires CountBinders(x, e) == 0
    ensures Subst(x, t, e, n) == (Replace(x, t, e), n)
    decreases Size(e), 0
  {
    match e
    case Var(_) =>
    case App(_, args) => SubstArgsWithoutRebinding(x, t, args, n); ListNodeReplaces(x, t, e, n);
    case Atom(_, args) => SubstArgsWithoutRebinding(x, t, args, n); ListNodeReplaces(x, t, e, n);
    case Negation(a) =>
      SubstWithoutRebinding(x, t, a, n);
      assert Subst(x, t, e, n) == (Negation(Subst(x, t, a, n).0), Subst(x, t, a, n).1);
    case Implication(l, r) =>
      SubstWithoutRebinding(x, t, l, n); SubstWithoutRebinding(x, t, r, n); BinaryNodeReplaces(x, t, e, n);
    case Disjunction(l, r) =>
      SubstWithoutRebinding(x, t, l, n); SubstWithoutRebinding(x, t, r, n); BinaryNodeReplaces(x, t, e, n);
    case Conjunction(l, r) =>
      SubstWithoutRebinding(x, t, l, n); SubstWithoutRebinding(x, t, r, n); BinaryNodeReplaces(x, t, e, n);
    case Forall(_, b, _) => SubstWithoutRebinding(x, t, b, n); BinderNodeReplaces(x, t, e, n);
    case Exists(_, b, _) => SubstWithoutRebinding(x, t, b, n); BinderNodeReplaces(x, t, e, n);
    case Substitution(_, b, _) => SubstWithoutRebinding(x, t, b, n); BinderNodeReplaces(x, t, e, n);
  }

  /** The three node shapes: when its parts are plain replacements that
      leave the counter, so is the node. */
  lemma ListNodeReplaces(x: string, t: Formula, e: Formula, n: nat)
    requires e.App? || e.Atom?
    requires SubstArgs(x, t, e.args, n) == (ReplaceAll(x, t, e.args), n)
    ensures Subst(x, t, e, n) == (Replace(x, t, e), n)
  {
  }

  lemma BinaryNodeReplaces(x: string, t: Formula, e: Formula, n: nat)
    requires e.Implication? || e.Disjunction? || e.Conjunction?
    requires Subst(x, t, e.left, n) == (Replace(x, t, e.left), n)
    requires Subst(x, t, e.right, n) == (Replace(x, t, e.right), n)
    ensures Subst(x, t, e, n) == (Replace(x, t, e), n)
  {
  }

  lemma BinderNodeReplaces(x: string, t: Formula, e: Formula, n: nat)
    requires (e.Forall? || e.Exists? || e.Substitution?) && e.binder != x
    requires Subst(x, t, e.body, n) == (Replace(x, t, e.body), n)
    ensures Subst(x, t, e, n) == (Replace(x, t, e), n)
  {
  }

  lemma {:induction false} SubstArgsWithoutRebinding(x: string, t: Formula, fs: seq<Formula>, n: nat)
    requires CountBindersIn(x, fs) == 0
    ensures SubstArgs(x, t, fs, n) == (ReplaceAll(x, t, fs), n)
    decreases SumSizes(fs), 1
  {
    if fs != [] {
      SubstWithoutRebinding(x, t, fs[0], n);
      SubstArgsWithoutRebinding(x, t, fs[1..], n);
    }
  }

  /** No free occurrence of `x` survives, unless `t` brings one. */
  lemma {:induction false} SubstEliminatesFree(x: string, t: Formula, e: Formula, n: nat)
    requires !FreeIn(x, t)
    ensures !FreeIn(x, Subst(x, t, e, n).0)
    decreases Size(e), 0
  {
    match e
    case Var(_) =>
    case App(_, args) =>
      SubstArgsEliminatesFree(x, t, args, n);
      ListNodeKeepsFree(x, t, e, n);
    case Atom(_, args) =>
      SubstArgsEliminatesFree(x, t, args, n);
      ListNodeKeepsFree(x, t, e, n);
    case Negation(a) =>
      SubstEliminatesFree(x, t, a, n);
      assert Subst(x, t, e, n).0 == Negation(Subst(x, t, a, n).0);
    case Implication(l, r) =>
      SubstPairEliminatesFree(x, t, l, r, n);
      BinaryNodeKeepsFree(x, t, e, n);
    case Disjunction(l, r) =>
      SubstPairEliminatesFree(x, t, l, r, n);
      BinaryNodeKeepsFree(x, t, e, n);
    case Conjunction(l, r) =>
      SubstPairEliminatesFree(x, t, l, r, n);
      BinaryNodeKeepsFree(x, t, e, n);
    case Forall(v, b, _) =>
      SubstUnderEliminatesFree(x, t, v, b, n);
      BinderNodeKeepsFree(x, t, e, n);
    case Exists(v, b, _) =>
      SubstUnderEliminatesFree(x, t, v, b, n);
      BinderNodeKeepsFree(x, t, e, n);
    case Substitution(v, b, _) =>
      SubstUnderEliminatesFree(x, t, v, b, n);
      BinderNodeKeepsFree(x, t, e, n);
  }

  /** The three node shapes: a substituted node has a free `x` only where
      one of its substituted parts has. */
  lemma ListNodeKeepsFree(x: string, t: Formula, e: Formula, n: nat)
    requires e.App? || e.Atom?
    requires !FreeInSome(x, SubstArgs(x, t, e.args, n).0)
    ensures !FreeIn(x, Subst(x, t, e, n).0)
  {
  }

  lemma BinaryNodeKeepsFree(x: string, t: Formula, e: Formula, n: nat)
    requires e.Implication? || e.Disjunction? || e.Conjunction?
    requires var (l', n1) := Subst(x, t, e.left, n);
             !FreeIn(x, l') && !FreeIn(x, Subst(x, t, e.right, n1).0)
    ensures !FreeIn(x, Subst(x, t, e, n).0)
  {
  }

  lemma BinderNodeKeepsFree(x: string, t: Formula, e: Formula, n: nat)
    requires e.Forall? || e.Exists? || e.Substitution?
    requires var r := SubstUnder(x, t, e.binder, e.body, n); r.0 == x || !FreeIn(x, r.1)
    ensures !FreeIn(x, Subst(x, t, e, n).0)
  {
  }

  lemma {:induction false} SubstPairEliminatesFree(x: string, t: Formula, l: Formula, r: Formula, n: nat)
    requires !FreeIn(x, t)
    ensures var (l', n1) := Subst(x, t, l, n);
            !FreeIn(x, l') && !FreeIn(x, Subst(x, t, r, n1).0)
    decreases Size(l) + Size(r), 1
  {
    SubstEliminatesFree(x, t, l, n);
    SubstEliminatesFree(x, t, r, Subst(x, t, l, n).1);
  }

  lemma {:induction false} SubstUnderEliminatesFree(x: string, t: Formula, v: string, b: Formula, n: nat)
    requires !FreeIn(x, t)
    ensures var r := SubstUnder(x, t, v, b, n); r.0 == x || !FreeIn(x, r.1)
    decreases Size(b), 1
  {
    if v != x {
      SubstEliminatesFree(x, t, b, n);
    } else {
      var v' := Fresh(Family(v), n + 1);
      var (b1, n1) := Subst(v, Var(v'), b, n + 1);
      SubstEliminatesFree(x, t, b1, n1);
    }
  }

  lemma {:induction false} SubstArgsEliminatesFree(x: string, t: Formula, fs: seq<Formula>, n: nat)
    requires !FreeIn(x, t)
    ensures !FreeInSome(x, SubstArgs(x, t, fs, n).0)
    decreases SumSizes(fs), 1
  {
    if fs != [] {
      SubstEliminatesFree(x, t, fs[0], n);
      var n1 := Subst(x, t, fs[0], n).1;
      SubstArgsEliminatesFree(x, t, fs[1..], n1);
      var r := SubstArgs(x, t, fs, n).0;
      assert r[1..] == SubstArgs(x, t, fs[1..], n1).0;
    }
  }

  /** Each binder named `x` costs one tick of the counter, and the counter
      never goes down. */
  lemma {:induction false} SubstAdvancesCounter(x: string, t: Formula, e: Formula, n: nat)
    ensures Subst(x, t, e, n).1 >= n + CountBinders(x, e)
    decreases Size(e), 0
  {
    match e
    case Var(_) =>
    case App(_, args) => SubstArgsAdvancesCounter(x, t, args, n); ListNodeCounts(x, t, e, n);
    case Atom(_, args) => SubstArgsAdvancesCounter(x, t, args, n); ListNodeCounts(x, t, e, n);
    case Negation(a) =>
      SubstAdvancesCounter(x, t, a, n);
      assert Subst(x, t, e, n).1 == Subst(x, t, a, n).1;
    case Implication(l, r) => SubstPairAdvancesCounter(x, t, l, r, n); BinaryNodeCounts(x, t, e, n);
    case Disjunction(l, r) => SubstPairAdvancesCounter(x, t, l, r, n); BinaryNodeCounts(x, t, e, n);
    case Conjunction(l, r) => SubstPairAdvancesCounter(x, t, l, r, n); BinaryNodeCounts(x, t, e, n);
    case Forall(v, b, _) => SubstUnderAdvancesCounter(x, t, v, b, n); BinderNodeCounts(x, t, e, n);
    case Exists(v, b, _) => SubstUnderAdvancesCounter(x, t, v, b, n); BinderNodeCounts(x, t, e, n);
    case Substitution(v, b, _) => SubstUnderAdvancesCounter(x, t, v, b, n); BinderNodeCounts(x, t, e, n);
  }

  /** The three node shapes: the node's counter moves as far as its parts'. */
  lemma ListNodeCounts(x: string, t: Formula, e: Formula, n: nat)
    requires e.App? || e.Atom?
    requires SubstArgs(x, t, e.args, n).1 >= n + CountBindersIn(x, e.args)
    ensures Subst(x, t, e, n).1 >= n + CountBinders(x, e)
  {
  }

  lemma BinaryNodeCounts(x: string, t: Formula, e: Formula, n: nat)
    requires e.Implication? || e.Disjunction? || e.Conjunction?
    requires var n1 := Subst(x, t, e.left, n).1;
             Subst(x, t, e.right, n1).1 >= n + CountBinders(x, e.left) + CountBinders(x, e.right)
    ensures Subst(x, t, e, n).1 >= n + CountBinders(x, e)
  {
  }

  lemma BinderNodeCounts(x: string, t: Formula, e: Formula, n: nat)
    requires e.Forall? || e.Exists? || e.Substitution?
    requires SubstUnder(x, t, e.binder, e.body, n).2 >= n + (if e.binder == x then 1 else 0) + CountBinders(x, e.body)
    ensures Subst(x, t, e, n).1 >= n + CountBinders(x, e)
  {
  }

  lemma {:induction false} SubstPairAdvancesCounter(x: string, t: Formula, l: Formula, r: Formula, n: nat)
    ensures var n1 := Subst(x, t, l, n).1;
            Subst(x, t, r, n1).1 >= n + CountBinders(x, l) + CountBinders(x, r)
    decreases Size(l) + Size(r), 1
  {
    SubstAdvancesCounter(x, t, l, n);
    SubstAdvancesCounter(x, t, r, Subst(x, t, l, n).1);
  }

  lemma {:induction false} SubstUnderAdvancesCounter(x: string, t: Formula, v: string, b: Formula, n: nat)
    ensures SubstUnder(x, t, v, b, n).2 >= n + (if v == x then 1 else 0) + CountBinders(x, b)
    decreases Size(b), 1
  {
    if v != x {
      SubstAdvancesCounter(x, t, b, n);
    } else {
      var v' := Fresh(Family(v), n + 1);
      var (b1, n1) := Subst(v, Var(v'), b, n + 1);
      SubstAdvancesCounter(v, Var(v'), b, n + 1);
      SubstAdvancesCounter(x, t, b1, n1);
    }
  }

  lemma {:induction false} SubstArgsAdvancesCounter(x: string, t: Formula, fs: seq<Formula>, n: nat)
    ensures SubstArgs(x, t, fs, n).1 >= n + CountBindersIn(x, fs)
    decreases SumSizes(fs), 1
  {
    if fs != [] {
      SubstAdvancesCounter(x, t, fs[0], n);
      SubstArgsAdvancesCounter(x, t, fs[1..], Subst(x, t, fs[0], n).1);
    }
  }

  /** Substituting a term keeps the formula well formed, and the result is a
      term exactly when the input was. */
  lemma {:induction false} SubstKeepsWellFormed(x: string, t: Formula, e: Formula, n: nat)
    requires IsTerm(t) && WellFormed(t) && WellFormed(e)
    ensures IsTerm(Subst(x, t, e, n).0) <==> IsTerm(e)
    ensures WellFormed(Subst(x, t, e, n).0)
    decreases Size(e), 0
  {
    match e
    case Var(_) =>
    case App(_, args) => SubstArgsKeepsWellFormed(x, t, args, n);
    case Atom(_, args) => SubstArgsKeepsWellFormed(x, t, args, n);
    case Negation(a) => SubstKeepsWellFormed(x, t, a, n);
    case Implication(l, r) => SubstPairKeepsWellFormed(x, t, l, r, n);
    case Disjunction(l, r) => SubstPairKeepsWellFormed(x, t, l, r, n);
    case Conjunction(l, r) => SubstPairKeepsWellFormed(x, t, l, r, n);
    case Forall(v, b, _) => SubstUnderKeepsWellFormed(x, t, v, b, n);
    case Exists(v, b, _) => SubstUnderKeepsWellFormed(x, t, v, b, n);
    case Substitution(v, b, _) => SubstUnderKeepsWellFormed(x, t, v, b, n);
  }

  lemma {:induction false} SubstPairKeepsWellFormed(x: string, t: Formula, l: Formula, r: Formula, n: nat)
    requires IsTerm(t) && WellFormed(t) && WellFormed(l) && WellFormed(r)
    ensures var (l', n1) := Subst(x, t, l, n);
            var r' := Subst(x, t, r, n1).0;
            (IsTerm(l') <==> IsTerm(l)) && WellFormed(l') && (IsTerm(r') <==> IsTerm(r)) && WellFormed(r')
    decreases Size(l) + Size(r), 1
  {
    SubstKeepsWellFormed(x, t, l, n);
    SubstKeepsWellFormed(x, t, r, Subst(x, t, l, n).1);
  }

  lemma {:induction false} SubstUnderKeepsWellFormed(x: string, t: Formula, v: string, b: Formula, n: nat)
    requires IsTerm(t) && WellFormed(t) && WellFormed(b)
    ensures var b' := SubstUnder(x, t, v, b, n).1;
            (IsTerm(b') <==> IsTerm(b)) && WellFormed(b')
    decreases Size(b), 1
  {
    if v != x {
      SubstKeepsWellFormed(x, t, b, n);
    } else {
      var v' := Fresh(Family(v), n + 1);
      var (b1, n1) := Subst(v, Var(v'), b, n + 1);
      SubstKeepsWellFormed(v, Var(v'), b, n + 1);
      SubstKeepsWellFormed(x, t, b1, n1);
    }
  }

  lemma {:induction false} SubstArgsKeepsWellFormed(x: string, t: Formula, fs: seq<Formula>, n: nat)
    requires IsTerm(t) && WellFormed(t)
    requires forall a | a in fs :: IsTerm(a) && WellFormed(a)
    ensures forall a | a in SubstArgs(x, t, fs, n).0 :: IsTerm(a) && WellFormed(a)
    decreases SumSizes(fs), 1
  {
    if fs != [] {
      assert fs[0] in fs;
      SubstKeepsWellFormed(x, t, fs[0], n);
      assert forall a | a in fs[1..] :: a in fs;
      SubstArgsKeepsWellFormed(x, t, fs[1..], Subst(x, t, fs[0], n).1);
    }
  }

  /** Replacing by a variable neither adds nor removes binders. */
  lemma {:induction false} ReplaceKeepsBinders(y: string, x: string, z: string, e: Formula)
    ensures CountBinders(y, Replace(x, Var(z), e)) == CountBinders(y, e)
    decreases Size(e), 0
  {
    match e
    case Var(_) =>
    case App(_, args) => ReplaceAllKeepsBinders(y, x, z, args);
    case Atom(_, args) => ReplaceAllKeepsBinders(y, x, z, args);
    case Negation(a) => ReplaceKeepsBinders(y, x, z, a);
    case Implication(l, r) => ReplaceKeepsBinders(y, x, z, l); ReplaceKeepsBinders(y, x, z, r);
    case Disjunction(l, r) => ReplaceKeepsBinders(y, x, z, l); ReplaceKeepsBinders(y, x, z, r);
    case Conjunction(l, r) => ReplaceKeepsBinders(y, x, z, l); ReplaceKeepsBinders(y, x, z, r);
    case Forall(_, b, _) => ReplaceKeepsBinders(y, x, z, b);
    case Exists(_, b, _) => ReplaceKeepsBinders(y, x, z, b);
    case Substitution(_, b, _) => ReplaceKeepsBinders(y, x, z, b);
  }

  lemma {:induction false} ReplaceAllKeepsBinders(y: string, x: string, z: string, fs: seq<Formula>)
    ensures CountBindersIn(y, ReplaceAll(x, Var(z), fs)) == CountBindersIn(y, fs)
    decreases SumSizes(fs), 1
  {
    if fs != [] {
      ReplaceKeepsBinders(y, x, z, fs[0]);
      ReplaceAllKeepsBinders(y, x, z, fs[1..]);
      assert ReplaceAll(x, Var(z), fs)[1..] == ReplaceAll(x, Var(z), fs[1..]);
    }
  }

  /** Once every `x` has been renamed to `z`, replacing `x` again changes nothing. */
  lemma {:induction false} ReplaceAfterRename(x: string, z: string, t: Formula, e: Formula)
    requires z != x
    ensures Replace(x, t, Replace(x, Var(z), e)) == Replace(x, Var(z), e)
    decreases Size(e), 0
  {
    match e
    case Var(_) =>
    case App(_, args) => ReplaceAllAfterRename(x, z, t, args);
    case Atom(_, args) => ReplaceAllAfterRename(x, z, t, args);
    case Negation(a) => ReplaceAfterRename(x, z, t, a);
    case Implication(l, r) => ReplaceAfterRename(x, z, t, l); ReplaceAfterRename(x, z, t, r);
    case Disjunction(l, r) => ReplaceAfterRename(x, z, t, l); ReplaceAfterRename(x, z, t, r);
    case Conjunction(l, r) => ReplaceAfterRename(x, z, t, l); ReplaceAfterRename(x, z, t, r);
    case Forall(_, b, _) => ReplaceAfterRename(x, z, t, b);
    case Exists(_, b, _) => ReplaceAfterRename(x, z, t, b);
    case Substitution(_, b, _) => ReplaceAfterRename(x, z, t, b);
  }

  lemma {:induction false} ReplaceAllAfterRename(x: string, z: string, t: Formula, fs: seq<Formula>)
    requires z != x
    ensures ReplaceAll(x, t, ReplaceAll(x, Var(z), fs)) == ReplaceAll(x, Var(z), fs)
    decreases SumSizes(fs), 1
  {
    if fs != [] {
      ReplaceAfterRename(x, z, t, fs[0]);
      ReplaceAllAfterRename(x, z, t, fs[1..]);
      var r := ReplaceAll(x, Var(z), fs);
      assert r[0] == Replace(x, Var(z), fs[0]) && r[1..] == ReplaceAll(x, Var(z), fs[1..]);
      assert r == [r[0]] + r[1..];
    }
  }

  /** A binder named `x` shadows `x`: substitute renames it to the next fresh
      name (one tick of the counter when nothing below rebinds `x`) and `t`
      never enters the body. */
  lemma ShadowingBinderOnlyRenames(x: string, t: Formula, b: Formula, n: nat)
    requires CountBinders(x, b) == 0
    requires Fresh(Family(x), n + 1) != x
    ensures var v' := Fresh(Family(x), n + 1);
            SubstUnder(x, t, x, b, n) == (v', Replace(x, Var(v'), b), n + 1)
  {
    var v' := Fresh(Family(x), n + 1);
    SubstWithoutRebinding(x, Var(v'), b, n + 1);
    var b1 := Replace(x, Var(v'), b);
    ReplaceKeepsBinders(x, x, v', b);
    SubstWithoutRebinding(x, t, b1, n + 1);
    ReplaceAfterRename(x, v', t, b);
  }

  /** Free variables of `t` can be captured: substitute does not rename a
      binder that merely occurs in `t`, so `x` := `y` under `forall y`
      binds the new `y`. */
  lemma CaptureExample()
    ensures var e := Forall("y", Atom("P", [Var("x"), Var("y")]), false);
            Subst("x", Var("y"), e, 0) == (Forall("y", Atom("P", [Var("y"), Var("y")]), false), 0)
  {
    var args := [Var("x"), Var("y")];
    assert args[1..] == [Var("y")] && args[1..][1..] == [];
    assert Subst("x", Var("y"), Var("x"), 0) == (Var("y"), 0);
    assert Subst("x", Var("y"), Var("y"), 0) == (Var("y"), 0);
    assert SubstArgs("x", Var("y"), [], 0) == ([], 0);
    var one := [Var("y")];
    assert one[0] == Var("y") && one[1..] == [] && [Var("y")] + [] == one;
    assert SubstArgs("x", Var("y"), one, 0) == (one, 0);
    assert [Var("y")] + one == [Var("y"), Var("y")];
    assert SubstArgs("x", Var("y"), args, 0) == ([Var("y"), Var("y")], 0);
  }

  /** Quantifier-free formulas have no binder to rename. */
  lemma {:induction false} QuantifierFreeHasNoBinders(x: string, e: Formula)
    requires QuantifierFree(e)
    ensures CountBinders(x, e) == 0
    decreases Size(e), 0
  {
    match e
    case Var(_) =>
    case App(_, args) => QuantifierFreeArgsHaveNoBinders(x, args);
    case Atom(_, args) => QuantifierFreeArgsHaveNoBinders(x, args);
    case Negation(a) => QuantifierFreeHasNoBinders(x, a);
    case Implication(l, r) => QuantifierFreeHasNoBinders(x, l); QuantifierFreeHasNoBinders(x, r);
    case Disjunction(l, r) => QuantifierFreeHasNoBinders(x, l); QuantifierFreeHasNoBinders(x, r);
    case Conjunction(l, r) => QuantifierFreeHasNoBinders(x, l); QuantifierFreeHasNoBinders(x, r);
  }

  lemma {:induction false} QuantifierFreeArgsHaveNoBinders(x: string, fs: seq<Formula>)
    requires forall a | a in fs :: QuantifierFree(a)
    ensures CountBindersIn(x, fs) == 0
    decreases SumSizes(fs), 1
  {
    if fs != [] {
      assert fs[0] in fs;
      assert forall a | a in fs[1..] :: a in fs;
      QuantifierFreeHasNoBinders(x, fs[0]);
      QuantifierFreeArgsHaveNoBinders(x, fs[1..]);
    }
  }

  /** Replacing by a quantifier-free formula keeps a formula quantifier-free. */
  lemma {:induction false} ReplaceKeepsQuantifierFree(x: string, t: Formula, e: Formula)
    requires QuantifierFree(t) && QuantifierFree(e)
    ensures QuantifierFree(Replace(x, t, e))
    decreases Size(e), 0
  {
    match e
    case Var(_) =>
    case App(_, args) => ReplaceAllKeepsQuantifierFree(x, t, args);
    case Atom(_, args) => ReplaceAllKeepsQuantifierFree(x, t, args);
    case Negation(a) => ReplaceKeepsQuantifierFree(x, t, a);
    case Implication(l, r) => ReplaceKeepsQuantifierFree(x, t, l); ReplaceKeepsQuantifierFree(x, t, r);
    case Disjunction(l, r) => ReplaceKeepsQuantifierFree(x, t, l); ReplaceKeepsQuantifierFree(x, t, r);
    case Conjunction(l, r) => ReplaceKeepsQuantifierFree(x, t, l); ReplaceKeepsQuantifierFree(x, t, r);
  }

  lemma {:induction false} ReplaceAllKeepsQuantifierFree(x: string, t: Formula, fs: seq<Formula>)
    requires QuantifierFree(t)
    requires forall a | a in fs :: QuantifierFree(a)
    ensures forall a | a in ReplaceAll(x, t, fs) :: QuantifierFree(a)
    decreases SumSizes(fs), 1
  {
    if fs != [] {
      assert fs[0] in fs;
      assert forall a | a in fs[1..] :: a in fs;
      ReplaceKeepsQuantifierFree(x, t, fs[0]);
      ReplaceAllKeepsQuantifierFree(x, t, fs[1..]);
    }
  }
}
