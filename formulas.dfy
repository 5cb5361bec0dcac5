/** The formula tree of the prover (ast.py): terms, predicate atoms, the four
    propositional connectives, the two quantifiers and the pending quantifier
    instantiation that the quantifier rules create.

    Formulas are immutable values here.  The Python objects are mutable and
    shared between sequent lists; the model keeps the per-node `doubled` flag
    inside the quantifier value instead, so that a branch of the search only
    sees its own flag. */
module Formulas {
  import opened Wrappers

  /** The `kind` string of a pending instantiation: the quantifier it came from. */
  datatype Kind = ForallKind | ExistsKind

  /** `Var(x)` is a `Term` built without an argument list (a variable or a
      constant); `App(f, args)` is a `Term` built with one, possibly empty,
      so `Var("a")` and `App("a", [])` are different terms, as in the source.
      A binder is an argless term, so quantifiers store only its name. */
  datatype Formula =
    | Var(name: string)
    | App(name: string, args: seq<Formula>)
    | Atom(name: string, args: seq<Formula>)
    | Negation(argument: Formula)
    | Implication(left: Formula, right: Formula)
    | Disjunction(left: Formula, right: Formula)
    | Conjunction(left: Formula, right: Formula)
    | Forall(binder: string, body: Formula, doubled: bool)
    | Exists(binder: string, body: Formula, doubled: bool)
    | Substitution(binder: string, body: Formula, kind: Kind)

  /** `isinstance(f, Term)` */
  predicate IsTerm(f: Formula) {
    f.Var? || f.App?
  }

  /** `has_next`: the formula is a predicate atom. */
  predicate IsAtom(f: Formula) {
    f.Atom?
  }

  /** `aware_recursion`: the node binds a variable. */
  predicate IsBinder(f: Formula) {
    f.Forall? || f.Exists? || f.Substitution?
  }

  /** The formulas that have introduction rules: connectives and quantifiers. */
  predicate IsDecomposable(f: Formula) {
    f.Negation? || f.Implication? || f.Disjunction? || f.Conjunction? || f.Forall? || f.Exists?
  }

  /** What the validating constructors guarantee, for every node: the arguments
      of terms and atoms are terms, and operands and bodies are not terms.
      The Substitution constructor checks nothing, but every pending
      instantiation that the rules build has a non-term body, and the search
      relies on it. */
  predicate WellFormed(f: Formula) {
    match f
    case Var(_) => true
    case App(_, args) => forall a | a in args :: IsTerm(a) && WellFormed(a)
    case Atom(_, args) => forall a | a in args :: IsTerm(a) && WellFormed(a)
    case Negation(a) => !IsTerm(a) && WellFormed(a)
    case Implication(l, r) => !IsTerm(l) && !IsTerm(r) && WellFormed(l) && WellFormed(r)
    case Disjunction(l, r) => !IsTerm(l) && !IsTerm(r) && WellFormed(l) && WellFormed(r)
    case Conjunction(l, r) => !IsTerm(l) && !IsTerm(r) && WellFormed(l) && WellFormed(r)
    case Forall(_, b, _) => !IsTerm(b) && WellFormed(b)
    case Exists(_, b, _) => !IsTerm(b) && WellFormed(b)
    case Substitution(_, b, _) => !IsTerm(b) && WellFormed(b)
  }

  /** Number of nodes; the measure for recursion over formulas. */
  function Size(f: Formula): (s: nat)
    ensures s >= 1
  {
    match f
    case Var(_) => 1
    case App(_, args) => 1 + SumSizes(args)
    case Atom(_, args) => 1 + SumSizes(args)
    case Negation(a) => 1 + Size(a)
    case Implication(l, r) => 1 + Size(l) + Size(r)
    case Disjunction(l, r) => 1 + Size(l) + Size(r)
    case Conjunction(l, r) => 1 + Size(l) + Size(r)
    case Forall(_, b, _) => 1 + Size(b)
    case Exists(_, b, _) => 1 + Size(b)
    case Substitution(_, b, _) => 1 + Size(b)
  }

  function SumSizes(fs: seq<Formula>): (s: nat)
    ensures fs != [] ==> s >= |fs|
  {
    if fs == [] then 0 else Size(fs[0]) + SumSizes(fs[1..])
  }

  /** No quantifier and no pending instantiation anywhere in the tree. */
  predicate QuantifierFree(f: Formula) {
    match f
    case Var(_) => true
    case App(_, args) => forall a | a in args :: QuantifierFree(a)
    case Atom(_, args) => forall a | a in args :: QuantifierFree(a)
    case Negation(a) => QuantifierFree(a)
    case Implication(l, r) => QuantifierFree(l) && QuantifierFree(r)
    case Disjunction(l, r) => QuantifierFree(l) && QuantifierFree(r)
    case Conjunction(l, r) => QuantifierFree(l) && QuantifierFree(r)
    case Forall(_, _, _) => false
    case Exists(_, _, _) => false
    case Substitution(_, _, _) => false
  }

  /** No pending instantiation anywhere in the tree: what a parsed formula is. */
  predicate NoPending(f: Formula) {
    match f
    case Var(_) => true
    case App(_, args) => forall a | a in args :: NoPending(a)
    case Atom(_, args) => forall a | a in args :: NoPending(a)
    case Negation(a) => NoPending(a)
    case Implication(l, r) => NoPending(l) && NoPending(r)
    case Disjunction(l, r) => NoPending(l) && NoPending(r)
    case Conjunction(l, r) => NoPending(l) && NoPending(r)
    case Forall(_, b, _) => NoPending(b)
    case Exists(_, b, _) => NoPending(b)
    case Substitution(_, _, _) => false
  }

  /** The `copy` methods: connectives and binders are copied through their
      constructors, which set `doubled` back to false; terms and atoms copy
      only their argument list, whose elements are shared. */
  function Copy(f: Formula): (c: Formula)
    ensures Size(c) == Size(f)
  {
    match f
    case Var(_) => f
    case App(_, _) => f
    case Atom(_, _) => f
    case Negation(a) => Negation(Copy(a))
    case Implication(l, r) => Implication(Copy(l), Copy(r))
    case Disjunction(l, r) => Disjunction(Copy(l), Copy(r))
    case Conjunction(l, r) => Conjunction(Copy(l), Copy(r))
    case Forall(v, b, _) => Forall(v, Copy(b), false)
    case Exists(v, b, _) => Exists(v, Copy(b), false)
    case Substitution(v, b, k) => Substitution(v, Copy(b), k)
  }

  /** Every flag `doubled` in the tree is false, as after a copy. */
  predicate Undoubled(f: Formula) {
    Copy(f) == f
  }

  lemma {:induction false} CopyIsUndoubled(f: Formula)
    ensures Undoubled(Copy(f))
  {
    match f
    case Var(_) =>
    case App(_, _) =>
    case Atom(_, _) =>
    case Negation(a) => CopyIsUndoubled(a);
    case Implication(l, r) => CopyIsUndoubled(l); CopyIsUndoubled(r);
    case Disjunction(l, r) => CopyIsUndoubled(l); CopyIsUndoubled(r);
    case Conjunction(l, r) => CopyIsUndoubled(l); CopyIsUndoubled(r);
    case Forall(_, b, _) => CopyIsUndoubled(b);
    case Exists(_, b, _) => CopyIsUndoubled(b);
    case Substitution(_, b, _) => CopyIsUndoubled(b);
  }

  /** A copy is well formed when the original is, and is a term exactly when
      the original is. */
  lemma {:induction false} CopyKeepsWellFormed(f: Formula)
    requires WellFormed(f)
    ensures WellFormed(Copy(f)) && (IsTerm(Copy(f)) <==> IsTerm(f))
  {
    match f
    case Var(_) =>
    case App(_, _) =>
    case Atom(_, _) =>
    case Negation(a) => CopyKeepsWellFormed(a);
    case Implication(l, r) => CopyKeepsWellFormed(l); CopyKeepsWellFormed(r);
    case Disjunction(l, r) => CopyKeepsWellFormed(l); CopyKeepsWellFormed(r);
    case Conjunction(l, r) => CopyKeepsWellFormed(l); CopyKeepsWellFormed(r);
    case Forall(_, b, _) => CopyKeepsWellFormed(b);
    case Exists(_, b, _) => CopyKeepsWellFormed(b);
    case Substitution(_, b, _) => CopyKeepsWellFormed(b);
  }

  // ---------------------------------------------------------------------------
  // The validating constructors
  // ---------------------------------------------------------------------------

  /** The ValueError that a constructor raises, with the offending operand. */
  datatype ConstructionError =
    | NotATerm(culprit: Formula)                    // an argument of a term or atom
    | NotAnExpression(culprit: Formula)             // an operand or a quantifier body
    | NotAVariable(culprit: Formula)                // a Forall binder
    | NotABinding(binder: Formula, body: Formula)   // an Exists binder or body

  /** The three binary connectives, which share one constructor. */
  datatype Connective = Imp | Or | And

  function Connect(op: Connective, l: Formula, r: Formula): Formula {
    match op
    case Imp => Implication(l, r)
    case Or => Disjunction(l, r)
    case And => Conjunction(l, r)
  }

  /** The first argument that is not a term, if any: the loop of the Term and
      Atom constructors raises on the first one it meets. */
  function FirstNonTerm(args: seq<Formula>): (r: Option<nat>)
    ensures r.None? <==> forall a | a in args :: IsTerm(a)
    ensures r.Some? ==> r.value < |args| && !IsTerm(args[r.value])
                        && forall i | 0 <= i < r.value :: IsTerm(args[i])
  {
    if args == [] then None
    else if !IsTerm(args[0]) then Some(0)
    else match FirstNonTerm(args[1..])
      case None => None
      case Some(i) => Some(i + 1)
  }

  /** `Term(name, args)`; `args` is None when the term has no argument list. */
  function MkTerm(name: string, args: Option<seq<Formula>>): (r: Result<Formula, ConstructionError>)
    ensures r.Ok? <==> (args.None? || forall a | a in args.value :: IsTerm(a))
    ensures r.Ok? ==> IsTerm(r.value) && r.value.name == name
    ensures r.Ok? && args.None? ==> r.value.Var?
    ensures r.Ok? && args.Some? ==> r.value.App? && r.value.args == args.value
  {
    match args
    case None => Ok(Var(name))
    case Some(items) =>
      (match FirstNonTerm(items)
       case None => Ok(App(name, items))
       case Some(i) => Err(NotATerm(items[i])))
  }

  /** `Atom(name, args)`. */
  function MkAtom(name: string, args: seq<Formula>): (r: Result<Formula, ConstructionError>)
    ensures r.Ok? <==> forall a | a in args :: IsTerm(a)
    ensures r.Ok? ==> r.value == Atom(name, args)
    ensures r.Err? ==> r.error.NotATerm? && r.error.culprit in args && !IsTerm(r.error.culprit)
  {
    match FirstNonTerm(args)
    case None => Ok(Atom(name, args))
    case Some(i) => Err(NotATerm(args[i]))
  }

  /** `Negation(argument)`: the operand must not be a term. */
  function MkNegation(argument: Formula): (r: Result<Formula, ConstructionError>)
    ensures r.Ok? <==> !IsTerm(argument)
    ensures r.Ok? ==> r.value == Negation(argument)
  {
    if !IsTerm(argument) then Ok(Negation(argument)) else Err(NotAnExpression(argument))
  }

  /** `Implication`, `Disjunction`, `Conjunction`: neither operand may be a
      term, and the left one is reported first. */
  function MkBinary(op: Connective, l: Formula, r: Formula): (res: Result<Formula, ConstructionError>)
    ensures res.Ok? <==> !IsTerm(l) && !IsTerm(r)
    ensures res.Ok? ==> res.value == Connect(op, l, r)
    ensures res.Err? ==> res.error == NotAnExpression(if IsTerm(l) then l else r)
  {
    if !(IsTerm(l) || IsTerm(r)) then Ok(Connect(op, l, r))
    else if IsTerm(l) then Err(NotAnExpression(l))
    else Err(NotAnExpression(r))
  }

  /** `Forall(left, right)`: the binder must be an argless term and the body
      not a term; a fresh quantifier is not yet duplicated. */
  function MkForall(left: Formula, right: Formula): (r: Result<Formula, ConstructionError>)
    ensures r.Ok? <==> left.Var? && !IsTerm(right)
    ensures r.Ok? ==> r.value == Forall(left.name, right, false)
    ensures r.Err? ==> r.error == (if !left.Var? then NotAVariable(left) else NotAnExpression(right))
  {
    if left.Var? && !IsTerm(right) then Ok(Forall(left.name, right, false))
    else if !left.Var? then Err(NotAVariable(left))
    else Err(NotAnExpression(right))
  }

  /** `Exists(left, right)`: same conditions, one error for both. */
  function MkExists(left: Formula, right: Formula): (r: Result<Formula, ConstructionError>)
    ensures r.Ok? <==> left.Var? && !IsTerm(right)
    ensures r.Ok? ==> r.value == Exists(left.name, right, false)
    ensures r.Err? ==> r.error == NotABinding(left, right)
  {
    if left.Var? && !IsTerm(right) then Ok(Exists(left.name, right, false))
    else Err(NotABinding(left, right))
  }

  /** Builds a tree bottom-up through the validating constructors, as the
      parser does: children first, left to right, the first error wins. */
  function Rebuild(f: Formula): Result<Formula, ConstructionError>
    decreases Size(f), 0
  {
    match f
    case Var(x) => MkTerm(x, None)
    case App(x, args) =>
      (match RebuildAll(args)
       case Err(e) => Err(e)
       case Ok(args') => MkTerm(x, Some(args')))
    case Atom(p, args) =>
      (match RebuildAll(args)
       case Err(e) => Err(e)
       case Ok(args') => MkAtom(p, args'))
    case Negation(a) =>
      (match Rebuild(a)
       case Err(e) => Err(e)
       case Ok(a') => MkNegation(a'))
    case Implication(l, r) => RebuildBinary(Imp, l, r)
    case Disjunction(l, r) => RebuildBinary(Or, l, r)
    case Conjunction(l, r) => RebuildBinary(And, l, r)
    case Forall(v, b, _) =>
      (match Rebuild(b)
       case Err(e) => Err(e)
       case Ok(b') => MkForall(Var(v), b'))
    case Exists(v, b, _) =>
      (match Rebuild(b)
       case Err(e) => Err(e)
       case Ok(b') => MkExists(Var(v), b'))
    case Substitution(v, b, k) =>
      (match Rebuild(b)
       case Err(e) => Err(e)
       case Ok(b') => Ok(Substitution(v, b', k)))
  }

  function RebuildBinary(op: Connective, l: Formula, r: Formula): Result<Formula, ConstructionError>
    decreases Size(l) + Size(r), 1
  {
    match Rebuild(l)
    case Err(e) => Err(e)
    case Ok(l') =>
      (match Rebuild(r)
       case Err(e) => Err(e)
       case Ok(r') => MkBinary(op, l', r'))
  }

  function RebuildAll(fs: seq<Formula>): (r: Result<seq<Formula>, ConstructionError>)
    ensures r.Ok? ==> |r.value| == |fs|
    decreases SumSizes(fs), 1
  {
    if fs == [] then Ok([])
    else
      match Rebuild(fs[0])
      case Err(e) => Err(e)
      case Ok(f') =>
        (match RebuildAll(fs[1..])
         case Err(e) => Err(e)
         case Ok(rest) => Ok([f'] + rest))
  }

  /** Construction accepts exactly the well-formed formulas: building a
      parsed (pending-free) tree through the validating constructors succeeds
      iff it is well-formed, and then gives back its copy. */
  lemma {:induction false} RebuildAcceptsExactlyWellFormed(f: Formula)
    requires NoPending(f)
    ensures Rebuild(f).Ok? <==> WellFormed(f)
    ensures Rebuild(f).Ok? ==> Rebuild(f).value == Copy(f)
    decreases Size(f), 0
  {
    match f
    case Var(_) =>
    case App(x, args) => RebuildAllArgs(args);
    case Atom(p, args) => RebuildAllArgs(args);
    case Negation(a) => RebuildAcceptsExactlyWellFormed(a);
    case Implication(l, r) => RebuildBinaryAccepts(Imp, l, r);
    case Disjunction(l, r) => RebuildBinaryAccepts(Or, l, r);
    case Conjunction(l, r) => RebuildBinaryAccepts(And, l, r);
    case Forall(_, b, _) => RebuildAcceptsExactlyWellFormed(b);
    case Exists(_, b, _) => RebuildAcceptsExactlyWellFormed(b);
  }

  lemma {:induction false} RebuildBinaryAccepts(op: Connective, l: Formula, r: Formula)
    requires NoPending(l) && NoPending(r)
    ensures RebuildBinary(op, l, r).Ok? <==> !IsTerm(l) && !IsTerm(r) && WellFormed(l) && WellFormed(r)
    ensures RebuildBinary(op, l, r).Ok? ==> RebuildBinary(op, l, r).value == Connect(op, Copy(l), Copy(r))
    decreases Size(l) + Size(r), 0
  {
    RebuildAcceptsExactlyWellFormed(l);
    RebuildAcceptsExactlyWellFormed(r);
  }

  /** The arguments of a term or atom rebuild to themselves iff they are
      well-formed terms. */
  lemma {:induction false} RebuildAllArgs(fs: seq<Formula>)
    requires forall a | a in fs :: NoPending(a)
    ensures RebuildAll(fs).Ok? && (forall a | a in RebuildAll(fs).value :: IsTerm(a))
            <==> forall a | a in fs :: IsTerm(a) && WellFormed(a)
    ensures (forall a | a in fs :: IsTerm(a) && WellFormed(a)) ==> RebuildAll(fs) == Ok(fs)
    decreases SumSizes(fs), 1
  {
    if fs != [] {
      RebuildAcceptsExactlyWellFormed(fs[0]);
      RebuildAllArgs(fs[1..]);
      assert fs == [fs[0]] + fs[1..];
      if RebuildAll(fs).Ok? {
        var rest := RebuildAll(fs[1..]).value;
        assert RebuildAll(fs).value == [Rebuild(fs[0]).value] + rest;
        if forall a | a in RebuildAll(fs).value :: IsTerm(a) {
          assert IsTerm(Rebuild(fs[0]).value);
          assert forall a | a in rest :: IsTerm(a) by {
            forall a | a in rest ensures IsTerm(a) {
              assert a in RebuildAll(fs).value;
            }
          }
        }
      }
    }
  }
}
