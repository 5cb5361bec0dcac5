/** The fresh-name allocator of ast.py: one process-wide counter `index`,
    incremented before each use, and two name families built from it,
    `_v<N>` (reusable eigenvariables) and `_c<N>` (one-shot witness
    constants).  The counter itself is threaded explicitly through every
    operation of the model, as an input and an output. */
module Names {

  /** The decimal digits of `n`, as Python's `f'{n}'` writes them. */
  function Decimal(n: nat): (s: string)
    ensures |s| >= 1
    ensures n >= 10 ==> |s| >= 2
    ensures forall i | 0 <= i < |s| :: '0' <= s[i] <= '9'
  {
    if n < 10 then [Digit(n)] else Decimal(n / 10) + [Digit(n % 10)]
  }

  function Digit(d: nat): (c: char)
    requires d < 10
    ensures '0' <= c <= '9'
  {
    "0123456789"[d]
  }

  /** `f'{prefix}{n}'` */
  function Fresh(prefix: string, n: nat): string {
    prefix + Decimal(n)
  }

  /** `name.startswith('_v')` */
  predicate StartsWithV(name: string) {
    |name| >= 2 && name[..2] == "_v"
  }

  /** The family a renamed binder keeps: `_v` for an eigenvariable, `_c` for
      every other name (ast.py:246-249 and ast.py:272-275). */
  function Family(name: string): string {
    if StartsWithV(name) then "_v" else "_c"
  }

  lemma DigitInjective(a: nat, b: nat)
    requires a < 10 && b < 10
    ensures Digit(a) == Digit(b) ==> a == b
  {
  }

  /** Different counter values give different digit strings. */
  lemma {:induction false} DecimalInjective(a: nat, b: nat)
    ensures Decimal(a) == Decimal(b) ==> a == b
    decreases a
  {
    if Decimal(a) == Decimal(b) {
      if a < 10 && b < 10 {
        DigitInjective(a, b);
      } else if a >= 10 && b >= 10 {
        var sa, sb := Decimal(a), Decimal(b);
        assert sa[|sa| - 1] == Digit(a % 10) && sb[|sb| - 1] == Digit(b % 10);
        DigitInjective(a % 10, b % 10);
        assert sa[..|sa| - 1] == Decimal(a / 10);
        assert sb[..|sb| - 1] == Decimal(b / 10);
        DecimalInjective(a / 10, b / 10);
      }
    }
  }

  /** Names minted from different counter values are different, so names are
      unique while the counter only grows. */
  lemma FreshInjective(prefix: string, a: nat, b: nat)
    ensures Fresh(prefix, a) == Fresh(prefix, b) ==> a == b
  {
    if Fresh(prefix, a) == Fresh(prefix, b) {
      assert Decimal(a) == Fresh(prefix, a)[|prefix|..];
      assert Decimal(b) == Fresh(prefix, b)[|prefix|..];
      DecimalInjective(a, b);
    }
  }

  /** Renaming keeps the family: a name minted in a family belongs to it. */
  lemma FamilyOfFresh(prefix: string, n: nat)
    requires prefix == "_v" || prefix == "_c"
    ensures Family(Fresh(prefix, n)) == prefix
  {
    assert Fresh(prefix, n)[..2] == prefix;
  }

  /** The two families never share a name. */
  lemma FamiliesDisjoint(a: nat, b: nat)
    ensures Fresh("_v", a) != Fresh("_c", b)
  {
    assert Fresh("_v", a)[1] == 'v' && Fresh("_c", b)[1] == 'c';
  }
}
