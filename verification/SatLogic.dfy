/**
 Literals, interpretations and clausal entailment: the propositional logic in which the
 SAT engine's results are stated.
 */
module SatLogic {

  /** A literal as the engine encodes it: variable `i` is `i + 1` or, negated, `-(i + 1)`. */
  type Lit = int

  type Clause = seq<Lit>

  /** The set of variables that an interpretation makes true. */
  type Interp = iset<int>

  /** A formula in conjunctive normal form; the order of literals and clauses is irrelevant. */
  type Cnf = set<set<Lit>>

  const NIL: Lit := 0

  function Index(l: Lit): int {
    if l < 0 then -l - 1 else l - 1
  }

  /** `l` is a literal over the variables `0 .. n`. */
  predicate InRange(l: Lit, n: nat) {
    0 <= Index(l) < n
  }

  predicate Distinct<T(==)>(s: seq<T>) {
    forall i, j :: 0 <= i < j < |s| ==> s[i] != s[j]
  }

  /** A clause the engine stores: two or more literals, none twice. */
  predicate ClauseOk(n: nat, c: Clause) {
    && |c| >= 2
    && (forall k :: 0 <= k < |c| ==> InRange(c[k], n))
    && Distinct(c)
  }

  ghost function LitSet(c: Clause): set<Lit> {
    set l | l in c
  }

  ghost predicate Holds(m: Interp, l: Lit) {
    if l > 0 then Index(l) in m else Index(l) !in m
  }

  ghost predicate SatClause(m: Interp, c: set<Lit>) {
    exists l :: l in c && Holds(m, l)
  }

  ghost predicate Models(m: Interp, f: Cnf) {
    forall c :: c in f ==> SatClause(m, c)
  }

  ghost predicate Entails(f: Cnf, c: set<Lit>) {
    forall m :: Models(m, f) ==> SatClause(m, c)
  }

  ghost predicate Unsat(f: Cnf) {
    forall m :: !Models(m, f)
  }

  /** All literals over `n` variables, and all clauses over them. */
  ghost function Literals(n: nat): set<Lit> {
    set l: Lit | 0 - n <= l <= n && InRange(l, n)
  }

  ghost function Universe(n: nat): set<set<Lit>> {
    set s: set<Lit> | s <= Literals(n)
  }

  lemma EmptyIsUnsat(f: Cnf)
    requires Entails(f, {})
    ensures Unsat(f)
  {
    forall m ensures !Models(m, f) {
      assert Models(m, f) ==> SatClause(m, {});
    }
  }

  /**
   Resolution with clean-up: `c` resolved against `d` on `x`, dropping from `d` literals whose
   negation is entailed, may be weakened to `r`.
   */
  lemma Resolve(f: Cnf, c: set<Lit>, d: set<Lit>, x: Lit, r: set<Lit>)
    requires Entails(f, c) && Entails(f, d) && x != NIL
    requires forall l :: l in c ==> l == -x || l in r
    requires forall l :: l in d ==> l == x || l in r || (l != NIL && Entails(f, {-l}))
    ensures Entails(f, r)
  {
    forall m | Models(m, f) ensures SatClause(m, r) {
      if Holds(m, x) {
        var l :| l in c && Holds(m, l);
        assert l in r;
      } else {
        var l :| l in d && Holds(m, l);
        assert Entails(f, {-l}) ==> SatClause(m, {-l});
        assert l in r;
      }
    }
  }

  /** Literals whose negation is entailed may be dropped from an entailed clause. */
  lemma DropFalse(f: Cnf, c: set<Lit>, r: set<Lit>)
    requires Entails(f, c)
    requires forall l :: l in c ==> l in r || (l != NIL && Entails(f, {-l}))
    ensures Entails(f, r)
  {
    forall m | Models(m, f) ensures SatClause(m, r) {
      var l :| l in c && Holds(m, l);
      assert Entails(f, {-l}) ==> SatClause(m, {-l});
      assert l in r;
    }
  }
}
