// Constraint handling rules (solver_chr.c): what a propagation rule means for
// a fixed store, before compilation.
module ChrRule {
  import opened Wrappers

  // Run-time terms: numbers, and everything else.
  datatype Value = Num(n: int) | Other(id: nat)

  datatype Op = Add | Sub | Mul | Quot

  datatype Cmp = CmpEq | CmpNeq | CmpLt | CmpGt | CmpLeq | CmpGeq

  datatype Term = TVar(name: nat) | TVal(v: Value) | TBin(op: Op, l: Term, r: Term)

  // A head or body constraint; sign means negated.
  datatype Atom = Atom(sym: nat, sign: bool, args: seq<Term>)

  datatype Guard = Test(cmp: Cmp, l: Term, r: Term) | Set(x: nat, e: Term)

  // The active head, the partners in the order they are matched, the guards
  // and the body of one occurrence.
  datatype Rule = Rule(active: Atom, partners: seq<Atom>, guards: seq<Guard>, body: seq<Atom>)

  type Lit = int
  type Pattern = seq<Option<Value>>
  type Env = map<nat, Value>

  // The fixed store and solver state: the arguments of a constraint, the
  // partners found under a pattern, whether a partner is live and decided
  // with a sign, the literal of a decided constraint, the equalities that
  // make a pattern argument and a stored argument agree, whether two terms
  // are known to be equal and why, and the order of terms.
  datatype World = World(
    args: nat -> seq<Value>,
    lookup: (nat, Pattern) -> seq<nat>,
    live: (nat, bool) -> bool,
    lit: (nat, bool) -> Lit,
    agree: (Value, Value) -> seq<Lit>,
    ask: (Value, Value) -> Option<seq<Lit>>,
    compare: (Value, Value) -> int
  )

  // A lookup returns constraints of the arity asked for.
  ghost predicate WorldOk(w: World) {
    forall sym: nat, p: Pattern, c: nat :: c in w.lookup(sym, p) ==> |w.args(c)| == |p|
  }

  // A body constraint told, with the literals it follows from.
  datatype Told = Told(sign: bool, sym: nat, args: seq<Value>, reason: seq<Lit>)

  // What was told, and whether the run went on to the end; it is given up
  // when a guard computes with something that is not a number.
  datatype Outcome = Outcome(told: seq<Told>, ok: bool)

  function Then(a: Outcome, b: Outcome): Outcome {
    if a.ok then Outcome(a.told + b.told, b.ok) else a
  }

  // ----- terms -----

  // C division: towards zero.
  function Truncate(a: int, b: int): int
    requires b != 0
  {
    if a >= 0 then (if b > 0 then a / b else -(a / -b))
    else if b > 0 then -((-a) / b) else (-a) / (-b)
  }

  function Apply(op: Op, a: Value, b: Value): Option<Value> {
    if !a.Num? || !b.Num? then None
    else match op
      case Add => Some(Num(a.n + b.n))
      case Sub => Some(Num(a.n - b.n))
      case Mul => Some(Num(a.n * b.n))
      case Quot => if b.n == 0 then None else Some(Num(Truncate(a.n, b.n)))
  }

  function Compares(cmp: Cmp, d: int): bool {
    match cmp
    case CmpEq => d == 0
    case CmpNeq => d != 0
    case CmpLt => d < 0
    case CmpGt => d > 0
    case CmpLeq => d <= 0
    case CmpGeq => d >= 0
  }

  // Truncated division is the one with a remainder that is smaller than the
  // divisor and has the sign of the dividend.
  ghost predicate Quotient(a: int, b: int, q: int) {
    Rest(a, b, a - q * b)
  }

  ghost predicate Rest(a: int, b: int, rest: int) {
    -Size(b) < rest < Size(b) && (rest > 0 ==> a > 0) && (rest < 0 ==> a < 0)
  }

  function Size(a: int): int {
    if a < 0 then -a else a
  }

  lemma TruncateIsQuotient(a: int, b: int, q: int)
    requires b != 0
    ensures Quotient(a, b, q) <==> q == Truncate(a, b)
  {
    TruncateLeaves(a, b);
    if Quotient(a, b, q) {
      OneQuotient(a, b, q, Truncate(a, b));
    }
  }

  lemma TruncateLeaves(a: int, b: int)
    requires b != 0
    ensures Quotient(a, b, Truncate(a, b))
  {
    hide Quotient;
    Whole(Size(a), Size(b));
    SignedQuotient(a, b, Size(a) / Size(b));
  }

  lemma SignedQuotient(a: int, b: int, d: int)
    requires b != 0 && d >= 0 && 0 <= Size(a) - d * Size(b) < Size(b)
    ensures Quotient(a, b, if (a >= 0) == (b > 0) then d else -d)
  {
    hide Rest;
    var p := d * Size(b);
    SignedProduct(a, b, d);
    SignedRest(a, b, p);
  }

  lemma SignedProduct(a: int, b: int, d: int)
    ensures (if (a >= 0) == (b > 0) then d else -d) * b == if a >= 0 then d * Size(b) else -(d * Size(b))
  {
    Signs(d, b);
  }

  lemma SignedRest(a: int, b: int, p: int)
    requires p >= 0 && 0 <= Size(a) - p < Size(b)
    ensures Rest(a, b, a - if a >= 0 then p else -p)
  {
  }

  lemma Whole(m: int, n: int)
    requires n > 0
    ensures 0 <= m - m / n * n < n
  {
  }

  lemma Signs(x: int, b: int)
    ensures (-x) * b == -(x * b) && x * (-b) == -(x * b)
  {
  }

  lemma OneQuotient(a: int, b: int, q: int, t: int)
    requires b != 0 && Quotient(a, b, q) && Quotient(a, b, t)
    ensures q == t
  {
    if q != t {
      Differ(q, t, b);
      AtLeastOne(q - t, b);
    }
  }

  lemma Differ(q: int, t: int, b: int)
    ensures (q - t) * b == q * b - t * b
  {
  }

  lemma AtLeastOne(x: int, b: int)
    requires x != 0
    ensures x * b >= Size(b) || x * b <= -Size(b)
  {
    Grows(Size(x), Size(b));
    assert x * b == if (x > 0) == (b > 0) then Size(x) * Size(b) else -(Size(x) * Size(b));
  }

  lemma Grows(x: int, b: int)
    requires x >= 1 && b >= 0
    ensures x * b >= b
  {
  }

  // The laws of the operations: an operation has a value on numbers, except
  // for division by zero; subtraction takes back addition, multiplication
  // repeats it, and division takes back multiplication up to a remainder.
  lemma ApplyLaws(op: Op, a: Value, b: Value)
    ensures Apply(op, a, b).Some? <==> a.Num? && b.Num? && !(op == Quot && b.n == 0)
    ensures Apply(op, a, b).Some? ==> Apply(op, a, b).value.Num?
    ensures a.Num? && b.Num? ==>
      && Apply(Add, a, Num(0)) == Some(a) && Apply(Mul, a, Num(0)) == Some(Num(0))
      && Apply(Add, a, b) == Apply(Add, b, a) && Apply(Sub, Apply(Add, a, b).value, b) == Some(a)
      && Apply(Mul, a, Num(b.n + 1)) == Apply(Add, Apply(Mul, a, b).value, a)
    ensures a.Num? && b.Num? && b.n != 0 ==> Quotient(a.n, b.n, Apply(Quot, a, b).value.n)
  {
    if a.Num? && b.Num? && b.n != 0 {
      TruncateIsQuotient(a.n, b.n, Truncate(a.n, b.n));
    }
  }

  // The laws of the comparisons of two terms, whose order is d, and -d the
  // other way round.
  lemma ComparesLaws(d: int)
    ensures Compares(CmpEq, 0) && Compares(CmpLt, -1) && Compares(CmpGt, 1)
    ensures Compares(CmpEq, d) != (Compares(CmpLt, d) != Compares(CmpGt, d))
    ensures !(Compares(CmpEq, d) && Compares(CmpLt, d))
    ensures Compares(CmpLt, d) <==> Compares(CmpGt, -d)
    ensures d >= 0 ==> !Compares(CmpLt, d)
    ensures Compares(CmpNeq, d) <==> !Compares(CmpEq, d)
    ensures Compares(CmpLeq, d) <==> !Compares(CmpGt, d)
    ensures Compares(CmpGeq, d) <==> !Compares(CmpLt, d)
  {
  }

  // The value of a guard expression; None when it has none.
  function Eval(t: Term, env: Env): Option<Value> {
    match t
    case TVar(x) => if x in env then Some(env[x]) else None
    case TVal(v) => Some(v)
    case TBin(op, l, r) =>
      var a := Eval(l, env);
      var b := Eval(r, env);
      if a.None? || b.None? then None else Apply(op, a.value, b.value)
  }

  // ----- the meaning of a rule -----

  // What is known of the arguments of a head.
  function PatternOf(args: seq<Term>, env: Env): Pattern {
    seq(|args|, i requires 0 <= i < |args| => Eval(args[i], env))
  }

  // The variables of the head that are bound by matching it.
  function Bind(args: seq<Term>, vals: seq<Value>, env: Env, n: nat): Env
    requires n <= |args| && |args| == |vals|
  {
    if n == 0 then env
    else
      var e := Bind(args, vals, env, n - 1);
      if args[n - 1].TVar? && args[n - 1].name !in env then e[args[n - 1].name := vals[n - 1]] else e
  }

  // The equalities used in matching the known arguments.
  function AgreeLits(w: World, p: Pattern, vals: seq<Value>, n: nat): seq<Lit>
    requires n <= |p| == |vals|
  {
    if n == 0 then []
    else AgreeLits(w, p, vals, n - 1) + if p[n - 1].Some? then w.agree(p[n - 1].value, vals[n - 1]) else []
  }

  // How many literals the known ones of the first n arguments need.
  ghost function LitCount(w: World, p: Pattern, vals: seq<Value>, n: nat): nat
    requires n <= |p| == |vals|
  {
    if n == 0 then 0
    else LitCount(w, p, vals, n - 1) + if p[n - 1].Some? then |w.agree(p[n - 1].value, vals[n - 1])| else 0
  }

  // The equalities of every known argument are there, at their place in the
  // order of the arguments, and fill the whole sequence.
  lemma {:induction false} AgreeLitsInOrder(w: World, p: Pattern, vals: seq<Value>, n: nat)
    requires n <= |p| == |vals|
    ensures |AgreeLits(w, p, vals, n)| == LitCount(w, p, vals, n)
    ensures forall i :: 0 <= i < n && p[i].Some? ==>
      var from, lits := LitCount(w, p, vals, i), w.agree(p[i].value, vals[i]);
      from + |lits| <= LitCount(w, p, vals, n) && AgreeLits(w, p, vals, n)[from..from + |lits|] == lits
  {
    if n > 0 {
      AgreeLitsInOrder(w, p, vals, n - 1);
      var before, all := AgreeLits(w, p, vals, n - 1), AgreeLits(w, p, vals, n);
      forall i | 0 <= i < n - 1 && p[i].Some?
        ensures var from, lits := LitCount(w, p, vals, i), w.agree(p[i].value, vals[i]);
          from + |lits| <= LitCount(w, p, vals, n) && all[from..from + |lits|] == lits
      {
        var from, lits := LitCount(w, p, vals, i), w.agree(p[i].value, vals[i]);
        assert all[from..from + |lits|] == before[from..from + |lits|];
      }
    }
  }

  // Exactly the equalities of the known arguments.
  lemma {:induction false} AgreeLitsAre(w: World, p: Pattern, vals: seq<Value>, n: nat)
    requires n <= |p| == |vals|
    ensures forall x :: x in AgreeLits(w, p, vals, n) <==>
      exists i :: 0 <= i < n && p[i].Some? && x in w.agree(p[i].value, vals[i])
  {
    if n > 0 {
      AgreeLitsAre(w, p, vals, n - 1);
    }
  }

  // Partner c taken for a head: the literals that are added to the reason.
  function PartnerLits(w: World, h: Atom, env: Env, c: nat): seq<Lit>
    requires |w.args(c)| == |h.args|
  {
    AgreeLits(w, PatternOf(h.args, env), w.args(c), |h.args|) + [w.lit(c, h.sign)]
  }

  // All tuples of partners from head i on, in nested-loop order.
  ghost function Join(w: World, r: Rule, i: nat, env: Env, reason: seq<Lit>): Outcome
    requires WorldOk(w) && i <= |r.partners|
    decreases |r.partners| - i, 1, 0
  {
    if i == |r.partners| then Guarded(w, r, 0, env, reason)
    else
      var h := r.partners[i];
      JoinOver(w, r, i, env, reason, w.lookup(h.sym, PatternOf(h.args, env)))
  }

  // The tuples whose partner for head i is one of cs.
  ghost function JoinOver(w: World, r: Rule, i: nat, env: Env, reason: seq<Lit>, cs: seq<nat>): Outcome
    requires WorldOk(w) && i < |r.partners|
    requires forall c :: c in cs ==> |w.args(c)| == |r.partners[i].args|
    decreases |r.partners| - i, 0, |cs|
  {
    if cs == [] then Outcome([], true)
    else
      var h, c := r.partners[i], cs[0];
      assert c in cs;
      var rest := JoinOver(w, r, i, env, reason, cs[1..]);
      if w.live(c, h.sign) then
        Then(Join(w, r, i + 1, Bind(h.args, w.args(c), env, |h.args|), reason + PartnerLits(w, h, env, c)), rest)
      else rest
  }

  // The guards from g on, then the body.
  ghost function Guarded(w: World, r: Rule, g: nat, env: Env, reason: seq<Lit>): Outcome
    requires g <= |r.guards|
    decreases |r.guards| - g
  {
    if g == |r.guards| then Outcome(Body(r.body, env, reason), true)
    else match r.guards[g]
      case Test(cmp, l, t) => Tested(w, r, g, cmp, Eval(l, env), Eval(t, env), env, reason)
      case Set(x, e) =>
        var v := Eval(e, env);
        if x in env then Tested(w, r, g, CmpEq, Some(env[x]), v, env, reason)
        else if v.None? then Outcome([], false)
        else Guarded(w, r, g + 1, env[x := v.value], reason)
  }

  ghost function Tested(w: World, r: Rule, g: nat, cmp: Cmp, a: Option<Value>, b: Option<Value>, env: Env,
                        reason: seq<Lit>): Outcome
    requires g < |r.guards|
    decreases |r.guards| - g, 0
  {
    if a.None? || b.None? then Outcome([], false)
    else if Compares(cmp, w.compare(a.value, b.value)) then Guarded(w, r, g + 1, env, reason)
    else Outcome([], true)
  }

  function ArgsOf(args: seq<Term>, env: Env): seq<Value> {
    seq(|args|, i requires 0 <= i < |args| => var v := Eval(args[i], env); if v.Some? then v.value else Num(0))
  }

  function Body(body: seq<Atom>, env: Env, reason: seq<Lit>): seq<Told> {
    seq(|body|, i requires 0 <= i < |body| => Told(body[i].sign, body[i].sym, ArgsOf(body[i].args, env), reason))
  }

  // Matching the active constraint: a variable seen before must be known to
  // be equal, a value likewise.
  datatype Matched = NoMatch | Match(env: Env, lits: seq<Lit>)

  function MatchActive(w: World, args: seq<Term>, vals: seq<Value>, n: nat): Matched
    requires n <= |args| == |vals|
  {
    if n == 0 then Match(map[], [])
    else
      var m := MatchActive(w, args, vals, n - 1);
      if m.NoMatch? then NoMatch
      else
        var t, v := args[n - 1], vals[n - 1];
        if t.TVar? && t.name !in m.env then Match(m.env[t.name := v], m.lits)
        else
          var known := Eval(t, m.env);
          if known.None? then NoMatch
          else
            var why := w.ask(v, known.value);
            if why.None? then NoMatch else Match(m.env, m.lits + why.value)
  }

  // The meaning of an occurrence for an active constraint with these
  // arguments, when the run starts with this reason.
  ghost function Meaning(w: World, r: Rule, vals: seq<Value>, reason: seq<Lit>): Outcome
    requires WorldOk(w) && |vals| == |r.active.args|
  {
    match MatchActive(w, r.active.args, vals, |vals|)
    case NoMatch => Outcome([], true)
    case Match(env, lits) => Join(w, r, 0, env, reason + lits)
  }
}
