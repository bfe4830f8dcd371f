// Integer bounds propagation with explanations (solver_bounds.c).
module Bounds {
  import opened Wrappers

  type Assignment = nat -> int

  // The constraints that the solver propagates.
  datatype Cons =
    | GtC(x: nat, k: int)
    | Gt(x: nat, y: nat)
    | EqC(x: nat, k: int)
    | Eq(x: nat, y: nat)
    | EqPlusC(x: nat, y: nat, k: int)
    | EqMulC(x: nat, y: nat, k: int)
    | EqPlus(x: nat, y: nat, z: nat)

  ghost predicate Satisfies(a: Assignment, c: Cons) {
    match c
    case GtC(x, k) => a(x) > k
    case Gt(x, y) => a(x) > a(y)
    case EqC(x, k) => a(x) == k
    case Eq(x, y) => a(x) == a(y)
    case EqPlusC(x, y, k) => a(x) == a(y) + k
    case EqMulC(x, y, k) => a(x) == a(y) * k
    case EqPlus(x, y, z) => a(x) == a(y) + a(z)
  }

  // The literals of explanations: a bound constraint x >= k or its negation,
  // a constraint or its negation.
  datatype Lit = Ge(v: nat, b: int) | Lt(v: nat, b: int) | Is(c: Cons) | Not(c: Cons)

  ghost predicate Holds(a: Assignment, l: Lit) {
    match l
    case Ge(x, k) => a(x) >= k
    case Lt(x, k) => a(x) < k
    case Is(c) => Satisfies(a, c)
    case Not(c) => !Satisfies(a, c)
  }

  ghost predicate AllHold(a: Assignment, reason: set<Lit>) {
    forall l :: l in reason ==> Holds(a, l)
  }

  // A clause of the solver: the reason implies the conclusion, or is
  // contradictory when there is none.
  datatype Clause = Clause(reason: set<Lit>, conclusion: Option<Lit>)

  ghost predicate Valid(c: Clause) {
    forall a: Assignment :: AllHold(a, c.reason) ==> c.conclusion.Some? && Holds(a, c.conclusion.value)
  }

  // The bounds of a variable; a missing one is infinite.
  datatype Interval = Interval(lo: Option<int>, hi: Option<int>)

  // The literals behind the bounds of x.
  function LoLits(x: nat, i: Interval): set<Lit> {
    if i.lo.Some? then {Ge(x, i.lo.value)} else {}
  }

  function HiLits(x: nat, i: Interval): set<Lit> {
    if i.hi.Some? then {Lt(x, i.hi.value + 1)} else {}
  }

  // k is above the lower bound, below the upper bound.
  predicate Above(k: Option<int>, lo: Option<int>) {
    k.Some? && (lo.None? || k.value > lo.value)
  }

  predicate Below(k: Option<int>, hi: Option<int>) {
    k.Some? && (hi.None? || k.value < hi.value)
  }

  predicate Empty(i: Interval) {
    i.lo.Some? && i.hi.Some? && i.lo.value > i.hi.value
  }

  predicate Fixed(i: Interval) {
    i.lo.Some? && i.lo == i.hi
  }

  // The tighter of two lower bounds, and of two upper bounds.
  function MaxLo(a: Option<int>, b: Option<int>): Option<int> {
    if Above(a, b) then a else b
  }

  function MinHi(a: Option<int>, b: Option<int>): Option<int> {
    if Below(a, b) then a else b
  }

  // What two intervals have in common.
  function Meet(i: Interval, j: Interval): Interval {
    Interval(MaxLo(j.lo, i.lo), MinHi(j.hi, i.hi))
  }

  // Without v, if v is an end.
  function ButNot(i: Interval, v: int): Interval {
    Interval(if i.lo == Some(v) then Some(v + 1) else i.lo, if i.hi == Some(v) then Some(v - 1) else i.hi)
  }

  // ----- arithmetic on bounds -----

  function Plus(a: Option<int>, b: Option<int>): Option<int> {
    if a.Some? && b.Some? then Some(a.value + b.value) else None
  }

  function Minus(a: Option<int>, b: Option<int>): Option<int> {
    if a.Some? && b.Some? then Some(a.value - b.value) else None
  }

  function Shift(i: Interval, k: int): Interval {
    Interval(Plus(i.lo, Some(k)), Plus(i.hi, Some(k)))
  }

  function Sum(i: Interval, j: Interval): Interval {
    Interval(Plus(i.lo, j.lo), Plus(i.hi, j.hi))
  }

  function Difference(i: Interval, j: Interval): Interval {
    Interval(Minus(i.lo, j.hi), Minus(i.hi, j.lo))
  }

  // Rounded quotients for any non-zero divisor.
  function FloorDiv(a: int, b: int): int
    requires b != 0
  {
    if b > 0 then a / b else (-a) / (-b)
  }

  function CeilDiv(a: int, b: int): int
    requires b != 0
  {
    -FloorDiv(-a, b)
  }

  // The quotient is whole.
  predicate Divides(k: int, v: int) {
    k != 0 && FloorDiv(v, k) * k == v
  }

  function Times(a: Option<int>, k: int): Option<int> {
    if a.Some? then Some(a.value * k) else None
  }

  // Multiplication and division by a constant; a negative one swaps the ends.
  function MulC(i: Interval, k: int): Interval {
    if k < 0 then Interval(Times(i.hi, k), Times(i.lo, k)) else Interval(Times(i.lo, k), Times(i.hi, k))
  }

  function Ceil(a: Option<int>, k: int): Option<int>
    requires k != 0
  {
    if a.Some? then Some(CeilDiv(a.value, k)) else None
  }

  function Floor(a: Option<int>, k: int): Option<int>
    requires k != 0
  {
    if a.Some? then Some(FloorDiv(a.value, k)) else None
  }

  function DivC(i: Interval, k: int): Interval {
    if k == 0 then Interval(None, None)
    else if k < 0 then Interval(Ceil(i.hi, k), Floor(i.lo, k))
    else Interval(Ceil(i.lo, k), Floor(i.hi, k))
  }

  ghost predicate Within(v: int, i: Interval) {
    (i.lo.Some? ==> i.lo.value <= v) && (i.hi.Some? ==> v <= i.hi.value)
  }

  // ----- arithmetic facts -----

  lemma MulMonotone(a: int, b: int, k: int)
    requires a <= b
    ensures k >= 0 ==> a * k <= b * k
    ensures k <= 0 ==> a * k >= b * k
  {
    if k >= 0 {
      assert (b - a) * k >= 0;
    } else {
      assert (b - a) * (-k) >= 0;
    }
  }

  // The rounded quotient is the tightest bound on the other factor.
  lemma FloorBound(v: int, q: int, k: int)
    requires k > 0
    ensures q * k <= v <==> q <= FloorDiv(v, k)
  {
    var d, r := v / k, v % k;
    assert v == d * k + r;
    if q <= d {
      MulMonotone(q, d, k);
    } else {
      MulMonotone(d + 1, q, k);
      assert (d + 1) * k == d * k + k;
    }
  }

  lemma CeilBound(v: int, q: int, k: int)
    requires k > 0
    ensures q * k >= v <==> q >= CeilDiv(v, k)
  {
    FloorBound(-v, -q, k);
    assert (-q) * k == -(q * k);
  }

  lemma NegativeFactor(v: int, q: int, k: int)
    requires k < 0
    ensures q * k <= v <==> q >= CeilDiv(v, k)
    ensures q * k >= v <==> q <= FloorDiv(v, k)
  {
    CeilBound(-v, q, -k);
    FloorBound(-v, q, -k);
    assert q * (-k) == -(q * k);
  }

  // Multiplying by a constant encloses the products and, unless the constant
  // is zero, nothing else; dividing encloses exactly the integer solutions.
  lemma MulCEncloses(i: Interval, k: int, y: int)
    ensures Within(y, i) ==> Within(y * k, MulC(i, k))
    ensures k != 0 && Within(y * k, MulC(i, k)) ==> Within(y, i)
  {
    if i.lo.Some? {
      if i.lo.value <= y { MulMonotone(i.lo.value, y, k); } else { MulStrict(y, i.lo.value, k); }
    }
    if i.hi.Some? {
      if y <= i.hi.value { MulMonotone(y, i.hi.value, k); } else { MulStrict(i.hi.value, y, k); }
    }
  }

  lemma MulStrict(a: int, b: int, k: int)
    requires a < b
    ensures k > 0 ==> a * k < b * k
    ensures k < 0 ==> a * k > b * k
  {
    var d := b - a;
    assert b * k == a * k + d * k;
    if k > 0 { assert d * k >= k by { MulMonotone(1, d, k); } }
    if k < 0 { assert d * k <= k by { MulMonotone(1, d, k); } }
  }

  lemma DivCExact(i: Interval, k: int, y: int)
    requires k != 0
    ensures Within(y * k, i) <==> Within(y, DivC(i, k))
  {
    if k > 0 {
      if i.lo.Some? {
        CeilBound(i.lo.value, y, k);
      }
      if i.hi.Some? {
        FloorBound(i.hi.value, y, k);
      }
    } else {
      if i.lo.Some? {
        NegativeFactor(i.lo.value, y, k);
      }
      if i.hi.Some? {
        NegativeFactor(i.hi.value, y, k);
      }
    }
  }

  // ----- interval product and quotient, for finite intervals -----

  datatype Range = Range(lo: int, hi: int)

  ghost predicate In(v: int, r: Range) {
    r.lo <= v <= r.hi
  }

  function Min(a: int, b: int): int { if a < b then a else b }

  function Max(a: int, b: int): int { if a > b then a else b }

  function Mul(x: Range, y: Range): Range {
    var same0, same1 := x.lo * y.lo, x.hi * y.hi;
    var cross0, cross1 := x.lo * y.hi, x.hi * y.lo;
    Range(Min(Min(same0, cross0), Min(same1, cross1)), Max(Max(same0, cross0), Max(same1, cross1)))
  }

  // Both ends are products of values of the ranges.
  lemma MulAttained(x: Range, y: Range) returns (v: int, w: int, v': int, w': int)
    requires x.lo <= x.hi && y.lo <= y.hi
    ensures In(v, x) && In(w, y) && v * w == Mul(x, y).lo
    ensures In(v', x) && In(w', y) && v' * w' == Mul(x, y).hi
  {
    var lo, hi := Mul(x, y).lo, Mul(x, y).hi;
    if lo == x.lo * y.lo { v, w := x.lo, y.lo; }
    else if lo == x.hi * y.hi { v, w := x.hi, y.hi; }
    else if lo == x.lo * y.hi { v, w := x.lo, y.hi; }
    else { v, w := x.hi, y.lo; }
    if hi == x.lo * y.lo { v', w' := x.lo, y.lo; }
    else if hi == x.hi * y.hi { v', w' := x.hi, y.hi; }
    else if hi == x.lo * y.hi { v', w' := x.lo, y.hi; }
    else { v', w' := x.hi, y.lo; }
  }

  // The product encloses every product of values.
  lemma MulEncloses(x: Range, y: Range, v: int, w: int)
    requires In(v, x) && In(w, y)
    ensures In(v * w, Mul(x, y))
  {
    MulMonotone(x.lo, v, w);
    MulMonotone(v, x.hi, w);
    MulMonotone(y.lo, w, x.lo);
    MulMonotone(w, y.hi, x.lo);
    MulMonotone(y.lo, w, x.hi);
    MulMonotone(w, y.hi, x.hi);
    Commute(w, x.lo);
    Commute(w, x.hi);
    Commute(y.lo, x.lo);
    Commute(y.hi, x.lo);
    Commute(y.lo, x.hi);
    Commute(y.hi, x.hi);
  }

  lemma Commute(a: int, b: int)
    ensures a * b == b * a
  {
  }

  // The quotient; None when the divisor may be zero.
  function Div(x: Range, y: Range): Option<Range> {
    if y.lo <= 0 && y.hi >= 0 then None
    else
      var (nx, ny) := if y.hi < 0 then (Range(-x.hi, -x.lo), Range(-y.hi, -y.lo)) else (x, y);
      if ny.lo <= 0 || ny.hi <= 0 then None
      else if nx.lo > 0 then Some(Range(CeilDiv(nx.lo, ny.hi), FloorDiv(nx.hi, ny.lo)))
      else if nx.hi < 0 then Some(Range(CeilDiv(nx.lo, ny.lo), FloorDiv(nx.hi, ny.hi)))
      else Some(Range(CeilDiv(nx.lo, ny.lo), FloorDiv(nx.hi, ny.lo)))
  }

  lemma DivPositive(x: Range, y: Range, q: int, w: int)
    requires In(w, y) && y.lo > 0 && In(q * w, x)
    ensures Div(x, y).Some? && In(q, Div(x, y).value)
  {
    if q >= 0 {
      MulMonotone(y.lo, w, q);
      MulMonotone(w, y.hi, q);
    } else {
      MulMonotone(y.lo, w, q);
      MulMonotone(w, y.hi, q);
    }
    Commute(q, w);
    Commute(q, y.lo);
    Commute(q, y.hi);
    FloorBound(x.hi, q, y.lo);
    FloorBound(x.hi, q, y.hi);
    CeilBound(x.lo, q, y.lo);
    CeilBound(x.lo, q, y.hi);
    if q < 0 {
      MulMonotone(q, 0, y.lo);
      MulMonotone(q, 0, w);
    } else {
      MulMonotone(0, q, y.lo);
      MulMonotone(0, q, w);
    }
  }

  // The quotient encloses every integer solution.
  lemma DivEncloses(x: Range, y: Range, q: int, w: int)
    requires In(w, y) && In(q * w, x)
    ensures y.lo <= 0 <= y.hi ==> Div(x, y) == None
    ensures !(y.lo <= 0 <= y.hi) ==> Div(x, y).Some? && In(q, Div(x, y).value)
  {
    if y.lo > 0 {
      DivPositive(x, y, q, w);
    } else if y.hi < 0 {
      assert q * (-w) == -(q * w);
      DivPositive(Range(-x.hi, -x.lo), Range(-y.hi, -y.lo), q, -w);
    }
  }

  // Each end is the rounded quotient of values of the ranges.
  lemma DivAttained(x: Range, y: Range) returns (v: int, w: int, v': int, w': int)
    requires x.lo <= x.hi && y.lo <= y.hi
    requires !(y.lo <= 0 <= y.hi)
    ensures Div(x, y).Some?
    ensures In(v, x) && In(w, y) && w != 0 && CeilDiv(v, w) == Div(x, y).value.lo
    ensures In(v', x) && In(w', y) && w' != 0 && FloorDiv(v', w') == Div(x, y).value.hi
  {
    if y.hi < 0 {
      v, v' := x.hi, x.lo;
      w, w' := if x.hi < 0 then y.lo else y.hi, if x.lo > 0 then y.lo else y.hi;
    } else {
      v, v' := x.lo, x.hi;
      w, w' := if x.lo > 0 then y.hi else y.lo, if x.hi < 0 then y.hi else y.lo;
    }
  }

  // ----- what is told to the search engine -----

  datatype State = State(bounds: map<nat, Interval>, clauses: seq<Clause>)

  function At(bounds: map<nat, Interval>, x: nat): Interval {
    if x in bounds then bounds[x] else Interval(None, None)
  }

  // The literals behind both bounds of x.
  function Ends(x: nat, i: Interval): set<Lit> {
    LoLits(x, i) + HiLits(x, i)
  }

  // A clause added between s and t concludes the literal.
  ghost predicate Concluded(c: Lit, s: State, t: State) {
    exists i :: |s.clauses| <= i < |t.clauses| && t.clauses[i].conclusion == Some(c)
  }

  // The literal is news at s: it tightens the bound it is about.
  ghost predicate News(c: Lit, s: State) {
    match c
    case Ge(x, k) => Above(Some(k), At(s.bounds, x).lo)
    case Lt(x, k) => Below(Some(k - 1), At(s.bounds, x).hi)
    case _ => false
  }

  // One clause: a reason made of l and literals that were read, for a tighter
  // bound.
  ghost predicate TellsNews(c: Clause, l: Lit, read: set<Lit>, s: State) {
    c.conclusion.Some? && News(c.conclusion.value, s) && l in c.reason && c.reason <= {l} + read
  }

  // The clash of two bounds, each of them a bound at s or concluded since.
  ghost predicate Clashes(c: Clause, x: nat, lo: int, hi: int, s: State, t: State) {
    && hi < lo && c == Clause({Ge(x, lo), Lt(x, hi + 1)}, None)
    && (At(s.bounds, x).lo == Some(lo) || Concluded(Ge(x, lo), s, t))
    && (At(s.bounds, x).hi == Some(hi) || Concluded(Lt(x, hi + 1), s, t))
  }

  ghost predicate TellsClash(c: Clause, s: State, t: State) {
    exists x, lo, hi :: Clashes(c, x, lo, hi, s, t)
  }

  // No bound gets looser, and each one that changed is the conclusion of an
  // added clause.
  ghost predicate TightensTold(x: nat, s: State, t: State) {
    var i, j := At(s.bounds, x), At(t.bounds, x);
    && (j.lo != i.lo ==> Above(j.lo, i.lo) && Concluded(Ge(x, j.lo.value), s, t))
    && (j.hi != i.hi ==> Below(j.hi, i.hi) && Concluded(Lt(x, j.hi.value + 1), s, t))
  }

  // What a handler of l, which read these literals, tells between s and t.
  // Every clause explains news by l and what was read; every bound that
  // changed is explained; and giving up is explained last, by a clash.
  ghost predicate Told(l: Lit, read: set<Lit>, s: State, t: State, ok: bool) {
    && s.clauses <= t.clauses
    && (forall x :: TightensTold(x, s, t))
    && (forall i :: |s.clauses| <= i < |t.clauses| - (if ok then 0 else 1) ==> TellsNews(t.clauses[i], l, read, s))
    && (!ok ==> |t.clauses| > |s.clauses| && TellsClash(t.clauses[|t.clauses| - 1], s, t))
  }

  // The clauses for one new bound: its explanation, and the clash if it meets
  // the opposite bound.
  function NewBound(reason: set<Lit>, c: Lit, opposite: set<Lit>, ok: bool): seq<Clause> {
    [Clause(reason, Some(c))] + if ok then [] else [Clause(opposite + {c}, None)]
  }

  lemma ToldNothing(l: Lit, read: set<Lit>, s: State)
    ensures Told(l, read, s, s, true)
  {
  }

  lemma ToldLo(l: Lit, read: set<Lit>, reason: set<Lit>, x: nat, k: int, s: State, ok: bool)
    requires l in reason && reason <= {l} + read
    requires var i := At(s.bounds, x); Above(Some(k), i.lo) && (ok <==> !Below(i.hi, Some(k)))
    ensures var i := At(s.bounds, x);
      Told(l, read, s, State(if ok then s.bounds[x := Interval(Some(k), i.hi)] else s.bounds,
                             s.clauses + NewBound(reason, Ge(x, k), HiLits(x, i), ok)), ok)
  {
    var i := At(s.bounds, x);
    var t := State(if ok then s.bounds[x := Interval(Some(k), i.hi)] else s.bounds,
                   s.clauses + NewBound(reason, Ge(x, k), HiLits(x, i), ok));
    assert t.clauses[|s.clauses|].conclusion == Some(Ge(x, k));
    assert Concluded(Ge(x, k), s, t);
    if !ok {
      assert Clashes(t.clauses[|t.clauses| - 1], x, k, i.hi.value, s, t);
    }
  }

  lemma ToldHi(l: Lit, read: set<Lit>, reason: set<Lit>, x: nat, k: int, s: State, ok: bool)
    requires l in reason && reason <= {l} + read
    requires var i := At(s.bounds, x); Below(Some(k), i.hi) && (ok <==> !Above(i.lo, Some(k)))
    ensures var i := At(s.bounds, x);
      Told(l, read, s, State(if ok then s.bounds[x := Interval(i.lo, Some(k))] else s.bounds,
                             s.clauses + NewBound(reason, Lt(x, k + 1), LoLits(x, i), ok)), ok)
  {
    var i := At(s.bounds, x);
    var t := State(if ok then s.bounds[x := Interval(i.lo, Some(k))] else s.bounds,
                   s.clauses + NewBound(reason, Lt(x, k + 1), LoLits(x, i), ok));
    assert t.clauses[|s.clauses|].conclusion == Some(Lt(x, k + 1));
    assert Concluded(Lt(x, k + 1), s, t);
    if !ok {
      assert Clashes(t.clauses[|t.clauses| - 1], x, i.lo.value, k, s, t);
    }
  }

  // Any handler that gives this reason tells by it.
  lemma ToldNothingByAny(reason: set<Lit>, s: State)
    ensures forall l, read :: l in reason && reason <= {l} + read ==> Told(l, read, s, s, true)
  {
    forall l, read | l in reason && reason <= {l} + read
      ensures Told(l, read, s, s, true)
    {
      ToldNothing(l, read, s);
    }
  }

  lemma ToldByAnyLo(reason: set<Lit>, x: nat, k: int, s: State, ok: bool)
    requires var i := At(s.bounds, x); Above(Some(k), i.lo) && (ok <==> !Below(i.hi, Some(k)))
    ensures var i := At(s.bounds, x);
      var t := State(if ok then s.bounds[x := Interval(Some(k), i.hi)] else s.bounds,
                     s.clauses + NewBound(reason, Ge(x, k), HiLits(x, i), ok));
      forall l, read :: l in reason && reason <= {l} + read ==> Told(l, read, s, t, ok)
  {
    hide Told, NewBound, HiLits;
    forall l, read | l in reason && reason <= {l} + read {
      ToldLo(l, read, reason, x, k, s, ok);
    }
  }

  lemma ToldByAnyHi(reason: set<Lit>, x: nat, k: int, s: State, ok: bool)
    requires var i := At(s.bounds, x); Below(Some(k), i.hi) && (ok <==> !Above(i.lo, Some(k)))
    ensures var i := At(s.bounds, x);
      var t := State(if ok then s.bounds[x := Interval(i.lo, Some(k))] else s.bounds,
                     s.clauses + NewBound(reason, Lt(x, k + 1), LoLits(x, i), ok));
      forall l, read :: l in reason && reason <= {l} + read ==> Told(l, read, s, t, ok)
  {
    hide Told, NewBound, LoLits;
    forall l, read | l in reason && reason <= {l} + read {
      ToldHi(l, read, reason, x, k, s, ok);
    }
  }

  lemma ConcludedLater(c: Lit, s: State, t: State, u: State)
    requires s.clauses <= t.clauses && t.clauses <= u.clauses
    ensures Concluded(c, s, t) ==> Concluded(c, s, u)
    ensures Concluded(c, t, u) ==> Concluded(c, s, u)
  {
  }

  lemma TightensTrans(x: nat, s: State, t: State, u: State)
    requires s.clauses <= t.clauses && t.clauses <= u.clauses
    requires TightensTold(x, s, t) && TightensTold(x, t, u)
    ensures TightensTold(x, s, u)
  {
    hide Concluded;
    var j, k := At(t.bounds, x), At(u.bounds, x);
    if k.lo.Some? { ConcludedLater(Ge(x, k.lo.value), s, t, u); }
    if k.hi.Some? { ConcludedLater(Lt(x, k.hi.value + 1), s, t, u); }
  }

  lemma ClashTrans(c: Clause, s: State, t: State, u: State)
    requires s.clauses <= t.clauses && t.clauses <= u.clauses
    requires forall x :: TightensTold(x, s, t)
    requires TellsClash(c, t, u)
    ensures TellsClash(c, s, u)
  {
    hide Concluded;
    var x, lo, hi :| Clashes(c, x, lo, hi, t, u);
    assert TightensTold(x, s, t);
    ConcludedLater(Ge(x, lo), s, t, u);
    ConcludedLater(Lt(x, hi + 1), s, t, u);
    assert Clashes(c, x, lo, hi, s, u);
  }

  lemma NewsBefore(c: Lit, s: State, t: State)
    requires forall x :: TightensTold(x, s, t)
    requires News(c, t)
    ensures News(c, s)
  {
    hide Concluded;
    match c
    case Ge(x, _) => assert TightensTold(x, s, t);
    case Lt(x, _) => assert TightensTold(x, s, t);
    case _ =>
  }

  lemma ToldThen(l: Lit, read: set<Lit>, s: State, t: State, u: State, ok: bool)
    requires Told(l, read, s, t, true) && Told(l, read, t, u, ok)
    ensures Told(l, read, s, u, ok)
  {
    hide TightensTold, News, TellsClash;
    forall x
      ensures TightensTold(x, s, u)
    {
      TightensTrans(x, s, t, u);
    }
    forall i | |s.clauses| <= i < |u.clauses| - (if ok then 0 else 1)
      ensures TellsNews(u.clauses[i], l, read, s)
    {
      if i < |t.clauses| {
        assert u.clauses[i] == t.clauses[i];
      } else {
        NewsBefore(u.clauses[i].conclusion.value, s, t);
      }
    }
    if !ok {
      ClashTrans(u.clauses[|u.clauses| - 1], s, t, u);
    }
  }

  // ----- the solver -----

  class Solver {
    // The bounds of each variable; a variable that is absent is unbounded.
    var bounds: map<nat, Interval>
    // The clauses handed to the search engine.
    var clauses: seq<Clause>

    ghost function St(): State
      reads this
    {
      State(bounds, clauses)
    }

    ghost predicate Sound()
      reads this
    {
      (forall i :: 0 <= i < |clauses| ==> Valid(clauses[i])) && NoneEmpty()
    }

    ghost predicate NoneEmpty()
      reads this`bounds
    {
      forall x :: !Empty(Get(x))
    }

    // All bounds but those of these variables are as before.
    twostate predicate Others(vs: set<nat>)
      reads this`bounds
    {
      forall v :: v !in vs ==> Get(v) == old(Get(v))
    }

    constructor ()
      ensures Sound() && clauses == [] && bounds == map[]
    {
      bounds, clauses := map[], [];
    }

    function Get(x: nat): Interval
      reads this`bounds
    {
      At(bounds, x)
    }

    // The assignment respects all bounds.
    ghost predicate InBox(a: Assignment)
      reads this`bounds
    {
      forall x :: Within(a(x), Get(x))
    }

    // Raise the lower bound of x, for a reason that implies it.  When the
    // bounds clash, the clash is explained and the handler gives up.
    method SetLo(reason: set<Lit>, x: nat, k: int) returns (ok: bool)
      requires Sound() && Valid(Clause(reason, Some(Ge(x, k))))
      modifies this
      ensures Sound() && forall y :: y != x ==> Get(y) == old(Get(y))
      ensures ok ==> Get(x) == if Above(Some(k), old(Get(x)).lo) then Interval(Some(k), old(Get(x)).hi) else old(Get(x))
      ensures ok <==> !Above(Some(k), old(Get(x)).lo) || !Below(old(Get(x)).hi, Some(k))
      ensures clauses == old(clauses) +
        if Above(Some(k), old(Get(x)).lo) then NewBound(reason, Ge(x, k), HiLits(x, old(Get(x))), ok) else []
      ensures forall l, read :: l in reason && reason <= {l} + read ==> Told(l, read, old(St()), St(), ok)
      ensures forall a: Assignment :: old(InBox(a)) && AllHold(a, reason) ==> ok && InBox(a)
    {
      var i := Get(x);
      if !Above(Some(k), i.lo) {
        ToldNothingByAny(reason, St());
        return true;
      }
      ToldByAnyLo(reason, x, k, St(), i.hi.None? || i.hi.value >= k);
      clauses := clauses + [Clause(reason, Some(Ge(x, k)))];
      assert forall a: Assignment :: InBox(a) && AllHold(a, reason) ==> Within(a(x), i) && Holds(a, Ge(x, k));
      if i.hi.Some? && i.hi.value < k {
        var clash := Clause(HiLits(x, i) + {Ge(x, k)}, None);
        Clash(x, i.hi.value, k);
        clauses := clauses + [clash];
        return false;
      }
      bounds := bounds[x := Interval(Some(k), i.hi)];
      assert forall y :: y != x ==> Get(y) == old(Get(y));
      return true;
    }

    method SetHi(reason: set<Lit>, x: nat, k: int) returns (ok: bool)
      requires Sound() && Valid(Clause(reason, Some(Lt(x, k + 1))))
      modifies this
      ensures Sound() && forall y :: y != x ==> Get(y) == old(Get(y))
      ensures ok ==> Get(x) == if Below(Some(k), old(Get(x)).hi) then Interval(old(Get(x)).lo, Some(k)) else old(Get(x))
      ensures ok <==> !Below(Some(k), old(Get(x)).hi) || !Above(old(Get(x)).lo, Some(k))
      ensures clauses == old(clauses) +
        if Below(Some(k), old(Get(x)).hi) then NewBound(reason, Lt(x, k + 1), LoLits(x, old(Get(x))), ok) else []
      ensures forall l, read :: l in reason && reason <= {l} + read ==> Told(l, read, old(St()), St(), ok)
      ensures forall a: Assignment :: old(InBox(a)) && AllHold(a, reason) ==> ok && InBox(a)
    {
      var i := Get(x);
      if !Below(Some(k), i.hi) {
        ToldNothingByAny(reason, St());
        return true;
      }
      ToldByAnyHi(reason, x, k, St(), i.lo.None? || k >= i.lo.value);
      clauses := clauses + [Clause(reason, Some(Lt(x, k + 1)))];
      assert forall a: Assignment :: InBox(a) && AllHold(a, reason) ==> Within(a(x), i) && Holds(a, Lt(x, k + 1));
      if i.lo.Some? && k < i.lo.value {
        var clash := Clause(LoLits(x, i) + {Lt(x, k + 1)}, None);
        Clash(x, k, i.lo.value);
        clauses := clauses + [clash];
        return false;
      }
      bounds := bounds[x := Interval(i.lo, Some(k))];
      assert forall y :: y != x ==> Get(y) == old(Get(y));
      return true;
    }

    // Meet the interval i that was read for x with j, whose ends are explained
    // by what was read for u and v.
    method Narrow(l: Lit, u: nat, iu: Interval, v: nat, iv: Interval, lo: set<Lit>, hi: set<Lit>, x: nat, i: Interval,
                  j: Interval)
        returns (ok: bool)
      requires Sound() && Explains(l, u, iu, v, iv, lo, hi, x, j)
      modifies this
      ensures Sound() && Others({x})
      ensures i == old(Get(x)) ==> if ok then Get(x) == Meet(i, j) else Empty(Meet(i, j))
      ensures forall read :: l in lo && l in hi && lo <= {l} + read && hi <= {l} + read ==>
            Told(l, read, old(St()), St(), ok)
      ensures forall a: Assignment :: old(InBox(a)) && Holds(a, l) && Within(a(u), iu) && Within(a(v), iv) ==>
            ok && InBox(a)
    {
      hide Valid, AllHold, InBox, Holds, Within;
      ok := true;
      ghost var s := St();
      ToldNothingByAny({l}, s);
      if Above(j.lo, i.lo) {
        ok := SetLo(lo, x, j.lo.value);
      }
      if ok && Below(j.hi, i.hi) {
        ghost var t := St();
        ok := SetHi(hi, x, j.hi.value);
        forall read | l in lo && l in hi && lo <= {l} + read && hi <= {l} + read
          ensures Told(l, read, s, St(), ok)
        {
          ToldThen(l, read, s, t, St(), ok);
        }
      }
    }

    lemma BoxAt(x: nat)
      ensures forall a: Assignment :: InBox(a) ==> Within(a(x), Get(x))
    {
    }

    // ----- the handlers -----
    //
    // Each one hands only valid clauses to the search engine, and keeps every
    // assignment that respects the bounds and the decided constraint.  The new
    // bounds are what the old ones have in common with the image of the others
    // under the constraint; the handler fails only when that is nothing.

    // A bound constraint x >= k was decided.
    method HandleLb(x: nat, k: int, decision: bool) returns (ok: bool)
      requires Sound()
      modifies this
      ensures Sound()
      ensures Others({x})
      ensures var i := Meet(old(Get(x)), if decision then Interval(Some(k), None) else Interval(None, Some(k - 1)));
        if ok then Get(x) == i else Empty(i)
      ensures clauses == old(clauses) +
        if ok then []
        else if decision then [Clause(HiLits(x, old(Get(x))) + {Ge(x, k)}, None)]
        else [Clause(LoLits(x, old(Get(x))) + {Lt(x, k)}, None)]
      ensures forall a: Assignment :: old(InBox(a)) && Holds(a, if decision then Ge(x, k) else Lt(x, k)) ==>
            ok && InBox(a)
    {
      var i := Get(x);
      assert !Empty(i);
      if decision {
        if i.hi.Some? && i.hi.value < k {
          Clash(x, i.hi.value, k);
          clauses := clauses + [Clause(HiLits(x, i) + {Ge(x, k)}, None)];
          return false;
        }
        if Above(Some(k), i.lo) {
          bounds := bounds[x := Interval(Some(k), i.hi)];
        }
      } else {
        if i.lo.Some? && k - 1 < i.lo.value {
          Clash(x, k - 1, i.lo.value);
          clauses := clauses + [Clause(LoLits(x, i) + {Lt(x, k)}, None)];
          return false;
        }
        if Below(Some(k - 1), i.hi) {
          bounds := bounds[x := Interval(i.lo, Some(k - 1))];
        }
      }
      assert forall y :: y != x ==> Get(y) == old(Get(y));
      assert forall a: Assignment :: old(InBox(a)) ==> Within(a(x), i);
      return true;
    }

    method HandleGtC(x: nat, k: int, decision: bool) returns (ok: bool)
      requires Sound()
      modifies this
      ensures Sound()
      ensures Others({x})
      ensures var i := Meet(old(Get(x)), if decision then Interval(Some(k + 1), None) else Interval(None, Some(k)));
        if ok then Get(x) == i else Empty(i)
      ensures Told(Decided(GtC(x, k), decision), {}, old(St()), St(), ok)
      ensures forall a: Assignment :: old(InBox(a)) && Holds(a, Decided(GtC(x, k), decision)) ==> ok && InBox(a)
    {
      var l := Decided(GtC(x, k), decision);
      ReasonOf(l);
      if decision {
        ok := SetLo({l}, x, k + 1);
      } else {
        ok := SetHi({l}, x, k);
      }
    }

    method HandleGt(x: nat, y: nat, decision: bool) returns (ok: bool)
      requires Sound()
      modifies this
      ensures Sound()
      ensures Others({x, y})
      ensures x != y ==>
        var ix, iy := old(Get(x)), old(Get(y));
        var jx := Meet(ix, if decision then Interval(Plus(iy.lo, Some(1)), None) else Interval(None, iy.hi));
        var jy := Meet(iy, if decision then Interval(None, Minus(ix.hi, Some(1))) else Interval(ix.lo, None));
        if ok then Get(x) == jx && Get(y) == jy else Empty(jx) || Empty(jy)
      ensures Told(Decided(Gt(x, y), decision), Ends(x, old(Get(x))) + Ends(y, old(Get(y))), old(St()), St(), ok)
      ensures forall a: Assignment :: old(InBox(a)) && Holds(a, Decided(Gt(x, y), decision)) ==> ok && InBox(a)
    {
      hide Told, NewBound, AllHold, LoLits, HiLits;
      var l := Decided(Gt(x, y), decision);
      var ix, iy := Get(x), Get(y);
      TwoReasons(l, x, ix, y, iy);
      ok := true;
      ghost var s, read := St(), Ends(x, ix) + Ends(y, iy);
      ToldNothing(l, read, s);
      if decision {
        var loX, hiY := Plus(iy.lo, Some(1)), Minus(ix.hi, Some(1));
        if Above(loX, ix.lo) {
          ok := SetLo({l} + LoLits(y, iy), x, loX.value);
        }
        ghost var t := St();
        if ok && Below(hiY, iy.hi) {
          ok := SetHi({l} + HiLits(x, ix), y, hiY.value);
          ToldThen(l, read, s, t, St(), ok);
        }
      } else {
        if Below(iy.hi, ix.hi) {
          ok := SetHi({l} + HiLits(y, iy), x, iy.hi.value);
        }
        ghost var t := St();
        if ok && Above(ix.lo, iy.lo) {
          ok := SetLo({l} + LoLits(x, ix), y, ix.lo.value);
          ToldThen(l, read, s, t, St(), ok);
        }
      }
    }

    method HandleEqC(x: nat, k: int, decision: bool) returns (ok: bool)
      requires Sound()
      modifies this
      ensures Sound()
      ensures Others({x})
      ensures var i := if decision then Meet(old(Get(x)), Interval(Some(k), Some(k))) else ButNot(old(Get(x)), k);
        if ok then Get(x) == i else Empty(i)
      ensures Told(Decided(EqC(x, k), decision), if decision then {} else Ends(x, old(Get(x))), old(St()), St(), ok)
      ensures forall a: Assignment :: old(InBox(a)) && Holds(a, Decided(EqC(x, k), decision)) ==> ok && InBox(a)
    {
      var l := Decided(EqC(x, k), decision);
      ReasonOf(l);
      if decision {
        ok := SetLo({l}, x, k);
        if ok {
          ghost var t := St();
          ok := SetHi({l}, x, k);
          ToldThen(l, {}, old(St()), t, St(), ok);
        }
        return;
      }
      ok := true;
      var i := Get(x);
      ghost var s, read := St(), Ends(x, i);
      ToldNothing(l, read, s);
      TwoReasons(l, x, i, x, i);
      if i.lo == Some(k) {
        ok := SetLo({l} + LoLits(x, i), x, k + 1);
      }
      if ok {
        ghost var t := St();
        i := Get(x);
        TwoReasons(l, x, i, x, i);
        if i.hi == Some(k) {
          ok := SetHi({l} + HiLits(x, i), x, k - 1);
          ToldThen(l, read, s, t, St(), ok);
        }
      }
    }

    // x = y, and x = y + k: the bounds of each shift to the other.
    method HandleOffset(c: Cons, x: nat, y: nat, k: int, decision: bool) returns (ok: bool)
      requires Sound() && (c == EqPlusC(x, y, k) || (c == Eq(x, y) && k == 0))
      modifies this
      ensures Sound()
      ensures Others({x, y})
      ensures x != y ==>
        var ix, iy := old(Get(x)), old(Get(y));
        var jx := if decision then Meet(ix, Shift(iy, k)) else if Fixed(iy) then ButNot(ix, iy.lo.value + k) else ix;
        var jy := if decision then Meet(iy, Shift(ix, -k)) else if Fixed(ix) then ButNot(iy, ix.lo.value - k) else iy;
        if ok then Get(x) == jx && Get(y) == jy else Empty(jx) || Empty(jy)
      ensures Told(Decided(c, decision), Ends(x, old(Get(x))) + Ends(y, old(Get(y))), old(St()), St(), ok)
      ensures forall a: Assignment :: old(InBox(a)) && Holds(a, Decided(c, decision)) ==> ok && InBox(a)
    {
      hide InBox, Holds, Explains, Within, Valid, Meet, Shift, LoLits, HiLits, ButNot;
      var l := Decided(c, decision);
      var ix, iy := Get(x), Get(y);
      BoxAt(x);
      BoxAt(y);
      ok := true;
      ghost var s, read := St(), Ends(x, ix) + Ends(y, iy);
      ToldNothing(l, read, s);
      if decision {
        OffsetExplains(c, x, ix, y, iy, k);
        ok := Narrow(l, y, iy, y, iy, {l} + LoLits(y, iy), {l} + HiLits(y, iy), x, ix, Shift(iy, k));
        if ok {
          ghost var t := St();
          ok := Narrow(l, x, ix, x, ix, {l} + LoLits(x, ix), {l} + HiLits(x, ix), y, iy, Shift(ix, -k));
          ToldThen(l, read, s, t, St(), ok);
        }
      } else {
        if ix.lo.Some? && ix.lo == ix.hi {
          OffsetExcludes(c, x, y, k, ix.lo.value - k, ix.lo.value);
          ok := Exclude(l, x, ix, y, iy, ix.lo.value - k);
        }
        if ok && iy.lo.Some? && iy.lo == iy.hi {
          ghost var t := St();
          OffsetExcludes(c, x, y, k, iy.lo.value, iy.lo.value + k);
          ok := Exclude(l, y, iy, x, ix, iy.lo.value + k);
          ToldThen(l, read, s, t, St(), ok);
        }
      }
    }

    // The other variable is fixed, so v cannot be the value of y: an end of
    // y's interval that equals v moves by one.
    method Exclude(l: Lit, x: nat, ix: Interval, y: nat, iy: Interval, v: int) returns (ok: bool)
      requires Sound() && ix.lo.Some? && ix.lo == ix.hi
      requires forall a: Assignment :: Holds(a, l) && a(x) == ix.lo.value ==> a(y) != v
      modifies this
      ensures Sound()
      ensures Others({y})
      ensures iy == old(Get(y)) ==> if ok then Get(y) == ButNot(iy, v) else Empty(ButNot(iy, v))
      ensures forall read :: Ends(x, ix) + Ends(y, iy) <= read ==> Told(l, read, old(St()), St(), ok)
      ensures forall a: Assignment :: old(InBox(a)) && Holds(a, l) && Within(a(x), ix) && Within(a(y), iy) ==>
            ok && InBox(a)
    {
      ThreeReasons(l, x, ix, y, iy);
      ok := true;
      ghost var s := St();
      ToldNothingByAny({l}, s);
      if iy.lo == Some(v) {
        ok := SetLo({l} + LoLits(x, ix) + HiLits(x, ix) + LoLits(y, iy), y, v + 1);
      }
      if ok && iy.hi == Some(v) {
        ghost var t := St();
        ok := SetHi({l} + LoLits(x, ix) + HiLits(x, ix) + HiLits(y, iy), y, v - 1);
        forall read | Ends(x, ix) + Ends(y, iy) <= read
          ensures Told(l, read, s, St(), ok)
        {
          ToldThen(l, read, s, t, St(), ok);
        }
      }
    }

    // x = y * k: for a negative factor the ends change places.
    method HandleEqMulC(x: nat, y: nat, k: int, decision: bool) returns (ok: bool, again: bool)
      requires Sound()
      modifies this
      ensures Sound()
      ensures Others({x, y})
      ensures x != y ==>
        var ix, iy := old(Get(x)), old(Get(y));
        var jx := if decision then Meet(ix, MulC(iy, k)) else if Fixed(iy) then ButNot(ix, iy.lo.value * k) else ix;
        var jy := if decision then Meet(iy, DivC(ix, k))
                  else if Fixed(ix) && Divides(k, ix.lo.value) then ButNot(iy, FloorDiv(ix.lo.value, k)) else iy;
        if ok then Get(x) == jx && Get(y) == jy && (again <==> decision && jy != iy) else Empty(jx) || Empty(jy)
      ensures Told(Decided(EqMulC(x, y, k), decision), Ends(x, old(Get(x))) + Ends(y, old(Get(y))), old(St()), St(), ok)
      ensures forall a: Assignment :: old(InBox(a)) && Holds(a, Decided(EqMulC(x, y, k), decision)) ==> ok && InBox(a)
    {
      hide InBox, Holds, Explains, Within, Valid, Meet, MulC, DivC, LoLits, HiLits, ButNot, FloorDiv;
      var l := Decided(EqMulC(x, y, k), decision);
      var ix, iy := Get(x), Get(y);
      BoxAt(x);
      BoxAt(y);
      ok, again := true, false;
      ghost var s, read := St(), Ends(x, ix) + Ends(y, iy);
      ToldNothing(l, read, s);
      if decision {
        var loX, hiX, loY, hiY := LoLits(x, ix), HiLits(x, ix), LoLits(y, iy), HiLits(y, iy);
        if k < 0 {
          loX, hiX, loY, hiY := hiX, loX, hiY, loY;
        }
        MulExplains(x, ix, y, iy, k);
        ok := Narrow(l, y, iy, y, iy, {l} + loY, {l} + hiY, x, ix, MulC(iy, k));
        if ok {
          ghost var t := St();
          var iz := DivC(ix, k);
          again := Above(iz.lo, iy.lo) || Below(iz.hi, iy.hi);
          MeetChanges(iy, iz);
          ok := Narrow(l, x, ix, x, ix, {l} + loX, {l} + hiX, y, iy, iz);
          ToldThen(l, read, s, t, St(), ok);
        }
      } else {
        if ix.lo.Some? && ix.lo == ix.hi && Divides(k, ix.lo.value) {
          MulExcludes(x, y, k, FloorDiv(ix.lo.value, k), ix.lo.value);
          ok := Exclude(l, x, ix, y, iy, FloorDiv(ix.lo.value, k));
        }
        if ok && iy.lo.Some? && iy.lo == iy.hi {
          ghost var t := St();
          MulExcludes(x, y, k, iy.lo.value, iy.lo.value * k);
          ok := Exclude(l, y, iy, x, ix, iy.lo.value * k);
          ToldThen(l, read, s, t, St(), ok);
        }
      }
    }

    // x = y + z: each variable is bounded by the other two.
    method HandleEqPlus(x: nat, y: nat, z: nat) returns (ok: bool, again: bool)
      requires Sound()
      modifies this
      ensures Sound()
      ensures Others({x, y, z})
      ensures x != y && x != z && y != z ==>
        var ix, iy, iz := old(Get(x)), old(Get(y)), old(Get(z));
        var jx, jy := Meet(ix, Sum(iy, iz)), Meet(iy, Difference(ix, iz));
        var jz := Meet(iz, Interval(Difference(ix, iy).lo, None));
        if ok then Get(x) == jx && Get(y) == jy && Get(z) == jz && (again <==> jx != ix || jy != iy || jz != iz)
        else Empty(jx) || Empty(jy) || Empty(jz)
      ensures Told(Is(EqPlus(x, y, z)), Ends(x, old(Get(x))) + Ends(y, old(Get(y))) + Ends(z, old(Get(z))), old(St()),
                   St(), ok)
      ensures forall a: Assignment :: old(InBox(a)) && Holds(a, Is(EqPlus(x, y, z))) ==> ok && InBox(a)
    {
      hide InBox, Holds, Explains, Within, Valid, Meet, Sum, Difference, LoLits, HiLits;
      var l := Is(EqPlus(x, y, z));
      var ix, iy, iz := Get(x), Get(y), Get(z);
      BoxAt(x);
      BoxAt(y);
      BoxAt(z);
      PlusExplains(x, ix, y, iy, z, iz);
      again := false;
      ghost var s, read := St(), Ends(x, ix) + Ends(y, iy) + Ends(z, iz);
      var part := Sum(iy, iz);
      MeetChanges(ix, part);
      ok := Narrow(l, y, iy, z, iz, {l} + LoLits(y, iy) + LoLits(z, iz), {l} + HiLits(y, iy) + HiLits(z, iz), x, ix,
                   part);
      if !ok { return; }
      if Above(part.lo, ix.lo) || Below(part.hi, ix.hi) {
        again := Get(x) != ix;
      }
      ghost var t := St();
      part := Difference(ix, iz);
      MeetChanges(iy, part);
      ok := Narrow(l, x, ix, z, iz, {l} + LoLits(x, ix) + HiLits(z, iz), {l} + HiLits(x, ix) + LoLits(z, iz), y, iy,
                   part);
      ToldThen(l, read, s, t, St(), ok);
      if !ok { return; }
      if Above(part.lo, iy.lo) || Below(part.hi, iy.hi) {
        again := again || Get(y) != iy;
      }
      t := St();
      part := Difference(ix, iy);
      MeetChanges(iz, Interval(part.lo, None));
      ok := ThirdPart(x, ix, y, iy, z, iz);
      ToldThen(l, read, s, t, St(), ok);
      if Above(part.lo, iz.lo) || (iz.hi.Some? && (part.hi.None? || part.hi.value > iz.hi.value)) {
        again := again || Get(z) != iz;
      }
    }

    // The upper bound of z is compared the wrong way round, and setting it to
    // a higher value does nothing: it is never lowered.
    method ThirdPart(x: nat, ix: Interval, y: nat, iy: Interval, z: nat, iz: Interval) returns (ok: bool)
      requires Sound()
      modifies this
      ensures Sound() && Others({z})
      ensures iz == old(Get(z)) ==>
        var j := Meet(iz, Interval(Difference(ix, iy).lo, None));
        if ok then Get(z) == j else Empty(j)
      ensures forall read :: Ends(x, ix) + Ends(y, iy) <= read ==>
            Told(Is(EqPlus(x, y, z)), read, old(St()), St(), ok)
      ensures forall a: Assignment ::
            old(InBox(a)) && Holds(a, Is(EqPlus(x, y, z))) && Within(a(x), ix) && Within(a(y), iy) ==> ok && InBox(a)
    {
      hide InBox, Holds, Within, Valid, AllHold, Difference, LoLits, HiLits;
      var l := Is(EqPlus(x, y, z));
      var rest := Difference(ix, iy);
      PlusExplains(x, ix, y, iy, z, iz);
      ok := true;
      ghost var s := St();
      ToldNothingByAny({l}, s);
      if Above(rest.lo, iz.lo) {
        ok := SetLo({l} + LoLits(x, ix) + HiLits(y, iy), z, rest.lo.value);
      }
      ghost var t := St();
      if ok && rest.hi.Some? && iz.hi.Some? && rest.hi.value > iz.hi.value {
        ok := SetHi({l} + HiLits(x, ix) + LoLits(y, iy), z, rest.hi.value);
        forall read | Ends(x, ix) + Ends(y, iy) <= read
          ensures Told(l, read, s, St(), ok)
        {
          ToldThen(l, read, s, t, St(), ok);
        }
      }
    }
  }

  // The handler leaves z with all that follows from the other two if and only
  // if they do not lower its upper bound.
  lemma ThirdPartIff(ix: Interval, iy: Interval, iz: Interval)
    ensures var rest := Difference(ix, iy);
      Meet(iz, Interval(rest.lo, None)) == Meet(iz, rest) <==> !Below(rest.hi, iz.hi)
  {
  }

  // 0 <= x <= 1 and y = 0 leave z in 0..5, though x = y + z puts it in 0..1.
  method ThirdPartMisses(s: Solver, x: nat, y: nat, z: nat)
    requires s.Sound() && x != y && x != z && y != z
    requires s.Get(x) == Interval(Some(0), Some(1)) && s.Get(y) == Interval(Some(0), Some(0))
    requires s.Get(z) == Interval(Some(0), Some(5))
    modifies s
    ensures s.Sound() && s.Get(z) == Interval(Some(0), Some(5))
    ensures Meet(s.Get(z), Difference(s.Get(x), s.Get(y))) == Interval(Some(0), Some(1))
  {
    var ok, again := s.HandleEqPlus(x, y, z);
  }

  // The literal of a decided constraint.
  function Decided(c: Cons, decision: bool): Lit {
    if decision then Is(c) else Not(c)
  }

  lemma ReasonOf(l: Lit)
    ensures forall a: Assignment :: AllHold(a, {l}) <==> Holds(a, l)
  {
    assert l in {l};
  }

  // What the literals behind a bound say.
  lemma BoundLits(x: nat, i: Interval)
    ensures forall a: Assignment :: AllHold(a, LoLits(x, i)) <==> (i.lo.Some? ==> i.lo.value <= a(x))
    ensures forall a: Assignment :: AllHold(a, HiLits(x, i)) <==> (i.hi.Some? ==> a(x) <= i.hi.value)
  {
    assert i.lo.Some? ==> Ge(x, i.lo.value) in LoLits(x, i);
    assert i.hi.Some? ==> Lt(x, i.hi.value + 1) in HiLits(x, i);
  }

  lemma Joined(r: set<Lit>, s: set<Lit>)
    ensures forall a: Assignment :: AllHold(a, r + s) <==> AllHold(a, r) && AllHold(a, s)
  {
    assert forall l :: l in r + s <==> l in r || l in s;
  }

  // The four reasons made of a literal and one bound that was read.
  lemma TwoReasons(l: Lit, x: nat, i: Interval, y: nat, j: Interval)
    ensures forall a: Assignment :: AllHold(a, {l} + LoLits(x, i)) <==>
          Holds(a, l) && (i.lo.Some? ==> i.lo.value <= a(x))
    ensures forall a: Assignment :: AllHold(a, {l} + HiLits(x, i)) <==>
          Holds(a, l) && (i.hi.Some? ==> a(x) <= i.hi.value)
    ensures forall a: Assignment :: AllHold(a, {l} + LoLits(y, j)) <==>
          Holds(a, l) && (j.lo.Some? ==> j.lo.value <= a(y))
    ensures forall a: Assignment :: AllHold(a, {l} + HiLits(y, j)) <==>
          Holds(a, l) && (j.hi.Some? ==> a(y) <= j.hi.value)
  {
    hide AllHold, Holds;
    ReasonOf(l);
    BoundLits(x, i);
    BoundLits(y, j);
    Joined({l}, LoLits(x, i));
    Joined({l}, HiLits(x, i));
    Joined({l}, LoLits(y, j));
    Joined({l}, HiLits(y, j));
  }

  ghost predicate LoHolds(a: Assignment, x: nat, i: Interval) {
    i.lo.Some? ==> i.lo.value <= a(x)
  }

  ghost predicate HiHolds(a: Assignment, x: nat, i: Interval) {
    i.hi.Some? ==> a(x) <= i.hi.value
  }

  lemma ThreeReasons(l: Lit, x: nat, i: Interval, y: nat, j: Interval)
    ensures forall a: Assignment :: AllHold(a, {l} + LoLits(x, i) + HiLits(x, i) + LoLits(y, j)) <==>
      Holds(a, l) && LoHolds(a, x, i) && HiHolds(a, x, i) && LoHolds(a, y, j)
    ensures forall a: Assignment :: AllHold(a, {l} + LoLits(x, i) + HiLits(x, i) + HiLits(y, j)) <==>
      Holds(a, l) && LoHolds(a, x, i) && HiHolds(a, x, i) && HiHolds(a, y, j)
  {
    hide AllHold, Holds;
    ReasonOf(l);
    BoundLits(x, i);
    BoundLits(y, j);
    Joined({l}, LoLits(x, i));
    Joined({l} + LoLits(x, i), HiLits(x, i));
    Joined({l} + LoLits(x, i) + HiLits(x, i), LoLits(y, j));
    Joined({l} + LoLits(x, i) + HiLits(x, i), HiLits(y, j));
  }

  lemma PairReason(l: Lit, r: set<Lit>, s: set<Lit>)
    ensures forall a: Assignment :: AllHold(a, {l} + r + s) <==> Holds(a, l) && AllHold(a, r) && AllHold(a, s)
  {
    hide AllHold, Holds;
    ReasonOf(l);
    Joined({l}, r);
    Joined({l} + r, s);
  }

  // The reasons made of a literal and one bound of each of two variables.
  lemma PairReasons(l: Lit, x: nat, i: Interval, y: nat, j: Interval)
    ensures forall a: Assignment :: AllHold(a, {l} + LoLits(x, i) + LoLits(y, j)) <==>
          Holds(a, l) && LoHolds(a, x, i) && LoHolds(a, y, j)
    ensures forall a: Assignment :: AllHold(a, {l} + HiLits(x, i) + HiLits(y, j)) <==>
          Holds(a, l) && HiHolds(a, x, i) && HiHolds(a, y, j)
    ensures forall a: Assignment :: AllHold(a, {l} + LoLits(x, i) + HiLits(y, j)) <==>
          Holds(a, l) && LoHolds(a, x, i) && HiHolds(a, y, j)
    ensures forall a: Assignment :: AllHold(a, {l} + HiLits(x, i) + LoLits(y, j)) <==>
          Holds(a, l) && HiHolds(a, x, i) && LoHolds(a, y, j)
  {
    hide AllHold, Holds;
    BoundLits(x, i);
    BoundLits(y, j);
    PairReason(l, LoLits(x, i), LoLits(y, j));
    PairReason(l, HiLits(x, i), HiLits(y, j));
    PairReason(l, LoLits(x, i), HiLits(y, j));
    PairReason(l, HiLits(x, i), LoLits(y, j));
  }

  // What was read for u and v, together with l, makes the two reasons hold,
  // and each reason makes x lie on its side of an end of j.
  ghost predicate Explains(l: Lit, u: nat, iu: Interval, v: nat, iv: Interval, lo: set<Lit>, hi: set<Lit>, x: nat,
                           j: Interval) {
    && (j.lo.Some? ==> Valid(Clause(lo, Some(Ge(x, j.lo.value)))))
    && (j.hi.Some? ==> Valid(Clause(hi, Some(Lt(x, j.hi.value + 1)))))
    && forall a: Assignment :: Holds(a, l) && Within(a(u), iu) && Within(a(v), iv) ==> AllHold(a, lo) && AllHold(a, hi)
  }

  lemma OffsetExplains(c: Cons, x: nat, ix: Interval, y: nat, iy: Interval, k: int)
    requires c == EqPlusC(x, y, k) || (c == Eq(x, y) && k == 0)
    ensures Explains(Is(c), y, iy, y, iy, {Is(c)} + LoLits(y, iy), {Is(c)} + HiLits(y, iy), x, Shift(iy, k))
    ensures Explains(Is(c), x, ix, x, ix, {Is(c)} + LoLits(x, ix), {Is(c)} + HiLits(x, ix), y, Shift(ix, -k))
  {
    hide AllHold, LoLits, HiLits;
    TwoReasons(Is(c), x, ix, y, iy);
  }

  lemma OffsetExcludes(c: Cons, x: nat, y: nat, k: int, v: int, w: int)
    requires (c == EqPlusC(x, y, k) || (c == Eq(x, y) && k == 0)) && w == v + k
    ensures forall a: Assignment :: Holds(a, Decided(c, false)) && a(x) == w ==> a(y) != v
    ensures forall a: Assignment :: Holds(a, Decided(c, false)) && a(y) == v ==> a(x) != w
  {
  }

  lemma MulExcludes(x: nat, y: nat, k: int, v: int, w: int)
    requires w == v * k
    ensures forall a: Assignment :: Holds(a, Decided(EqMulC(x, y, k), false)) && a(x) == w ==> a(y) != v
    ensures forall a: Assignment :: Holds(a, Decided(EqMulC(x, y, k), false)) && a(y) == v ==> a(x) != w
  {
  }

  lemma MulExplains(x: nat, ix: Interval, y: nat, iy: Interval, k: int)
    ensures var l := Is(EqMulC(x, y, k));
      var loX, hiX := if k < 0 then HiLits(x, ix) else LoLits(x, ix), if k < 0 then LoLits(x, ix) else HiLits(x, ix);
      var loY, hiY := if k < 0 then HiLits(y, iy) else LoLits(y, iy), if k < 0 then LoLits(y, iy) else HiLits(y, iy);
      && Explains(l, y, iy, y, iy, {l} + loY, {l} + hiY, x, MulC(iy, k))
      && Explains(l, x, ix, x, ix, {l} + loX, {l} + hiX, y, DivC(ix, k))
  {
    hide AllHold, LoLits, HiLits, MulC, DivC;
    var l := Is(EqMulC(x, y, k));
    TwoReasons(l, x, ix, y, iy);
    ProductBounds(l, x, y, k, iy);
    QuotientBounds(l, x, y, k, ix);
  }

  lemma PlusExplains(x: nat, ix: Interval, y: nat, iy: Interval, z: nat, iz: Interval)
    ensures var l := Is(EqPlus(x, y, z));
      && Explains(l, y, iy, z, iz, {l} + LoLits(y, iy) + LoLits(z, iz), {l} + HiLits(y, iy) + HiLits(z, iz), x,
                  Sum(iy, iz))
      && Explains(l, x, ix, z, iz, {l} + LoLits(x, ix) + HiLits(z, iz), {l} + HiLits(x, ix) + LoLits(z, iz), y,
                  Difference(ix, iz))
      && Explains(l, x, ix, y, iy, {l} + LoLits(x, ix) + HiLits(y, iy), {l} + HiLits(x, ix) + LoLits(y, iy), z,
                  Difference(ix, iy))
  {
    hide AllHold, LoLits, HiLits;
    var l := Is(EqPlus(x, y, z));
    PairReasons(l, y, iy, z, iz);
    PairReasons(l, x, ix, z, iz);
    PairReasons(l, x, ix, y, iy);
  }

  lemma MeetChanges(i: Interval, j: Interval)
    ensures Meet(i, j) != i <==> Above(j.lo, i.lo) || Below(j.hi, i.hi)
  {
  }

  // The sum of two intervals holds exactly the sums of their values.
  lemma SumExact(i: Interval, j: Interval, v: int)
    requires !Empty(i) && !Empty(j)
    ensures Within(v, Sum(i, j)) <==> exists u :: Within(u, i) && Within(v - u, j)
  {
    if Within(v, Sum(i, j)) {
      var u :=
        if i.lo.Some? && j.hi.Some? then (if i.lo.value >= v - j.hi.value then i.lo.value else v - j.hi.value)
        else if i.lo.Some? then i.lo.value
        else if j.hi.Some? then v - j.hi.value
        else if i.hi.Some? && j.lo.Some? then (if i.hi.value <= v - j.lo.value then i.hi.value else v - j.lo.value)
        else if i.hi.Some? then i.hi.value
        else if j.lo.Some? then v - j.lo.value
        else 0;
      assert Within(u, i) && Within(v - u, j);
    }
  }

  lemma DifferenceExact(i: Interval, j: Interval, v: int)
    requires !Empty(i) && !Empty(j)
    ensures Within(v, Difference(i, j)) <==> exists u :: Within(u, j) && Within(v + u, i)
  {
    if Within(v, Difference(i, j)) {
      var u :=
        if j.lo.Some? && i.lo.Some? then (if j.lo.value >= i.lo.value - v then j.lo.value else i.lo.value - v)
        else if j.lo.Some? then j.lo.value
        else if i.lo.Some? then i.lo.value - v
        else if j.hi.Some? && i.hi.Some? then (if j.hi.value <= i.hi.value - v then j.hi.value else i.hi.value - v)
        else if j.hi.Some? then j.hi.value
        else if i.hi.Some? then i.hi.value - v
        else 0;
      assert Within(u, j) && Within(v + u, i);
    }
  }

  // The common part of two intervals.
  lemma MeetIsCommon(i: Interval, j: Interval, v: int)
    ensures Within(v, Meet(i, j)) <==> Within(v, i) && Within(v, j)
  {
  }

  // The ends of y's interval bound x = y * k.
  lemma ProductBounds(l: Lit, x: nat, y: nat, k: int, iy: Interval)
    requires l == Is(EqMulC(x, y, k))
    ensures var iz := MulC(iy, k); forall a: Assignment :: Holds(a, l) ==>
      && ((if k < 0 then HiHolds(a, y, iy) else LoHolds(a, y, iy)) ==> LoHolds(a, x, iz))
      && ((if k < 0 then LoHolds(a, y, iy) else HiHolds(a, y, iy)) ==> HiHolds(a, x, iz))
  {
    forall a: Assignment | Holds(a, l)
      ensures var iz := MulC(iy, k);
        && ((if k < 0 then HiHolds(a, y, iy) else LoHolds(a, y, iy)) ==> LoHolds(a, x, iz))
        && ((if k < 0 then LoHolds(a, y, iy) else HiHolds(a, y, iy)) ==> HiHolds(a, x, iz))
    {
      if LoHolds(a, y, iy) {
        MulCEncloses(Interval(iy.lo, None), k, a(y));
      }
      if HiHolds(a, y, iy) {
        MulCEncloses(Interval(None, iy.hi), k, a(y));
      }
    }
  }

  // The ends of x's interval bound y in x = y * k.
  lemma QuotientBounds(l: Lit, x: nat, y: nat, k: int, ix: Interval)
    requires l == Is(EqMulC(x, y, k))
    ensures var iz := DivC(ix, k); forall a: Assignment :: Holds(a, l) ==>
      && ((if k < 0 then HiHolds(a, x, ix) else LoHolds(a, x, ix)) ==> LoHolds(a, y, iz))
      && ((if k < 0 then LoHolds(a, x, ix) else HiHolds(a, x, ix)) ==> HiHolds(a, y, iz))
  {
    forall a: Assignment | Holds(a, l)
      ensures var iz := DivC(ix, k);
        && ((if k < 0 then HiHolds(a, x, ix) else LoHolds(a, x, ix)) ==> LoHolds(a, y, iz))
        && ((if k < 0 then LoHolds(a, x, ix) else HiHolds(a, x, ix)) ==> HiHolds(a, y, iz))
    {
      if k != 0 {
        DivCExact(Interval(ix.lo, None), k, a(y));
        DivCExact(Interval(None, ix.hi), k, a(y));
      }
    }
  }

  // Bounds that cross are contradictory.
  lemma Clash(x: nat, hi: int, lo: int)
    requires hi < lo
    ensures Valid(Clause({Lt(x, hi + 1)} + {Ge(x, lo)}, None))
    ensures Valid(Clause({Ge(x, lo)} + {Lt(x, hi + 1)}, None))
  {
    var r := {Lt(x, hi + 1)} + {Ge(x, lo)};
    assert Lt(x, hi + 1) in r && Ge(x, lo) in r;
    assert r == {Ge(x, lo)} + {Lt(x, hi + 1)};
  }
}
