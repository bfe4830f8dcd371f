// Linear terms over the integers: sums in normal form, and the comparisons
// built from them (expr.c).
module ExprLinear {
  import Rational

  // A summand is a key and its coefficient; keys are compared by an exact
  // total order, here the one on their numbers. One key stands for the number
  // one, and some of the others are variables.
  type Key = nat
  type Terms = seq<(Key, int)>
  type Env = Key -> int

  datatype Names = Names(one: Key, isVar: Key -> bool)

  // A number, something opaque or a variable, or a sum.
  datatype Expr = Num(n: int) | Leaf(k: Key) | Sum(terms: Terms)

  // ----- sums -----

  ghost predicate Ok(s: Terms) {
    && (forall i, j :: 0 <= i < j < |s| ==> s[i].0 < s[j].0)
    && (forall i :: 0 <= i < |s| ==> s[i].1 != 0)
  }

  // The coefficient of a key.
  function At(s: Terms, k: Key): int {
    if s == [] then 0 else if s[0].0 == k then s[0].1 else At(s[1..], k)
  }

  function Worth(k: Key, n: Names, env: Env): int {
    if k == n.one then 1 else env(k)
  }

  function Total(s: Terms, n: Names, env: Env): int {
    if s == [] then 0 else s[0].1 * Worth(s[0].0, n, env) + Total(s[1..], n, env)
  }

  function Val(e: Expr, n: Names, env: Env): int {
    match e
    case Num(m) => m
    case Leaf(k) => env(k)
    case Sum(s) => Total(s, n, env)
  }

  // Add v to the coefficient of k; a coefficient that becomes zero goes.
  function Update(s: Terms, k: Key, v: int): Terms {
    if v == 0 then s
    else if s == [] || k < s[0].0 then [(k, v)] + s
    else if s[0].0 == k then (if s[0].1 + v == 0 then s[1..] else [(k, s[0].1 + v)] + s[1..])
    else [s[0]] + Update(s[1..], k, v)
  }

  lemma {:induction false} AtBelow(s: Terms, k: Key)
    requires Ok(s) && (s != [] ==> k < s[0].0)
    ensures At(s, k) == 0
  {
    if s != [] {
      AtBelow(s[1..], k);
    }
  }

  lemma {:induction false} UpdateOk(s: Terms, k: Key, v: int, lim: Key)
    requires Ok(s) && lim <= k && (s != [] ==> lim <= s[0].0)
    ensures Ok(Update(s, k, v)) && (Update(s, k, v) != [] ==> lim <= Update(s, k, v)[0].0)
  {
    if v != 0 && s != [] && s[0].0 < k {
      UpdateOk(s[1..], k, v, s[0].0 + 1);
    }
  }

  lemma {:induction false} UpdateAt(s: Terms, k: Key, v: int, j: Key)
    requires Ok(s)
    ensures At(Update(s, k, v), j) == At(s, j) + if j == k then v else 0
  {
    if v != 0 && s != [] && s[0].0 < k {
      UpdateAt(s[1..], k, v, j);
    } else if s == [] || k < s[0].0 {
      AtBelow(s, k);
      assert ([(k, v)] + s)[1..] == s;
    } else if s[0].0 == k {
      AtBelow(s[1..], k);
    }
  }

  lemma {:induction false} UpdateTotal(s: Terms, k: Key, v: int, n: Names, env: Env)
    ensures Total(Update(s, k, v), n, env) == Total(s, n, env) + v * Worth(k, n, env)
  {
    if v != 0 && s != [] && s[0].0 < k {
      UpdateTotal(s[1..], k, v, n, env);
    } else if s == [] || k < s[0].0 {
      assert ([(k, v)] + s)[1..] == s;
    } else if s[0].0 == k && v != 0 {
      var w := Worth(k, n, env);
      assert (s[0].1 + v) * w == s[0].1 * w + v * w;
    }
  }

  lemma FirstKey(s: Terms, t: Terms)
    requires Ok(s) && Ok(t) && s != [] && forall k: Key :: At(s, k) == At(t, k)
    ensures t != [] && t[0].0 <= s[0].0
  {
    assert At(s, s[0].0) == s[0].1;
    if t == [] || s[0].0 < t[0].0 {
      AtBelow(t, s[0].0);
    }
  }

  // A sum in normal form is determined by its coefficients.
  lemma {:induction false} Canonical(s: Terms, t: Terms)
    requires Ok(s) && Ok(t) && forall k: Key :: At(s, k) == At(t, k)
    ensures s == t
  {
    if s != [] {
      FirstKey(s, t);
      FirstKey(t, s);
      forall k: Key ensures At(s[1..], k) == At(t[1..], k) {
        assert At(s, k) == At(t, k);
        if k == s[0].0 {
          AtBelow(s[1..], k);
          AtBelow(t[1..], k);
        }
      }
      assert At(s, s[0].0) == At(t, s[0].0);
      Canonical(s[1..], t[1..]);
    } else if t != [] {
      FirstKey(t, s);
    }
  }

  // ----- normal forms -----

  // Sums of nothing, of one number and of one plain key are not kept as sums.
  function ToExpr(s: Terms, one: Key): Expr {
    if s == [] then Num(0)
    else if |s| > 1 then Sum(s)
    else if s[0].0 == one then Num(s[0].1)
    else if s[0].1 == 1 then Leaf(s[0].0)
    else Sum(s)
  }

  function TermsOf(e: Expr, one: Key): Terms {
    match e
    case Num(m) => if m == 0 then [] else [(one, m)]
    case Leaf(k) => [(k, 1)]
    case Sum(s) => s
  }

  ghost predicate Normal(e: Expr, one: Key) {
    match e
    case Num(_) => true
    case Leaf(k) => k != one
    case Sum(s) => Ok(s) && ToExpr(s, one) == e
  }

  lemma ToExprNormal(s: Terms, n: Names, env: Env)
    requires Ok(s)
    ensures Normal(ToExpr(s, n.one), n.one) && TermsOf(ToExpr(s, n.one), n.one) == s
    ensures Val(ToExpr(s, n.one), n, env) == Total(s, n, env)
  {
    if |s| == 1 {
      assert s == [s[0]];
      assert Total(s, n, env) == s[0].1 * Worth(s[0].0, n, env) + Total([], n, env);
    }
  }

  lemma NormalIs(e: Expr, n: Names, env: Env)
    requires Normal(e, n.one)
    ensures Ok(TermsOf(e, n.one)) && ToExpr(TermsOf(e, n.one), n.one) == e
    ensures Total(TermsOf(e, n.one), n, env) == Val(e, n, env)
  {
  }

  // Equal coefficients, equal expressions.
  lemma SameExpr(a: Expr, b: Expr, n: Names)
    requires Normal(a, n.one) && Normal(b, n.one)
    requires forall k: Key :: At(TermsOf(a, n.one), k) == At(TermsOf(b, n.one), k)
    ensures a == b
  {
    hide Ok, At;
    NormalIs(a, n, k => 0);
    NormalIs(b, n, k => 0);
    Canonical(TermsOf(a, n.one), TermsOf(b, n.one));
  }

  // ----- addition and negation -----

  function AddOne(s: Terms, b: Expr, one: Key): Terms
    requires !b.Sum?
  {
    match b
    case Num(m) => if m == 0 then s else Update(s, one, m)
    case Leaf(k) => Update(s, k, 1)
  }

  function Merge(s: Terms, t: Terms, i: nat): Terms
    requires i <= |s|
  {
    if i == 0 then t else Update(Merge(s, t, i - 1), s[i - 1].0, s[i - 1].1)
  }

  method MergeInto(s: Terms, t: Terms) returns (r: Terms)
    ensures r == Merge(s, t, |s|)
  {
    r := t;
    var i := 0;
    while i < |s|
      invariant 0 <= i <= |s| && r == Merge(s, t, i)
    {
      r := Update(r, s[i].0, s[i].1);
      i := i + 1;
    }
  }

  // Two sums are added by going through one of them, whichever tree is less deep.
  function Plus(a: Expr, b: Expr, one: Key, swap: bool): Expr {
    if a.Sum? then
      if b.Sum? then
        var (s, t) := if swap then (b.terms, a.terms) else (a.terms, b.terms);
        ToExpr(Merge(s, t, |s|), one)
      else ToExpr(AddOne(a.terms, b, one), one)
    else if b.Sum? then ToExpr(AddOne(b.terms, a, one), one)
    else if a.Num? && b.Num? then Num(a.n + b.n)
    else ToExpr(AddOne(AddOne([], a, one), b, one), one)
  }

  // Addition, with the loop over the summands.
  method MakeSum(a: Expr, b: Expr, one: Key, swap: bool) returns (e: Expr)
    ensures e == Plus(a, b, one, swap)
  {
    if a.Sum? && b.Sum? {
      var r;
      if swap {
        r := MergeInto(b.terms, a.terms);
      } else {
        r := MergeInto(a.terms, b.terms);
      }
      e := ToExpr(r, one);
    } else if a.Sum? {
      e := ToExpr(AddOne(a.terms, b, one), one);
    } else if b.Sum? {
      e := ToExpr(AddOne(b.terms, a, one), one);
    } else if a.Num? && b.Num? {
      e := Num(a.n + b.n);
    } else {
      e := ToExpr(AddOne(AddOne([], a, one), b, one), one);
    }
  }

  function NegTerms(s: Terms): Terms {
    seq(|s|, i requires 0 <= i < |s| => (s[i].0, -s[i].1))
  }

  function Neg(a: Expr, one: Key): Expr {
    match a
    case Sum(s) => ToExpr(NegTerms(s), one)
    case Num(m) => Num(-m)
    case Leaf(k) => Sum([(k, -1)])
  }

  function Minus(a: Expr, b: Expr, one: Key, swap: bool): Expr {
    Plus(a, Neg(b, one), one, swap)
  }

  // What adding promises: coefficients and values are added.
  ghost predicate Added(s: Terms, t: Terms, r: Terms, n: Names) {
    && Ok(r) && (forall k: Key :: At(r, k) == At(s, k) + At(t, k))
    && (forall env :: Total(r, n, env) == Total(s, n, env) + Total(t, n, env))
  }

  lemma AddOneAdds(s: Terms, b: Expr, n: Names)
    requires Ok(s) && !b.Sum? && Normal(b, n.one)
    ensures Added(TermsOf(b, n.one), s, AddOne(s, b, n.one), n)
  {
    var k, v := if b.Num? then n.one else b.k, if b.Num? then b.n else 1;
    assert AddOne(s, b, n.one) == Update(s, k, v);
    UpdateOk(s, k, v, 0);
    var t := TermsOf(b, n.one);
    forall j: Key ensures At(Update(s, k, v), j) == At(t, j) + At(s, j) {
      UpdateAt(s, k, v, j);
    }
    forall env ensures Total(Update(s, k, v), n, env) == Total(t, n, env) + Total(s, n, env) {
      UpdateTotal(s, k, v, n, env);
    }
  }

  lemma AtTake(s: Terms, i: nat, j: Key)
    requires Ok(s) && i < |s|
    ensures At(s[..i + 1], j) == At(s[..i], j) + if j == s[i].0 then s[i].1 else 0
  {
    if i > 0 {
      assert s[..i + 1][1..] == s[1..][..i] && s[..i][1..] == s[1..][..i - 1];
      AtTake(s[1..], i - 1, j);
    } else {
      assert s[..1][1..] == [];
    }
  }

  lemma TotalTake(s: Terms, i: nat, n: Names, env: Env)
    requires i < |s|
    ensures Total(s[..i + 1], n, env) == Total(s[..i], n, env) + s[i].1 * Worth(s[i].0, n, env)
  {
    if i > 0 {
      assert s[..i + 1][1..] == s[1..][..i] && s[..i][1..] == s[1..][..i - 1];
      TotalTake(s[1..], i - 1, n, env);
    } else {
      assert s[..1][1..] == [];
    }
  }

  lemma {:induction false} MergeAdds(s: Terms, t: Terms, i: nat, n: Names)
    requires Ok(s) && Ok(t) && i <= |s|
    ensures Added(s[..i], t, Merge(s, t, i), n)
  {
    if i > 0 {
      MergeAdds(s, t, i - 1, n);
      var m, k, v := Merge(s, t, i - 1), s[i - 1].0, s[i - 1].1;
      UpdateOk(m, k, v, 0);
      forall j: Key ensures At(Update(m, k, v), j) == At(s[..i], j) + At(t, j) {
        UpdateAt(m, k, v, j);
        AtTake(s, i - 1, j);
      }
      forall env ensures Total(Update(m, k, v), n, env) == Total(s[..i], n, env) + Total(t, n, env) {
        UpdateTotal(m, k, v, n, env);
        TotalTake(s, i - 1, n, env);
      }
    }
  }

  // Adding adds coefficient by coefficient, and so the value.
  lemma PlusAdds(a: Expr, b: Expr, n: Names, swap: bool)
    requires Normal(a, n.one) && Normal(b, n.one)
    ensures Normal(Plus(a, b, n.one, swap), n.one)
    ensures forall k: Key ::
          At(TermsOf(Plus(a, b, n.one, swap), n.one), k) == At(TermsOf(a, n.one), k) + At(TermsOf(b, n.one), k)
    ensures forall env :: Val(Plus(a, b, n.one, swap), n, env) == Val(a, n, env) + Val(b, n, env)
  {
    hide Ok, Update;
    var r := PlusTerms(a, b, n, swap);
    forall env ensures Val(Plus(a, b, n.one, swap), n, env) == Val(a, n, env) + Val(b, n, env) {
      NormalIs(a, n, env);
      NormalIs(b, n, env);
      ToExprNormal(r, n, env);
    }
    ToExprNormal(r, n, k => 0);
  }

  lemma AddedSwap(s: Terms, t: Terms, r: Terms, n: Names)
    requires Added(s, t, r, n)
    ensures Added(t, s, r, n)
  {
  }

  lemma AddedTwice(s: Terms, t: Terms, r0: Terms, r: Terms, n: Names)
    requires Added(s, [], r0, n) && Added(t, r0, r, n)
    ensures Added(s, t, r, n)
  {
    hide Ok;
    forall k: Key ensures At(r, k) == At(s, k) + At(t, k) {
      assert At(r0, k) == At(s, k) + At([], k);
    }
    forall env ensures Total(r, n, env) == Total(s, n, env) + Total(t, n, env) {
      assert Total(r0, n, env) == Total(s, n, env) + Total([], n, env);
    }
  }

  lemma PlusTerms(a: Expr, b: Expr, n: Names, swap: bool) returns (r: Terms)
    requires Normal(a, n.one) && Normal(b, n.one)
    ensures Added(TermsOf(a, n.one), TermsOf(b, n.one), r, n) && Plus(a, b, n.one, swap) == ToExpr(r, n.one)
  {
    hide Ok, Added, AddOne, Merge, Normal, ToExpr;
    NormalIs(a, n, k => 0);
    NormalIs(b, n, k => 0);
    if a.Sum? && b.Sum? {
      var s, t := if swap then b.terms else a.terms, if swap then a.terms else b.terms;
      r := Merge(s, t, |s|);
      MergeAdds(s, t, |s|, n);
      assert s[..|s|] == s;
      if swap { AddedSwap(s, t, r, n); }
    } else if a.Sum? {
      r := AddOne(a.terms, b, n.one);
      AddOneAdds(a.terms, b, n);
      AddedSwap(TermsOf(b, n.one), a.terms, r, n);
    } else if b.Sum? {
      r := AddOne(b.terms, a, n.one);
      AddOneAdds(b.terms, a, n);
    } else {
      r := PlainTerms(a, b, n);
    }
  }

  // Neither is a sum.
  lemma PlainTerms(a: Expr, b: Expr, n: Names) returns (r: Terms)
    requires Normal(a, n.one) && Normal(b, n.one) && !a.Sum? && !b.Sum?
    ensures Added(TermsOf(a, n.one), TermsOf(b, n.one), r, n)
    ensures Plus(a, b, n.one, true) == Plus(a, b, n.one, false) == ToExpr(r, n.one)
  {
    hide Added, Normal;
    var r0 := AddOne([], a, n.one);
    AddOneAdds([], a, n);
    AddedOk(TermsOf(a, n.one), [], r0, n);
    AddOneAdds(r0, b, n);
    r := AddOne(r0, b, n.one);
    AddedTwice(TermsOf(a, n.one), TermsOf(b, n.one), r0, r, n);
  }

  lemma AddedOk(s: Terms, t: Terms, r: Terms, n: Names)
    requires Added(s, t, r, n)
    ensures Ok(r)
  {
  }

  lemma {:induction false} NegAt(s: Terms, j: Key)
    ensures At(NegTerms(s), j) == -At(s, j)
  {
    if s != [] {
      assert NegTerms(s)[1..] == NegTerms(s[1..]);
      NegAt(s[1..], j);
    }
  }

  lemma {:induction false} NegTotal(s: Terms, n: Names, env: Env)
    ensures Total(NegTerms(s), n, env) == -Total(s, n, env)
  {
    if s != [] {
      assert NegTerms(s)[1..] == NegTerms(s[1..]);
      NegTotal(s[1..], n, env);
    }
  }

  lemma NegNegates(a: Expr, n: Names)
    requires Normal(a, n.one)
    ensures Normal(Neg(a, n.one), n.one)
    ensures forall k: Key :: At(TermsOf(Neg(a, n.one), n.one), k) == -At(TermsOf(a, n.one), k)
    ensures forall env :: Val(Neg(a, n.one), n, env) == -Val(a, n, env)
  {
    if a.Sum? {
      var s := a.terms;
      forall k: Key ensures At(NegTerms(s), k) == -At(s, k) { NegAt(s, k); }
      assert Ok(NegTerms(s));
      ToExprNormal(NegTerms(s), n, k => 0);
      forall env ensures Val(Neg(a, n.one), n, env) == -Val(a, n, env) {
        NegTotal(s, n, env);
        ToExprNormal(NegTerms(s), n, env);
      }
    } else {
      forall env ensures Val(Neg(a, n.one), n, env) == -Val(a, n, env) {
        if a.Leaf? { assert Total([(a.k, -1)], n, env) == -1 * Worth(a.k, n, env) + Total([], n, env); }
      }
    }
  }

  // ----- the common factor -----

  function ContentFrom(s: Terms, i: nat, m: int): int
    requires i <= |s|
    decreases |s| - i
  {
    if m == 1 || i == |s| then m else ContentFrom(s, i + 1, Rational.GcdOf(m, s[i].1))
  }

  // The factor taken out of a sum.
  function Content(s: Terms): int
    requires s != []
  {
    ContentFrom(s, 0, s[0].1)
  }

  method TakeContent(s: Terms) returns (m: int)
    requires s != []
    ensures m == Content(s)
  {
    m := s[0].1;
    var i := 0;
    while m != 1 && i < |s|
      invariant 0 <= i <= |s| && ContentFrom(s, i, m) == Content(s)
      decreases |s| - i
    {
      m := Rational.Gcd(m, s[i].1);
      i := i + 1;
    }
  }

  lemma GcdPositive(m: int, v: int)
    requires m != 0 && v != 0
    ensures Rational.GcdOf(m, v) > 0
    ensures Rational.Divides(Rational.GcdOf(m, v), v) && Rational.Divides(Rational.GcdOf(m, v), m)
  {
    hide Rational.Divides;
    var g := Rational.GcdOf(m, v);
    Rational.GcdDivisors(m, v, g);
    assert g == g * 1;
    Rational.DividesBy(g, g, 1);
    if m != 1 && v != 1 {
      Rational.EuclidPositive(Rational.Abs(m), Rational.Abs(v));
    }
  }

  lemma DividesTrans(a: int, b: int, c: int)
    requires Rational.Divides(a, b) && Rational.Divides(b, c)
    ensures Rational.Divides(a, c)
  {
    var i :| b == a * i;
    var j :| c == b * j;
    assert c == a * (i * j);
    Rational.DividesBy(a, c, i * j);
  }

  ghost predicate DividesAll(m: int, s: Terms, i: nat)
    requires i <= |s|
  {
    forall j :: 0 <= j < i ==> Rational.Divides(m, s[j].1)
  }

  lemma {:induction false} ContentDivides(s: Terms, i: nat, m: int)
    requires Ok(s) && i <= |s| && m > 0 && DividesAll(m, s, i)
    ensures ContentFrom(s, i, m) > 0 && DividesAll(ContentFrom(s, i, m), s, |s|)
    decreases |s| - i
  {
    hide Rational.Divides, Rational.GcdOf;
    if m == 1 {
      forall j | 0 <= j < |s| ensures Rational.Divides(1, s[j].1) {
        Rational.DividesBy(1, s[j].1, s[j].1);
      }
    } else if i < |s| {
      var g := Rational.GcdOf(m, s[i].1);
      GcdPositive(m, s[i].1);
      forall j | 0 <= j < i ensures Rational.Divides(g, s[j].1) {
        DividesTrans(g, m, s[j].1);
      }
      ContentDivides(s, i + 1, g);
    }
  }

  // The factor is positive and divides every coefficient.
  lemma ContentIs(s: Terms)
    requires Ok(s) && s != []
    ensures Content(s) > 0 && DividesAll(Content(s), s, |s|)
  {
    hide Rational.Divides, Rational.GcdOf;
    var v := s[0].1;
    if v == 1 {
      ContentDivides(s, 0, 1);
    } else {
      GcdPositive(v, v);
      assert forall j :: 0 <= j < 1 ==> s[j].1 == v;
      ContentDivides(s, 1, Rational.GcdOf(v, v));
    }
  }

  function DivTerms(s: Terms, m: int): Terms
    requires m != 0
  {
    seq(|s|, i requires 0 <= i < |s| => (s[i].0, s[i].1 / m))
  }

  lemma {:induction false} DivTotal(s: Terms, m: int, n: Names, env: Env)
    requires m > 0 && DividesAll(m, s, |s|)
    ensures Total(s, n, env) == m * Total(DivTerms(s, m), n, env)
  {
    if s != [] {
      assert DivTerms(s, m)[1..] == DivTerms(s[1..], m);
      forall j | 0 <= j < |s[1..]| ensures Rational.Divides(m, s[1..][j].1) {
        assert s[1..][j] == s[j + 1];
      }
      DivTotal(s[1..], m, n, env);
      var i :| s[0].1 == m * i;
      Rational.RemainderZero(m, i);
      var w, t := Worth(s[0].0, n, env), Total(DivTerms(s[1..], m), n, env);
      assert m * i * w + m * t == m * (i * w + t);
    }
  }

  lemma DivOk(s: Terms, m: int)
    requires Ok(s) && m > 0 && DividesAll(m, s, |s|)
    ensures Ok(DivTerms(s, m))
  {
    forall j | 0 <= j < |s| ensures DivTerms(s, m)[j].1 != 0 {
      var i :| s[j].1 == m * i;
      Rational.RemainderZero(m, i);
    }
  }

  // Every common factor of the coefficients divides the one taken out.
  lemma {:induction false} ContentGreatest(s: Terms, i: nat, m: int, g: int)
    requires i <= |s| && Rational.Divides(g, m) && DividesAll(g, s, |s|)
    ensures Rational.Divides(g, ContentFrom(s, i, m))
    decreases |s| - i
  {
    hide Rational.Divides, Rational.GcdOf;
    if m != 1 && i < |s| {
      Rational.GcdDivisors(m, s[i].1, g);
      ContentGreatest(s, i + 1, Rational.GcdOf(m, s[i].1), g);
    }
  }

  // What is left has no common factor.
  lemma DivPrimitive(s: Terms, g: int)
    requires Ok(s) && s != [] && g > 0
    requires Content(s) > 0 && DividesAll(g, DivTerms(s, Content(s)), |s|)
    ensures g == 1
  {
    var m := Content(s);
    ContentIs(s);
    forall j | 0 <= j < |s| ensures Rational.Divides(m * g, s[j].1) {
      var i :| s[j].1 == m * i;
      Rational.RemainderZero(m, i);
      assert DivTerms(s, m)[j].1 == i;
      var k :| i == g * k;
      assert m * (g * k) == (m * g) * k;
      Rational.DividesBy(m * g, s[j].1, k);
    }
    ContentGreatest(s, 0, s[0].1, m * g);
    var k :| m == m * g * k;
    FactorsOfOne(m, g, k);
  }

  lemma FactorsOfOne(m: int, g: int, k: int)
    requires m > 0 && g > 0 && m == m * g * k
    ensures g == 1
  {
    assert m * (g * k - 1) == 0 by { assert m * (g * k - 1) == m * g * k - m; }
    assert g * k == 1;
    Rational.UnitDivisor(g, k);
  }

  // A constant times an expression.
  function NumFactor(a: Expr, one: Key): (Expr, int)
    requires a.Sum? ==> a.terms != []
  {
    match a
    case Num(m) => (Num(1), m)
    case Sum(s) =>
      var m := Content(s);
      (if m == 1 || m == 0 then ToExpr(s, one) else ToExpr(DivTerms(s, m), one), m)
    case Leaf(_) => (a, 1)
  }

  // ----- comparisons -----

  datatype Rel = Less | LessEq | Equal

  // 0 = d or 0 < d, or the negation of it.
  datatype Compared = Compared(eq: bool, d: Expr, sign: bool)

  // Without a positive factor, and with the sign of a negative one.
  function Scaled(d: Expr, one: Key): Expr
    requires d.Sum? ==> d.terms != []
  {
    var (r, m) := NumFactor(d, one);
    if m == 0 then Num(0) else if m < 0 then Neg(r, one) else r
  }

  function GetSign(d: Expr): bool {
    match d
    case Num(m) => m < 0
    case Sum(s) => s != [] && s[0].1 < 0
    case Leaf(_) => false
  }

  // 0 < -x and 0 < -x + c are kept as the negation of 0 < x - c + 1.
  predicate Bounding(d: Expr, n: Names) {
    && d.Sum? && (|d.terms| == 1 || (|d.terms| == 2 && d.terms[1].0 == n.one))
    && d.terms[0].1 == -1 && n.isVar(d.terms[0].0)
  }

  function Compare(rel: Rel, a: Expr, b: Expr, n: Names, swap: bool): Compared
    requires Normal(a, n.one) && Normal(b, n.one)
  {
    MinusNormal(b, a, n, swap);
    var d0 := Minus(b, a, n.one, swap);
    NegNegates(d0, n);
    Sense(rel != Equal, Scaled(if rel == LessEq then Neg(d0, n.one) else d0, n.one), rel == LessEq, n)
  }

  // The last step: which of the two senses is kept.
  function Sense(strict: bool, d: Expr, sign: bool, n: Names): Compared {
    if strict then
      if Bounding(d, n) then Compared(false, Plus(Neg(d, n.one), Num(1), n.one, false), !sign)
      else Compared(false, d, sign)
    else Compared(true, if GetSign(d) then Neg(d, n.one) else d, sign)
  }

  lemma MinusNormal(a: Expr, b: Expr, n: Names, swap: bool)
    requires Normal(a, n.one) && Normal(b, n.one)
    ensures Normal(Minus(a, b, n.one, swap), n.one)
    ensures Minus(a, b, n.one, swap).Sum? ==> Minus(a, b, n.one, swap).terms != []
    ensures forall env :: Val(Minus(a, b, n.one, swap), n, env) == Val(a, n, env) - Val(b, n, env)
  {
    NegNegates(b, n);
    PlusAdds(a, Neg(b, n.one), n, swap);
  }

  ghost predicate Truth(c: Compared, n: Names, env: Env) {
    (if c.eq then 0 == Val(c.d, n, env) else 0 < Val(c.d, n, env)) != c.sign
  }

  ghost predicate Means(rel: Rel, x: int, y: int) {
    match rel
    case Less => x < y
    case LessEq => x <= y
    case Equal => x == y
  }

  lemma ScaledKeeps(d: Expr, n: Names, env: Env)
    requires Normal(d, n.one)
    ensures d.Sum? ==> d.terms != []
    ensures Normal(Scaled(d, n.one), n.one)
    ensures 0 < Val(Scaled(d, n.one), n, env) <==> 0 < Val(d, n, env)
    ensures 0 == Val(Scaled(d, n.one), n, env) <==> 0 == Val(d, n, env)
  {
    if d.Sum? {
      var s, m := d.terms, Content(d.terms);
      ContentIs(s);
      DivOk(s, m);
      DivTotal(s, m, n, env);
      ToExprNormal(DivTerms(s, m), n, env);
      ToExprNormal(s, n, env);
      SignOfProduct(m, Total(DivTerms(s, m), n, env));
    }
  }

  // The scaled difference has no common factor left.
  lemma ScaledPrimitive(d: Expr, n: Names, g: int)
    requires Normal(d, n.one) && g > 0
    ensures d.Sum? ==> d.terms != []
    ensures var r := Scaled(d, n.one);
      (r.Num? ==> -1 <= r.n <= 1) && (r.Sum? && DividesAll(g, r.terms, |r.terms|) ==> g == 1)
  {
    if d.Sum? {
      ContentIs(d.terms);
      DivOk(d.terms, Content(d.terms));
      assert Content(d.terms) == 1 ==> DivTerms(d.terms, 1) == d.terms;
      ToExprNormal(DivTerms(d.terms, Content(d.terms)), n, k => 0);
      if Scaled(d, n.one).Sum? && DividesAll(g, Scaled(d, n.one).terms, |Scaled(d, n.one).terms|) {
        DivPrimitive(d.terms, g);
      }
    }
  }

  lemma SignOfProduct(m: int, v: int)
    requires m > 0
    ensures 0 < m * v <==> 0 < v
    ensures 0 == m * v <==> 0 == v
  {
    if v > 0 { Rational.ProductAtLeast(m, v); } else if v < 0 { Rational.ProductAtLeast(m, -v); }
  }

  lemma SenseKeeps(strict: bool, d: Expr, sign: bool, n: Names, env: Env)
    requires Normal(d, n.one)
    ensures Normal(Sense(strict, d, sign, n).d, n.one)
    ensures Truth(Sense(strict, d, sign, n), n, env) <==>
          ((if strict then 0 < Val(d, n, env) else 0 == Val(d, n, env)) != sign)
  {
    hide Normal, Val, Neg, Plus;
    NegNegates(d, n);
    assert Normal(Num(1), n.one) && Val(Num(1), n, env) == 1 by { OneIs(n, env); }
    PlusAdds(Neg(d, n.one), Num(1), n, false);
  }

  lemma OneIs(n: Names, env: Env)
    ensures Normal(Num(1), n.one) && Val(Num(1), n, env) == 1
  {
  }

  // Over the integers a comparison is true exactly when its normal form is.
  lemma CompareKeeps(rel: Rel, a: Expr, b: Expr, n: Names, swap: bool, env: Env)
    requires Normal(a, n.one) && Normal(b, n.one)
    ensures Normal(Compare(rel, a, b, n, swap).d, n.one)
    ensures Truth(Compare(rel, a, b, n, swap), n, env) <==> Means(rel, Val(a, n, env), Val(b, n, env))
  {
    hide Normal, Val, Neg, Minus, Scaled, Sense, Truth;
    var d0 := Minus(b, a, n.one, swap);
    MinusNormal(b, a, n, swap);
    NegNegates(d0, n);
    var d := if rel == LessEq then Neg(d0, n.one) else d0;
    ScaledKeeps(d, n, env);
    SenseKeeps(rel != Equal, Scaled(d, n.one), rel == LessEq, n, env);
  }

  // ----- the six comparisons -----

  datatype Op = OpEq | OpNeq | OpLt | OpLeq | OpGt | OpGeq

  // A comparison with a number on both sides is decided.
  datatype Formula = Known(b: bool) | Atom(eq: bool, d: Expr, negated: bool)

  function ToFormula(c: Compared): Formula {
    if c.d.Num? then Known((if c.eq then 0 == c.d.n else 0 < c.d.n) != c.sign)
    else Atom(c.eq, c.d, c.sign)
  }

  function Not(f: Formula): Formula {
    match f
    case Known(b) => Known(!b)
    case Atom(eq, d, negated) => Atom(eq, d, !negated)
  }

  function Comparison(op: Op, a: Expr, b: Expr, n: Names, swap: bool): Formula
    requires Normal(a, n.one) && Normal(b, n.one)
  {
    match op
    case OpEq => ToFormula(Compare(Equal, a, b, n, swap))
    case OpNeq => Not(ToFormula(Compare(Equal, a, b, n, swap)))
    case OpLt => ToFormula(Compare(Less, a, b, n, swap))
    case OpLeq => ToFormula(Compare(LessEq, a, b, n, swap))
    case OpGt => ToFormula(Compare(Less, b, a, n, swap))
    case OpGeq => ToFormula(Compare(LessEq, b, a, n, swap))
  }

  ghost predicate IsTrue(f: Formula, n: Names, env: Env) {
    match f
    case Known(b) => b
    case Atom(eq, d, negated) => (if eq then 0 == Val(d, n, env) else 0 < Val(d, n, env)) != negated
  }

  ghost predicate OpMeans(op: Op, x: int, y: int) {
    match op
    case OpEq => x == y
    case OpNeq => x != y
    case OpLt => x < y
    case OpLeq => x <= y
    case OpGt => x > y
    case OpGeq => x >= y
  }

  lemma ComparisonKeeps(op: Op, a: Expr, b: Expr, n: Names, swap: bool, env: Env)
    requires Normal(a, n.one) && Normal(b, n.one)
    ensures IsTrue(Comparison(op, a, b, n, swap), n, env) <==> OpMeans(op, Val(a, n, env), Val(b, n, env))
  {
    hide Normal, Compare;
    CompareKeeps(Equal, a, b, n, swap, env);
    CompareKeeps(Less, a, b, n, swap, env);
    CompareKeeps(LessEq, a, b, n, swap, env);
    CompareKeeps(Less, b, a, n, swap, env);
    CompareKeeps(LessEq, b, a, n, swap, env);
  }

  function Opposite(op: Op): Op {
    match op
    case OpEq => OpNeq
    case OpNeq => OpEq
    case OpLt => OpGeq
    case OpLeq => OpGt
    case OpGt => OpLeq
    case OpGeq => OpLt
  }

  // Subtracting the other way round gives the negation, whichever of the two
  // trees is gone through.
  lemma NegMinus(a: Expr, b: Expr, n: Names, swap: bool, swap': bool)
    requires Normal(a, n.one) && Normal(b, n.one)
    ensures Neg(Minus(a, b, n.one, swap), n.one) == Minus(b, a, n.one, swap')
    ensures Minus(a, b, n.one, swap) == Minus(a, b, n.one, swap')
  {
    hide Normal, Neg, Plus, At, TermsOf;
    NegNegates(a, n);
    NegNegates(b, n);
    PlusAdds(a, Neg(b, n.one), n, swap);
    PlusAdds(a, Neg(b, n.one), n, swap');
    PlusAdds(b, Neg(a, n.one), n, swap');
    NegNegates(Minus(a, b, n.one, swap), n);
    SameExpr(Neg(Minus(a, b, n.one, swap), n.one), Minus(b, a, n.one, swap'), n);
    SameExpr(Minus(a, b, n.one, swap), Minus(a, b, n.one, swap'), n);
  }

  // A comparison and its opposite are one atom and its negation.
  lemma OppositeSharesAtom(op: Op, a: Expr, b: Expr, n: Names, swap: bool, swap': bool)
    requires Normal(a, n.one) && Normal(b, n.one)
    ensures Comparison(Opposite(op), a, b, n, swap') == Not(Comparison(op, a, b, n, swap))
  {
    hide Normal, Neg, Minus, Scaled;
    MinusNormal(a, b, n, swap);
    MinusNormal(b, a, n, swap);
    NegMinus(a, b, n, swap', swap);
    NegMinus(b, a, n, swap', swap);
  }

  // ----- one atom for comparisons that say the same -----

  // Positive numbers that divide each other are equal.
  lemma SameDivisors(a: int, b: int)
    requires a > 0 && b > 0 && Rational.Divides(a, b) && Rational.Divides(b, a)
    ensures a == b
  {
    var i :| b == a * i;
    var j :| a == b * j;
    FactorsOfOne(a, i, j);
  }

  lemma NegDivides(g: int, s: Terms)
    requires DividesAll(g, s, |s|)
    ensures DividesAll(g, NegTerms(s), |s|)
  {
    forall j | 0 <= j < |s| ensures Rational.Divides(g, NegTerms(s)[j].1) {
      var k :| s[j].1 == g * k;
      assert -s[j].1 == g * (-k);
      Rational.DividesBy(g, -s[j].1, -k);
    }
  }

  // The factor of a sum and of its negation are the same.
  lemma ContentNeg(s: Terms)
    requires Ok(s) && s != []
    ensures Ok(NegTerms(s)) && Content(NegTerms(s)) == Content(s) > 0
  {
    hide Rational.Divides;
    var t := NegTerms(s);
    ContentIs(s);
    ContentIs(t);
    NegDivides(Content(s), s);
    NegDivides(Content(t), t);
    assert NegTerms(t) == s;
    assert Rational.Divides(Content(s), t[0].1) && Rational.Divides(Content(t), s[0].1);
    ContentGreatest(t, 0, t[0].1, Content(s));
    ContentGreatest(s, 0, s[0].1, Content(t));
    SameDivisors(Content(s), Content(t));
  }

  lemma NegToExpr(s: Terms, one: Key)
    ensures Neg(ToExpr(s, one), one) == ToExpr(NegTerms(s), one)
  {
    if |s| == 1 {
      assert NegTerms(s) == [(s[0].0, -s[0].1)];
    }
  }

  lemma NegDivTerms(s: Terms, m: int)
    requires m > 0 && DividesAll(m, s, |s|)
    ensures DivTerms(NegTerms(s), m) == NegTerms(DivTerms(s, m))
  {
    forall j | 0 <= j < |s| ensures (-s[j].1) / m == -(s[j].1 / m) {
      var i :| s[j].1 == m * i;
      Rational.RemainderZero(m, i);
      Rational.RemainderZero(m, -i);
      assert m * (-i) == -(m * i);
    }
  }

  lemma ScaledIs(d: Expr, one: Key)
    requires d.Sum? && Ok(d.terms) && d.terms != []
    ensures Content(d.terms) > 0 && Scaled(d, one) == ToExpr(DivTerms(d.terms, Content(d.terms)), one)
  {
    ContentIs(d.terms);
    assert Content(d.terms) == 1 ==> DivTerms(d.terms, 1) == d.terms;
  }

  // Scaling the negation is negating what was scaled.
  lemma ScaledNeg(d: Expr, n: Names)
    requires Normal(d, n.one)
    ensures Normal(Neg(d, n.one), n.one) && (d.Sum? ==> d.terms != [])
    ensures Neg(d, n.one).Sum? ==> Neg(d, n.one).terms != []
    ensures Scaled(Neg(d, n.one), n.one) == Neg(Scaled(d, n.one), n.one)
  {
    hide Rational.Divides, Content;
    NegNegates(d, n);
    if d.Sum? {
      ScaledIs(d, n.one);
      ContentIs(d.terms);
      ContentNeg(d.terms);
      NegDivTerms(d.terms, Content(d.terms));
      NegToExpr(DivTerms(d.terms, Content(d.terms)), n.one);
      if Neg(d, n.one).Sum? {
        ScaledIs(Neg(d, n.one), n.one);
      } else {
        UnitContent(d.terms);
      }
    } else if d.Leaf? {
      ScaledIs(Neg(d, n.one), n.one);
      UnitContent([(d.k, -1)]);
    }
  }

  // A coefficient 1 or -1 leaves no factor.
  lemma UnitContent(s: Terms)
    requires Ok(s) && s != [] && (s[0].1 == 1 || s[0].1 == -1)
    ensures Content(s) == 1 && DivTerms(s, 1) == s
  {
    hide Rational.GcdOf;
    ContentIs(s);
    var i :| s[0].1 == Content(s) * i;
    assert Content(s) * i * s[0].1 == 1;
    Rational.UnitDivisor(Content(s), i * s[0].1);
  }

  lemma NegNeg(d: Expr, n: Names)
    requires Normal(d, n.one)
    ensures Neg(Neg(d, n.one), n.one) == d
  {
    hide Normal, Neg, At, TermsOf;
    NegNegates(d, n);
    NegNegates(Neg(d, n.one), n);
    SameExpr(Neg(Neg(d, n.one), n.one), d, n);
  }

  // Of an expression and its negation exactly one has a sign, unless both are 0.
  lemma OneSign(d: Expr, n: Names)
    requires Normal(d, n.one)
    ensures GetSign(d) == GetSign(Neg(d, n.one)) ==> d == Neg(d, n.one)
    ensures !(GetSign(d) && GetSign(Neg(d, n.one)))
  {
    if d.Sum? {
      assert NegTerms(d.terms)[0] == (d.terms[0].0, -d.terms[0].1);
    }
  }

  // a = b and b = a are one atom.
  lemma EqualSharesAtom(a: Expr, b: Expr, n: Names, swap: bool, swap': bool)
    requires Normal(a, n.one) && Normal(b, n.one)
    ensures Comparison(OpEq, a, b, n, swap) == Comparison(OpEq, b, a, n, swap')
  {
    hide Normal, Neg, Minus, Scaled, GetSign;
    var d := Minus(b, a, n.one, swap);
    MinusNormal(b, a, n, swap);
    NegMinus(b, a, n, swap, swap');
    ScaledNeg(d, n);
    ScaledKeeps(d, n, k => 0);
    NegNeg(Scaled(d, n.one), n);
    OneSign(Scaled(d, n.one), n);
  }

  // x - c + 1, and its negation without the 1.
  function Above(k: Key, c: int, one: Key): Terms {
    if c == 1 then [(k, 1)] else [(k, 1), (one, 1 - c)]
  }

  function Below(k: Key, c: int, one: Key): Terms {
    if c == 0 then [(k, -1)] else [(k, -1), (one, c)]
  }

  lemma AboveIs(k: Key, c: int, one: Key, swap: bool)
    requires k < one
    ensures Minus(Leaf(k), Num(c - 1), one, swap) == ToExpr(Above(k, c, one), one)
    ensures Plus(Neg(Sum(Below(k, c, one)), one), Num(1), one, swap) == ToExpr(Above(k, c, one), one)
  {
    assert AddOne([], Leaf(k), one) == [(k, 1)];
    assert Update([(k, 1)][1..], one, 1 - c) == if c == 1 then [] else [(one, 1 - c)];
    var m := NegTerms(Below(k, c, one));
    assert m == if c == 0 then [(k, 1)] else [(k, 1), (one, -c)];
    if c != 0 {
      assert m[1..] == [(one, -c)];
      assert Update(m[1..], one, 1) == if c == 1 then [] else [(one, 1 - c)];
    }
  }

  lemma BelowIs(k: Key, c: int, one: Key, swap: bool)
    requires k < one
    ensures Minus(Num(c), Leaf(k), one, swap) == Sum(Below(k, c, one))
  {
    assert Update([(k, -1)][1..], one, -c) == if c == 0 then [] else [(one, -c)];
    assert Update([(k, -1)][1..], one, c) == if c == 0 then [] else [(one, c)];
  }

  // For a variable, whose key comes before that of the number one, x < c and
  // x > c - 1 are one atom and its negation.
  lemma StrictSharesAtom(k: Key, c: int, n: Names, swap: bool, swap': bool)
    requires n.isVar(k) && k < n.one
    ensures Comparison(OpLt, Leaf(k), Num(c), n, swap) == Not(Comparison(OpGt, Leaf(k), Num(c - 1), n, swap'))
  {
    hide Minus, Content;
    var one := n.one;
    var s, t := Below(k, c, one), Above(k, c, one);
    BelowIs(k, c, one, swap);
    AboveIs(k, c, one, false);
    AboveIs(k, c, one, swap');
    UnitContent(s);
    UnitContent(t);
    ScaledIs(Sum(s), one);
    assert Bounding(Sum(s), n);
    assert Sense(true, Sum(s), false, n) == Compared(false, ToExpr(t, one), true);
    if c != 1 {
      ScaledIs(Sum(t), one);
    }
    assert Sense(true, ToExpr(t, one), false, n) == Compared(false, ToExpr(t, one), false);
  }
}
