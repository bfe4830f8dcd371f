/**
 The simplex tableau as a value: what it means, what every operation keeps, and why conflicts and
 solutions are what they claim to be.
 */
module LinearTableau {
  import opened Wrappers
  import opened LinearRow

  /** The equation: basic variable `s` equals the form `xs`. */
  datatype Row = Row(s: nat, xs: Form)

  /** Rows, the row in which each variable is basic, and the current values. */
  datatype Tableau = Tableau(rows: seq<Row>, rowOf: seq<Option<nat>>, val: seq<real>)

  datatype Bounds = Bounds(lb: seq<Option<real>>, ub: seq<Option<real>>)

  ghost function AsValuation(val: seq<real>): Valuation {
    (x: nat) => if x < |val| then val[x] else 0.0
  }

  ghost predicate Holds(r: Row, v: Valuation) {
    v(r.s) == Eval(r.xs, v)
  }

  /** `v` satisfies every equation. */
  ghost predicate Solves(rows: seq<Row>, v: Valuation) {
    forall i :: 0 <= i < |rows| ==> Holds(rows[i], v)
  }

  /** Two systems of equations have the same solutions. */
  ghost predicate Equivalent(a: seq<Row>, b: seq<Row>) {
    forall v: Valuation :: Solves(a, v) <==> Solves(b, v)
  }

  ghost predicate Below(xs: Form, n: nat) {
    forall i :: 0 <= i < |xs| ==> xs[i].x < n
  }

  ghost predicate IsSlack(defs: seq<Row>, x: nat) {
    exists k :: 0 <= k < |defs| && defs[k].s == x
  }

  /**
   The rows as they were added: each defines a fresh slack variable, numbered after the variables
   of its non-empty form, and no form mentions a slack.
   */
  ghost predicate DefsOk(defs: seq<Row>, n: nat) {
    && (forall k :: 0 <= k < |defs| ==>
          defs[k].s < n && FormOk(defs[k].xs) && defs[k].xs != [] && Below(defs[k].xs, defs[k].s))
    && (forall k, l :: 0 <= k < l < |defs| ==> defs[k].s != defs[l].s)
    && (forall k, i :: 0 <= k < |defs| && 0 <= i < |defs[k].xs| ==> !IsSlack(defs, defs[k].xs[i].x))
  }

  ghost predicate RowsOk(rows: seq<Row>, n: nat) {
    forall r :: 0 <= r < |rows| ==> rows[r].s < n && FormOk(rows[r].xs) && Below(rows[r].xs, n)
  }

  /** `rowOf` maps exactly the basic variables to their rows. */
  ghost predicate BasicOk(rows: seq<Row>, rowOf: seq<Option<nat>>) {
    && (forall r :: 0 <= r < |rows| ==> rows[r].s < |rowOf| && rowOf[rows[r].s] == Some(r))
    && (forall x :: 0 <= x < |rowOf| && rowOf[x].Some? ==> rowOf[x].value < |rows| && rows[rowOf[x].value].s == x)
  }

  ghost predicate NonBasic(rowOf: seq<Option<nat>>, x: nat) {
    x < |rowOf| && rowOf[x].None?
  }

  ghost predicate AllNonBasic(rowOf: seq<Option<nat>>, xs: Form) {
    forall i :: 0 <= i < |xs| ==> NonBasic(rowOf, xs[i].x)
  }

  /** No basic variable stands inside a row. */
  ghost predicate Separated(rows: seq<Row>, rowOf: seq<Option<nat>>) {
    forall r :: 0 <= r < |rows| ==> AllNonBasic(rowOf, rows[r].xs)
  }

  /** The tableau invariant, relative to the defining equations. */
  ghost predicate Inv(defs: seq<Row>, t: Tableau) {
    && |t.rowOf| == |t.val|
    && DefsOk(defs, |t.val|) && RowsOk(t.rows, |t.val|)
    && BasicOk(t.rows, t.rowOf) && Separated(t.rows, t.rowOf)
    && Equivalent(t.rows, defs)
    && Solves(t.rows, AsValuation(t.val))
  }

  predicate AtLeast(v: real, b: Option<real>) {
    b.None? || b.value <= v
  }

  predicate AtMost(v: real, b: Option<real>) {
    b.None? || v <= b.value
  }

  predicate Within(bs: Bounds, x: nat, v: real)
    requires x < |bs.lb| && x < |bs.ub|
  {
    AtLeast(v, bs.lb[x]) && AtMost(v, bs.ub[x])
  }

  /** No bound pair is empty, and nonbasic values are within bounds. */
  ghost predicate BoundsOk(bs: Bounds, t: Tableau) {
    && |bs.lb| == |bs.ub| == |t.val| == |t.rowOf|
    && (forall x :: 0 <= x < |t.val| && bs.lb[x].Some? && bs.ub[x].Some? ==> bs.lb[x].value <= bs.ub[x].value)
    && (forall x :: 0 <= x < |t.val| && t.rowOf[x].None? ==> Within(bs, x, t.val[x]))
  }

  /** `c` is a looser pair of bounds than `b`. */
  ghost predicate Looser(b: Bounds, c: Bounds) {
    && |b.lb| == |c.lb| && |b.ub| == |c.ub|
    && (forall x :: 0 <= x < |b.lb| && c.lb[x].Some? ==> b.lb[x].Some? && c.lb[x].value <= b.lb[x].value)
    && (forall x :: 0 <= x < |b.ub| && c.ub[x].Some? ==> b.ub[x].Some? && b.ub[x].value <= c.ub[x].value)
  }

  /** Values need not be restored when bounds are loosened. */
  lemma LoosenKeepsBounds(b: Bounds, c: Bounds, t: Tableau)
    requires BoundsOk(b, t) && Looser(b, c)
    ensures BoundsOk(c, t)
  {
  }

  /** The solution of the defining equations that agrees with `p` on the variables that are not slack. */
  ghost function Extend(defs: seq<Row>, p: Valuation): Valuation {
    (x: nat) => if IsSlack(defs, x) then Eval(defs[DefOf(defs, x)].xs, p) else p(x)
  }

  ghost function DefOf(defs: seq<Row>, x: nat): (k: nat)
    requires IsSlack(defs, x)
    ensures k < |defs| && defs[k].s == x
  {
    var k :| 0 <= k < |defs| && defs[k].s == x;
    k
  }

  lemma ExtendAt(defs: seq<Row>, n: nat, p: Valuation, k: nat)
    requires DefsOk(defs, n) && k < |defs|
    ensures Extend(defs, p)(defs[k].s) == Eval(defs[k].xs, p)
  {
    assert IsSlack(defs, defs[k].s);
    var l := DefOf(defs, defs[k].s);
    assert l == k;
  }

  lemma ExtendSolves(defs: seq<Row>, n: nat, p: Valuation)
    requires DefsOk(defs, n)
    ensures Solves(defs, Extend(defs, p))
  {
    var v := Extend(defs, p);
    forall k | 0 <= k < |defs| ensures Holds(defs[k], v) {
      ExtendAt(defs, n, p, k);
      EvalDepends(defs[k].xs, v, p);
    }
  }

  /** A form none of whose variables is set evaluates to zero. */
  lemma EvalZero(xs: Form, v: Valuation)
    requires forall i :: 0 <= i < |xs| ==> v(xs[i].x) == 0.0
    ensures Eval(xs, v) == 0.0
  {
    EvalDepends(xs, v, _ => 0.0);
    EvalAtZero(xs);
  }

  lemma {:induction false} EvalAtZero(xs: Form)
    ensures Eval(xs, _ => 0.0) == 0.0
  {
    if xs != [] {
      EvalAtZero(xs[1..]);
      TimesRules(xs[0].c, 0.0, 0.0);
    }
  }

  lemma Impulse(defs: seq<Row>, n: nat, b: nat, x: nat)
    requires DefsOk(defs, n) && !IsSlack(defs, b) && x < b
    ensures Extend(defs, Unit(b))(x) == 0.0
  {
    if IsSlack(defs, x) {
      var k :| 0 <= k < |defs| && defs[k].s == x;
      ExtendAt(defs, n, Unit(b), k);
      EvalZero(defs[k].xs, Unit(b));
    }
  }

  /** A row of a proper tableau is never empty, and if its basic variable is no slack it has an entry above it. */
  lemma RowReachesUp(defs: seq<Row>, t: Tableau, r: nat)
    requires Inv(defs, t) && r < |t.rows|
    ensures t.rows[r].xs != []
    ensures !IsSlack(defs, t.rows[r].s) ==> t.rows[r].xs[|t.rows[r].xs| - 1].x > t.rows[r].s
  {
    var b, xs, n := t.rows[r].s, t.rows[r].xs, |t.val|;
    if IsSlack(defs, b) {
      var k :| 0 <= k < |defs| && defs[k].s == b;
      var x := defs[k].xs[0].x;
      var v := Extend(defs, Unit(x));
      ExtendSolves(defs, n, Unit(x));
      ExtendAt(defs, n, Unit(x), k);
      HasIsCoef(defs[k].xs, x);
      assert Has(defs[k].xs, x);
      assert Holds(t.rows[r], v);
    } else {
      var v := Extend(defs, Unit(b));
      ExtendSolves(defs, n, Unit(b));
      assert Holds(t.rows[r], v) && v(b) == 1.0;
      if forall i :: 0 <= i < |xs| ==> xs[i].x < b {
        forall i | 0 <= i < |xs| ensures v(xs[i].x) == 0.0 {
          Impulse(defs, n, b, xs[i].x);
        }
        EvalZero(xs, v);
      } else {
        assert forall i :: 0 <= i < |xs| ==> xs[i].x != b;
      }
    }
  }

  /** Every coefficient divided by `-c`. */
  ghost function Flipped(xs: Form, c: real): Form
    requires c != 0.0
  {
    Scale(xs, -1.0 / c)
  }

  /** The row of `s` solved for the variable of its entry `j`. */
  ghost function SolvedForm(xs: Form, j: nat, s: nat): Form
    requires j < |xs| && xs[j].c != 0.0
  {
    Insert(Without(Flipped(xs, xs[j].c), xs[j].x), s, 1.0 / xs[j].c)
  }

  /** A row with coefficient `ct` of the pivot variable, that variable eliminated. */
  ghost function UpdatedForm(ys: Form, xs: Form, j: nat, s: nat): Form
    requires j < |xs| && xs[j].c != 0.0
  {
    var ct := Coef(ys, xs[j].x);
    Insert(Combine(ys, Flipped(xs, xs[j].c), ct), s, ct / xs[j].c)
  }

  lemma Reciprocal(c: real, e: real, a: real)
    requires c != 0.0
    ensures Times(-1.0 / c, c) == -1.0
    ensures Times(-1.0 / c, e) + Times(1.0 / c, a) == Times(1.0 / c, a - e)
    ensures Times(1.0 / c, a - e) == 0.0 <==> a == e
    ensures 1.0 / c != 0.0 && -1.0 / c != 0.0
  {
    assert 1.0 / c * c == 1.0;
    if Times(1.0 / c, a - e) == 0.0 {
      assert (1.0 / c * c) * (a - e) == c * (1.0 / c * (a - e));
    }
  }

  lemma Quotient(ct: real, c: real, e: real)
    requires c != 0.0
    ensures Times(ct, Times(-1.0 / c, e)) + Times(ct / c, e) == 0.0
    ensures ct != 0.0 ==> ct / c != 0.0
    ensures -(ct / c) == Times(-1.0 / c, ct)
  {
    assert ct / c == ct * (1.0 / c);
    assert ct * (-1.0 / c * e) == -(ct * (1.0 / c)) * e;
    if ct / c == 0.0 {
      assert ct / c * c == ct;
    }
  }

  /** Solving a row for another variable keeps its solutions. */
  lemma SolvedMeans(xs: Form, j: nat, s: nat, v: Valuation)
    requires FormOk(xs) && j < |xs|
    ensures Holds(Row(s, xs), v) <==> Holds(Row(xs[j].x, SolvedForm(xs, j, s)), v)
  {
    hide Times;
    var c, x := xs[j].c, xs[j].x;
    var ys := Flipped(xs, c);
    InsertEval(Without(ys, x), s, 1.0 / c, v);
    WithoutEval(ys, x, v);
    ScaleEval(xs, -1.0 / c, v);
    ScaleEval(xs, -1.0 / c, Unit(x));
    HasIsCoef(xs, x);
    Reciprocal(c, Eval(xs, v), v(s));
    TimesRules(0.0, 0.0, v(x));
  }

  /** Eliminating the pivot variable keeps a row's value wherever the pivot row holds. */
  lemma UpdatedMeans(ys: Form, xs: Form, j: nat, s: nat, v: Valuation)
    requires FormOk(xs) && j < |xs| && Holds(Row(s, xs), v)
    ensures Eval(UpdatedForm(ys, xs, j, s), v) == Eval(ys, v)
  {
    hide Times;
    var c, ct := xs[j].c, Coef(ys, xs[j].x);
    InsertEval(Combine(ys, Flipped(xs, c), ct), s, ct / c, v);
    CombineAdds(ys, Flipped(xs, c), ct, v);
    ScaleEval(xs, -1.0 / c, v);
    Quotient(ct, c, v(s));
  }

  lemma AboveAll(xs: Form)
    ensures Above(xs, -1)
  {
  }

  /** The solved row is proper, and has `s` and the old variables but for the one it is solved for. */
  lemma SolvedOk(xs: Form, j: nat, s: nat, y: nat)
    requires FormOk(xs) && j < |xs| && !Has(xs, s)
    ensures FormOk(Flipped(xs, xs[j].c)) && Has(Flipped(xs, xs[j].c), y) == Has(xs, y)
    ensures FormOk(SolvedForm(xs, j, s))
    ensures Has(SolvedForm(xs, j, s), y) ==> y == s || (Has(xs, y) && y != xs[j].x)
  {
    hide Times;
    var c, x := xs[j].c, xs[j].x;
    var ys := Flipped(xs, c);
    Reciprocal(c, 0.0, 0.0);
    AboveAll(xs);
    ScaleOk(xs, -1.0 / c, -1);
    ScaleHas(xs, -1.0 / c, y);
    ScaleHas(xs, -1.0 / c, s);
    WithoutOk(ys, x, -1);
    WithoutHas(ys, x, s);
    WithoutHas(ys, x, y);
    InsertOk(Without(ys, x), s, 1.0 / c, -1);
    InsertHas(Without(ys, x), s, 1.0 / c, y);
  }

  lemma ScaleHas(xs: Form, n: real, y: nat)
    ensures Has(Scale(xs, n), y) == Has(xs, y)
  {
    ScaleEntries(xs, n);
    if Has(xs, y) {
      var i :| 0 <= i < |xs| && xs[i].x == y;
      assert Scale(xs, n)[i].x == y;
    }
  }

  lemma {:induction false} WithoutHas(a: Form, x: nat, y: nat)
    requires Sorted(a)
    ensures Has(Without(a, x), y) <==> Has(a, y) && y != x
  {
    if a != [] {
      WithoutHas(a[1..], x, y);
      HasTail(a, y);
      if a[0].x == x {
        assert [] + Without(a[1..], x) == Without(a[1..], x);
      } else {
        HasTail([a[0]] + Without(a[1..], x), y);
        assert ([a[0]] + Without(a[1..], x))[1..] == Without(a[1..], x);
      }
    }
  }

  lemma {:induction false} InsertHas(a: Form, s: nat, d: real, y: nat)
    ensures Has(Insert(a, s, d), y) <==> Has(a, y) || y == s
  {
    var b := Insert(a, s, d);
    HasTail(b, y);
    if a == [] || s < a[0].x {
      assert b[1..] == a;
    } else {
      assert b[1..] == Insert(a[1..], s, d);
      InsertHas(a[1..], s, d, y);
      HasTail(a, y);
    }
  }

  lemma CombineHas(a: Form, b: Form, n: real, y: nat)
    requires FormOk(a) && FormOk(b) && n != 0.0
    ensures FormOk(Combine(a, b, n))
    ensures Has(Combine(a, b, n), y) <==> Coef(a, y) + Times(n, Coef(b, y)) != 0.0
    ensures Has(Combine(a, b, n), y) ==> Has(a, y) || Has(b, y)
  {
    hide Times;
    AboveAll(a);
    AboveAll(b);
    CombineOk(a, b, n, -1);
    CombineAdds(a, b, n, Unit(y));
    HasIsCoef(Combine(a, b, n), y);
    HasIsCoef(a, y);
    HasIsCoef(b, y);
    TimesRules(n, 0.0, 0.0);
  }

  /** An updated row is proper and has lost the pivot variable, gaining `s`. */
  lemma UpdatedOk(ys: Form, xs: Form, j: nat, s: nat, y: nat)
    requires FormOk(xs) && FormOk(ys) && j < |xs| && !Has(xs, s) && !Has(ys, s) && Has(ys, xs[j].x)
    ensures FormOk(UpdatedForm(ys, xs, j, s))
    ensures Has(UpdatedForm(ys, xs, j, s), y) ==> y == s || ((Has(xs, y) || Has(ys, y)) && y != xs[j].x)
  {
    hide Times;
    var c, x, ct := xs[j].c, xs[j].x, Coef(ys, xs[j].x);
    var fs := Flipped(xs, c);
    HasIsCoef(ys, x);
    SolvedOk(xs, j, s, y);
    SolvedOk(xs, j, s, s);
    CombineHas(ys, fs, ct, y);
    CombineHas(ys, fs, ct, s);
    ScaleEval(xs, -1.0 / c, Unit(x));
    HasIsCoef(xs, x);
    Reciprocal(c, 0.0, 0.0);
    TimesRules(ct, 0.0, 0.0);
    assert Times(ct, -1.0) == -ct by { TimesRules(-1.0, ct, ct); TimesRules(ct, -1.0, 0.0); }
    CombineHas(ys, fs, ct, x);
    Quotient(ct, c, 0.0);
    AboveAll(Combine(ys, fs, ct));
    InsertOk(Combine(ys, fs, ct), s, ct / c, -1);
    InsertHas(Combine(ys, fs, ct), s, ct / c, y);
    InsertHas(Combine(ys, fs, ct), s, ct / c, x);
  }

  /** The rows after pivoting row `r` on its entry `j`. */
  ghost function PivotRows(rows: seq<Row>, r: nat, j: nat): seq<Row>
    requires r < |rows| && j < |rows[r].xs| && rows[r].xs[j].c != 0.0
  {
    seq(|rows|, (i: int) requires 0 <= i < |rows| => PivotRow(rows, r, j, i))
  }

  ghost function PivotRow(rows: seq<Row>, r: nat, j: nat, i: nat): Row
    requires r < |rows| && j < |rows[r].xs| && rows[r].xs[j].c != 0.0 && i < |rows|
  {
    var s, xs := rows[r].s, rows[r].xs;
    if i == r then Row(xs[j].x, SolvedForm(xs, j, s))
    else if Has(rows[i].xs, xs[j].x) then Row(rows[i].s, UpdatedForm(rows[i].xs, xs, j, s))
    else rows[i]
  }

  lemma PivotEquivalent(rows: seq<Row>, r: nat, j: nat, n: nat)
    requires RowsOk(rows, n) && r < |rows| && j < |rows[r].xs|
    ensures Equivalent(PivotRows(rows, r, j), rows)
  {
    hide Eval, Has, SolvedForm, UpdatedForm;
    var rows' := PivotRows(rows, r, j);
    var s, xs := rows[r].s, rows[r].xs;
    forall v: Valuation ensures Solves(rows', v) <==> Solves(rows, v) {
      SolvedMeans(xs, j, s, v);
      if Holds(rows[r], v) {
        forall i | 0 <= i < |rows| && i != r ensures Holds(rows'[i], v) <==> Holds(rows[i], v) {
          UpdatedMeans(rows[i].xs, xs, j, s, v);
        }
        assert Holds(rows'[r], v);
      } else {
        assert !Holds(rows'[r], v);
      }
    }
  }

  /** Which row each variable is basic in, after the pivot. */
  ghost function PivotRowOf(rowOf: seq<Option<nat>>, s: nat, x: nat, r: nat): seq<Option<nat>>
    requires s < |rowOf| && x < |rowOf|
  {
    rowOf[x := Some(r)][s := None]
  }

  lemma NotInside(rows: seq<Row>, rowOf: seq<Option<nat>>, r: nat, i: nat)
    requires BasicOk(rows, rowOf) && Separated(rows, rowOf) && r < |rows| && i < |rows|
    ensures !Has(rows[i].xs, rows[r].s)
  {
    assert AllNonBasic(rowOf, rows[i].xs);
  }

  /** A form's variables, as a condition on each of them. */
  lemma FormWithin(xs: Form, rowOf: seq<Option<nat>>)
    requires forall y: nat :: Has(xs, y) ==> NonBasic(rowOf, y)
    ensures AllNonBasic(rowOf, xs) && Below(xs, |rowOf|)
  {
    forall i | 0 <= i < |xs| ensures NonBasic(rowOf, xs[i].x) {
      assert Has(xs, xs[i].x);
    }
  }

  lemma WithinForm(xs: Form, rowOf: seq<Option<nat>>, y: nat)
    requires AllNonBasic(rowOf, xs) && Has(xs, y)
    ensures NonBasic(rowOf, y)
  {
  }

  /** Each row after the pivot is proper and has nonbasic variables only. */
  lemma PivotRowOk(rows: seq<Row>, rowOf: seq<Option<nat>>, r: nat, j: nat, i: nat)
    requires RowsOk(rows, |rowOf|) && BasicOk(rows, rowOf) && Separated(rows, rowOf)
    requires r < |rows| && j < |rows[r].xs| && i < |rows|
    ensures var x, s := rows[r].xs[j].x, rows[r].s;
            x < |rowOf| && s < |rowOf| && x != s && rowOf[x].None?
            && FormOk(PivotRow(rows, r, j, i).xs) && AllNonBasic(PivotRowOf(rowOf, s, x, r), PivotRow(rows, r, j, i).xs)
  {
    var s, xs := rows[r].s, rows[r].xs;
    var x := xs[j].x;
    assert AllNonBasic(rowOf, xs) && Has(xs, x);
    WithinForm(xs, rowOf, x);
    NotInside(rows, rowOf, r, r);
    NotInside(rows, rowOf, r, i);
    var rowOf' := PivotRowOf(rowOf, s, x, r);
    var ys := PivotRow(rows, r, j, i).xs;
    assert AllNonBasic(rowOf, rows[i].xs);
    if i == r {
      SolvedOk(xs, j, s, s);
    } else if Has(rows[i].xs, x) {
      UpdatedOk(rows[i].xs, xs, j, s, s);
    }
    forall y: nat | Has(ys, y) ensures NonBasic(rowOf', y) {
      if i == r {
        SolvedOk(xs, j, s, y);
        if y != s { WithinForm(xs, rowOf, y); }
      } else if Has(rows[i].xs, x) {
        UpdatedOk(rows[i].xs, xs, j, s, y);
        if y != s && Has(xs, y) { WithinForm(xs, rowOf, y); }
        if y != s && Has(rows[i].xs, y) { WithinForm(rows[i].xs, rowOf, y); }
      } else {
        WithinForm(rows[i].xs, rowOf, y);
      }
    }
    FormWithin(ys, rowOf');
  }

  lemma PivotKeepsRows(rows: seq<Row>, rowOf: seq<Option<nat>>, r: nat, j: nat)
    requires RowsOk(rows, |rowOf|) && BasicOk(rows, rowOf) && Separated(rows, rowOf)
    requires r < |rows| && j < |rows[r].xs|
    ensures rows[r].s < |rowOf| && rows[r].xs[j].x < |rowOf| && rows[r].s != rows[r].xs[j].x
    ensures var rowOf' := PivotRowOf(rowOf, rows[r].s, rows[r].xs[j].x, r);
            RowsOk(PivotRows(rows, r, j), |rowOf|) && BasicOk(PivotRows(rows, r, j), rowOf')
            && Separated(PivotRows(rows, r, j), rowOf')
  {
    hide SolvedForm, UpdatedForm, Has;
    var rows' := PivotRows(rows, r, j);
    PivotRowOk(rows, rowOf, r, j, r);
    var s, x := rows[r].s, rows[r].xs[j].x;
    var rowOf' := PivotRowOf(rowOf, s, x, r);
    forall i | 0 <= i < |rows'|
      ensures rows'[i].s < |rowOf| && FormOk(rows'[i].xs) && Below(rows'[i].xs, |rowOf|)
              && AllNonBasic(rowOf', rows'[i].xs)
    {
      PivotRowOk(rows, rowOf, r, j, i);
    }
  }

  /** The value the pivot variable must take for the row's basic variable to take the value `b`. */
  lemma PivotValue(xs: Form, j: nat, s: nat, v: Valuation, w: Valuation, b: real)
    requires FormOk(xs) && j < |xs| && !Has(xs, s) && Holds(Row(s, xs), v)
    requires forall i :: 0 <= i < |xs| && i != j ==> w(xs[i].x) == v(xs[i].x)
    requires w(xs[j].x) == v(xs[j].x) + (b - v(s)) / xs[j].c && w(s) == b
    ensures Holds(Row(s, xs), w)
  {
    hide Times;
    var c := xs[j].c;
    HasIsCoef(xs, xs[j].x);
    EvalChange(xs, v, w, xs[j].x);
    Undivide(c, b - v(s));
  }

  lemma Undivide(c: real, d: real)
    requires c != 0.0
    ensures Times(c, d / c) == d
  {
  }

  /** Values of nonbasic variables decide those of the rows. */
  lemma NonBasicDecide(rowOf: seq<Option<nat>>, xs: Form, v: Valuation, w: Valuation)
    requires AllNonBasic(rowOf, xs)
    requires forall x: nat :: NonBasic(rowOf, x) ==> v(x) == w(x)
    ensures Eval(xs, v) == Eval(xs, w)
  {
    EvalDepends(xs, v, w);
  }

  /** Setting a nonbasic variable and adjusting every row that has it keeps the equations true. */
  lemma AdjustedRow(xs: Form, v: Valuation, w: Valuation, x: nat)
    requires FormOk(xs)
    requires forall i :: 0 <= i < |xs| && xs[i].x != x ==> v(xs[i].x) == w(xs[i].x)
    ensures !Has(xs, x) ==> Eval(xs, w) == Eval(xs, v)
    ensures forall i :: 0 <= i < |xs| && xs[i].x == x ==> Eval(xs, w) == Eval(xs, v) + Times(xs[i].c, w(x) - v(x))
  {
    hide Times;
    EvalChange(xs, v, w, x);
    HasIsCoef(xs, x);
    TimesRules(0.0, 0.0, w(x) - v(x));
  }

  /** A bound and the reason literal recorded for it. */
  datatype Cause = Cause(x: nat, lower: bool, bound: real, reason: int)

  ghost predicate Respects(v: Valuation, c: Cause) {
    if c.lower then c.bound <= v(c.x) else v(c.x) <= c.bound
  }

  ghost predicate RespectsAll(v: Valuation, why: seq<Cause>) {
    forall i :: 0 <= i < |why| ==> Respects(v, why[i])
  }

  /** The cause is a current bound with its current reason. */
  predicate IsCurrent(bs: Bounds, reasonLb: seq<int>, reasonUb: seq<int>, c: Cause) {
    && c.x < |bs.lb| && c.x < |bs.ub| && c.x < |reasonLb| && c.x < |reasonUb|
    && if c.lower then bs.lb[c.x] == Some(c.bound) && reasonLb[c.x] == c.reason
       else bs.ub[c.x] == Some(c.bound) && reasonUb[c.x] == c.reason
  }

  /** The entry's variable is pinned to the bound that keeps the row's value from moving up (or down). */
  ghost predicate Pinned(e: Entry, v: Valuation, up: bool, c: Cause) {
    c.x == e.x && c.lower == ((e.c < 0.0) == up) && c.bound == v(e.x)
  }

  /** Entry `e` can move so that its row's value goes up (or down). */
  ghost predicate Movable(bs: Bounds, val: seq<real>, e: Entry, up: bool)
    requires e.x < |bs.lb| && e.x < |bs.ub| && e.x < |val|
  {
    if (if up then e.c < 0.0 else e.c > 0.0) then bs.lb[e.x].None? || bs.lb[e.x].value < val[e.x]
    else bs.ub[e.x].None? || val[e.x] < bs.ub[e.x].value
  }

  /** From `t` to `t'`: row `r` was pivoted on its entry `j`, and its old basic variable has the value `b`. */
  ghost predicate PivotedTo(t: Tableau, r: nat, j: nat, b: real, t': Tableau)
    requires r < |t.rows| && j < |t.rows[r].xs| && t.rows[r].xs[j].c != 0.0
  {
    var s, x := t.rows[r].s, t.rows[r].xs[j].x;
    && s < |t.rowOf| && x < |t.rowOf| && |t.rowOf| == |t.val| == |t'.val|
    && t'.rows == PivotRows(t.rows, r, j) && t'.rowOf == PivotRowOf(t.rowOf, s, x, r)
    && t'.val[s] == b
    && forall y :: 0 <= y < |t.val| && t.rowOf[y].None? && y != x ==> t'.val[y] == t.val[y]
  }

  /** Row `r` was pivoted on an entry that can move, and its old basic variable has the value `b`. */
  ghost predicate RowRepaired(bs: Bounds, t: Tableau, r: nat, j: nat, up: bool, b: real, t': Tableau)
    requires |bs.lb| == |bs.ub| == |t.val|
  {
    && r < |t.rows| && j < |t.rows[r].xs| && t.rows[r].xs[j].c != 0.0 && t.rows[r].xs[j].x < |t.val|
    && Movable(bs, t.val, t.rows[r].xs[j], up) && PivotedTo(t, r, j, b, t')
  }

  /** The first row out of bounds was repaired: its variable went to the bound it violated. */
  ghost predicate Repaired(bs: Bounds, t: Tableau, r: nat, j: nat, up: bool, t': Tableau)
    requires |bs.lb| == |bs.ub| == |t.val|
  {
    && r < |t.rows| && (forall i :: 0 <= i <= r ==> t.rows[i].s < |t.val|)
    && (forall i :: 0 <= i < r ==> Within(bs, t.rows[i].s, t.val[t.rows[i].s]))
    && var s := t.rows[r].s;
       if up then bs.lb[s].Some? && t.val[s] < bs.lb[s].value && RowRepaired(bs, t, r, j, true, bs.lb[s].value, t')
       else bs.ub[s].Some? && bs.ub[s].value < t.val[s] && RowRepaired(bs, t, r, j, false, bs.ub[s].value, t')
  }

  /** If every entry is pinned, no valuation respecting the pins gives the form a larger (smaller) value. */
  lemma {:induction false} PinnedForm(xs: Form, v: Valuation, up: bool, why: seq<Cause>, w: Valuation)
    requires |why| == |xs| && (forall i :: 0 <= i < |xs| ==> xs[i].c != 0.0 && Pinned(xs[i], v, up, why[i]))
    requires RespectsAll(w, why)
    ensures if up then Eval(xs, w) <= Eval(xs, v) else Eval(xs, w) >= Eval(xs, v)
  {
    hide Times;
    if xs != [] {
      assert Respects(w, why[0]) && Pinned(xs[0], v, up, why[0]);
      forall i | 0 <= i < |xs| - 1 ensures Pinned(xs[1..][i], v, up, why[1..][i]) && Respects(w, why[1..][i]) {
        assert Pinned(xs[i + 1], v, up, why[i + 1]);
      }
      PinnedForm(xs[1..], v, up, why[1..], w);
      TimesOrder(xs[0].c, v(xs[0].x), w(xs[0].x));
    }
  }

  lemma TimesOrder(c: real, a: real, b: real)
    ensures (c >= 0.0 && b <= a) || (c <= 0.0 && a <= b) ==> Times(c, b) <= Times(c, a)
    ensures (c >= 0.0 && a <= b) || (c <= 0.0 && b <= a) ==> Times(c, b) >= Times(c, a)
  {
    if c >= 0.0 && b <= a {
      TimesMonotone(c, a - b);
    }
    if c >= 0.0 && a <= b {
      TimesMonotone(c, b - a);
    }
    if c <= 0.0 && a <= b {
      TimesMonotone(-c, b - a);
    }
    if c <= 0.0 && b <= a {
      TimesMonotone(-c, a - b);
    }
  }

  lemma TimesMonotone(c: real, d: real)
    requires c >= 0.0 && d >= 0.0
    ensures c * d >= 0.0
  {
  }

  /** A row whose entries are all pinned cannot meet a bound beyond its value. */
  lemma ConflictIsReal(defs: seq<Row>, t: Tableau, r: nat, up: bool, why: seq<Cause>, last: Cause, w: Valuation)
    requires Inv(defs, t) && r < |t.rows| && |why| == |t.rows[r].xs|
    requires forall i :: 0 <= i < |why| ==> Pinned(t.rows[r].xs[i], AsValuation(t.val), up, why[i])
    requires last.x == t.rows[r].s && last.lower == up
    requires if up then AsValuation(t.val)(last.x) < last.bound else AsValuation(t.val)(last.x) > last.bound
    requires Solves(defs, w)
    ensures !RespectsAll(w, why + [last])
  {
    var row, v := t.rows[r], AsValuation(t.val);
    assert Solves(t.rows, w);
    assert Holds(row, w) && Holds(row, v);
    if RespectsAll(w, why + [last]) {
      forall i | 0 <= i < |why| ensures Respects(w, why[i]) {
        assert (why + [last])[i] == why[i];
      }
      assert (why + [last])[|why|] == last;
      assert Respects(w, last);
      PinnedForm(row.xs, v, up, why, w);
    }
  }

  /** While a new row `form` is being rewritten, `xs` is what has become of it. */
  ghost predicate Rewriting(defs: seq<Row>, t: Tableau, form: Form, xs: Form) {
    && FormOk(xs) && Below(xs, |t.rowOf|)
    && (forall v: Valuation :: Solves(t.rows, v) ==> Eval(xs, v) == Eval(form, v))
    && (forall i :: 0 <= i < |xs| && t.rowOf[xs[i].x].Some? ==> !IsSlack(defs, xs[i].x))
  }

  /** The basic variables left in a form. */
  ghost function BasicIn(rowOf: seq<Option<nat>>, xs: Form): set<nat> {
    set x: nat | x < |rowOf| && rowOf[x].Some? && Has(xs, x)
  }

  /** Substituting a basic variable works, keeps the form's meaning, and leaves one basic variable less. */
  lemma SubstituteKeeps(defs: seq<Row>, t: Tableau, form: Form, xs: Form, i: nat)
    requires Inv(defs, t) && Rewriting(defs, t, form, xs) && i < |xs| && t.rowOf[xs[i].x].Some?
    ensures t.rowOf[xs[i].x].value < |t.rows|
    ensures var ys := Substitute(xs, t.rows[t.rowOf[xs[i].x].value].xs, xs[i].x, xs[i].c);
            Rewriting(defs, t, form, ys) && BasicIn(t.rowOf, ys) < BasicIn(t.rowOf, xs)
  {
    hide Times, FormOk, Rewriting, Inv, DefsOk, Equivalent;
    RewritingFacts(defs, t, form, xs, i);
    var x, r := xs[i].x, t.rowOf[xs[i].x].value;
    RowFacts(defs, t, r, xs, x);
    var b := t.rows[r].xs;
    SubstituteMerges(xs, b, x, xs[i].c);
    var ys := Substitute(xs, b, x, xs[i].c);
    SubstituteVars(t.rowOf, xs, b, x, xs[i].c);
    SubstituteMeaning(t, form, xs, r, i);
    RewritingFrom(defs, t, form, xs, ys);
    assert Has(xs, x);
    assert x in BasicIn(t.rowOf, xs) && x !in BasicIn(t.rowOf, ys);
  }

  lemma RewritingFacts(defs: seq<Row>, t: Tableau, form: Form, xs: Form, i: nat)
    requires Rewriting(defs, t, form, xs) && i < |xs| && t.rowOf[xs[i].x].Some?
    ensures FormOk(xs) && xs[i].c != 0.0 && xs[i].c == Coef(xs, xs[i].x) && !IsSlack(defs, xs[i].x)
            && Below(xs, |t.rowOf|)
    ensures forall v: Valuation :: Solves(t.rows, v) ==> Eval(xs, v) == Eval(form, v)
  {
    HasIsCoef(xs, xs[i].x);
  }

  /** The row of a basic variable that is no slack reaches past it. */
  lemma RowFacts(defs: seq<Row>, t: Tableau, r: nat, xs: Form, x: nat)
    requires Inv(defs, t) && x < |t.rowOf| && t.rowOf[x] == Some(r) && !IsSlack(defs, x)
    ensures r < |t.rows| && t.rows[r].s == x && FormOk(t.rows[r].xs) && !Has(t.rows[r].xs, x)
    ensures Reaches(xs, t.rows[r].xs, x) && AllNonBasic(t.rowOf, t.rows[r].xs) && Below(t.rows[r].xs, |t.rowOf|)
  {
    RowReachesUp(defs, t, r);
    NotInside(t.rows, t.rowOf, r, r);
  }

  /** After substitution: no `x`, no basic variable that was not there. */
  lemma SubstituteVars(rowOf: seq<Option<nat>>, xs: Form, b: Form, x: nat, n: real)
    requires FormOk(xs) && FormOk(b) && n != 0.0 && !Has(b, x) && AllNonBasic(rowOf, b) && Below(xs, |rowOf|)
    requires Substitute(xs, b, x, n) == Combine(Without(xs, x), b, n)
    ensures FormOk(Substitute(xs, b, x, n)) && Below(Substitute(xs, b, x, n), |rowOf|)
            && !Has(Substitute(xs, b, x, n), x)
    ensures forall y: nat :: y < |rowOf| && rowOf[y].Some? && Has(Substitute(xs, b, x, n), y) ==> Has(xs, y)
  {
    hide Times, FormOk, Substitute, Combine, Without;
    var ys := Substitute(xs, b, x, n);
    AboveAll(xs);
    WithoutOk(xs, x, -1);
    SortedOf(xs);
    forall y: nat ensures Has(ys, y) ==> (Has(xs, y) && y != x) || Has(b, y) {
      CombineHas(Without(xs, x), b, n, y);
      WithoutHas(xs, x, y);
    }
    CombineHas(Without(xs, x), b, n, x);
    forall y: nat | y < |rowOf| && rowOf[y].Some? && Has(ys, y) ensures Has(xs, y) {
      if Has(b, y) { WithinForm(b, rowOf, y); }
    }
    forall i | 0 <= i < |ys| ensures ys[i].x < |rowOf| {
      assert Has(ys, ys[i].x);
      if Has(b, ys[i].x) { WithinForm(b, rowOf, ys[i].x); }
    }
  }

  lemma SortedOf(xs: Form)
    requires FormOk(xs)
    ensures Sorted(xs)
  {
  }

  lemma SubstituteMeaning(t: Tableau, form: Form, xs: Form, r: nat, i: nat)
    requires i < |xs| && xs[i].c == Coef(xs, xs[i].x) && r < |t.rows| && t.rows[r].s == xs[i].x
    requires forall v: Valuation :: Solves(t.rows, v) ==> Eval(xs, v) == Eval(form, v)
    ensures forall v: Valuation :: Solves(t.rows, v) ==>
          Eval(Combine(Without(xs, xs[i].x), t.rows[r].xs, xs[i].c), v) == Eval(form, v)
  {
    hide Times, Combine, Without, Coef;
    var x, b, n := xs[i].x, t.rows[r].xs, xs[i].c;
    forall v: Valuation | Solves(t.rows, v) ensures Eval(Combine(Without(xs, x), b, n), v) == Eval(form, v) {
      CombineAdds(Without(xs, x), b, n, v);
      WithoutEval(xs, x, v);
      assert Holds(t.rows[r], v);
    }
  }

  lemma RewritingFrom(defs: seq<Row>, t: Tableau, form: Form, xs: Form, ys: Form)
    requires Rewriting(defs, t, form, xs) && FormOk(ys) && Below(ys, |t.rowOf|)
    requires forall v: Valuation :: Solves(t.rows, v) ==> Eval(ys, v) == Eval(form, v)
    requires forall y: nat :: y < |t.rowOf| && t.rowOf[y].Some? && Has(ys, y) ==> Has(xs, y)
    ensures Rewriting(defs, t, form, ys)
  {
    hide FormOk;
    forall i | 0 <= i < |ys| && t.rowOf[ys[i].x].Some? ensures !IsSlack(defs, ys[i].x) {
      assert Has(ys, ys[i].x);
      var k :| 0 <= k < |xs| && xs[k].x == ys[i].x;
    }
  }

  lemma StartRewriting(defs: seq<Row>, t: Tableau, form: Form)
    requires FormOk(form) && Below(form, |t.rowOf|)
    requires forall i :: 0 <= i < |form| ==> !IsSlack(defs, form[i].x)
    ensures Rewriting(defs, t, form, form)
  {
  }

  /** A tableau with one more variable, free of all equations. */
  ghost function WithVar(t: Tableau): Tableau {
    Tableau(t.rows, t.rowOf + [None], t.val + [0.0])
  }

  lemma NewVarKeeps(defs: seq<Row>, t: Tableau)
    requires Inv(defs, t)
    ensures Inv(defs, WithVar(t))
  {
    hide FormOk, Eval;
    var t' := WithVar(t);
    forall r | 0 <= r < |t.rows| ensures Holds(t.rows[r], AsValuation(t'.val)) && AllNonBasic(t'.rowOf, t.rows[r].xs) {
      assert Holds(t.rows[r], AsValuation(t.val)) && AllNonBasic(t.rowOf, t.rows[r].xs);
      EvalDepends(t.rows[r].xs, AsValuation(t.val), AsValuation(t'.val));
    }
    forall k | 0 <= k < |defs| ensures defs[k].s < |t'.val| {}
  }

  /** Adding the rewritten row of a fresh variable `s` adds the equation `s == form`. */
  lemma AddRowKeeps(defs: seq<Row>, t: Tableau, s: nat, form: Form, xs: Form)
    requires Inv(defs, t) && s < |t.rowOf| && t.rowOf[s].None? && Rewriting(defs, t, form, xs)
             && BasicIn(t.rowOf, xs) == {}
    requires FormOk(form) && form != [] && Below(form, s) && (forall i :: 0 <= i < |form| ==> !IsSlack(defs, form[i].x))
    requires !IsSlack(defs, s) && !Has(xs, s) && (forall r :: 0 <= r < |t.rows| ==> !Has(t.rows[r].xs, s))
    requires forall k :: 0 <= k < |defs| ==> !Has(defs[k].xs, s)
    ensures Inv(defs + [Row(s, form)],
                Tableau(t.rows + [Row(s, xs)], t.rowOf[s := Some(|t.rows|)],
                        t.val[s := Eval(form, AsValuation(t.val))]))
  {
    hide Times, Eval, FormOk, RowsOk, BasicOk, Separated, Has, DefsOk, Equivalent, Solves;
    AddedRows(t, s, xs);
    BasicApart(t, s);
    AddedDefs(defs, s, form, |t.val|);
    AddedEquivalent(defs, t, s, form, xs);
    AddedValues(t, s, form, xs);
  }

  lemma BasicApart(t: Tableau, s: nat)
    requires BasicOk(t.rows, t.rowOf) && s < |t.rowOf| && t.rowOf[s].None?
    ensures forall r :: 0 <= r < |t.rows| ==> t.rows[r].s != s
  {
  }

  lemma AddedRows(t: Tableau, s: nat, xs: Form)
    requires RowsOk(t.rows, |t.rowOf|) && BasicOk(t.rows, t.rowOf) && Separated(t.rows, t.rowOf)
    requires s < |t.rowOf| && t.rowOf[s].None? && FormOk(xs) && Below(xs, |t.rowOf|) && BasicIn(t.rowOf, xs) == {}
    requires !Has(xs, s) && forall r :: 0 <= r < |t.rows| ==> !Has(t.rows[r].xs, s)
    ensures var rows', rowOf' := t.rows + [Row(s, xs)], t.rowOf[s := Some(|t.rows|)];
            RowsOk(rows', |rowOf'|) && BasicOk(rows', rowOf') && Separated(rows', rowOf')
  {
    hide FormOk;
    var rows', rowOf' := t.rows + [Row(s, xs)], t.rowOf[s := Some(|t.rows|)];
    forall r | 0 <= r < |rows'| ensures AllNonBasic(rowOf', rows'[r].xs) {
      AddedNonBasic(t, s, if r < |t.rows| then t.rows[r].xs else xs);
    }
  }

  lemma AddedNonBasic(t: Tableau, s: nat, ys: Form)
    requires s < |t.rowOf| && !Has(ys, s)
    requires (AllNonBasic(t.rowOf, ys) || (Below(ys, |t.rowOf|) && BasicIn(t.rowOf, ys) == {}))
    ensures AllNonBasic(t.rowOf[s := Some(|t.rows|)], ys)
  {
    forall i | 0 <= i < |ys| ensures NonBasic(t.rowOf[s := Some(|t.rows|)], ys[i].x) {
      assert Has(ys, ys[i].x);
      assert ys[i].x !in BasicIn(t.rowOf, ys);
    }
  }

  lemma AddedDefs(defs: seq<Row>, s: nat, form: Form, n: nat)
    requires DefsOk(defs, n) && s < n && FormOk(form) && form != [] && Below(form, s)
    requires forall i :: 0 <= i < |form| ==> !IsSlack(defs, form[i].x)
    requires !IsSlack(defs, s) && forall k :: 0 <= k < |defs| ==> !Has(defs[k].xs, s)
    ensures DefsOk(defs + [Row(s, form)], n)
  {
    hide FormOk;
    var defs' := defs + [Row(s, form)];
    forall x: nat ensures IsSlack(defs', x) <==> IsSlack(defs, x) || x == s {
      if x == s { assert defs'[|defs|].s == x; }
      if IsSlack(defs, x) {
        var k :| 0 <= k < |defs| && defs[k].s == x;
        assert defs'[k].s == x;
      }
    }
    forall k | 0 <= k < |defs| ensures defs[k].s != s {}
    forall k, i | 0 <= k < |defs'| && 0 <= i < |defs'[k].xs| ensures !IsSlack(defs', defs'[k].xs[i].x) {
      if k < |defs| { assert Has(defs[k].xs, defs[k].xs[i].x); }
    }
  }

  lemma AddedEquivalent(defs: seq<Row>, t: Tableau, s: nat, form: Form, xs: Form)
    requires Equivalent(t.rows, defs)
    requires forall v: Valuation :: Solves(t.rows, v) ==> Eval(xs, v) == Eval(form, v)
    ensures Equivalent(t.rows + [Row(s, xs)], defs + [Row(s, form)])
  {
    forall v: Valuation ensures Solves(t.rows + [Row(s, xs)], v) <==> Solves(defs + [Row(s, form)], v) {
      SolvesAppend(t.rows, Row(s, xs), v);
      SolvesAppend(defs, Row(s, form), v);
    }
  }

  lemma SolvesAppend(rows: seq<Row>, r: Row, v: Valuation)
    ensures Solves(rows + [r], v) <==> Solves(rows, v) && Holds(r, v)
  {
    hide Holds;
    var rows' := rows + [r];
    if Solves(rows', v) {
      assert rows'[|rows|] == r;
      forall i | 0 <= i < |rows| ensures Holds(rows[i], v) {
        assert rows'[i] == rows[i];
      }
    }
  }

  lemma AddedValues(t: Tableau, s: nat, form: Form, xs: Form)
    requires s < |t.val| && Solves(t.rows, AsValuation(t.val)) && !Has(xs, s)
    requires forall r :: 0 <= r < |t.rows| ==> !Has(t.rows[r].xs, s) && t.rows[r].s != s
    requires Eval(xs, AsValuation(t.val)) == Eval(form, AsValuation(t.val))
    ensures Solves(t.rows + [Row(s, xs)], AsValuation(t.val[s := Eval(form, AsValuation(t.val))]))
  {
    var v := AsValuation(t.val);
    var w := AsValuation(t.val[s := Eval(form, v)]);
    SolvesAppend(t.rows, Row(s, xs), w);
    forall r | 0 <= r < |t.rows| ensures Holds(t.rows[r], w) {
      assert Holds(t.rows[r], v);
      AbsentUnchanged(t.rows[r].xs, s, v, w);
    }
    AbsentUnchanged(xs, s, v, w);
  }

  lemma AbsentUnchanged(xs: Form, s: nat, v: Valuation, w: Valuation)
    requires !Has(xs, s) && forall x: nat :: x != s ==> v(x) == w(x)
    ensures Eval(xs, v) == Eval(xs, w)
  {
    EvalDepends(xs, v, w);
  }

  /** The values right after a pivot is chosen: `x` moved so that `s` takes the value `b`. */
  ghost function PivotBase(t: Tableau, r: nat, j: nat, b: real): seq<real>
    requires r < |t.rows| && j < |t.rows[r].xs| && t.rows[r].xs[j].c != 0.0
    requires t.rows[r].s < |t.val| && t.rows[r].xs[j].x < |t.val|
  {
    var s, x := t.rows[r].s, t.rows[r].xs[j].x;
    t.val[x := t.val[x] + (b - t.val[s]) / t.rows[r].xs[j].c][s := b]
  }

  /** Row `i`, with its value `u` recomputed if it had the pivot variable, holds after the pivot. */
  lemma PivotRowHolds(defs: seq<Row>, t: Tableau, r: nat, j: nat, b: real, i: nat, w: Valuation)
    requires Inv(defs, t) && r < |t.rows| && j < |t.rows[r].xs| && i < |t.rows|
    requires t.rows[r].xs[j].c != 0.0 && t.rows[r].s < |t.val| && t.rows[r].xs[j].x < |t.val|
    requires var w0 := AsValuation(PivotBase(t, r, j, b));
             var row := PivotRow(t.rows, r, j, i);
             && Eval(row.xs, w) == Eval(row.xs, w0)
             && w(row.s) == (if i == r then w0(row.s)
                             else if Has(t.rows[i].xs, t.rows[r].xs[j].x) then Eval(row.xs, w0) else t.val[row.s])
    ensures Holds(PivotRow(t.rows, r, j, i), w)
  {
    hide Times, SolvedForm, UpdatedForm, Equivalent, DefsOk;
    var s, xs := t.rows[r].s, t.rows[r].xs;
    var x := xs[j].x;
    var v, w0 := AsValuation(t.val), AsValuation(PivotBase(t, r, j, b));
    PivotRowOk(t.rows, t.rowOf, r, j, r);
    NotInside(t.rows, t.rowOf, r, r);
    NotInside(t.rows, t.rowOf, r, i);
    assert Holds(t.rows[i], v) && Holds(t.rows[r], v);
    if i == r {
      PivotValue(xs, j, s, v, w0, b);
      SolvedMeans(xs, j, s, w0);
    } else if !Has(t.rows[i].xs, x) {
      EvalDepends(t.rows[i].xs, v, w0);
    }
  }

  /** After the pivot the tableau invariant holds again. */
  lemma PivotKeeps(defs: seq<Row>, t: Tableau, r: nat, j: nat, b: real, val: seq<real>)
    requires Inv(defs, t) && r < |t.rows| && j < |t.rows[r].xs|
    requires t.rows[r].xs[j].c != 0.0 && t.rows[r].s < |t.val| && t.rows[r].xs[j].x < |t.val| && |val| == |t.val|
    requires var w0 := PivotBase(t, r, j, b);
             var s, x := t.rows[r].s, t.rows[r].xs[j].x;
             && (forall y: nat :: NonBasic(PivotRowOf(t.rowOf, s, x, r), y) ==> val[y] == w0[y])
             && val[x] == w0[x]
             && forall i :: 0 <= i < |t.rows| && i != r ==>
                  val[t.rows[i].s] == if Has(t.rows[i].xs, x) then Eval(PivotRow(t.rows, r, j, i).xs, AsValuation(w0))
                                      else t.val[t.rows[i].s]
    ensures Inv(defs, Tableau(PivotRows(t.rows, r, j), PivotRowOf(t.rowOf, t.rows[r].s, t.rows[r].xs[j].x, r), val))
  {
    hide Times, SolvedForm, UpdatedForm, DefsOk, Has, Eval;
    var s, x := t.rows[r].s, t.rows[r].xs[j].x;
    var rows', rowOf' := PivotRows(t.rows, r, j), PivotRowOf(t.rowOf, s, x, r);
    PivotEquivalent(t.rows, r, j, |t.val|);
    PivotKeepsRows(t.rows, t.rowOf, r, j);
    var w0 := PivotBase(t, r, j, b);
    forall i | 0 <= i < |rows'| ensures Holds(rows'[i], AsValuation(val)) {
      PivotRowOk(t.rows, t.rowOf, r, j, i);
      NonBasicDecide(rowOf', rows'[i].xs, AsValuation(val), AsValuation(w0));
      PivotRowHolds(defs, t, r, j, b, i, AsValuation(val));
    }
  }
}
