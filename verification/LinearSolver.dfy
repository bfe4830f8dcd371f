/**
 The simplex solver: variables, rows, bounds with reasons, bound changes undone by a log, value
 updates, pivoting and conflicts.
 */
module LinearSolver {
  import opened Wrappers
  import opened LinearRow
  import opened LinearTableau

  /** A bound that was overwritten, with its reason. */
  datatype Saved = Saved(x: nat, lower: bool, bound: Option<real>, reason: int)

  datatype Outcome = Solved | Pivoted | Conflict(why: seq<Cause>)

  /** Bounds and the reasons they came with. */
  datatype Limits = Limits(lb: seq<Option<real>>, ub: seq<Option<real>>, reasonLb: seq<int>, reasonUb: seq<int>)

  /** The limits before a saved change. */
  ghost function Before(m: Limits, e: Saved): Limits {
    if e.x >= |m.lb| || e.x >= |m.ub| || e.x >= |m.reasonLb| || e.x >= |m.reasonUb| then m
    else if e.lower then m.(lb := m.lb[e.x := e.bound], reasonLb := m.reasonLb[e.x := e.reason])
    else m.(ub := m.ub[e.x := e.bound], reasonUb := m.reasonUb[e.x := e.reason])
  }

  /** The limits when the log had length `mark`. */
  ghost function Recalled(m: Limits, log: seq<Saved>, mark: nat): Limits
    decreases |log|
  {
    if |log| <= mark then m else Recalled(Before(m, log[|log| - 1]), log[..|log| - 1], mark)
  }

  /** A change that was saved does not alter what is recalled. */
  lemma SavedRecalled(m: Limits, log: seq<Saved>, m': Limits, e: Saved, mark: nat)
    requires mark <= |log| && Before(m', e) == m
    ensures Recalled(m', log + [e], mark) == Recalled(m, log, mark)
  {
    assert (log + [e])[..|log|] == log;
  }

  /** A request of the theory solver: tighten a bound, or do one step towards a solution. */
  datatype Request = Tighten(x: nat, lower: bool, bound: real, reason: int) | Advance

  /** The bounds before the last saved change. */
  ghost function Restored(b: Bounds, e: Saved): Bounds
    requires e.x < |b.lb| && e.x < |b.ub|
  {
    if e.lower then b.(lb := b.lb[e.x := e.bound]) else b.(ub := b.ub[e.x := e.bound])
  }

  /** Undoing the log, last entry first, loosens the bounds at each step. */
  ghost predicate LogLoosens(b: Bounds, log: seq<Saved>)
    decreases |log|
  {
    log == [] ||
    var e := log[|log| - 1];
    && e.x < |b.lb| && e.x < |b.ub| && Looser(b, Restored(b, e))
    && LogLoosens(Restored(b, e), log[..|log| - 1])
  }

  /** `n` pivots, each of which brings the first variable out of bounds back to the bound that it violated. */
  ghost predicate Pivots(bs: Bounds, t: Tableau, n: nat, t': Tableau) {
    if n == 0 then t == t'
    else exists m: Tableau, r: nat, j: nat, up: bool ::
        |bs.lb| == |bs.ub| == |m.val| && Pivots(bs, t, n - 1, m) && Repaired(bs, m, r, j, up, t')
  }

  /**
   Pivoting on entry `j` of row `r`, its basic variable going to `b`: the first `k` rows, but for `r`,
   have been rewritten without the pivot variable, and those that had it were recomputed.
   */
  ghost predicate Eliminated(t: Tableau, r: nat, j: nat, b: real, k: nat, rows: seq<Row>, val: seq<real>)
    requires r < |t.rows| && j < |t.rows[r].xs| && t.rows[r].xs[j].c != 0.0
    requires t.rows[r].s < |t.val| && t.rows[r].xs[j].x < |t.val|
  {
    var w0 := PivotBase(t, r, j, b);
    && |rows| == |t.rows| && rows[r] == t.rows[r] && |val| == |t.val| == |t.rowOf|
    && (forall i :: 0 <= i < |rows| && i != r ==> rows[i] == if i < k then PivotRow(t.rows, r, j, i) else t.rows[i])
    && (forall y: nat :: y < |val| && (t.rowOf[y].None? || y == t.rows[r].s) ==> val[y] == w0[y])
    && (forall i :: 0 <= i < |rows| && i != r ==>
          && t.rows[i].s < |val|
          && val[t.rows[i].s] == if i < k && Has(t.rows[i].xs, t.rows[r].xs[j].x) then Eval(rows[i].xs, AsValuation(w0))
                                 else t.val[t.rows[i].s])
  }

  class Simplex {
    var rows: seq<Row>
    var rowOf: seq<Option<nat>>
    var val: seq<real>
    var lb: seq<Option<real>>
    var ub: seq<Option<real>>
    var reasonLb: seq<int>
    var reasonUb: seq<int>
    var log: seq<Saved>
    ghost var defs: seq<Row>

    ghost function T(): Tableau
      reads this
    {
      Tableau(rows, rowOf, val)
    }

    ghost function B(): Bounds
      reads this
    {
      Bounds(lb, ub)
    }

    ghost function Now(): Limits
      reads this
    {
      Limits(lb, ub, reasonLb, reasonUb)
    }

    /** Between operations: the equations hold, nonbasic values are within bounds, the log loosens. */
    ghost predicate Valid()
      reads this
    {
      && Inv(defs, T()) && BoundsOk(B(), T()) && LogLoosens(B(), log)
      && |reasonLb| == |reasonUb| == |val|
    }

    /** Variable 0 is not used. */
    constructor ()
      ensures Valid() && |val| == 1 && defs == [] && log == []
    {
      hide Inv, BoundsOk;
      rows, rowOf, val := [], [None], [0.0];
      lb, ub, reasonLb, reasonUb, log := [None], [None], [1], [1], [];
      defs := [];
      EmptyInv();
    }

    /** A new variable without bounds. */
    method InitVar() returns (x: nat)
      requires Valid()
      modifies this
      ensures Valid() && x == |old(val)| && |val| == |old(val)| + 1 && defs == old(defs)
      ensures T() == WithVar(old(T())) && rowOf[x].None?
      ensures B() == Bounds(old(lb) + [None], old(ub) + [None]) && log == old(log)
    {
      hide Inv;
      NewVarKeeps(defs, T());
      LogWithVar(B(), log);
      x := |val|;
      rowOf, val := rowOf + [None], val + [0.0];
      lb, ub, reasonLb, reasonUb := lb + [None], ub + [None], reasonLb + [1], reasonUb + [1];
    }

    /** Adjust the value of row `r` to nonbasic `x` going from `base[x]` to `w`. */
    method AdjustRow(r: nat, x: nat, w: real, ghost base: seq<real>)
      requires Inv(defs, Tableau(rows, rowOf, base)) && x < |rowOf| == |val| && rowOf[x].None? && r < |rows|
      requires val[rows[r].s] == base[rows[r].s] && val[x] == base[x]
      modifies this`val
      ensures val == old(val)[rows[r].s := Eval(rows[r].xs, AsValuation(base[x := w]))]
    {
      hide Times, Equivalent, DefsOk, BasicOk;
      ghost var t := Tableau(rows, rowOf, base);
      ghost var v, u := AsValuation(base), AsValuation(base[x := w]);
      RowReachesUp(defs, t, r);
      assert Holds(rows[r], v) && AllNonBasic(rowOf, rows[r].xs);
      SortedOf(rows[r].xs);
      var j := Lookup(rows[r].xs, x);
      AdjustedRow(rows[r].xs, v, u, x);
      if rows[r].xs[j].x == x {
        val := val[rows[r].s := val[rows[r].s] + Times(rows[r].xs[j].c, w - val[x])];
      }
    }

    /** Set nonbasic `x` to `w` and adjust the rows that have it. */
    method Update(x: nat, w: real)
      requires Inv(defs, T()) && x < |rowOf| && rowOf[x].None?
      modifies this`val
      ensures Inv(defs, T()) && val[x] == w
      ensures |val| == |old(val)| && forall y :: 0 <= y < |val| && rowOf[y].None? && y != x ==> val[y] == old(val[y])
    {
      hide FormOk, Eval, Inv, Separated;
      InvFacts(defs, T());
      ghost var base := val;
      ghost var u := AsValuation(val[x := w]);
      for i := 0 to |rows|
        invariant |val| == |rowOf|
        invariant forall y :: 0 <= y < |val| && rowOf[y].None? ==> val[y] == base[y]
        invariant forall r :: 0 <= r < i ==> val[rows[r].s] == Eval(rows[r].xs, u)
        invariant forall r :: i <= r < |rows| ==> val[rows[r].s] == base[rows[r].s]
      {
        AdjustRow(i, x, w, base);
      }
      val := val[x := w];
      UpdatedValues(defs, rows, rowOf, base, val, x, w);
    }

    /** Record a tighter lower bound, moving a nonbasic variable up to it if need be. */
    method SetLbReason(x: nat, b: real, reason: int)
      requires Valid() && x < |val| && AtMost(b, ub[x]) && (lb[x].Some? ==> lb[x].value < b)
      modifies this`lb, this`reasonLb, this`log, this`val
      ensures Valid() && lb == old(lb)[x := Some(b)] && reasonLb == old(reasonLb)[x := reason]
      ensures log == old(log) + [Saved(x, true, old(lb[x]), old(reasonLb[x]))]
      ensures forall mark: nat :: mark <= |old(log)| ==> Recalled(Now(), log, mark) == old(Recalled(Now(), log, mark))
      ensures |val| == |old(val)| && forall y :: 0 <= y < |val| && rowOf[y].None? ==>
                val[y] == if y == x && old(val)[x] < b then b else old(val)[y]
    {
      hide Inv, LogLoosens;
      InvFacts(defs, T());
      SaveLoosens(B(), log, Saved(x, true, lb[x], reasonLb[x]), Bounds(lb[x := Some(b)], ub));
      log := log + [Saved(x, true, lb[x], reasonLb[x])];
      lb := lb[x := Some(b)];
      reasonLb := reasonLb[x := reason];
      if rowOf[x].None? && val[x] < b {
        Update(x, b);
      }
      forall mark: nat | mark <= |old(log)| ensures Recalled(Now(), log, mark) == old(Recalled(Now(), log, mark)) {
        SavedRecalled(old(Now()), old(log), Now(), log[|log| - 1], mark);
      }
    }

    method SetUbReason(x: nat, b: real, reason: int)
      requires Valid() && x < |val| && AtLeast(b, lb[x]) && (ub[x].Some? ==> b < ub[x].value)
      modifies this`ub, this`reasonUb, this`log, this`val
      ensures Valid() && ub == old(ub)[x := Some(b)] && reasonUb == old(reasonUb)[x := reason]
      ensures log == old(log) + [Saved(x, false, old(ub[x]), old(reasonUb[x]))]
      ensures forall mark: nat :: mark <= |old(log)| ==> Recalled(Now(), log, mark) == old(Recalled(Now(), log, mark))
      ensures |val| == |old(val)| && forall y :: 0 <= y < |val| && rowOf[y].None? ==>
                val[y] == if y == x && old(val)[x] > b then b else old(val)[y]
    {
      hide Inv, LogLoosens;
      InvFacts(defs, T());
      SaveLoosens(B(), log, Saved(x, false, ub[x], reasonUb[x]), Bounds(lb, ub[x := Some(b)]));
      log := log + [Saved(x, false, ub[x], reasonUb[x])];
      ub := ub[x := Some(b)];
      reasonUb := reasonUb[x := reason];
      if rowOf[x].None? && val[x] > b {
        Update(x, b);
      }
      forall mark: nat | mark <= |old(log)| ensures Recalled(Now(), log, mark) == old(Recalled(Now(), log, mark)) {
        SavedRecalled(old(Now()), old(log), Now(), log[|log| - 1], mark);
      }
    }

    /** Tighten a lower bound; a clash with the upper bound is a conflict of the two. */
    method SetLb(x: nat, b: real, reason: int) returns (changed: bool, clash: seq<Cause>)
      requires Valid() && x < |val|
      modifies this`lb, this`reasonLb, this`log, this`val
      ensures Valid()
      ensures clash == [] && changed ==> lb == old(lb)[x := Some(b)] && reasonLb == old(reasonLb)[x := reason]
      ensures clash == [] && changed ==> log == old(log) + [Saved(x, true, old(lb[x]), old(reasonLb[x]))]
      ensures clash == [] && !changed ==> lb[x].Some? && b <= lb[x].value
      ensures clash == [] && !changed ==>
            lb == old(lb) && reasonLb == old(reasonLb) && val == old(val) && log == old(log)
      ensures forall mark: nat :: mark <= |old(log)| ==> Recalled(Now(), log, mark) == old(Recalled(Now(), log, mark))
      ensures |old(log)| <= |log|
      ensures clash != [] ==> lb == old(lb) && log == old(log) && (forall w: Valuation :: !RespectsAll(w, clash))
      ensures clash != [] ==>
            |clash| == 2 && clash[0] == Cause(x, true, b, reason) && IsCurrent(B(), reasonLb, reasonUb, clash[1])
    {
      hide Inv, LogLoosens, Looser;
      if lb[x].None? || b > lb[x].value {
        if ub[x].Some? && b > ub[x].value {
          clash := [Cause(x, true, b, reason), Cause(x, false, ub[x].value, reasonUb[x])];
          ClashIsReal(clash[0], clash[1]);
          return false, clash;
        }
        SetLbReason(x, b, reason);
        return true, [];
      }
      return false, [];
    }

    method SetUb(x: nat, b: real, reason: int) returns (changed: bool, clash: seq<Cause>)
      requires Valid() && x < |val|
      modifies this`ub, this`reasonUb, this`log, this`val
      ensures Valid()
      ensures clash == [] && changed ==> ub == old(ub)[x := Some(b)] && reasonUb == old(reasonUb)[x := reason]
      ensures clash == [] && changed ==> log == old(log) + [Saved(x, false, old(ub[x]), old(reasonUb[x]))]
      ensures clash == [] && !changed ==> ub[x].Some? && ub[x].value <= b
      ensures clash == [] && !changed ==>
            ub == old(ub) && reasonUb == old(reasonUb) && val == old(val) && log == old(log)
      ensures forall mark: nat :: mark <= |old(log)| ==> Recalled(Now(), log, mark) == old(Recalled(Now(), log, mark))
      ensures |old(log)| <= |log|
      ensures clash != [] ==> ub == old(ub) && log == old(log) && (forall w: Valuation :: !RespectsAll(w, clash))
      ensures clash != [] ==>
            |clash| == 2 && clash[0] == Cause(x, false, b, reason) && IsCurrent(B(), reasonLb, reasonUb, clash[1])
    {
      hide Inv, LogLoosens, Looser;
      if ub[x].None? || b < ub[x].value {
        if lb[x].Some? && b < lb[x].value {
          clash := [Cause(x, false, b, reason), Cause(x, true, lb[x].value, reasonLb[x])];
          ClashIsReal(clash[1], clash[0]);
          return false, clash;
        }
        SetUbReason(x, b, reason);
        return true, [];
      }
      return false, [];
    }

    /** Backtracking: put back the bounds saved since the log had length `mark`. Values stay. */
    method Backtrack(mark: nat)
      requires Valid() && mark <= |log|
      modifies this`lb, this`ub, this`reasonLb, this`reasonUb, this`log
      ensures Valid() && log == old(log)[..mark]
      ensures Now() == Recalled(old(Now()), old(log), mark)
    {
      hide Inv, LogLoosens, BoundsOk, Recalled;
      while |log| > mark
        invariant Valid() && mark <= |log| <= |old(log)| && log == old(log)[..|log|]
        invariant Recalled(Now(), log, mark) == Recalled(old(Now()), old(log), mark)
        decreases |log|
      {
        var e := log[|log| - 1];
        LastSaved(B(), T(), log);
        RecalledStep(Now(), log, mark);
        if e.lower {
          lb := lb[e.x := e.bound];
          reasonLb := reasonLb[e.x := e.reason];
        } else {
          ub := ub[e.x := e.bound];
          reasonUb := reasonUb[e.x := e.reason];
        }
        log := log[..|log| - 1];
      }
      RecalledEnd(Now(), log, mark);
    }

    /**
     Any requests, up to the first conflict, and then backtracking: the bounds and their reasons are
     those of the start, and nonbasic values are within them.
     */
    method TryAll(requests: seq<Request>)
      requires Valid() && forall i :: 0 <= i < |requests| && requests[i].Tighten? ==> requests[i].x < |val|
      modifies this
      ensures Valid() && log == old(log) && Now() == old(Now())
    {
      hide Inv, LogLoosens, Looser, BoundsOk, RespectsAll;
      var mark := |log|;
      ghost var n := |val|;
      var clash: seq<Cause> := [];
      var i := 0;
      while i < |requests| && clash == []
        invariant Valid() && |val| == n && 0 <= i <= |requests|
        invariant mark <= |log| && Recalled(Now(), log, mark) == old(Now()) && log[..mark] == old(log)
      {
        match requests[i] {
          case Tighten(x, lower, bound, reason) =>
            var changed;
            if lower {
              changed, clash := SetLb(x, bound, reason);
            } else {
              changed, clash := SetUb(x, bound, reason);
            }
          case Advance =>
            var o := Step();
            if o.Conflict? {
              clash := o.why;
            }
        }
        i := i + 1;
      }
      Backtrack(mark);
    }

    /** Rewrite a form over basic and nonbasic variables so that no basic variable is left. */
    method Rewrite(form: Form) returns (xs: Form)
      requires Inv(defs, T()) && FormOk(form) && Below(form, |val|)
      requires forall i :: 0 <= i < |form| ==> !IsSlack(defs, form[i].x)
      ensures Rewriting(defs, T(), form, xs) && BasicIn(rowOf, xs) == {}
    {
      hide FormOk, Inv, Has, Times;
      InvFacts(defs, T());
      StartRewriting(defs, T(), form);
      xs := form;
      var i := 0;
      while i < |xs|
        invariant i <= |xs| && Rewriting(defs, T(), form, xs)
        invariant forall k :: 0 <= k < i ==> rowOf[xs[k].x].None?
        decreases BasicIn(rowOf, xs), |xs| - i
      {
        var r := rowOf[xs[i].x];
        if r.Some? {
          SubstituteKeeps(defs, T(), form, xs, i);
          xs := SubstituteRow(xs, rows[r.value].xs, xs[i].x, xs[i].c);
          i := 0;
        } else {
          i := i + 1;
        }
      }
      NoneBasic(rowOf, xs);
    }

    /** The current value of a form. */
    method ValueOf(xs: Form) returns (v: real)
      requires Below(xs, |val|)
      ensures v == Eval(xs, AsValuation(val))
    {
      hide Times;
      v := 0.0;
      EvalUpTo(xs, 0, AsValuation(val));
      for i := 0 to |xs|
        invariant v == Eval(xs[..i], AsValuation(val))
      {
        EvalUpTo(xs, i, AsValuation(val));
        v := v + Times(xs[i].c, val[xs[i].x]);
      }
      assert xs[..|xs|] == xs;
    }

    /** Add the equation that defines a fresh slack variable by `form`. */
    method AddRow(form: Form) returns (s: nat)
      requires Valid() && FormOk(form) && form != [] && Below(form, |val|)
      requires forall i :: 0 <= i < |form| ==> !IsSlack(defs, form[i].x)
      modifies this
      ensures Valid() && s == |old(val)| && |val| == s + 1 && defs == old(defs) + [Row(s, form)]
      ensures B() == Bounds(old(lb) + [None], old(ub) + [None]) && log == old(log)
    {
      hide Inv, FormOk, LogLoosens, Rewriting, BasicIn;
      InvFacts(defs, T());
      var v := ValueOf(form);
      var xs := Rewrite(form);
      FreshRow(defs, T(), |val|, form, xs);
      FreshValue(T(), form);
      s := InitVar();
      AddRowKeeps(defs, T(), s, form, xs);
      rowOf := rowOf[s := Some(|rows|)];
      val := val[s := v];
      rows := rows + [Row(s, xs)];
      defs := defs + [Row(s, form)];
    }

    /** A slack for `x - y - z`: in every solution it has that value. */
    method AddSubSub(x: nat, y: nat, z: nat) returns (s: nat)
      requires Valid() && x < |val| && y < |val| && z < |val| && x != y && x != z && y != z
      requires !IsSlack(defs, x) && !IsSlack(defs, y) && !IsSlack(defs, z)
      modifies this
      ensures Valid() && s == |old(val)| && |val| == s + 1 && log == old(log)
      ensures B() == Bounds(old(lb) + [None], old(ub) + [None])
      ensures forall v: Valuation :: Solves(defs, v) <==> Solves(old(defs), v) && v(s) == v(x) - v(y) - v(z)
    {
      hide Inv, LogLoosens, Times;
      var form: Form;
      if x < y {
        if y < z {
          form := [Entry(1.0, x), Entry(-1.0, y), Entry(-1.0, z)];
        } else if x < z {
          form := [Entry(1.0, x), Entry(-1.0, z), Entry(-1.0, y)];
        } else {
          form := [Entry(-1.0, z), Entry(1.0, x), Entry(-1.0, y)];
        }
      } else {
        if x < z {
          form := [Entry(-1.0, y), Entry(1.0, x), Entry(-1.0, z)];
        } else if y < z {
          form := [Entry(-1.0, y), Entry(-1.0, z), Entry(1.0, x)];
        } else {
          form := [Entry(-1.0, z), Entry(-1.0, y), Entry(1.0, x)];
        }
      }
      s := AddRow(form);
      forall v: Valuation ensures Solves(defs, v) <==> Solves(old(defs), v) && v(s) == v(x) - v(y) - v(z) {
        SolvesAppend(old(defs), Row(s, form), v);
        EvalThree(form, v);
      }
    }

    /** A slack for `x - c*y`. */
    method AddSubTimes(x: nat, c: real, y: nat) returns (s: nat)
      requires Valid() && x < |val| && y < |val| && x != y && c != 0.0
      requires !IsSlack(defs, x) && !IsSlack(defs, y)
      modifies this
      ensures Valid() && s == |old(val)| && |val| == s + 1 && log == old(log)
      ensures B() == Bounds(old(lb) + [None], old(ub) + [None])
      ensures forall v: Valuation :: Solves(defs, v) <==> Solves(old(defs), v) && v(s) == v(x) - c * v(y)
    {
      hide Inv, LogLoosens;
      var form := if x < y then [Entry(1.0, x), Entry(-c, y)] else [Entry(-c, y), Entry(1.0, x)];
      s := AddRow(form);
      forall v: Valuation ensures Solves(defs, v) <==> Solves(old(defs), v) && v(s) == v(x) - c * v(y) {
        SolvesAppend(old(defs), Row(s, form), v);
        EvalTwo(form, v);
        NegatedProduct(c, v(y));
      }
    }

    /** Every coefficient divided by `-c`. */
    method Flip(xs: Form, c: real) returns (ys: Form)
      requires c != 0.0
      ensures ys == Flipped(xs, c)
    {
      hide Times;
      ys := xs;
      ScaleEntries(xs, -1.0 / c);
      for k := 0 to |xs|
        invariant |ys| == |xs|
        invariant forall i :: 0 <= i < k ==> ys[i] == Scale(xs, -1.0 / c)[i]
        invariant forall i :: k <= i < |xs| ==> ys[i] == xs[i]
      {
        var d := ys[k].c / c;
        Quotient(xs[k].c, c, 0.0);
        ys := ys[k := Entry(-d, xs[k].x)];
      }
    }

    /** Merge `n` times `b` into `a`, insert `d` times `s` in order, and sum up the value on the way. */
    method UpdateRow(a: Form, b: Form, n: real, d: real, s: nat) returns (xs: Form, v: real)
      requires Below(Combine(a, b, n), |val|) && s < |val|
      ensures xs == Insert(Combine(a, b, n), s, d) && v == Eval(xs, AsValuation(val))
    {
      hide Times, Insert, Eval, Combine;
      var zs := Merge(a, b, n);
      xs, v := [], 0.0;
      ghost var w := AsValuation(val);
      var i, j := 0, 0;
      InsertStep(zs, s, d, 0, w);
      ghost var rest := Insert(zs, s, d);
      while i < |zs|
        invariant i <= |zs| && (j == i || j == i + 1)
        invariant v == Eval(xs, w)
        invariant Insert(zs, s, d) == xs + rest
        invariant rest == if j == i then Insert(zs[i..], s, d) else zs[i..]
      {
        InsertStep(zs, s, d, i, w);
        if i == j && s < zs[i].x {
          EvalPush(xs, Entry(d, s), w);
          rest := zs[i..];
          Regroup(xs, [Entry(d, s)], rest);
          xs, v, j := xs + [Entry(d, s)], v + Times(d, val[s]), j + 1;
        }
        EvalPush(xs, zs[i], w);
        rest := if j == i then Insert(zs[i + 1..], s, d) else zs[i + 1..];
        Regroup(xs, [zs[i]], rest);
        xs, v := xs + [zs[i]], v + Times(zs[i].c, val[zs[i].x]);
        i, j := i + 1, j + 1;
      }
      InsertStep(zs, s, d, |zs|, w);
      if j < |zs| + 1 {
        EvalPush(xs, Entry(d, s), w);
        xs, v := xs + [Entry(d, s)], v + Times(d, val[s]);
      }
    }

    /**
     Eliminate the pivot variable from every other row that has it, recomputing that row's value.
     `t` is the tableau before the pivot, `flipped` its pivot row divided by `-c`.
     */
    method Eliminate(r: nat, j: nat, flipped: Form, ghost t: Tableau, ghost b: real)
      requires Inv(defs, t) && rows == t.rows && rowOf == t.rowOf && r < |rows| && j < |rows[r].xs|
      requires rows[r].xs[j].c != 0.0 && rows[r].s < |t.val| && rows[r].xs[j].x < |t.val|
      requires val == PivotBase(t, r, j, b) && flipped == Flipped(rows[r].xs, rows[r].xs[j].c)
      modifies this`rows, this`val
      ensures Eliminated(t, r, j, b, |t.rows|, rows, val)
    {
      hide Inv, Eliminated, PivotRow, PivotBase, Times, Eval, Has, Flipped, Insert, Combine;
      var s, x, c := rows[r].s, rows[r].xs[j].x, rows[r].xs[j].c;
      EliminateStart(defs, t, r, j, b);
      for k := 0 to |rows|
        invariant |rows| == |t.rows| && Eliminated(t, r, j, b, k, rows, val)
      {
        NextToEliminate(defs, t, r, j, b, k, rows, val);
        if rows[k].s != s {
          var l := Lookup(rows[k].xs, x);
          if rows[k].xs[l].x == x {
            var ct := rows[k].xs[l].c;
            EliminateMeans(defs, t, r, j, k, l, b, rows, val);
            var ys, v := UpdateRow(rows[k].xs, flipped, ct, ct / c, s);
            EliminateRow(defs, t, r, j, b, k, rows, val, ys, v);
            rows := rows[k := Row(rows[k].s, ys)];
            val := val[rows[k].s := v];
          } else {
            EliminateSkip(t, r, j, b, k, rows, val);
          }
        } else {
          EliminateSkip(t, r, j, b, k, rows, val);
        }
      }
    }

    /** Exchange the basic variable of row `r`, which takes the value `b`, with that of its entry `j`. */
    method Pivot(r: nat, j: nat, b: real)
      requires Valid() && r < |rows| && j < |rows[r].xs| && rows[r].s < |lb| && rows[r].s < |ub|
               && Within(B(), rows[r].s, b)
      modifies this`rows, this`rowOf, this`val
      ensures Valid()
      ensures old(rows[r].xs[j].c) != 0.0 && PivotedTo(old(T()), r, j, b, T())
    {
      hide Inv, BoundsOk, PivotedTo, Eliminated, Times, Eval, Has, SolvedForm, Flipped, LogLoosens;
      ghost var t := T();
      PivotVariable(defs, t, r, j);
      var s, x, c := rows[r].s, rows[r].xs[j].x, rows[r].xs[j].c;
      val := val[x := val[x] + (b - val[s]) / c];
      val := val[s := b];
      var flipped := Flip(rows[r].xs, c);
      Eliminate(r, j, flipped, t, b);
      FlippedShape(defs, t, r, j);
      PivotDone(defs, t, B(), r, j, b, rows, val);
      var solved := Replace(flipped, j, s, 1.0 / c);
      rows := rows[r := Row(x, solved)];
      SolvedShape(t.rows[r].xs, j, s, flipped, solved);
      rowOf := rowOf[x := Some(r)];
      rowOf := rowOf[s := None];
    }

    /**
     An entry of row `r` that may move the row's value up (or down), or for every entry the bound
     that stops it.
     */
    method FindEntry(r: nat, up: bool) returns (j: nat, why: seq<Cause>)
      requires Valid() && r < |rows|
      ensures j <= |rows[r].xs| && |why| == j
      ensures forall i :: 0 <= i < j ==>
                Pinned(rows[r].xs[i], AsValuation(val), up, why[i]) && IsCurrent(B(), reasonLb, reasonUb, why[i])
      ensures j < |rows[r].xs| ==>
            rows[r].xs[j].c != 0.0 && rows[r].xs[j].x < |val| && Movable(B(), val, rows[r].xs[j], up)
    {
      hide Inv, LogLoosens;
      RowVariables(defs, T(), r);
      j, why := 0, [];
      while j < |rows[r].xs|
        invariant j <= |rows[r].xs| && |why| == j
        invariant forall i :: 0 <= i < j ==>
                    Pinned(rows[r].xs[i], AsValuation(val), up, why[i]) && IsCurrent(B(), reasonLb, reasonUb, why[i])
      {
        var c, x := rows[r].xs[j].c, rows[r].xs[j].x;
        if (if up then c < 0.0 else c > 0.0) {
          if lb[x].None? || val[x] > lb[x].value {
            return;
          }
          why := why + [Cause(x, true, lb[x].value, reasonLb[x])];
        } else {
          if ub[x].None? || val[x] < ub[x].value {
            return;
          }
          why := why + [Cause(x, false, ub[x].value, reasonUb[x])];
        }
        j := j + 1;
      }
    }

    /**
     Find the first row whose basic variable is out of bounds; pivot, or report a conflict. A
     conflict lists current bounds that no solution of the equations respects.
     */
    method Step() returns (o: Outcome)
      requires Valid()
      modifies this`rows, this`rowOf, this`val
      ensures Valid()
      ensures if o.Pivoted? then exists r, j, up :: Repaired(B(), old(T()), r, j, up, T()) else T() == old(T())
      ensures o.Solved? ==> forall x :: 0 <= x < |val| ==> Within(B(), x, val[x])
      ensures o.Conflict? ==> forall i :: 0 <= i < |o.why| ==> IsCurrent(B(), reasonLb, reasonUb, o.why[i])
      ensures o.Conflict? ==> forall w: Valuation :: Solves(defs, w) ==> !RespectsAll(w, o.why)
    {
      hide Inv, LogLoosens, Looser, RespectsAll, IsCurrent, RowRepaired;
      InvFacts(defs, T());
      for i := 0 to |rows|
        invariant Valid() && rows == old(rows) && rowOf == old(rowOf) && val == old(val)
        invariant forall r :: 0 <= r < i ==> Within(B(), rows[r].s, val[rows[r].s])
      {
        var s := rows[i].s;
        if lb[s].Some? && val[s] < lb[s].value {
          o := Repair(i, true, lb[s].value);
          if o.Pivoted? {
            ghost var j :| RowRepaired(B(), old(T()), i, j, true, lb[s].value, T());
            assert Repaired(B(), old(T()), i, j, true, T());
          }
          return;
        }
        if ub[s].Some? && val[s] > ub[s].value {
          o := Repair(i, false, ub[s].value);
          if o.Pivoted? {
            ghost var j :| RowRepaired(B(), old(T()), i, j, false, ub[s].value, T());
            assert Repaired(B(), old(T()), i, j, false, T());
          }
          return;
        }
      }
      return Solved;
    }

    /** Move the basic variable of row `r` to its bound `b`, or show that it cannot be done. */
    method Repair(r: nat, up: bool, b: real) returns (o: Outcome)
      requires Valid() && r < |rows| && rows[r].s < |val| && rows[r].s < |lb| && rows[r].s < |ub|
      requires if up then lb[rows[r].s] == Some(b) && val[rows[r].s] < b
               else ub[rows[r].s] == Some(b) && b < val[rows[r].s]
      modifies this`rows, this`rowOf, this`val
      ensures Valid() && !o.Solved?
      ensures o.Pivoted? ==> exists j :: RowRepaired(B(), old(T()), r, j, up, b, T())
      ensures o.Conflict? ==> T() == old(T())
      ensures o.Conflict? ==> forall i :: 0 <= i < |o.why| ==> IsCurrent(B(), reasonLb, reasonUb, o.why[i])
      ensures o.Conflict? ==> forall w: Valuation :: Solves(defs, w) ==> !RespectsAll(w, o.why)
    {
      hide Inv, LogLoosens, Looser;
      var j, why := FindEntry(r, up);
      var s := rows[r].s;
      if j < |rows[r].xs| {
        Pivot(r, j, b);
        assert RowRepaired(B(), old(T()), r, j, up, b, T());
        return Pivoted;
      }
      var last := Cause(s, up, b, if up then reasonLb[s] else reasonUb[s]);
      forall w: Valuation | Solves(defs, w) ensures !RespectsAll(w, why + [last]) {
        ConflictIsReal(defs, T(), r, up, why, last, w);
      }
      return Conflict(why + [last]);
    }

    /**
     Step until solved or in conflict, or until `fuel` pivots are spent, each of which brings the first
     variable out of bounds back to the bound that it violated. Solved means that the current values
     satisfy every equation and every bound; a conflict lists bounds no solution respects.
     */
    method Solve(fuel: nat) returns (o: Outcome)
      requires Valid()
      modifies this`rows, this`rowOf, this`val
      ensures Valid()
      ensures exists n: nat :: n <= fuel && (o.Pivoted? <==> n == fuel) && Pivots(B(), old(T()), n, T())
      ensures o.Solved? ==> Solves(defs, AsValuation(val)) && forall x :: 0 <= x < |val| ==> Within(B(), x, val[x])
      ensures o.Conflict? ==> forall i :: 0 <= i < |o.why| ==> IsCurrent(B(), reasonLb, reasonUb, o.why[i])
      ensures o.Conflict? ==> forall w: Valuation :: Solves(defs, w) ==> !RespectsAll(w, o.why)
    {
      hide Inv, LogLoosens, Looser, Repaired;
      o := Pivoted;
      var left := fuel;
      ghost var n: nat := 0;
      while left > 0 && o.Pivoted?
        invariant Valid() && 0 <= left <= fuel && Pivots(B(), old(T()), n, T())
        invariant if o.Pivoted? then n == fuel - left else n < fuel
        invariant o.Solved? ==> forall x :: 0 <= x < |val| ==> Within(B(), x, val[x])
        invariant o.Conflict? ==> forall i :: 0 <= i < |o.why| ==> IsCurrent(B(), reasonLb, reasonUb, o.why[i])
        invariant o.Conflict? ==> forall w: Valuation :: Solves(defs, w) ==> !RespectsAll(w, o.why)
        decreases left
      {
        ghost var t := T();
        o := Step();
        if o.Pivoted? {
          ghost var r, j, up :| Repaired(B(), t, r, j, up, T());
          n := n + 1;
          assert Pivots(B(), old(T()), n, T());
        }
        left := left - 1;
      }
      assert n <= fuel && (o.Pivoted? <==> n == fuel) && Pivots(B(), old(T()), n, T());
      ValuesSolve(defs, T());
    }
  }

  lemma InsertStep(zs: Form, s: nat, d: real, i: nat, w: Valuation)
    requires i <= |zs|
    ensures i == 0 ==> [] + Insert(zs[i..], s, d) == Insert(zs, s, d) && Eval([], w) == 0.0
    ensures i == |zs| ==> Insert(zs[i..], s, d) == [Entry(d, s)] && zs[i..] == []
    ensures i < |zs| ==> zs[i..] == [zs[i]] + zs[i + 1..]
    ensures i < |zs| ==>
          Insert(zs[i..], s, d) == if s < zs[i].x then [Entry(d, s)] + zs[i..] else [zs[i]] + Insert(zs[i + 1..], s, d)
  {
    if i == 0 { assert zs[i..] == zs; }
    if i < |zs| { assert zs[i..][1..] == zs[i + 1..]; }
  }

  lemma EvalPush(xs: Form, e: Entry, v: Valuation)
    ensures Eval(xs + [e], v) == Eval(xs, v) + Times(e.c, v(e.x))
  {
    hide Times;
    EvalConcat(xs, [e], v);
  }

  lemma EmptyInv()
    ensures Inv([], Tableau([], [None], [0.0])) && BoundsOk(Bounds([None], [None]), Tableau([], [None], [0.0]))
  {
  }

  lemma InvFacts(defs: seq<Row>, t: Tableau)
    requires Inv(defs, t)
    ensures |t.rowOf| == |t.val| && BasicOk(t.rows, t.rowOf)
  {
  }

  /** Values that agree with `base` but for `x` on nonbasic variables, and with the rows on basic ones. */
  lemma UpdatedValues(defs: seq<Row>, rows: seq<Row>, rowOf: seq<Option<nat>>, base: seq<real>, val: seq<real>, x: nat,
                      w: real)
    requires Inv(defs, Tableau(rows, rowOf, base)) && |val| == |base| && x < |base|
    requires forall y :: 0 <= y < |val| && rowOf[y].None? ==> val[y] == base[x := w][y]
    requires forall r :: 0 <= r < |rows| ==>
          rows[r].s < |val| && val[rows[r].s] == Eval(rows[r].xs, AsValuation(base[x := w]))
    ensures Inv(defs, Tableau(rows, rowOf, val))
  {
    hide FormOk, Eval, DefsOk, Equivalent;
    forall r | 0 <= r < |rows| ensures Holds(rows[r], AsValuation(val)) {
      assert AllNonBasic(rowOf, rows[r].xs);
      NonBasicDecide(rowOf, rows[r].xs, AsValuation(base[x := w]), AsValuation(val));
    }
  }

  lemma {:induction false} LogWithVar(b: Bounds, log: seq<Saved>)
    requires |b.lb| == |b.ub| && LogLoosens(b, log)
    ensures LogLoosens(Bounds(b.lb + [None], b.ub + [None]), log)
    decreases |log|
  {
    if log != [] {
      var e := log[|log| - 1];
      var b' := Bounds(b.lb + [None], b.ub + [None]);
      LogWithVar(Restored(b, e), log[..|log| - 1]);
      assert Restored(b', e) == Bounds(Restored(b, e).lb + [None], Restored(b, e).ub + [None]);
      assert Looser(b, Restored(b, e));
    }
  }

  lemma SaveLoosens(b: Bounds, log: seq<Saved>, e: Saved, b': Bounds)
    requires LogLoosens(b, log) && |b.lb| == |b.ub| && e.x < |b.lb| && |b'.lb| == |b'.ub| == |b.lb|
    requires Restored(b', e) == b && Looser(b', b)
    ensures LogLoosens(b', log + [e])
  {
    assert (log + [e])[..|log|] == log;
  }

  lemma ClashIsReal(c: Cause, d: Cause)
    requires c.x == d.x && c.lower && !d.lower && d.bound < c.bound
    ensures forall w: Valuation :: !RespectsAll(w, [c, d]) && !RespectsAll(w, [d, c])
  {
    forall w: Valuation ensures !RespectsAll(w, [c, d]) && !RespectsAll(w, [d, c]) {
      assert [c, d][0] == c && [c, d][1] == d && [d, c][0] == d && [d, c][1] == c;
      assert !Respects(w, c) || !Respects(w, d);
    }
  }

  lemma NoneBasic(rowOf: seq<Option<nat>>, xs: Form)
    requires Below(xs, |rowOf|) && forall k :: 0 <= k < |xs| ==> rowOf[xs[k].x].None?
    ensures BasicIn(rowOf, xs) == {}
  {
  }

  lemma EvalUpTo(xs: Form, i: nat, v: Valuation)
    requires i <= |xs|
    ensures Eval(xs[..0], v) == 0.0
    ensures i < |xs| ==> Eval(xs[..i + 1], v) == Eval(xs[..i], v) + Times(xs[i].c, v(xs[i].x))
  {
    hide Times;
    if i < |xs| {
      assert xs[..i + 1] == xs[..i] + [xs[i]];
      EvalConcat(xs[..i], [xs[i]], v);
    }
  }

  lemma {:induction false} EvalConcat(a: Form, b: Form, v: Valuation)
    ensures Eval(a + b, v) == Eval(a, v) + Eval(b, v)
  {
    hide Times;
    if a == [] {
      assert a + b == b;
    } else {
      assert (a + b)[1..] == a[1..] + b;
      EvalConcat(a[1..], b, v);
    }
  }

  /** A variable numbered after all others is in no row and no definition. */
  lemma FreshRow(defs: seq<Row>, t: Tableau, s: nat, form: Form, xs: Form)
    requires Inv(defs, t) && s == |t.rowOf| && Rewriting(defs, t, form, xs) && BasicIn(t.rowOf, xs) == {}
    ensures !IsSlack(defs, s) && !Has(xs, s)
    ensures forall r :: 0 <= r < |t.rows| ==> !Has(t.rows[r].xs, s)
    ensures forall k :: 0 <= k < |defs| ==> !Has(defs[k].xs, s)
    ensures Rewriting(defs, WithVar(t), form, xs) && BasicIn(WithVar(t).rowOf, xs) == {}
  {
    hide FormOk;
    forall k | 0 <= k < |defs| ensures !Has(defs[k].xs, s) {
      assert Below(defs[k].xs, defs[k].s);
    }
    forall x: nat | x < s + 1 && Has(xs, x) ensures WithVar(t).rowOf[x].None? {
      assert x !in BasicIn(t.rowOf, xs);
    }
  }

  lemma FreshValue(t: Tableau, form: Form)
    requires Below(form, |t.val|)
    ensures Eval(form, AsValuation(t.val)) == Eval(form, AsValuation(WithVar(t).val))
  {
    EvalDepends(form, AsValuation(t.val), AsValuation(WithVar(t).val));
  }

  lemma ValuesSolve(defs: seq<Row>, t: Tableau)
    requires Inv(defs, t)
    ensures Solves(defs, AsValuation(t.val))
  {
  }

  lemma RowVariables(defs: seq<Row>, t: Tableau, r: nat)
    requires Inv(defs, t) && r < |t.rows|
    ensures |t.rowOf| == |t.val|
    ensures forall i :: 0 <= i < |t.rows[r].xs| ==> t.rows[r].xs[i].c != 0.0 && NonBasic(t.rowOf, t.rows[r].xs[i].x)
  {
  }

  lemma RowSorted(defs: seq<Row>, t: Tableau, r: nat)
    requires Inv(defs, t) && r < |t.rows|
    ensures Sorted(t.rows[r].xs)
  {
  }

  lemma PivotVariable(defs: seq<Row>, t: Tableau, r: nat, j: nat)
    requires Inv(defs, t) && r < |t.rows| && j < |t.rows[r].xs|
    ensures t.rows[r].xs[j].c != 0.0 && t.rows[r].s < |t.val| == |t.rowOf| && t.rows[r].xs[j].x < |t.val|
    ensures t.rowOf[t.rows[r].xs[j].x].None? && t.rows[r].s != t.rows[r].xs[j].x
    ensures forall i :: 0 <= i < |t.rows| && i != r ==> t.rows[i].s != t.rows[r].s && t.rowOf[t.rows[i].s].Some?
  {
  }

  /** The updated row that the merge computes, and what its value depends on. */
  lemma EliminateMeans(defs: seq<Row>, t: Tableau, r: nat, j: nat, k: nat, l: nat, b: real, rows: seq<Row>,
                       val: seq<real>)
    requires Inv(defs, t) && r < |t.rows| && j < |t.rows[r].xs| && k < |t.rows| && k != r && l < |t.rows[k].xs|
    requires t.rows[r].xs[j].c != 0.0 && t.rows[r].s < |t.val| && t.rows[r].xs[j].x < |t.val|
    requires t.rows[k].xs[l].x == t.rows[r].xs[j].x && Eliminated(t, r, j, b, k, rows, val)
    ensures var s, c, ct, ys := t.rows[r].s, t.rows[r].xs[j].c, t.rows[k].xs[l].c, t.rows[k].xs;
            var zs := Combine(ys, Flipped(t.rows[r].xs, c), ct);
            && Below(zs, |val|) && Has(ys, t.rows[r].xs[j].x)
            && PivotRow(t.rows, r, j, k) == Row(t.rows[k].s, Insert(zs, s, ct / c))
            && Eval(PivotRow(t.rows, r, j, k).xs, AsValuation(val))
               == Eval(PivotRow(t.rows, r, j, k).xs, AsValuation(PivotBase(t, r, j, b)))
  {
    hide Times, Eval, Equivalent, DefsOk;
    var s, xs, ys := t.rows[r].s, t.rows[r].xs, t.rows[k].xs;
    var x := xs[j].x;
    HasIsCoef(ys, x);
    PivotRowOk(t.rows, t.rowOf, r, j, k);
    var zs := Combine(ys, Flipped(xs, xs[j].c), Coef(ys, x));
    var us := UpdatedForm(ys, xs, j, s);
    forall i | 0 <= i < |zs| ensures zs[i].x < |val| {
      assert Has(zs, zs[i].x);
      InsertHas(zs, s, Coef(ys, x) / xs[j].c, zs[i].x);
      WithinForm(us, PivotRowOf(t.rowOf, s, x, r), zs[i].x);
    }
    NonBasicDecide(PivotRowOf(t.rowOf, s, x, r), us, AsValuation(val), AsValuation(PivotBase(t, r, j, b)));
  }

  lemma EliminateStart(defs: seq<Row>, t: Tableau, r: nat, j: nat, b: real)
    requires Inv(defs, t) && r < |t.rows| && j < |t.rows[r].xs|
    requires t.rows[r].xs[j].c != 0.0 && t.rows[r].s < |t.val| && t.rows[r].xs[j].x < |t.val|
    ensures Eliminated(t, r, j, b, 0, t.rows, PivotBase(t, r, j, b))
  {
    hide Inv;
    InvFacts(defs, t);
    PivotVariable(defs, t, r, j);
  }

  /** What is known of the row that comes next. */
  lemma NextToEliminate(defs: seq<Row>, t: Tableau, r: nat, j: nat, b: real, k: nat, rows: seq<Row>, val: seq<real>)
    requires Inv(defs, t) && r < |t.rows| && j < |t.rows[r].xs| && k < |t.rows|
    requires t.rows[r].xs[j].c != 0.0 && t.rows[r].s < |t.val| && t.rows[r].xs[j].x < |t.val|
    requires Eliminated(t, r, j, b, k, rows, val)
    ensures rows[k] == t.rows[k] && rows[k].s < |t.val| == |val|
    ensures k == r <==> rows[k].s == t.rows[r].s
    ensures k != r ==> rows[k].xs != [] && Sorted(rows[k].xs)
  {
    hide Inv;
    InvFacts(defs, t);
    PivotVariable(defs, t, r, j);
    RowReachesUp(defs, t, k);
    RowSorted(defs, t, k);
  }

  lemma EliminateSkip(t: Tableau, r: nat, j: nat, b: real, k: nat, rows: seq<Row>, val: seq<real>)
    requires r < |t.rows| && j < |t.rows[r].xs| && k < |t.rows|
    requires t.rows[r].xs[j].c != 0.0 && t.rows[r].s < |t.val| && t.rows[r].xs[j].x < |t.val|
    requires Eliminated(t, r, j, b, k, rows, val) && (k == r || !Has(t.rows[k].xs, t.rows[r].xs[j].x))
    ensures Eliminated(t, r, j, b, k + 1, rows, val)
  {
    hide Eval, Has;
  }

  lemma EliminateRow(defs: seq<Row>, t: Tableau, r: nat, j: nat, b: real, k: nat, rows: seq<Row>, val: seq<real>,
                     ys: Form, v: real)
    requires Inv(defs, t) && r < |t.rows| && j < |t.rows[r].xs| && k < |t.rows| && k != r
    requires t.rows[r].xs[j].c != 0.0 && t.rows[r].s < |t.val| && t.rows[r].xs[j].x < |t.val|
    requires Eliminated(t, r, j, b, k, rows, val) && Has(t.rows[k].xs, t.rows[r].xs[j].x)
    requires |rows| == |t.rows| && t.rows[k].s < |val| == |t.val| && Row(t.rows[k].s, ys) == PivotRow(t.rows, r, j, k)
    requires v == Eval(ys, AsValuation(PivotBase(t, r, j, b)))
    ensures Eliminated(t, r, j, b, k + 1, rows[k := Row(t.rows[k].s, ys)], val[t.rows[k].s := v])
  {
    hide Inv, Eval, Has, PivotRow, PivotBase;
    InvFacts(defs, t);
    PivotVariable(defs, t, r, j);
  }

  /** With all other rows eliminated and the pivot row solved, the pivot is done. */
  lemma PivotDone(defs: seq<Row>, t: Tableau, bs: Bounds, r: nat, j: nat, b: real, rows: seq<Row>, val: seq<real>)
    requires Inv(defs, t) && BoundsOk(bs, t) && r < |t.rows| && j < |t.rows[r].xs|
    requires t.rows[r].xs[j].c != 0.0 && t.rows[r].s < |t.val| == |t.rowOf| && t.rows[r].xs[j].x < |t.val|
    requires t.rows[r].s < |bs.lb| && t.rows[r].s < |bs.ub| && Within(bs, t.rows[r].s, b)
    requires Eliminated(t, r, j, b, |t.rows|, rows, val)
    ensures |rows| == |t.rows| && rows[r] == t.rows[r] && |val| == |t.val|
    ensures var s, x := t.rows[r].s, t.rows[r].xs[j].x;
            var t' := Tableau(rows[r := Row(x, SolvedForm(t.rows[r].xs, j, s))], t.rowOf[x := Some(r)][s := None], val);
            Inv(defs, t') && BoundsOk(bs, t') && PivotedTo(t, r, j, b, t')
  {
    hide Inv, Eval, Has, Times, SolvedForm, UpdatedForm;
    InvFacts(defs, t);
    PivotVariable(defs, t, r, j);
    var s, x := t.rows[r].s, t.rows[r].xs[j].x;
    assert rows[r := Row(x, SolvedForm(t.rows[r].xs, j, s))] == PivotRows(t.rows, r, j);
    PivotKeeps(defs, t, r, j, b, val);
  }

  /** The last saved change can be taken back. */
  lemma LastSaved(b: Bounds, t: Tableau, log: seq<Saved>)
    requires log != [] && BoundsOk(b, t) && LogLoosens(b, log)
    ensures var e := log[|log| - 1];
            && e.x < |b.lb| == |b.ub| == |t.val|
            && BoundsOk(Restored(b, e), t) && LogLoosens(Restored(b, e), log[..|log| - 1])
  {
    LoosenKeepsBounds(b, Restored(b, log[|log| - 1]), t);
  }

  lemma RecalledStep(m: Limits, log: seq<Saved>, mark: nat)
    requires mark < |log|
    ensures Recalled(m, log, mark) == Recalled(Before(m, log[|log| - 1]), log[..|log| - 1], mark)
  {
  }

  lemma RecalledEnd(m: Limits, log: seq<Saved>, mark: nat)
    requires |log| <= mark
    ensures Recalled(m, log, mark) == m
  {
  }

  lemma FlippedShape(defs: seq<Row>, t: Tableau, r: nat, j: nat)
    requires Inv(defs, t) && r < |t.rows| && j < |t.rows[r].xs| && t.rows[r].xs[j].c != 0.0
    ensures var fs := Flipped(t.rows[r].xs, t.rows[r].xs[j].c);
            Sorted(fs) && |fs| == |t.rows[r].xs| && fs[j].x == t.rows[r].xs[j].x && !Has(fs, t.rows[r].s)
  {
    hide Times;
    NotInside(t.rows, t.rowOf, r, r);
    SolvedOk(t.rows[r].xs, j, t.rows[r].s, t.rows[r].s);
    ScaleEntries(t.rows[r].xs, -1.0 / t.rows[r].xs[j].c);
  }

  lemma SolvedShape(xs: Form, j: nat, s: nat, fs: Form, solved: Form)
    requires j < |xs| && xs[j].c != 0.0 && fs == Flipped(xs, xs[j].c) && |fs| == |xs| && fs[j].x == xs[j].x
    requires solved == Insert(Without(fs, fs[j].x), s, 1.0 / xs[j].c)
    ensures solved == SolvedForm(xs, j, s)
  {
  }

  lemma EvalTwo(f: Form, v: Valuation)
    requires |f| == 2
    ensures Eval(f, v) == Times(f[0].c, v(f[0].x)) + Times(f[1].c, v(f[1].x))
  {
    hide Times;
    var g := f[1..];
    assert Eval(f, v) == Times(f[0].c, v(f[0].x)) + Eval(g, v);
    assert Eval(g, v) == Times(g[0].c, v(g[0].x)) + Eval(g[1..], v);
    assert g[1..] == [];
  }

  lemma EvalThree(f: Form, v: Valuation)
    requires |f| == 3
    ensures Eval(f, v) == Times(f[0].c, v(f[0].x)) + Times(f[1].c, v(f[1].x)) + Times(f[2].c, v(f[2].x))
    ensures forall y: real :: Times(1.0, y) == y && Times(-1.0, y) == -y
  {
    var g := f[1..];
    assert Eval(f, v) == Times(f[0].c, v(f[0].x)) + Eval(g, v);
    EvalTwo(g, v);
  }

  lemma NegatedProduct(c: real, y: real)
    ensures Times(-c, y) == -(c * y) && forall z: real :: Times(1.0, z) == z
  {
  }
}
