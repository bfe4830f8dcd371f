/**
 Rows of the simplex tableau: linear forms as entry lists sorted by variable, and the merges that
 substitute one row into another.
 */
module LinearRow {

  /** A valuation of the linear variables. */
  type Valuation = nat -> real

  datatype Entry = Entry(c: real, x: nat)

  type Form = seq<Entry>

  /** Multiplication, named so that proofs can treat it as a black box. */
  function Times(x: real, y: real): real {
    x * y
  }

  lemma TimesRules(a: real, b: real, c: real)
    ensures Times(a, b + c) == Times(a, b) + Times(a, c)
    ensures Times(a + b, c) == Times(a, c) + Times(b, c)
    ensures Times(Times(a, b), c) == Times(a, Times(b, c))
    ensures Times(a, 0.0) == 0.0 && Times(0.0, c) == 0.0 && Times(a, 1.0) == a && Times(1.0, c) == c
    ensures a != 0.0 && b != 0.0 ==> Times(a, b) != 0.0
    ensures Times(a, b) == Times(b, a)
    ensures Times(-1.0, c) == -c
  {
  }

  ghost function Eval(xs: Form, v: Valuation): real {
    if xs == [] then 0.0 else Times(xs[0].c, v(xs[0].x)) + Eval(xs[1..], v)
  }

  /** The valuation that picks out one variable. */
  ghost function Unit(x: nat): Valuation {
    y => if y == x then 1.0 else 0.0
  }

  /** The coefficient of `x`, zero if there is no entry. */
  ghost function Coef(xs: Form, x: nat): real {
    Eval(xs, Unit(x))
  }

  ghost predicate Sorted(xs: Form) {
    forall i, j :: 0 <= i < j < |xs| ==> xs[i].x < xs[j].x
  }

  /** Strictly sorted, without zero coefficients. */
  ghost predicate FormOk(xs: Form) {
    Sorted(xs) && forall i :: 0 <= i < |xs| ==> xs[i].c != 0.0
  }

  ghost predicate Has(xs: Form, x: nat) {
    exists i :: 0 <= i < |xs| && xs[i].x == x
  }

  /** Every entry's variable is above `x`. */
  ghost predicate Above(xs: Form, x: int) {
    forall i :: 0 <= i < |xs| ==> x < xs[i].x
  }

  function Scale(xs: Form, n: real): Form {
    if xs == [] then [] else [Entry(Times(n, xs[0].c), xs[0].x)] + Scale(xs[1..], n)
  }

  /** `a` plus `n` times `b`, merged in variable order, cancelled entries dropped. */
  function Combine(a: Form, b: Form, n: real): Form
    decreases |a| + |b|
  {
    if a == [] then Scale(b, n)
    else if b == [] then a
    else if a[0].x < b[0].x then [a[0]] + Combine(a[1..], b, n)
    else if a[0].x > b[0].x then [Entry(Times(n, b[0].c), b[0].x)] + Combine(a, b[1..], n)
    else
      var c := a[0].c + Times(n, b[0].c);
      (if c == 0.0 then [] else [Entry(c, a[0].x)]) + Combine(a[1..], b[1..], n)
  }

  /** `a` with `d` times variable `s` inserted in order. */
  function Insert(a: Form, s: nat, d: real): Form {
    if a == [] || s < a[0].x then [Entry(d, s)] + a else [a[0]] + Insert(a[1..], s, d)
  }

  /** `a` without its entry for `x`. */
  function Without(a: Form, x: nat): Form {
    if a == [] then [] else (if a[0].x == x then [] else [a[0]]) + Without(a[1..], x)
  }

  lemma Prepend(e: Entry, rest: Form, v: Valuation)
    ensures Eval([e] + rest, v) == Times(e.c, v(e.x)) + Eval(rest, v)
  {
    hide Times;
    assert ([e] + rest)[1..] == rest;
  }

  lemma {:induction false} ScaleEntries(b: Form, n: real)
    ensures |Scale(b, n)| == |b|
    ensures forall i :: 0 <= i < |b| ==> Scale(b, n)[i] == Entry(Times(n, b[i].c), b[i].x)
  {
    hide Times;
    if b != [] {
      ScaleEntries(b[1..], n);
    }
  }

  lemma {:induction false} ScaleEval(b: Form, n: real, v: Valuation)
    ensures Eval(Scale(b, n), v) == Times(n, Eval(b, v))
  {
    hide Times;
    if b == [] {
      TimesRules(n, 0.0, 0.0);
    } else {
      ScaleEval(b[1..], n, v);
      Prepend(Entry(Times(n, b[0].c), b[0].x), Scale(b[1..], n), v);
      TimesRules(n, b[0].c, v(b[0].x));
      TimesRules(n, Times(b[0].c, v(b[0].x)), Eval(b[1..], v));
    }
  }

  /** Merging adds the forms, in every valuation. */
  lemma {:induction false} CombineAdds(a: Form, b: Form, n: real, v: Valuation)
    ensures Eval(Combine(a, b, n), v) == Eval(a, v) + Times(n, Eval(b, v))
    decreases |a| + |b|
  {
    hide Times;
    if a == [] {
      ScaleEval(b, n, v);
    } else if b == [] {
      TimesRules(n, 0.0, 0.0);
    } else if a[0].x < b[0].x {
      CombineAdds(a[1..], b, n, v);
      Prepend(a[0], Combine(a[1..], b, n), v);
    } else {
      TimesRules(n, b[0].c, v(b[0].x));
      TimesRules(n, Times(b[0].c, v(b[0].x)), Eval(b[1..], v));
      if a[0].x > b[0].x {
        CombineAdds(a, b[1..], n, v);
        Prepend(Entry(Times(n, b[0].c), b[0].x), Combine(a, b[1..], n), v);
      } else {
        var rest := Combine(a[1..], b[1..], n);
        CombineAdds(a[1..], b[1..], n, v);
        var c := a[0].c + Times(n, b[0].c);
        TimesRules(a[0].c, Times(n, b[0].c), v(a[0].x));
        if c != 0.0 {
          Prepend(Entry(c, a[0].x), rest, v);
        } else {
          TimesRules(c, 0.0, v(a[0].x));
          assert [] + rest == rest;
        }
      }
    }
  }

  lemma HasTail(xs: Form, x: nat)
    requires xs != []
    ensures Has(xs, x) <==> xs[0].x == x || Has(xs[1..], x)
  {
    if Has(xs, x) && xs[0].x != x {
      var i :| 0 <= i < |xs| && xs[i].x == x;
      assert xs[1..][i - 1].x == x;
    }
    if Has(xs[1..], x) {
      var i :| 0 <= i < |xs| - 1 && xs[1..][i].x == x;
      assert xs[i + 1].x == x;
    }
  }

  /** In a proper form the variables with an entry are those with a non-zero coefficient. */
  lemma {:induction false} HasIsCoef(xs: Form, x: nat)
    requires FormOk(xs)
    ensures Has(xs, x) <==> Coef(xs, x) != 0.0
    ensures forall i :: 0 <= i < |xs| && xs[i].x == x ==> xs[i].c == Coef(xs, x)
  {
    hide Times;
    if xs != [] {
      HasIsCoef(xs[1..], x);
      HasTail(xs, x);
      TimesRules(xs[0].c, 0.0, 0.0);
      forall i | 0 <= i < |xs| && xs[i].x == x ensures xs[i].c == Coef(xs, x) {
        if i > 0 { assert xs[1..][i - 1] == xs[i]; }
      }
    }
  }

  lemma PrependOk(e: Entry, rest: Form, low: int)
    requires FormOk(rest) && Above(rest, e.x) && e.c != 0.0 && low < e.x
    ensures FormOk([e] + rest) && Above([e] + rest, low)
  {
  }

  lemma FormTail(a: Form, low: int)
    requires FormOk(a) && Above(a, low) && a != []
    ensures FormOk(a[1..]) && Above(a[1..], a[0].x) && low < a[0].x && a[0].c != 0.0
  {
  }

  lemma HeadAbove(a: Form, low: int)
    requires FormOk(a) && (a != [] ==> low < a[0].x)
    ensures Above(a, low)
  {
  }

  lemma AboveLower(a: Form, x: int, low: int)
    requires Above(a, x) && low <= x
    ensures Above(a, low)
  {
  }

  lemma ScaleOk(b: Form, n: real, low: int)
    requires FormOk(b) && n != 0.0 && Above(b, low)
    ensures FormOk(Scale(b, n)) && Above(Scale(b, n), low)
  {
    hide Times;
    ScaleEntries(b, n);
    forall i | 0 <= i < |b| ensures Times(n, b[i].c) != 0.0 {
      TimesRules(n, b[i].c, 0.0);
    }
  }

  /** Merging keeps forms proper, and adds no variable below both. */
  lemma {:induction false} CombineOk(a: Form, b: Form, n: real, low: int)
    requires FormOk(a) && FormOk(b) && n != 0.0 && Above(a, low) && Above(b, low)
    ensures FormOk(Combine(a, b, n)) && Above(Combine(a, b, n), low)
    decreases |a| + |b|
  {
    hide Times, FormOk, Above;
    if a == [] {
      ScaleOk(b, n, low);
    } else if b == [] {
    } else {
      FormTail(a, low);
      FormTail(b, low);
      if a[0].x < b[0].x {
        HeadAbove(b, a[0].x);
        CombineOk(a[1..], b, n, a[0].x);
        PrependOk(a[0], Combine(a[1..], b, n), low);
      } else if a[0].x > b[0].x {
        HeadAbove(a, b[0].x);
        CombineOk(a, b[1..], n, b[0].x);
        TimesRules(n, b[0].c, 0.0);
        PrependOk(Entry(Times(n, b[0].c), b[0].x), Combine(a, b[1..], n), low);
      } else {
        var rest := Combine(a[1..], b[1..], n);
        CombineOk(a[1..], b[1..], n, a[0].x);
        AboveLower(rest, a[0].x, low);
        var c := a[0].c + Times(n, b[0].c);
        if c != 0.0 {
          PrependOk(Entry(c, a[0].x), rest, low);
        } else {
          assert [] + rest == rest;
        }
      }
    }
  }

  lemma {:induction false} InsertEval(a: Form, s: nat, d: real, v: Valuation)
    ensures Eval(Insert(a, s, d), v) == Eval(a, v) + Times(d, v(s))
  {
    hide Times;
    if a == [] || s < a[0].x {
      Prepend(Entry(d, s), a, v);
    } else {
      Prepend(a[0], Insert(a[1..], s, d), v);
      InsertEval(a[1..], s, d, v);
    }
  }

  lemma {:induction false} InsertOk(a: Form, s: nat, d: real, low: int)
    requires FormOk(a) && !Has(a, s) && d != 0.0 && Above(a, low) && low < s
    ensures FormOk(Insert(a, s, d)) && Above(Insert(a, s, d), low)
  {
    hide FormOk, Above;
    if a == [] || s < a[0].x {
      HeadAbove(a, s);
      PrependOk(Entry(d, s), a, low);
    } else {
      FormTail(a, low);
      HasTail(a, s);
      InsertOk(a[1..], s, d, a[0].x);
      PrependOk(a[0], Insert(a[1..], s, d), low);
    }
  }

  lemma {:induction false} WithoutEval(a: Form, y: nat, v: Valuation)
    ensures Eval(Without(a, y), v) == Eval(a, v) - Times(Coef(a, y), v(y))
  {
    hide Times;
    if a == [] {
      TimesRules(0.0, 0.0, v(y));
    } else {
      var rest := Without(a[1..], y);
      WithoutEval(a[1..], y, v);
      TimesRules(a[0].c, 0.0, 0.0);
      TimesRules(Times(a[0].c, Unit(y)(a[0].x)), Coef(a[1..], y), v(y));
      TimesRules(0.0, 0.0, v(y));
      if a[0].x == y {
        assert [] + rest == rest;
      } else {
        Prepend(a[0], rest, v);
      }
    }
  }

  lemma {:induction false} WithoutOk(a: Form, y: nat, low: int)
    requires FormOk(a) && Above(a, low)
    ensures FormOk(Without(a, y)) && Above(Without(a, y), low)
  {
    hide FormOk, Above;
    if a != [] {
      var rest := Without(a[1..], y);
      FormTail(a, low);
      WithoutOk(a[1..], y, a[0].x);
      if a[0].x == y {
        AboveLower(rest, a[0].x, low);
        assert [] + rest == rest;
      } else {
        PrependOk(a[0], rest, low);
      }
    }
  }

  /** The form's value does not depend on variables it does not have. */
  lemma {:induction false} EvalDepends(a: Form, v: Valuation, w: Valuation)
    requires forall i :: 0 <= i < |a| ==> v(a[i].x) == w(a[i].x)
    ensures Eval(a, v) == Eval(a, w)
  {
    if a != [] {
      EvalDepends(a[1..], v, w);
    }
  }

  /** Binary search for `x`: the index returned is that of `x` if the form has it. */
  method Lookup(xs: Form, x: nat) returns (i: nat)
    requires Sorted(xs) && xs != []
    ensures i < |xs|
    ensures Has(xs, x) <==> xs[i].x == x
  {
    var lo, hi := 0, |xs| - 1;
    while lo < hi
      invariant 0 <= lo < |xs| && lo - 1 <= hi < |xs|
      invariant forall k :: 0 <= k < |xs| && xs[k].x == x ==> lo <= k <= hi
      decreases hi - lo
    {
      var mid := (lo + hi) / 2;
      if x < xs[mid].x {
        hi := mid - 1;
      } else if x > xs[mid].x {
        lo := mid + 1;
      } else {
        return mid;
      }
    }
    return lo;
  }

  lemma CombineStep(a: Form, b: Form, n: real, i: nat, j: nat)
    requires i < |a| && j < |b|
    ensures Combine(a[i..], b[j..], n) ==
            if a[i].x < b[j].x then [a[i]] + Combine(a[i + 1..], b[j..], n)
            else if a[i].x > b[j].x then [Entry(Times(n, b[j].c), b[j].x)] + Combine(a[i..], b[j + 1..], n)
            else (if a[i].c + Times(n, b[j].c) == 0.0 then [] else [Entry(a[i].c + Times(n, b[j].c), a[i].x)])
                 + Combine(a[i + 1..], b[j + 1..], n)
  {
    hide Times;
    assert a[i..][1..] == a[i + 1..] && b[j..][1..] == b[j + 1..];
  }

  /** One loop merges while both lists last; two more copy what is left. */
  method Merge(a: Form, b: Form, n: real) returns (xs: Form)
    ensures xs == Combine(a, b, n)
  {
    hide Times, Combine;
    xs := [];
    var i, j := 0, 0;
    assert a[0..] == a && b[0..] == b;
    while i < |a| && j < |b|
      invariant i <= |a| && j <= |b|
      invariant xs + Combine(a[i..], b[j..], n) == Combine(a, b, n)
      decreases |a| - i + |b| - j
    {
      CombineStep(a, b, n, i, j);
      ghost var ys, i0, j0 := xs, i, j;
      if a[i].x < b[j].x {
        xs := xs + [a[i]];
        i := i + 1;
        Regroup(ys, [a[i0]], Combine(a[i..], b[j..], n));
      } else if a[i].x > b[j].x {
        xs := xs + [Entry(Times(n, b[j].c), b[j].x)];
        j := j + 1;
        Regroup(ys, [Entry(Times(n, b[j0].c), b[j0].x)], Combine(a[i..], b[j..], n));
      } else {
        var c := a[i].c + Times(n, b[j].c);
        if c != 0.0 {
          xs := xs + [Entry(c, a[i].x)];
        }
        i, j := i + 1, j + 1;
        Regroup(ys, if c == 0.0 then [] else [Entry(c, a[i0].x)], Combine(a[i..], b[j..], n));
      }
    }
    xs := CopyTails(a, b, n, xs, i, j);
    CombineTails(a[i..], b[j..], n);
  }

  lemma Regroup(a: Form, b: Form, c: Form)
    ensures (a + b) + c == a + (b + c)
    ensures a + [] == a
  {
  }

  lemma CombineTails(a: Form, b: Form, n: real)
    requires a == [] || b == []
    ensures Combine(a, b, n) == a + Scale(b, n)
  {
    hide Times;
  }

  method CopyTails(a: Form, b: Form, n: real, xs0: Form, i0: nat, j0: nat) returns (xs: Form)
    requires i0 <= |a| && j0 <= |b|
    ensures xs == xs0 + (a[i0..] + Scale(b[j0..], n))
  {
    hide Times;
    var i, j := i0, j0;
    xs := xs0;
    while i < |a|
      invariant i0 <= i <= |a| && xs == xs0 + a[i0..i]
    {
      xs := xs + [a[i]];
      i := i + 1;
    }
    assert a[i0..|a|] == a[i0..];
    ghost var ys := xs;
    ScaleEntries(b[j0..], n);
    while j < |b|
      invariant j0 <= j <= |b| && xs == ys + Scale(b[j0..], n)[..j - j0]
    {
      assert b[j0..][j - j0] == b[j];
      xs := xs + [Entry(Times(n, b[j].c), b[j].x)];
      j := j + 1;
    }
  }

  /**
   Substitution as the solver's loops do it: entries of `y` in `a` are skipped while entries of `b`
   are left, but the loop that copies the rest of `a` does not look for `y`.
   */
  function Substitute(a: Form, b: Form, y: nat, n: real): Form
    decreases |a| + |b|
  {
    if a == [] then Scale(b, n)
    else if b == [] then a
    else if a[0].x == y then Substitute(a[1..], b, y, n)
    else if a[0].x < b[0].x then [a[0]] + Substitute(a[1..], b, y, n)
    else if a[0].x > b[0].x then [Entry(Times(n, b[0].c), b[0].x)] + Substitute(a, b[1..], y, n)
    else
      var c := a[0].c + Times(n, b[0].c);
      (if c == 0.0 then [] else [Entry(c, a[0].x)]) + Substitute(a[1..], b[1..], y, n)
  }

  /** `b` has an entry above everything that precedes `y` in `a`. */
  ghost predicate Reaches(a: Form, b: Form, y: nat) {
    b != [] && forall i :: 0 <= i < |a| && a[i].x < y ==> a[i].x < b[|b| - 1].x
  }

  /** If `b` reaches `y`, substitution is removal and merging. */
  lemma {:induction false} SubstituteMerges(a: Form, b: Form, y: nat, n: real)
    requires FormOk(a) && FormOk(b) && !Has(b, y) && (Has(a, y) ==> Reaches(a, b, y))
    ensures Substitute(a, b, y, n) == Combine(Without(a, y), b, n)
    decreases |a| + |b|
  {
    hide Times;
    if a == [] {
    } else if b == [] {
      WithoutAbsent(a, y);
    } else {
      HasTail(a, y);
      HasTail(b, y);
      if a[0].x == y {
        WithoutAbsent(a[1..], y);
        assert [] + Without(a[1..], y) == Without(a[1..], y);
        assert !Has(a[1..], y);
        SubstituteMerges(a[1..], b, y, n);
      } else {
        ReachesOn(a, b, y);
        assert ([a[0]] + Without(a[1..], y))[1..] == Without(a[1..], y);
        if a[0].x < b[0].x {
          SubstituteMerges(a[1..], b, y, n);
        } else if a[0].x > b[0].x {
          SubstituteMerges(a, b[1..], y, n);
        } else {
          SubstituteMerges(a[1..], b[1..], y, n);
        }
      }
    }
  }

  lemma ReachesOn(a: Form, b: Form, y: nat)
    requires FormOk(a) && FormOk(b) && a != [] && b != [] && a[0].x != y
    requires Has(a, y) ==> Reaches(a, b, y)
    ensures Has(a[1..], y) ==> Reaches(a[1..], b, y)
    ensures Has(a, y) && b[0].x <= a[0].x ==> Reaches(a, b[1..], y) && Reaches(a[1..], b[1..], y)
  {
    HasTail(a, y);
    if Has(a, y) {
      assert a[0].x < y by {
        var i :| 0 <= i < |a| && a[i].x == y;
      }
      assert a[0].x < b[|b| - 1].x;
    }
  }

  lemma {:induction false} WithoutAbsent(a: Form, y: nat)
    requires !Has(a, y)
    ensures Without(a, y) == a
  {
    if a != [] {
      HasTail(a, y);
      assert a[0].x != y;
      WithoutAbsent(a[1..], y);
    }
  }

  /** Substitution removes `y` exactly if `b` reaches it. */
  lemma SubstituteRemovesIff(a: Form, b: Form, y: nat, n: real)
    requires FormOk(a) && FormOk(b) && n != 0.0 && Has(a, y) && !Has(b, y)
    ensures !Has(Substitute(a, b, y, n), y) <==> Reaches(a, b, y)
  {
    if Reaches(a, b, y) {
      SubstituteMerges(a, b, y, n);
      WithoutOk(a, y, -1);
      CombineOk(Without(a, y), b, n, -1);
      CombineAdds(Without(a, y), b, n, Unit(y));
      WithoutEval(a, y, Unit(y));
      TimesRules(Coef(a, y), 0.0, 0.0);
      HasIsCoef(b, y);
      TimesRules(n, 0.0, 0.0);
      HasIsCoef(Combine(Without(a, y), b, n), y);
    } else {
      SubstituteMisses(a, b, y, n);
    }
  }

  lemma {:induction false} SubstituteMisses(a: Form, b: Form, y: nat, n: real)
    requires FormOk(a) && FormOk(b) && Has(a, y) && !Has(b, y) && !Reaches(a, b, y)
    ensures Has(Substitute(a, b, y, n), y)
    decreases |a| + |b|
  {
    hide Times;
    if b != [] {
      HasTail(a, y);
      HasTail(b, y);
      MissesOn(a, b, y);
      if a[0].x < b[0].x {
        SubstituteMisses(a[1..], b, y, n);
        HasAfter([a[0]], Substitute(a[1..], b, y, n), y);
      } else if a[0].x > b[0].x {
        SubstituteMisses(a, b[1..], y, n);
        HasAfter([Entry(Times(n, b[0].c), b[0].x)], Substitute(a, b[1..], y, n), y);
      } else {
        SubstituteMisses(a[1..], b[1..], y, n);
        var c := a[0].c + Times(n, b[0].c);
        HasAfter(if c == 0.0 then [] else [Entry(c, a[0].x)], Substitute(a[1..], b[1..], y, n), y);
      }
    }
  }

  lemma MissesOn(a: Form, b: Form, y: nat)
    requires FormOk(a) && FormOk(b) && a != [] && b != [] && Has(a, y) && !Reaches(a, b, y)
    ensures a[0].x != y && Has(a[1..], y)
    ensures a[0].x < b[0].x ==> !Reaches(a[1..], b, y)
    ensures a[0].x > b[0].x ==> !Reaches(a, b[1..], y)
    ensures a[0].x == b[0].x ==> !Reaches(a[1..], b[1..], y)
  {
    HasTail(a, y);
    var i :| 0 <= i < |a| && a[i].x < y && a[i].x >= b[|b| - 1].x;
    assert i > 0 ==> a[1..][i - 1] == a[i];
    var k :| 0 <= k < |a| && a[k].x == y;
    assert i < k;
    if a[0].x == b[0].x && i == 0 {
      assert b[1..] == [];
    }
  }

  lemma HasAfter(a: Form, b: Form, x: nat)
    requires Has(b, x)
    ensures Has(a + b, x)
  {
    var i :| 0 <= i < |b| && b[i].x == x;
    assert (a + b)[|a| + i].x == x;
  }

  lemma SubstituteStep(a: Form, b: Form, y: nat, n: real, i: nat, j: nat)
    requires i < |a| && j < |b|
    ensures Substitute(a[i..], b[j..], y, n) ==
            if a[i].x == y then Substitute(a[i + 1..], b[j..], y, n)
            else if a[i].x < b[j].x then [a[i]] + Substitute(a[i + 1..], b[j..], y, n)
            else if a[i].x > b[j].x then [Entry(Times(n, b[j].c), b[j].x)] + Substitute(a[i..], b[j + 1..], y, n)
            else (if a[i].c + Times(n, b[j].c) == 0.0 then [] else [Entry(a[i].c + Times(n, b[j].c), a[i].x)])
                 + Substitute(a[i + 1..], b[j + 1..], y, n)
  {
    hide Times;
    assert a[i..][1..] == a[i + 1..] && b[j..][1..] == b[j + 1..];
  }

  lemma SubstituteTails(a: Form, b: Form, y: nat, n: real)
    requires a == [] || b == []
    ensures Substitute(a, b, y, n) == a + Scale(b, n)
  {
    hide Times;
  }

  /** Replace the variable `y` of `a` by `b`, `n` being the coefficient of `y`. */
  method SubstituteRow(a: Form, b: Form, y: nat, n: real) returns (xs: Form)
    ensures xs == Substitute(a, b, y, n)
  {
    hide Times, Substitute;
    xs := [];
    var i, j := 0, 0;
    assert a[0..] == a && b[0..] == b;
    while i < |a| && j < |b|
      invariant i <= |a| && j <= |b|
      invariant xs + Substitute(a[i..], b[j..], y, n) == Substitute(a, b, y, n)
      decreases |a| - i + |b| - j
    {
      SubstituteStep(a, b, y, n, i, j);
      ghost var ys, i0, j0 := xs, i, j;
      if a[i].x == y {
        i := i + 1;
      } else if a[i].x < b[j].x {
        xs := xs + [a[i]];
        i := i + 1;
        Regroup(ys, [a[i0]], Substitute(a[i..], b[j..], y, n));
      } else if a[i].x > b[j].x {
        xs := xs + [Entry(Times(n, b[j].c), b[j].x)];
        j := j + 1;
        Regroup(ys, [Entry(Times(n, b[j0].c), b[j0].x)], Substitute(a[i..], b[j..], y, n));
      } else {
        var c := a[i].c + Times(n, b[j].c);
        if c != 0.0 {
          xs := xs + [Entry(c, a[i].x)];
        }
        i, j := i + 1, j + 1;
        Regroup(ys, if c == 0.0 then [] else [Entry(c, a[i0].x)], Substitute(a[i..], b[j..], y, n));
      }
    }
    xs := CopyTails(a, b, n, xs, i, j);
    SubstituteTails(a[i..], b[j..], y, n);
  }

  /** Changing one variable changes a form's value in proportion to its coefficient. */
  lemma {:induction false} EvalChange(xs: Form, v: Valuation, w: Valuation, x: nat)
    requires forall i :: 0 <= i < |xs| && xs[i].x != x ==> v(xs[i].x) == w(xs[i].x)
    ensures Eval(xs, w) == Eval(xs, v) + Times(Coef(xs, x), w(x) - v(x))
  {
    hide Times;
    var d := w(x) - v(x);
    if xs == [] {
      TimesRules(0.0, 0.0, d);
    } else {
      EvalChange(xs[1..], v, w, x);
      TimesRules(xs[0].c, 0.0, 0.0);
      TimesRules(Times(xs[0].c, Unit(x)(xs[0].x)), Coef(xs[1..], x), d);
      TimesRules(0.0, 0.0, d);
      TimesRules(xs[0].c, v(x), d);
    }
  }

  lemma {:induction false} InsertAt(a: Form, s: nat, d: real, k: nat)
    requires Sorted(a) && k <= |a| && (forall i :: 0 <= i < k ==> a[i].x < s) && (k < |a| ==> s < a[k].x)
    ensures Insert(a, s, d) == a[..k] + [Entry(d, s)] + a[k..]
  {
    if k > 0 {
      InsertAt(a[1..], s, d, k - 1);
      assert a[..k] == [a[0]] + a[1..][..k - 1] && a[1..][k - 1..] == a[k..];
    }
  }

  lemma {:induction false} WithoutAt(a: Form, j: nat)
    requires Sorted(a) && j < |a|
    ensures Without(a, a[j].x) == a[..j] + a[j + 1..]
  {
    if j == 0 {
      WithoutAbsent(a[1..], a[0].x);
      assert [] + a[1..] == a[1..];
    } else {
      WithoutAt(a[1..], j - 1);
      assert a[..j] == [a[0]] + a[1..][..j - 1] && a[1..][j..] == a[j + 1..];
    }
  }

  /** `xs` is `a` with entry `j` taken out and `e` put in at index `k`. */
  ghost predicate Moved(a: Form, j: nat, xs: Form, k: nat, e: Entry)
    requires j < |a| && k < |a|
  {
    && |xs| == |a| && xs[k] == e
    && (forall i :: 0 <= i < |a| && i < j && i < k ==> xs[i] == a[i])
    && (forall i :: 0 <= i < |a| && i > j && i > k ==> xs[i] == a[i])
    && (forall i :: k < i <= j ==> xs[i] == a[i - 1])
    && (forall i :: j <= i < k ==> xs[i] == a[i + 1])
  }

  /** Entry `i` once entry `j` is taken out. */
  function Skipping(a: Form, j: nat, i: nat): Entry
    requires j < |a| && i + 1 < |a|
  {
    if i < j then a[i] else a[i + 1]
  }

  lemma MovedIsInsert(a: Form, j: nat, xs: Form, k: nat, s: nat, d: real)
    requires Sorted(a) && j < |a| && k < |a| && Moved(a, j, xs, k, Entry(d, s))
    requires forall i :: 0 <= i < k ==> Skipping(a, j, i).x < s
    requires k + 1 < |a| ==> s < Skipping(a, j, k).x
    ensures xs == Insert(Without(a, a[j].x), s, d)
  {
    WithoutAt(a, j);
    var b := a[..j] + a[j + 1..];
    SkippingAll(a, j);
    InsertAt(b, s, d, k);
    MovedIsSlices(a, j, xs, k, Entry(d, s));
  }

  lemma SkippingAll(a: Form, j: nat)
    requires Sorted(a) && j < |a|
    ensures var b := a[..j] + a[j + 1..];
            |b| == |a| - 1 && Sorted(b) && forall i :: 0 <= i < |b| ==> b[i] == Skipping(a, j, i)
  {
  }

  lemma MovedIsSlices(a: Form, j: nat, xs: Form, k: nat, e: Entry)
    requires j < |a| && k < |a| && Moved(a, j, xs, k, e)
    ensures var b := a[..j] + a[j + 1..];
            xs == b[..k] + [e] + b[k..]
  {
    var b := a[..j] + a[j + 1..];
    var ys := b[..k] + [e] + b[k..];
    assert |xs| == |ys|;
    forall i | 0 <= i < |xs| ensures xs[i] == ys[i] {
      if i < k {
        assert ys[i] == b[i];
      } else if i > k {
        assert ys[i] == b[i - 1];
      }
    }
  }

  /** Overwrite entry `j` by an entry of `s`, shifting the entries between its place and theirs. */
  method Replace(a: Form, j: nat, s: nat, d: real) returns (xs: Form)
    requires Sorted(a) && j < |a| && !Has(a, s)
    ensures xs == Insert(Without(a, a[j].x), s, d)
  {
    if s < a[j].x {
      xs := ShiftRight(a, j, s, d);
    } else {
      xs := ShiftLeft(a, j, s, d);
    }
  }

  method ShiftRight(a: Form, j: nat, s: nat, d: real) returns (xs: Form)
    requires Sorted(a) && j < |a| && !Has(a, s) && s < a[j].x
    ensures xs == Insert(Without(a, a[j].x), s, d)
  {
    xs := a;
    var k: nat := j;
    while k > 0 && xs[k - 1].x > s
      invariant k <= j && |xs| == |a|
      invariant forall i :: 0 <= i < |a| && (i < k || i > j) ==> xs[i] == a[i]
      invariant forall i :: k < i <= j ==> xs[i] == a[i - 1]
      invariant forall i :: k <= i <= j ==> s < a[i].x
    {
      xs := xs[k := xs[k - 1]];
      k := k - 1;
    }
    xs := xs[k := Entry(d, s)];
    assert forall i :: 0 <= i < k ==> a[i].x != s;
    MovedIsInsert(a, j, xs, k, s, d);
  }

  method ShiftLeft(a: Form, j: nat, s: nat, d: real) returns (xs: Form)
    requires Sorted(a) && j < |a| && !Has(a, s) && s >= a[j].x
    ensures xs == Insert(Without(a, a[j].x), s, d)
  {
    xs := a;
    var k: nat := j;
    assert a[j].x != s;
    while k < |xs| - 1 && xs[k + 1].x < s
      invariant j <= k < |a| && |xs| == |a|
      invariant forall i :: 0 <= i < |a| && (i < j || i > k) ==> xs[i] == a[i]
      invariant forall i :: j <= i < k ==> xs[i] == a[i + 1]
      invariant forall i :: 0 <= i <= k ==> a[i].x < s
    {
      xs := xs[k := xs[k + 1]];
      k := k + 1;
    }
    xs := xs[k := Entry(d, s)];
    assert k + 1 < |a| ==> a[k + 1].x != s;
    MovedIsInsert(a, j, xs, k, s, d);
  }
}
