/**
 The states between which the search moves: the blank state in which variables and clauses are
 added, and the fully propagated state in which a decision is taken.
 */
module SatSearch {
  import opened Wrappers
  import opened SatLogic
  import opened SatInvariant
  import opened SatPropagation
  import opened SatSteps
  import opened SatBackjump
  import opened SatAnalysis

  /** Every clause of the input is stored in some form. */
  ghost predicate Represented(f: Cnf, s: State) {
    && |s.units| == |s.vars|
    && forall c :: c in f ==> s.empty || c in s.csets || IsUnitOf(s.units, c)
  }

  ghost predicate IsUnitOf(units: seq<Option<bool>>, c: set<Lit>) {
    exists v :: 0 <= v < |units| && units[v].Some? && c == {UnitLit(units, v)}
  }

  /** Nothing is set yet. */
  ghost predicate Blank(f: Cnf, s: State) {
    && Inv(f, s) && Represented(f, s) && s.trail == [] && s.dlevel == 0
  }

  lemma BlankIsQueue(f: Cnf, s: State)
    requires Blank(f, s)
    ensures Queue(f, s, 0)
  {
    forall v | 0 <= v < |s.vars| ensures !s.vars[v].isSet {}
  }

  lemma BlankFacts(f: Cnf, s: State)
    requires Blank(f, s)
    ensures |s.units| == |s.vars| == |s.tpos|
  {
  }

  lemma BlankStart(s: State)
    requires s == State([], [], [], 0, [], [], map[], [], false)
    ensures Blank({}, s)
  {
  }

  ghost function AddVarStep(s: State): State {
    var n := |s.vars|;
    s.(vars := s.vars + [Var(false, false, 0, None)], units := s.units + [None], tpos := s.tpos + [0],
       watches := s.watches[n + 1 := []][-(n + 1) := []])
  }

  lemma AddVarKeepsBlank(f: Cnf, s: State)
    requires Blank(f, s)
    ensures Blank(f, AddVarStep(s))
  {
    var s' := AddVarStep(s);
    var n := |s.vars|;
    forall c | 0 <= c < |s.clauses| ensures ClauseOk(|s'.vars|, s.clauses[c]) {
      assert ClauseOk(n, s.clauses[c]);
    }
    forall v | 0 <= v < |s'.vars| ensures !s'.vars[v].isSet {
      assert v < n ==> !s.vars[v].isSet;
    }
    AddVarKeepsWatchLists(n, s.clauses, s.watches);
    forall v | 0 <= v < |s'.units| && s'.units[v].Some? ensures Entails(f, {UnitLit(s'.units, v)}) {
      assert UnitLit(s'.units, v) == UnitLit(s.units, v);
    }
    forall c | c in f && c !in s.csets && !s.empty ensures IsUnitOf(s'.units, c) {
      var v :| 0 <= v < |s.units| && s.units[v].Some? && c == {UnitLit(s.units, v)};
      assert UnitLit(s'.units, v) == UnitLit(s.units, v);
    }
  }

  lemma AddVarKeepsWatchLists(n: nat, cls: seq<Clause>, ws: map<Lit, seq<nat>>)
    requires ClausesOk(n, cls) && ClausesOk(n + 1, cls) && WatchListsOk(n, cls, ws)
    ensures WatchListsOk(n + 1, cls, ws[n + 1 := []][-(n + 1) := []])
  {
    var ws' := ws[n + 1 := []][-(n + 1) := []];
    forall l ensures InRange(l, n + 1) <==> l in ws' {
      assert l in ws' <==> l in ws || l == n + 1 || l == -(n + 1);
    }
    forall c | 0 <= c < |cls|
      ensures cls[c][0] in ws' && cls[c][1] in ws' && c in ws'[cls[c][0]] && c in ws'[cls[c][1]]
    {
      assert ClauseOk(n, cls[c]);
    }
  }

  /** More clauses entail no less. */
  lemma EntailsMore(f: Cnf, g: Cnf, c: set<Lit>)
    requires f <= g && Entails(f, c)
    ensures Entails(g, c)
  {
  }

  lemma InvMore(f: Cnf, g: Cnf, s: State)
    requires f <= g && Inv(f, s)
    ensures Inv(g, s)
  {
    hide WatchListsOk;
    forall c | 0 <= c < |s.clauses| ensures Entails(g, s.csets[c]) {
      EntailsMore(f, g, s.csets[c]);
    }
    forall v | 0 <= v < |s.units| && s.units[v].Some? ensures Entails(g, {UnitLit(s.units, v)}) {
      EntailsMore(f, g, {UnitLit(s.units, v)});
    }
    forall i | 0 <= i < |s.trail| && Level(s.vars, s.trail[i]) == 0 ensures Entails(g, {s.trail[i]}) {
      EntailsMore(f, g, {s.trail[i]});
    }
    if s.empty {
      EntailsMore(f, g, {});
    }
  }

  /** Storing a clause of the input. */
  lemma AddBlankClause(f: Cnf, s: State, c: Clause)
    requires Blank(f, s) && Distinct(c) && forall k :: 0 <= k < |c| ==> InRange(c[k], |s.vars|)
    ensures |s.units| == |s.vars|
    ensures forall k :: 0 <= k < |c| ==> c[k] in s.watches
    ensures Blank(f + {LitSet(c)}, StoreStep(s, c))
    ensures forall v :: 0 <= v < |s.units| && s.units[v].Some? ==> StoreStep(s, c).units[v] == s.units[v]
  {
    hide Weak, Entails;
    var g := f + {LitSet(c)};
    InvMore(f, g, s);
    assert Entails(g, LitSet(c)) by { MemberEntailed(g, LitSet(c)); }
    StoreKeepsInv(g, s, c);
    StoreKeepsRepresented(f, s, c);
  }

  lemma MemberEntailed(f: Cnf, c: set<Lit>)
    requires c in f
    ensures Entails(f, c)
  {
  }

  lemma StoreKeepsRepresented(f: Cnf, s: State, c: Clause)
    requires Represented(f, s)
    requires forall k :: 0 <= k < |c| ==> InRange(c[k], |s.units|)
    requires forall k :: 0 <= k < |c| ==> c[k] in s.watches
    ensures Represented(f + {LitSet(c)}, StoreStep(s, c))
    ensures forall v :: 0 <= v < |s.units| && s.units[v].Some? ==> StoreStep(s, c).units[v] == s.units[v]
  {
    var s' := StoreStep(s, c);
    if |c| == 1 {
      var u := s.units[Index(c[0])];
      if u.Some? {
        var b: bool := u.value;
        assert u == Some(b) && (b == Sign(c[0]) || b == !Sign(c[0]));
      }
    }
    if |c| == 1 && !s'.empty {
      assert LitSet(c) == {c[0]} == {UnitLit(s'.units, Index(c[0]))};
    }
    if |c| >= 2 {
      assert s'.csets[|s.csets|] == LitSet(c);
    }
    forall d | d in f && d !in s'.csets && !s'.empty ensures IsUnitOf(s'.units, d) {
      assert d !in s.csets;
      var v :| 0 <= v < |s.units| && s.units[v].Some? && d == {UnitLit(s.units, v)};
      assert UnitLit(s'.units, v) == UnitLit(s.units, v);
    }
  }

  /** The unit flags of the first `k` variables are obeyed at level 0. */
  ghost predicate UnitsTrue(a: seq<Var>, units: seq<Option<bool>>, k: nat) {
    && |units| == |a| && k <= |a|
    && forall v :: 0 <= v < k && units[v].Some? ==> a[v].isSet && a[v].dlevel == 0 && a[v].sign == units[v].value
  }

  /** Flags are never changed once raised, and stored clauses are never forgotten. */
  ghost predicate Kept(csets: seq<set<Lit>>, units: seq<Option<bool>>, csets': seq<set<Lit>>,
                       units': seq<Option<bool>>) {
    && SetOf(csets) <= SetOf(csets')
    && |units'| == |units| && forall v :: 0 <= v < |units| && units[v].Some? ==> units'[v] == units[v]
  }

  lemma KeptTransitive(c0: seq<set<Lit>>, u0: seq<Option<bool>>, c1: seq<set<Lit>>, u1: seq<Option<bool>>,
                       c2: seq<set<Lit>>, u2: seq<Option<bool>>)
    requires Kept(c0, u0, c1, u1) && Kept(c1, u1, c2, u2)
    ensures Kept(c0, u0, c2, u2)
  {
    hide SetOf;
  }

  /** Only a learnt unit raises a flag, that of its own literal. */
  ghost predicate UnitsStep(units: seq<Option<bool>>, units': seq<Option<bool>>, l: Lit, r: Option<nat>) {
    units' == units || (r.None? && InRange(l, |units|) && units' == units[Index(l) := Some(Sign(l))])
  }

  lemma StoreSteps(s: State, c: Clause)
    requires |c| > 0
    requires forall k :: 0 <= k < |c| ==> InRange(c[k], |s.units|)
    requires forall k :: 0 <= k < |c| ==> c[k] in s.watches
    ensures Kept(s.csets, s.units, StoreStep(s, c).csets, StoreStep(s, c).units)
    ensures !StoreStep(s, c).empty ==>
          UnitsStep(s.units, StoreStep(s, c).units, c[0], if |c| >= 2 then Some(|s.clauses|) else None)
  {
    if |c| == 1 {
      var u := s.units[Index(c[0])];
      if u.Some? {
        var b: bool := u.value;
        assert u == Some(b) && (b == Sign(c[0]) || b == !Sign(c[0]));
      }
    }
  }

  /** Flags stay obeyed when propagation, a backjump and the learnt literal follow. */
  lemma UnitsStayTrue(a: seq<Var>, b: seq<Var>, c: seq<Var>, units: seq<Option<bool>>, units': seq<Option<bool>>,
                      l: Lit, dl: nat, r: Option<nat>)
    requires UnitsTrue(a, units, |a|) && Extends(a, b) && KeepsFixed(b, c) && InRange(l, |c|) && IsFree(c, l)
    requires UnitsStep(units, units', l, r) && (r.None? ==> dl == 0)
    ensures UnitsTrue(SetLit(c, l, dl, r), units', |a|)
  {
    forall v | 0 <= v < |a| && units[v].Some? ensures c[v] == a[v] {
      assert a[v].isSet && b[v] == a[v];
    }
  }

  lemma UnitsTrueExtends(a: seq<Var>, b: seq<Var>, units: seq<Option<bool>>, k: nat)
    requires UnitsTrue(a, units, k) && Extends(a, b)
    ensures UnitsTrue(b, units, k)
  {
  }

  /** Asserting the unit of variable `v` at level 0 and propagating. */
  lemma UnitsTrueNext(a: seq<Var>, b: seq<Var>, units: seq<Option<bool>>, v: nat, l: Lit)
    requires UnitsTrue(a, units, v) && v < |a| && InRange(l, |a|) && Index(l) == v && units[v] == Some(Sign(l))
    requires Extends(SetLit(a, l, 0, None), b)
    ensures UnitsTrue(b, units, v + 1)
  {
    var a' := SetLit(a, l, 0, None);
    assert b[v] == a'[v];
    forall u | 0 <= u < v && units[u].Some? ensures b[u] == a[u] {
      assert a'[u].isSet;
    }
  }

  /** A propagated state in which the search takes its next decision, at a level above all others. */
  ghost predicate Ready(f: Cnf, s: State) {
    && Queue(f, s, |s.trail|) && s.dlevel > 0
    && (forall i :: 0 <= i < |s.trail| ==> Level(s.vars, s.trail[i]) < s.dlevel)
    && UnitsTrue(s.vars, s.units, |s.vars|)
    && Covered(f, s.csets, s.units)
    && |s.units| > 0 && s.units[0] == Some(false)
  }

  ghost predicate Covered(f: Cnf, csets: seq<set<Lit>>, units: seq<Option<bool>>) {
    forall c :: c in f ==> c in csets || IsUnitOf(units, c)
  }

  lemma CoveredKept(f: Cnf, csets: seq<set<Lit>>, units: seq<Option<bool>>, csets': seq<set<Lit>>,
                    units': seq<Option<bool>>)
    requires Covered(f, csets, units) && Kept(csets, units, csets', units')
    ensures Covered(f, csets', units')
  {
    forall c | c in f && c !in csets' ensures IsUnitOf(units', c) {
      assert c !in SetOf(csets);
      var v :| 0 <= v < |units| && units[v].Some? && c == {UnitLit(units, v)};
      assert UnitLit(units', v) == UnitLit(units, v);
    }
  }

  lemma RaiseLevel(f: Cnf, s: State, e: nat)
    requires Queue(f, s, |s.trail|) && e > s.dlevel
    ensures Queue(f, s.(dlevel := e), |s.trail|)
    ensures forall i :: 0 <= i < |s.trail| ==> InRange(s.trail[i], |s.vars|) && Level(s.vars, s.trail[i]) < e
  {
    hide WatchListsOk, WatchesGuard, ReasonsOk;
  }

  /** The input is satisfied by the assignment `a`, read as an interpretation. */
  ghost function AsInterp(a: seq<Var>): Interp {
    iset v | 0 <= v < |a| && a[v].isSet && !a[v].sign
  }

  /** Every clause has a true literal or two free watches: none is false and none is unit. */
  ghost predicate NothingMissed(a: seq<Var>, cls: seq<Clause>)
    requires ClausesOk(|a|, cls)
  {
    forall c :: 0 <= c < |cls| ==>
      IsTrue(a, cls[c][0]) || IsTrue(a, cls[c][1]) || (IsFree(a, cls[c][0]) && IsFree(a, cls[c][1]))
  }

  lemma ReadyMissesNothing(f: Cnf, s: State)
    requires Ready(f, s)
    ensures ClausesOk(|s.vars|, s.clauses) && NothingMissed(s.vars, s.clauses)
  {
    forall c | 0 <= c < |s.clauses|
      ensures var d := s.clauses[c];
              IsTrue(s.vars, d[0]) || IsTrue(s.vars, d[1]) || (IsFree(s.vars, d[0]) && IsFree(s.vars, d[1]))
    {
      assert ClauseGuarded(s.vars, s.tpos, s.clauses[c], |s.trail|);
    }
  }

  lemma UnitHolds(a: seq<Var>, units: seq<Option<bool>>, c: set<Lit>)
    requires UnitsTrue(a, units, |a|) && IsUnitOf(units, c)
    ensures SatClause(AsInterp(a), c)
  {
    var v :| 0 <= v < |units| && units[v].Some? && c == {UnitLit(units, v)};
    assert Holds(AsInterp(a), UnitLit(units, v));
  }

  lemma ReadyCsets(f: Cnf, s: State)
    requires Ready(f, s)
    ensures |s.csets| == |s.clauses| && ClausesOk(|s.vars|, s.clauses)
    ensures forall c :: 0 <= c < |s.csets| ==> s.csets[c] == LitSet(s.clauses[c])
  {
  }

  /** `c` has a true literal. */
  ghost predicate HasTrue(a: seq<Var>, c: Clause)
    requires forall k :: 0 <= k < |c| ==> InRange(c[k], |a|)
  {
    exists k :: 0 <= k < |c| && IsTrue(a, c[k])
  }

  /** Every clause watching `l` has a true literal. */
  ghost predicate Settled(f: Cnf, s: State, l: Lit)
    requires Inv(f, s) && InRange(l, |s.vars|)
  {
    forall i :: 0 <= i < |s.watches[l]| ==> HasTrue(s.vars, s.clauses[s.watches[l][i]])
  }

  /** Variable `v` is set, or there is no clause left for which a decision on it would matter. */
  ghost predicate Indifferent(f: Cnf, s: State, v: nat)
    requires Inv(f, s) && v < |s.vars|
  {
    s.vars[v].isSet || (Settled(f, s, v + 1) && Settled(f, s, -(v + 1)))
  }

  /** If no decision matters, the assignment, free variables being false, is a model of the input. */
  lemma ReadyModel(f: Cnf, s: State)
    requires Ready(f, s) && Inv(f, s) && forall v :: 0 <= v < |s.vars| ==> Indifferent(f, s, v)
    ensures Models(AsInterp(s.vars), f)
  {
    hide Queue, WatchesGuard, Waiting, NothingMissed, Inv, Indifferent;
    ReadyMissesNothing(f, s);
    ReadyCsets(f, s);
    forall c | c in f ensures SatClause(AsInterp(s.vars), c) {
      if c in s.csets {
        var k :| 0 <= k < |s.csets| && s.csets[k] == c;
        WatchHolds(f, s, k);
      } else {
        UnitHolds(s.vars, s.units, c);
      }
    }
  }

  /** A clause has a true watch, or a free one, all of whose clauses have a true literal. */
  lemma WatchHolds(f: Cnf, s: State, k: nat)
    requires Inv(f, s) && k < |s.clauses| && ClausesOk(|s.vars|, s.clauses) && NothingMissed(s.vars, s.clauses)
    requires forall v :: 0 <= v < |s.vars| ==> Indifferent(f, s, v)
    ensures SatClause(AsInterp(s.vars), LitSet(s.clauses[k]))
  {
    hide Inv, NothingMissed, Indifferent, Settled;
    var d := s.clauses[k];
    TrueHolds(s.vars, d);
    WatchTrueOrFree(s.vars, s.clauses, k);
    if IsFree(s.vars, d[0]) {
      FreeSettled(f, s, d[0]);
      SettledHasTrue(f, s, k);
    }
  }

  lemma WatchTrueOrFree(a: seq<Var>, cls: seq<Clause>, k: nat)
    requires ClausesOk(|a|, cls) && NothingMissed(a, cls) && k < |cls|
    ensures HasTrue(a, cls[k]) || IsFree(a, cls[k][0])
  {
  }

  lemma FreeSettled(f: Cnf, s: State, l: Lit)
    requires Inv(f, s) && InRange(l, |s.vars|) && IsFree(s.vars, l) && Indifferent(f, s, Index(l))
    ensures Settled(f, s, l)
  {
    hide Inv, Settled;
  }

  lemma SettledHasTrue(f: Cnf, s: State, k: nat)
    requires Inv(f, s) && k < |s.clauses| && ClauseOk(|s.vars|, s.clauses[k]) && Settled(f, s, s.clauses[k][0])
    ensures HasTrue(s.vars, s.clauses[k])
  {
    var x := s.clauses[k][0];
    var i :| 0 <= i < |s.watches[x]| && s.watches[x][i] == k;
    assert HasTrue(s.vars, s.clauses[s.watches[x][i]]);
  }

  lemma TrueHolds(a: seq<Var>, c: Clause)
    requires ClauseOk(|a|, c)
    ensures HasTrue(a, c) ==> SatClause(AsInterp(a), LitSet(c))
  {
    if HasTrue(a, c) {
      var k :| 0 <= k < |c| && IsTrue(a, c[k]);
      assert c[k] in LitSet(c) && Holds(AsInterp(a), c[k]);
    }
  }

  lemma KeptSame(csets: seq<set<Lit>>, units: seq<Option<bool>>)
    ensures Kept(csets, units, csets, units)
  {
  }

  lemma UnitsTrueSet(a: seq<Var>, units: seq<Option<bool>>, l: Lit, dl: nat)
    requires UnitsTrue(a, units, |a|) && InRange(l, |a|) && IsFree(a, l)
    ensures UnitsTrue(SetLit(a, l, dl, None), units, |a|)
  {
  }

  lemma ExtendsLength(a: seq<Var>, b: seq<Var>)
    requires Extends(a, b)
    ensures |a| == |b|
  {
  }

  lemma DrainKeeps(c0: seq<set<Lit>>, a0: seq<Var>, c1: seq<set<Lit>>, u1: seq<Option<bool>>, a1: seq<Var>,
                   a2: seq<Var>)
    requires Grown(c0, a0, c1, a1) && Extends(a1, a2)
    ensures Grown(c0, a0, c1, a2) && |a2| == |a1|
    ensures Advanced(c0, a0, c1, a1) ==> Advanced(c0, a0, c1, a2)
    ensures UnitsTrue(a1, u1, |a1|) ==> UnitsTrue(a2, u1, |a2|)
  {
    hide Advanced, Unstored, Unfixed, UnitsTrue;
    ExtendsGrows(c1, a1, a2);
    GrownTransitive(c0, a0, c1, a1, c1, a2);
    if Advanced(c0, a0, c1, a1) {
      GrownAfterAdvanced(c0, a0, c1, a1, c1, a2);
    }
    if UnitsTrue(a1, u1, |a1|) {
      UnitsTrueExtends(a1, a2, u1, |a1|);
    }
  }

  lemma AdvancedMeasure(c0: seq<set<Lit>>, a0: seq<Var>, c1: seq<set<Lit>>, a1: seq<Var>)
    requires Advanced(c0, a0, c1, a1)
    ensures |a0| == |a1|
    ensures Unstored(c1, |a1|) < Unstored(c0, |a0|)
            || (Unstored(c1, |a1|) == Unstored(c0, |a0|) && Unfixed(a1) < Unfixed(a0))
  {
  }

  lemma CutFacts(s: State, t: nat, b: nat)
    requires TrailOk(s.vars, s.trail, s.tpos, s.dlevel) && Cut(s, t, b)
    ensures t <= |s.trail|
  {
  }

  lemma ReadyFacts(f: Cnf, s: State)
    requires Ready(f, s)
    ensures Inv(f, s) && Queue(f, s, |s.trail|) && s.dlevel > 0 && |s.tpos| == |s.vars|
    ensures forall i :: 0 <= i < |s.trail| ==> InRange(s.trail[i], |s.vars|) && Level(s.vars, s.trail[i]) < s.dlevel
    ensures UnitsTrue(s.vars, s.units, |s.vars|)
  {
  }

  lemma EmptyBlank(f: Cnf, s: State)
    requires Blank(f, s) && s.empty
    ensures Unsat(f)
  {
    EmptyIsUnsat(f);
  }

  lemma StartFacts(f: Cnf, s: State)
    requires Blank(f, s)
    ensures |s.units| == |s.vars| && UnitsTrue(s.vars, s.units, 0) && Queue(f, s, |s.trail|) && s.dlevel == 0
    ensures !s.empty ==> Covered(f, s.csets, s.units)
  {
    BlankIsQueue(f, s);
  }

  lemma UnitFacts(f: Cnf, s: State)
    requires Queue(f, s, |s.trail|)
    ensures |s.units| == |s.vars|
    ensures forall v :: 0 <= v < |s.units| && s.units[v].Some? ==>
              Entails(f, {UnitLit(s.units, v)}) && (s.units[v] == Some(false) || s.units[v] == Some(true))
  {
    forall v | 0 <= v < |s.units| && s.units[v].Some? ensures s.units[v] == Some(false) || s.units[v] == Some(true) {
      var b: bool := s.units[v].value;
      assert s.units[v] == Some(b) && (b == false || b == true);
    }
  }

  lemma UnitsTrueLess(a: seq<Var>, units: seq<Option<bool>>, k: nat)
    requires UnitsTrue(a, units, k + 1)
    ensures UnitsTrue(a, units, k)
  {
  }

  lemma UnitsTrueSkip(a: seq<Var>, units: seq<Option<bool>>, k: nat)
    requires UnitsTrue(a, units, k) && k < |a| && units[k].None?
    ensures UnitsTrue(a, units, k + 1)
  {
  }

  lemma FirstReady(f: Cnf, s: State)
    requires Queue(f, s, |s.trail|) && s.dlevel == 0 && UnitsTrue(s.vars, s.units, |s.vars|)
             && Covered(f, s.csets, s.units)
    requires |s.units| > 0 && s.units[0] == Some(false)
    ensures Ready(f, s.(dlevel := 1))
  {
    hide Inv, UnitsTrue, Covered;
    RaiseLevel(f, s, 1);
  }

  lemma RestartFacts(f: Cnf, s: State)
    requires Ready(f, s)
    ensures |s.tpos| == |s.vars| && TrailOk(s.vars, s.trail, s.tpos, s.dlevel)
    ensures Undone(s.vars, s.tpos, |s.trail| - 1, s.vars) && s.trail != []
  {
    NothingUndone(s);
    assert s.vars[0].isSet;
  }

  /** A restart keeps what is fixed at level 0, the variable asserted true among it. */
  lemma RestartKeeps(f: Cnf, s: State, t: nat, a: seq<Var>)
    requires Ready(f, s) && TrailOk(s.vars, s.trail, s.tpos, s.dlevel)
    requires Cut(s, t, 0) && Undone(s.vars, s.tpos, t - 1, a)
    ensures t <= |s.trail| && Ready(f, UnwindStep(s, t, 1, a)) && t > 0
    ensures |a| == |s.vars| && Unfixed(a) == Unfixed(s.vars)
  {
    hide Inv, Strong, WatchesGuard, Covered, Waiting, UnitsRecorded, Unfixed, TrailOk;
    UnwindKeeps(f, s, |s.trail|, t, 0, 1, a);
    UnwindKeepsFixed(s, t, 0, a);
    UnwindKeepsTrail(s, t, 0, 1, a);
    TrailShape(s.vars, s.trail, s.tpos, s.dlevel);
    assert s.units[0].Some? && s.vars[0].isSet && s.vars[0].dlevel == 0;
    KeptBelow(s, t, 0, a, 0);
    SameUnfixed(s, t, a);
    forall v | 0 <= v < |a| && s.units[v].Some? ensures a[v] == s.vars[v] {}
  }

  lemma SameUnfixed(s: State, t: nat, a: seq<Var>)
    requires TrailOk(s.vars, s.trail, s.tpos, s.dlevel) && Cut(s, t, 0) && Undone(s.vars, s.tpos, t - 1, a)
    ensures Unfixed(a) == Unfixed(s.vars)
  {
    hide TrailOk, Cut;
    forall v: nat | v < |a| ensures v in Unfixed(a) <==> v in Unfixed(s.vars) {
      if s.vars[v].isSet { KeptBelow(s, t, 0, a, v); }
    }
  }

  /** After a decision is propagated the next level is opened, with progress over state `s`. */
  lemma DecideKeeps(f: Cnf, s: State, s': State, l: Lit, quiet: bool)
    requires Ready(f, s) && Queue(f, s', |s'.trail|) && InRange(l, |s.vars|) && IsFree(s.vars, l)
    requires Kept(s.csets, s.units, s'.csets, s'.units) && |s.vars| == |s'.vars|
    requires UnitsTrue(s.vars, s.units, |s.vars|) ==> UnitsTrue(s'.vars, s'.units, |s'.vars|)
    requires if quiet then s'.csets == s.csets && Extends(SetLit(s.vars, l, s.dlevel, None), s'.vars)
             else Advanced(s.csets, s.vars, s'.csets, s'.vars)
    requires Grown(s.csets, s.vars, s'.csets, s'.vars)
    ensures Ready(f, s'.(dlevel := s'.dlevel + 1))
    ensures !quiet ==> Unstored(s'.csets, |s'.vars|) < Unstored(s.csets, |s.vars|)
                       || (Unstored(s'.csets, |s'.vars|) == Unstored(s.csets, |s.vars|)
                           && Unfixed(s'.vars) < Unfixed(s.vars))
    ensures quiet ==>
          Unstored(s'.csets, |s'.vars|) == Unstored(s.csets, |s.vars|) && Unfixed(s'.vars) <= Unfixed(s.vars)
                      && FreeVars(s'.vars) < FreeVars(s.vars)
  {
    hide Inv, UnitsTrue, Covered, Unstored, Unfixed;
    RaiseLevel(f, s', s'.dlevel + 1);
    CoveredKept(f, s.csets, s.units, s'.csets, s'.units);
    if quiet {
      FreeShrinks(s.vars, s'.vars, l, s.dlevel);
    }
  }

  lemma FreeShrinks(a: seq<Var>, b: seq<Var>, l: Lit, dl: nat)
    requires InRange(l, |a|) && IsFree(a, l) && Extends(SetLit(a, l, dl, None), b)
    ensures FreeVars(b) < FreeVars(a)
  {
    var a' := SetLit(a, l, dl, None);
    assert |b| == |a|;
    forall v | 0 <= v < |a| && a[v].isSet ensures b[v].isSet {
      assert a'[v].isSet;
    }
    assert b[Index(l)] == a'[Index(l)];
    assert Index(l) in FreeVars(a) && Index(l) !in FreeVars(b);
  }

  lemma ScoreFacts(f: Cnf, s: State, l: Lit)
    requires Inv(f, s) && InRange(l, |s.vars|)
    ensures l in s.watches
    ensures forall i :: 0 <= i < |s.watches[l]| ==>
          s.watches[l][i] < |s.clauses| && ClauseOk(|s.vars|, s.clauses[s.watches[l][i]])
  {
  }

  lemma ReadyInv(f: Cnf, s: State)
    requires Ready(f, s)
    ensures Inv(f, s)
  {
  }
}
