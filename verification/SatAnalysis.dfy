/**
 Conflict analysis: what the marks stand for, why the learnt clause follows from the input, and
 what unwinding and asserting it do to the engine's invariant.
 */
module SatAnalysis {
  import opened Wrappers
  import opened SatLogic
  import opened SatInvariant
  import opened SatPropagation
  import opened SatSteps

  /** `l` is the false literal of a marked variable. */
  ghost predicate IsMarked(a: seq<Var>, mark: seq<bool>, l: Lit)
    requires |mark| == |a|
  {
    InRange(l, |a|) && mark[Index(l)] && a[Index(l)].sign == !Sign(l)
  }

  /** The clause under construction: the false literals of the marked variables. */
  ghost function MarkedLits(a: seq<Var>, mark: seq<bool>): set<Lit>
    requires |mark| == |a|
  {
    set l | l in Literals(|a|) && IsMarked(a, mark, l)
  }

  /** Marked variables of the conflict level, still to be resolved away but for one. */
  ghost function Current(a: seq<Var>, dl: nat, mark: seq<bool>): set<nat>
    requires |mark| == |a|
  {
    set v: nat | v < |a| && mark[v] && a[v].dlevel == dl
  }

  /** The marks, the list of earlier-level conflict literals and the count describe one clause. */
  ghost predicate Marks(a: seq<Var>, dl: nat, mark: seq<bool>, conflicts: seq<Lit>, count: nat) {
    && |mark| == |a|
    && (forall v :: 0 <= v < |a| && mark[v] ==> a[v].isSet && 1 <= a[v].dlevel <= dl)
    && Distinct(conflicts)
    && (forall i :: 0 <= i < |conflicts| ==> IsMarked(a, mark, conflicts[i]) && Level(a, conflicts[i]) < dl)
    && (forall v :: 0 <= v < |a| && mark[v] && a[v].dlevel < dl ==> -TrueLit(a, v) in conflicts)
    && count == |Current(a, dl, mark)|
  }

  /** `a` is `a0` with everything set after trail position `t` unset. */
  ghost predicate Undone(a0: seq<Var>, tpos: seq<nat>, t: int, a: seq<Var>)
    requires |tpos| == |a0|
  {
    && |a| == |a0|
    && forall v :: 0 <= v < |a| ==>
         a[v] == if a0[v].isSet && tpos[v] > t then a0[v].(isSet := false) else a0[v]
  }

  lemma MarkEarlier(a: seq<Var>, dl: nat, mark: seq<bool>, conflicts: seq<Lit>, count: nat, l: Lit)
    requires Marks(a, dl, mark, conflicts, count)
    requires InRange(l, |a|) && IsFalse(a, l) && 1 <= Level(a, l) < dl && !mark[Index(l)]
    ensures Marks(a, dl, mark[Index(l) := true], conflicts + [l], count)
  {
    var mark', conflicts' := mark[Index(l) := true], conflicts + [l];
    assert Current(a, dl, mark') == Current(a, dl, mark);
    MarkEarlierLists(a, dl, mark, conflicts, l);
    forall v | 0 <= v < |a| && mark'[v] && a[v].dlevel < dl ensures -TrueLit(a, v) in conflicts' {
      if v == Index(l) {
        assert conflicts'[|conflicts|] == l == -TrueLit(a, v);
      }
    }
  }

  lemma MarkEarlierLists(a: seq<Var>, dl: nat, mark: seq<bool>, conflicts: seq<Lit>, l: Lit)
    requires |mark| == |a| && Distinct(conflicts)
    requires forall i :: 0 <= i < |conflicts| ==> IsMarked(a, mark, conflicts[i]) && Level(a, conflicts[i]) < dl
    requires InRange(l, |a|) && IsFalse(a, l) && Level(a, l) < dl && !mark[Index(l)]
    ensures var mark', conflicts' := mark[Index(l) := true], conflicts + [l];
            Distinct(conflicts')
            && forall i :: 0 <= i < |conflicts'| ==> IsMarked(a, mark', conflicts'[i]) && Level(a, conflicts'[i]) < dl
  {
    var mark', conflicts' := mark[Index(l) := true], conflicts + [l];
    forall i | 0 <= i < |conflicts'| ensures IsMarked(a, mark', conflicts'[i]) && Level(a, conflicts'[i]) < dl {
      if i < |conflicts| { assert IsMarked(a, mark, conflicts[i]); }
    }
    forall i | 0 <= i < |conflicts| ensures conflicts[i] != l {
      assert IsMarked(a, mark, conflicts[i]);
    }
  }

  lemma MarkCurrent(a: seq<Var>, dl: nat, mark: seq<bool>, conflicts: seq<Lit>, count: nat, l: Lit)
    requires Marks(a, dl, mark, conflicts, count)
    requires InRange(l, |a|) && IsFalse(a, l) && 1 <= Level(a, l) == dl && !mark[Index(l)]
    ensures Marks(a, dl, mark[Index(l) := true], conflicts, count + 1)
  {
    assert Current(a, dl, mark[Index(l) := true]) == Current(a, dl, mark) + {Index(l)};
  }

  lemma UnmarkCurrent(a: seq<Var>, dl: nat, mark: seq<bool>, conflicts: seq<Lit>, count: nat, v: nat)
    requires Marks(a, dl, mark, conflicts, count)
    requires v < |a| && mark[v] && a[v].dlevel == dl
    ensures count > 0 && Marks(a, dl, mark[v := false], conflicts, count - 1)
  {
    assert v in Current(a, dl, mark);
    assert Current(a, dl, mark[v := false]) == Current(a, dl, mark) - {v};
    forall i | 0 <= i < |conflicts| ensures IsMarked(a, mark[v := false], conflicts[i]) {
      assert IsMarked(a, mark, conflicts[i]);
    }
  }

  /** With every literal of the false clause `c` above level 0 marked, the marked clause is entailed. */
  lemma MarkedFromConflict(f: Cnf, s: State, c: nat, mark: seq<bool>)
    requires Inv(f, s) && c < |s.clauses| && AllFalse(s.vars, s.clauses[c]) && |mark| == |s.vars|
    requires forall k :: 0 <= k < |s.clauses[c]| ==> Level(s.vars, s.clauses[c][k]) == 0 || mark[Index(s.clauses[c][k])]
    ensures Entails(f, MarkedLits(s.vars, mark))
  {
    hide LevelsRise;
    var r := MarkedLits(s.vars, mark);
    forall l | l in s.csets[c] ensures l in r || (l != NIL && Entails(f, {-l})) {
      var k :| 0 <= k < |s.clauses[c]| && s.clauses[c][k] == l;
      if Level(s.vars, l) == 0 {
        ZeroLevelFalse(f, s.vars, s.trail, s.tpos, s.dlevel, l);
      } else {
        assert IsMarked(s.vars, mark, l);
      }
    }
    DropFalse(f, s.csets[c], r);
  }

  /** Resolving the marked clause with the reason `r` of a marked variable `v`. */
  lemma MarkedFromReason(f: Cnf, s: State, v: nat, r: nat, mark: seq<bool>, mark': seq<bool>)
    requires Inv(f, s) && |mark| == |mark'| == |s.vars| && v < |s.vars| && s.vars[v].isSet
    requires r < |s.clauses| && Forces(s.vars, s.tpos, s.clauses[r], v)
    requires Entails(f, MarkedLits(s.vars, mark))
    requires forall u :: 0 <= u < |mark| && u != v && mark[u] ==> mark'[u]
    requires forall k :: 1 <= k < |s.clauses[r]| ==>
          Level(s.vars, s.clauses[r][k]) == 0 || mark'[Index(s.clauses[r][k])]
    ensures Entails(f, MarkedLits(s.vars, mark'))
  {
    hide Inv, Entails, Forces, MarkedLits, LitSet;
    ClauseEntailed(f, s, r);
    var x, m, m' := TrueLit(s.vars, v), MarkedLits(s.vars, mark), MarkedLits(s.vars, mark');
    forall l | l in m ensures l == -x || l in m' {
      StillMarked(s.vars, mark, mark', v, l);
    }
    forall l | l in s.csets[r] ensures l == x || l in m' || (l != NIL && Entails(f, {-l})) {
      var k := MemberAt(s.clauses[r], l);
      ForcedFirst(s, r, v);
      if k > 0 {
        ReasonLiteral(f, s, v, r, k, mark');
      }
    }
    Resolve(f, m, s.csets[r], x, m');
  }

  lemma ClauseEntailed(f: Cnf, s: State, r: nat)
    requires Inv(f, s) && r < |s.clauses|
    ensures |s.csets| == |s.clauses| && |s.tpos| == |s.vars| && ClauseOk(|s.vars|, s.clauses[r])
    ensures s.csets[r] == LitSet(s.clauses[r]) && Entails(f, s.csets[r])
  {
    hide TrailOk, WatchListsOk, Entails, LitSet;
    TrailShape(s.vars, s.trail, s.tpos, s.dlevel);
  }

  lemma StillMarked(a: seq<Var>, mark: seq<bool>, mark': seq<bool>, v: nat, l: Lit)
    requires |mark| == |mark'| == |a| && v < |a| && l in MarkedLits(a, mark)
    requires forall u :: 0 <= u < |mark| && u != v && mark[u] ==> mark'[u]
    ensures l == -TrueLit(a, v) || l in MarkedLits(a, mark')
  {
    assert IsMarked(a, mark, l);
    if Index(l) != v {
      assert IsMarked(a, mark', l);
    }
  }

  lemma MemberAt(c: Clause, l: Lit) returns (k: nat)
    requires l in LitSet(c)
    ensures k < |c| && c[k] == l
  {
    k :| 0 <= k < |c| && c[k] == l;
  }

  lemma ForcedFirst(s: State, r: nat, v: nat)
    requires r < |s.clauses| && ClauseOk(|s.vars|, s.clauses[r]) && |s.tpos| == |s.vars| && v < |s.vars|
    requires Forces(s.vars, s.tpos, s.clauses[r], v)
    ensures s.clauses[r][0] == TrueLit(s.vars, v)
  {
  }

  /** A literal of the reason besides the implied one is false at level 0 or marked. */
  lemma ReasonLiteral(f: Cnf, s: State, v: nat, r: nat, k: nat, mark: seq<bool>)
    requires Inv(f, s) && |mark| == |s.vars| && v < |s.vars| && s.vars[v].isSet
    requires r < |s.clauses| && Forces(s.vars, s.tpos, s.clauses[r], v) && 1 <= k < |s.clauses[r]|
    requires Level(s.vars, s.clauses[r][k]) == 0 || mark[Index(s.clauses[r][k])]
    ensures var l := s.clauses[r][k]; l in MarkedLits(s.vars, mark) || (l != NIL && Entails(f, {-l}))
  {
    hide Inv, Entails;
    ClauseEntailed(f, s, r);
    var l := s.clauses[r][k];
    if Level(s.vars, l) == 0 {
      FalseAtZero(f, s, l);
    } else {
      assert IsMarked(s.vars, mark, l);
    }
  }

  lemma FalseAtZero(f: Cnf, s: State, l: Lit)
    requires Inv(f, s) && InRange(l, |s.vars|) && IsFalse(s.vars, l) && Level(s.vars, l) == 0
    ensures Entails(f, {-l})
  {
    hide TrailOk, Entails;
    TrailShape(s.vars, s.trail, s.tpos, s.dlevel);
    ZeroLevelFalse(f, s.vars, s.trail, s.tpos, s.dlevel, l);
  }

  /** The reason of `l` only has marked literals besides `-l`. */
  ghost predicate Redundant(a: seq<Var>, cls: seq<Clause>, mark: seq<bool>, l: Lit)
    requires InRange(l, |a|) && |mark| == |a| && ClausesOk(|a|, cls)
  {
    && a[Index(l)].reason.Some? && a[Index(l)].reason.value < |cls|
    && forall k :: 1 <= k < |cls[a[Index(l)].reason.value]| ==> mark[Index(cls[a[Index(l)].reason.value][k])]
  }

  /** Every conflict literal is kept in the clause `ng` or redundant. */
  ghost predicate Minimized(s: State, mark: seq<bool>, conflicts: seq<Lit>, ng: Clause)
    requires |mark| == |s.vars| && ClausesOk(|s.vars|, s.clauses)
    requires forall i :: 0 <= i < |conflicts| ==> InRange(conflicts[i], |s.vars|)
  {
    forall i :: 0 <= i < |conflicts| ==> conflicts[i] in ng || Redundant(s.vars, s.clauses, mark, conflicts[i])
  }

  /** In a model of the input that falsifies `ng`, every conflict literal is false. */
  lemma {:induction false} ConflictsFalse(f: Cnf, s: State, mark: seq<bool>, conflicts: seq<Lit>, ng: Clause,
                                          m: Interp, i: nat)
    requires Inv(f, s) && ReasonsOk(s.vars, s.tpos, s.clauses) && Marks(s.vars, s.dlevel, mark, conflicts, 0)
    requires Minimized(s, mark, conflicts, ng) && Models(m, f) && !SatClause(m, LitSet(ng))
    requires i < |conflicts|
    ensures !Holds(m, conflicts[i])
    decreases s.tpos[Index(conflicts[i])]
  {
    hide TrailOk, WatchListsOk;
    TrailShape(s.vars, s.trail, s.tpos, s.dlevel);
    var l := conflicts[i];
    if l in ng {
      assert l in LitSet(ng);
    } else {
      var v := Index(l);
      var r := s.vars[v].reason.value;
      assert IsMarked(s.vars, mark, l);
      assert Forces(s.vars, s.tpos, s.clauses[r], v);
      assert SatClause(m, s.csets[r]);
      var x :| x in s.csets[r] && Holds(m, x);
      var k :| 0 <= k < |s.clauses[r]| && s.clauses[r][k] == x;
      if k > 0 {
        assert Current(s.vars, s.dlevel, mark) == {};
        assert Index(x) !in Current(s.vars, s.dlevel, mark);
        assert x == -TrueLit(s.vars, Index(x)) && x in conflicts;
        var j :| 0 <= j < |conflicts| && conflicts[j] == x;
        ConflictsFalse(f, s, mark, conflicts, ng, m, j);
      } else {
        assert x == TrueLit(s.vars, v) == -l;
      }
    }
  }

  /** Dropping redundant literals keeps the clause entailed. */
  lemma MinimizedEntailed(f: Cnf, s: State, mark: seq<bool>, conflicts: seq<Lit>, ng: Clause)
    requires Inv(f, s) && ReasonsOk(s.vars, s.tpos, s.clauses) && Marks(s.vars, s.dlevel, mark, conflicts, 0)
    requires Minimized(s, mark, conflicts, ng) && |ng| > 0
    requires Entails(f, {ng[0]} + MarkedLits(s.vars, mark))
    ensures Entails(f, LitSet(ng))
  {
    hide Inv, ReasonsOk;
    forall m | Models(m, f) ensures SatClause(m, LitSet(ng)) {
      if !SatClause(m, LitSet(ng)) {
        assert SatClause(m, {ng[0]} + MarkedLits(s.vars, mark));
        var l :| l in {ng[0]} + MarkedLits(s.vars, mark) && Holds(m, l);
        assert ng[0] in LitSet(ng);
        assert IsMarked(s.vars, mark, l);
        assert Index(l) !in Current(s.vars, s.dlevel, mark);
        assert l == -TrueLit(s.vars, Index(l)) && l in conflicts;
        var i :| 0 <= i < |conflicts| && conflicts[i] == l;
        ConflictsFalse(f, s, mark, conflicts, ng, m, i);
      }
    }
  }

  lemma NoMarks(a: seq<Var>, dl: nat, mark: seq<bool>)
    requires |mark| == |a| && forall v :: 0 <= v < |mark| ==> !mark[v]
    ensures Marks(a, dl, mark, [], 0)
  {
    assert Current(a, dl, mark) == {};
  }

  /** Nothing marked at the conflict level stands after trail position `t`. */
  ghost predicate CurrentUpTo(s: State, mark: seq<bool>, t: int)
    requires |mark| == |s.vars| == |s.tpos|
  {
    forall v :: v in Current(s.vars, s.dlevel, mark) ==> s.tpos[v] <= t
  }

  /** While something is marked at the conflict level, the walk down the trail stays on that level. */
  lemma WalkStaysOnLevel(s: State, mark: seq<bool>, conflicts: seq<Lit>, count: nat, t: int)
    requires TrailOk(s.vars, s.trail, s.tpos, s.dlevel) && Consistent(s.vars, s.trail) && s.dlevel > 0
    requires Marks(s.vars, s.dlevel, mark, conflicts, count) && count > 0
    requires CurrentUpTo(s, mark, t) && t < |s.trail|
    ensures 0 <= t
    ensures var l := s.trail[t];
            IsTrue(s.vars, l) && Level(s.vars, l) == s.dlevel && s.tpos[Index(l)] == t && l == TrueLit(s.vars, Index(l))
  {
    hide TrailOk, Marks, Current;
    TrailShape(s.vars, s.trail, s.tpos, s.dlevel);
    var v := SomeCurrent(s.vars, s.dlevel, mark, conflicts, count);
    OnTrail(s.vars, s.trail, s.tpos, s.dlevel, v);
    TrailEntry(s.vars, s.trail, s.tpos, s.dlevel, t);
    TrailOrder(s.vars, s.trail, s.tpos, s.dlevel, s.tpos[v], t);
    OnTrail(s.vars, s.trail, s.tpos, s.dlevel, Index(s.trail[t]));
  }

  lemma SomeCurrent(a: seq<Var>, dl: nat, mark: seq<bool>, conflicts: seq<Lit>, count: nat) returns (v: nat)
    requires Marks(a, dl, mark, conflicts, count) && count > 0
    ensures v in Current(a, dl, mark) && v < |a| && a[v].isSet && a[v].dlevel == dl
  {
    v :| v in Current(a, dl, mark);
  }

  /** With more than one conflict-level literal marked, the last on the trail was not a decision. */
  lemma ReasonExists(s: State, mark: seq<bool>, conflicts: seq<Lit>, count: nat, t: nat)
    requires TrailOk(s.vars, s.trail, s.tpos, s.dlevel) && DecisionsFirst(s.vars, s.trail) && s.dlevel > 0
    requires Marks(s.vars, s.dlevel, mark, conflicts, count) && count > 0
    requires t < |s.trail| && Level(s.vars, s.trail[t]) == s.dlevel && CurrentUpTo(s, mark, t - 1)
    ensures s.vars[Index(s.trail[t])].reason.Some?
  {
    hide TrailOk, Marks, Current;
    TrailShape(s.vars, s.trail, s.tpos, s.dlevel);
    var v := SomeCurrent(s.vars, s.dlevel, mark, conflicts, count);
    OnTrail(s.vars, s.trail, s.tpos, s.dlevel, v);
    assert s.tpos[v] < t && Level(s.vars, s.trail[s.tpos[v]]) == s.dlevel;
  }

  /** Unmarking the last marked literal leaves the others before it. */
  lemma UnmarkKeepsUpTo(s: State, mark: seq<bool>, t: nat)
    requires TrailOk(s.vars, s.trail, s.tpos, s.dlevel) && |mark| == |s.vars|
    requires t < |s.trail| && s.tpos[Index(s.trail[t])] == t && CurrentUpTo(s, mark, t)
    requires forall v :: 0 <= v < |mark| && mark[v] ==> s.vars[v].isSet
    ensures CurrentUpTo(s, mark[Index(s.trail[t]) := false], t - 1)
  {
    hide TrailOk;
    TrailShape(s.vars, s.trail, s.tpos, s.dlevel);
    var mark' := mark[Index(s.trail[t]) := false];
    forall v | v in Current(s.vars, s.dlevel, mark') ensures s.tpos[v] <= t - 1 {
      assert v in Current(s.vars, s.dlevel, mark);
      OnTrail(s.vars, s.trail, s.tpos, s.dlevel, v);
    }
  }

  lemma UndoStep(s: State, t: nat, a: seq<Var>)
    requires TrailOk(s.vars, s.trail, s.tpos, s.dlevel) && Undone(s.vars, s.tpos, t, a)
    requires t < |s.trail| && s.tpos[Index(s.trail[t])] == t
    ensures Undone(s.vars, s.tpos, t - 1, a[Index(s.trail[t]) := a[Index(s.trail[t])].(isSet := false)])
  {
    hide LevelsRise;
    forall v | 0 <= v < |s.vars| && s.vars[v].isSet && s.tpos[v] == t ensures v == Index(s.trail[t]) {
      assert s.trail[t] == TrueLit(s.vars, v);
    }
  }

  lemma NothingUndone(s: State)
    requires TrailOk(s.vars, s.trail, s.tpos, s.dlevel)
    ensures Undone(s.vars, s.tpos, |s.trail| - 1, s.vars)
  {
  }

  lemma SkipKeepsUpTo(s: State, mark: seq<bool>, t: nat)
    requires TrailOk(s.vars, s.trail, s.tpos, s.dlevel) && |mark| == |s.vars|
    requires t < |s.trail| && !mark[Index(s.trail[t])] && CurrentUpTo(s, mark, t)
    requires forall v :: 0 <= v < |mark| && mark[v] ==> s.vars[v].isSet
    ensures CurrentUpTo(s, mark, t - 1)
  {
    hide TrailOk;
    TrailShape(s.vars, s.trail, s.tpos, s.dlevel);
    forall v | v in Current(s.vars, s.dlevel, mark) ensures s.tpos[v] <= t - 1 {
      OnTrail(s.vars, s.trail, s.tpos, s.dlevel, v);
    }
  }

  /** The walk down the trail from conflict state `s` has reached position `t`, the assignment being `a`. */
  ghost predicate Walking(f: Cnf, s: State, mark: seq<bool>, conflicts: seq<Lit>, count: nat, t: int, a: seq<Var>) {
    && Inv(f, s) && Strong(s.vars, s.trail, s.tpos, s.clauses) && s.dlevel > 0
    && Marks(s.vars, s.dlevel, mark, conflicts, count) && CurrentUpTo(s, mark, t)
    && -1 <= t < |s.trail| && Undone(s.vars, s.tpos, t, a)
  }

  lemma WalkingShape(f: Cnf, s: State, mark: seq<bool>, conflicts: seq<Lit>, count: nat, t: int, a: seq<Var>)
    requires Walking(f, s, mark, conflicts, count, t, a)
    ensures |mark| == |s.vars| == |a| == |s.tpos| && t < |s.trail|
    ensures count > 0 ==>
      && 0 <= t && InRange(s.trail[t], |s.vars|) && IsTrue(s.vars, s.trail[t]) && Level(s.vars, s.trail[t]) == s.dlevel
      && a[Index(s.trail[t])] == s.vars[Index(s.trail[t])]
  {
    hide Inv;
    TrailOf(f, s);
    hide ReasonsOk, DecisionsFirst, MarkedLits;
    if count > 0 {
      WalkStaysOnLevel(s, mark, conflicts, count, t);
    }
  }

  lemma TrailOf(f: Cnf, s: State)
    requires Inv(f, s)
    ensures TrailOk(s.vars, s.trail, s.tpos, s.dlevel) && ClausesOk(|s.vars|, s.clauses)
  {
  }

  lemma WalkSkips(f: Cnf, s: State, mark: seq<bool>, conflicts: seq<Lit>, count: nat, t: int, a: seq<Var>)
    requires Walking(f, s, mark, conflicts, count, t, a) && count > 0
    requires 0 <= t < |s.trail| && InRange(s.trail[t], |mark|) && |a| == |mark| && !mark[Index(s.trail[t])]
    ensures Walking(f, s, mark, conflicts, count, t - 1, a[Index(s.trail[t]) := a[Index(s.trail[t])].(isSet := false)])
  {
    hide ReasonsOk, DecisionsFirst, ClausesOk, Entailed, WatchListsOk;
    WalkStaysOnLevel(s, mark, conflicts, count, t);
    UndoStep(s, t, a);
    SkipKeepsUpTo(s, mark, t);
  }

  lemma WalkUnmarks(f: Cnf, s: State, mark: seq<bool>, conflicts: seq<Lit>, count: nat, t: int, a: seq<Var>)
    requires Walking(f, s, mark, conflicts, count, t, a) && count > 0
    requires 0 <= t < |s.trail| && InRange(s.trail[t], |mark|) && |a| == |mark| && mark[Index(s.trail[t])]
    ensures Walking(f, s, mark[Index(s.trail[t]) := false], conflicts, count - 1, t - 1,
                    a[Index(s.trail[t]) := a[Index(s.trail[t])].(isSet := false)])
    ensures count > 1 ==> s.vars[Index(s.trail[t])].reason.Some?
  {
    hide ReasonsOk, ClausesOk, Entailed, WatchListsOk;
    WalkStaysOnLevel(s, mark, conflicts, count, t);
    UndoStep(s, t, a);
    UnmarkKeepsUpTo(s, mark, t);
    UnmarkCurrent(s.vars, s.dlevel, mark, conflicts, count, Index(s.trail[t]));
    if count > 1 {
      ReasonExists(s, mark[Index(s.trail[t]) := false], conflicts, count - 1, t);
    }
  }

  lemma WalkMarks(f: Cnf, s: State, mark: seq<bool>, conflicts: seq<Lit>, count: nat, t: int, a: seq<Var>,
                  l: Lit, conflicts': seq<Lit>, count': nat)
    requires Walking(f, s, mark, conflicts, count, t, a)
    requires InRange(l, |mark|) && s.tpos[Index(l)] <= t
    requires Marks(s.vars, s.dlevel, mark[Index(l) := true], conflicts', count')
    ensures Walking(f, s, mark[Index(l) := true], conflicts', count', t, a)
  {
    hide Inv, Strong, LevelsRise;
    WalkingShape(f, s, mark, conflicts, count, t, a);
    forall v | v in Current(s.vars, s.dlevel, mark[Index(l) := true]) ensures s.tpos[v] <= t {
      assert v != Index(l) ==> v in Current(s.vars, s.dlevel, mark);
    }
  }

  /** What resolving with the reason of the literal at `t + 1` needs to know of that reason. */
  lemma WalkReason(f: Cnf, s: State, mark: seq<bool>, conflicts: seq<Lit>, count: nat, t: int, a: seq<Var>)
    requires Walking(f, s, mark, conflicts, count, t, a) && t + 1 < |s.trail|
    requires InRange(s.trail[t + 1], |s.vars|) && s.vars[Index(s.trail[t + 1])].reason.Some?
    requires Level(s.vars, s.trail[t + 1]) == s.dlevel
    ensures var v := Index(s.trail[t + 1]);
            var r := s.vars[v].reason.value;
            && r < |s.clauses| && ClauseOk(|s.vars|, s.clauses[r]) && |s.tpos| == |s.vars|
            && Forces(s.vars, s.tpos, s.clauses[r], v)
            && s.vars[v].isSet
            && forall k :: 1 <= k < |s.clauses[r]| ==> s.tpos[Index(s.clauses[r][k])] <= t
  {
    hide Marks, CurrentUpTo, Undone, Entailed, WatchListsOk, DecisionsFirst, LevelsRise;
    var v := Index(s.trail[t + 1]);
    assert IsTrue(s.vars, s.trail[t + 1]);
    assert s.tpos[v] == t + 1;
    assert Forces(s.vars, s.tpos, s.clauses[s.vars[v].reason.value], v);
  }

  lemma WalkingFacts(f: Cnf, s: State, mark: seq<bool>, conflicts: seq<Lit>, count: nat, t: int, a: seq<Var>)
    requires Walking(f, s, mark, conflicts, count, t, a)
    ensures |mark| == |s.vars| == |a| == |s.tpos|
    ensures Inv(f, s) && Marks(s.vars, s.dlevel, mark, conflicts, count)
    ensures forall v :: 0 <= v < |a| ==> a[v].dlevel == s.vars[v].dlevel && a[v].reason == s.vars[v].reason
    ensures forall v :: 0 <= v < |a| && s.vars[v].isSet ==> s.vars[v].dlevel <= s.dlevel
  {
    hide Inv, Marks, CurrentUpTo, Strong;
    WalkingShape(f, s, mark, conflicts, count, t, a);
    SetLevels(f, s);
  }

  lemma SetLevels(f: Cnf, s: State)
    requires Inv(f, s)
    ensures forall v :: 0 <= v < |s.vars| && s.vars[v].isSet ==> s.vars[v].dlevel <= s.dlevel
  {
    hide Entailed, WatchListsOk, ClausesOk, TrailOk;
    forall v | 0 <= v < |s.vars| && s.vars[v].isSet ensures s.vars[v].dlevel <= s.dlevel {
      OnTrail(s.vars, s.trail, s.tpos, s.dlevel, v);
    }
  }

  /** Unmarking the last conflict-level literal splits the clause into that literal and the rest. */
  lemma UipEntailed(f: Cnf, s: State, mark: seq<bool>, uip: Lit)
    requires |mark| == |s.vars| && InRange(uip, |mark|) && IsTrue(s.vars, uip)
    requires Entails(f, MarkedLits(s.vars, mark))
    ensures Entails(f, {-uip} + MarkedLits(s.vars, mark[Index(uip) := false]))
  {
    var m, m' := MarkedLits(s.vars, mark), MarkedLits(s.vars, mark[Index(uip) := false]);
    forall l | l in m ensures l in {-uip} + m' {
      assert IsMarked(s.vars, mark, l);
      assert Index(l) != Index(uip) ==> IsMarked(s.vars, mark[Index(uip) := false], l);
    }
    DropFalse(f, m, {-uip} + m');
  }

  lemma ResolvedEntailed(f: Cnf, s: State, mark: seq<bool>, mark': seq<bool>, conflicts: seq<Lit>, count: nat, t: int,
                         a: seq<Var>, r: nat)
    requires Walking(f, s, mark', conflicts, count, t, a) && -1 <= t && t + 1 < |s.trail|
    requires |mark| == |mark'| == |s.vars| && Entails(f, MarkedLits(s.vars, mark))
    requires InRange(s.trail[t + 1], |s.vars|) && Level(s.vars, s.trail[t + 1]) == s.dlevel
    requires s.vars[Index(s.trail[t + 1])].reason == Some(r) && r < |s.clauses|
    requires forall u :: 0 <= u < |mark| && u != Index(s.trail[t + 1]) && mark[u] ==> mark'[u]
    requires forall k :: 1 <= k < |s.clauses[r]| ==>
               && InRange(s.clauses[r][k], |s.vars|)
               && (Level(s.vars, s.clauses[r][k]) == 0 || mark'[Index(s.clauses[r][k])])
    ensures Entails(f, MarkedLits(s.vars, mark'))
  {
    hide Walking, Entails, MarkedLits, Inv;
    WalkReason(f, s, mark', conflicts, count, t, a);
    WalkingFacts(f, s, mark', conflicts, count, t, a);
    MarkedFromReason(f, s, Index(s.trail[t + 1]), r, mark, mark');
  }

  ghost predicate InPrefix(s: seq<Lit>, i: nat, l: Lit)
    requires i <= |s|
  {
    exists j :: 0 <= j < i && s[j] == l
  }

  /** `ng` is the negated `uip` and some of the first `i` conflicts; its second literal has their highest level. */
  ghost predicate Nogood(a: seq<Var>, uip: Lit, conflicts: seq<Lit>, i: nat, ng: Clause, blevel: nat)
    requires i <= |conflicts|
  {
    && |ng| >= 1 && ng[0] == -uip && Distinct(ng)
    && (forall k :: 1 <= k < |ng| ==> InPrefix(conflicts, i, ng[k]) && InRange(ng[k], |a|) && Level(a, ng[k]) <= blevel)
    && (|ng| == 1 ==> blevel == 0)
    && (|ng| >= 2 ==> Level(a, ng[1]) == blevel > 0)
  }

  /** One more conflict literal appended, and exchanged with the second if its level is higher. */
  function Extend(ng: Clause, l: Lit, higher: bool): Clause
    requires |ng| >= 1
  {
    if higher then Swap(ng + [l], 1, |ng|) else ng + [l]
  }

  lemma ExtendNogood(a: seq<Var>, uip: Lit, conflicts: seq<Lit>, i: nat, ng: Clause, blevel: nat)
    requires i < |conflicts| && Nogood(a, uip, conflicts, i, ng, blevel)
    requires Distinct(conflicts) && InRange(conflicts[i], |a|) && Level(a, conflicts[i]) > 0 && conflicts[i] != -uip
    ensures var level := Level(a, conflicts[i]);
            Nogood(a, uip, conflicts, i + 1, Extend(ng, conflicts[i], blevel < level),
                   if blevel < level then level else blevel)
    ensures conflicts[i] in Extend(ng, conflicts[i], blevel < Level(a, conflicts[i]))
    ensures forall l :: l in ng ==> l in Extend(ng, conflicts[i], blevel < Level(a, conflicts[i]))
  {
    var l := conflicts[i];
    var level := Level(a, l);
    var ng', b' := Extend(ng, l, blevel < level), if blevel < level then level else blevel;
    assert forall k :: 1 <= k < |ng| ==> InPrefix(conflicts, i, ng[k]);
    forall k | 1 <= k < |ng'|
      ensures InPrefix(conflicts, i + 1, ng'[k]) && InRange(ng'[k], |a|) && Level(a, ng'[k]) <= b'
    {
      var k0 := if blevel < level then (if k == 1 then |ng| else if k == |ng| then 1 else k) else k;
      assert ng'[k] == (ng + [l])[k0];
      if k0 < |ng| {
        assert InPrefix(conflicts, i, ng[k0]);
      }
    }
    forall x | x in ng + [l] ensures x in ng' {
      var k :| 0 <= k < |ng + [l]| && (ng + [l])[k] == x;
      assert ng'[if blevel < level then (if k == 1 then |ng| else if k == |ng| then 1 else k) else k] == x;
    }
    assert forall x :: x in ng ==> x in ng + [l];
    assert l in ng + [l] by { assert (ng + [l])[|ng|] == l; }
  }

  lemma NogoodStart(a: seq<Var>, uip: Lit, conflicts: seq<Lit>)
    ensures Nogood(a, uip, conflicts, 0, [-uip], 0)
  {
  }

  lemma NogoodSkip(a: seq<Var>, uip: Lit, conflicts: seq<Lit>, i: nat, ng: Clause, blevel: nat)
    requires i < |conflicts| && Nogood(a, uip, conflicts, i, ng, blevel)
    ensures Nogood(a, uip, conflicts, i + 1, ng, blevel) && |ng| >= 1
  {
    forall k | 1 <= k < |ng| ensures InPrefix(conflicts, i + 1, ng[k]) {
      assert InPrefix(conflicts, i, ng[k]);
    }
  }

  lemma ConflictFacts(f: Cnf, s: State, mark: seq<bool>, conflicts: seq<Lit>, count: nat, t: int, a: seq<Var>)
    requires Walking(f, s, mark, conflicts, count, t, a)
    ensures ClausesOk(|s.vars|, s.clauses) && Distinct(conflicts) && |mark| == |s.vars|
    ensures forall i :: 0 <= i < |conflicts| ==>
      var l := conflicts[i];
      && InRange(l, |s.vars|) && mark[Index(l)] && IsFalse(s.vars, l) && 0 < Level(s.vars, l) < s.dlevel
      && (s.vars[Index(l)].reason.Some? ==> s.vars[Index(l)].reason.value < |s.clauses|)
  {
    hide CurrentUpTo, TrailOk, Entailed, WatchListsOk, Consistent, DecisionsFirst;
    forall i | 0 <= i < |conflicts|
      ensures IsMarked(s.vars, mark, conflicts[i]) && s.vars[Index(conflicts[i])].isSet
      ensures Level(s.vars, conflicts[i]) > 0
    {
    }
  }

  lemma RedundantAlike(a: seq<Var>, b: seq<Var>, cls: seq<Clause>, mark: seq<bool>, l: Lit)
    requires |a| == |b| == |mark| && InRange(l, |a|) && a[Index(l)].reason == b[Index(l)].reason && ClausesOk(|a|, cls)
    ensures Redundant(a, cls, mark, l) <==> Redundant(b, cls, mark, l)
  {
  }

  lemma UndoneFacts(s: State, t: int, a: seq<Var>)
    requires |s.tpos| == |s.vars| && Undone(s.vars, s.tpos, t, a)
    ensures |a| == |s.vars| && forall v :: 0 <= v < |a| ==>
          a[v].dlevel == s.vars[v].dlevel && a[v].reason == s.vars[v].reason
  {
  }

  lemma StartWalk(f: Cnf, s: State, p: nat, mark: seq<bool>, conflicts: seq<Lit>, count: nat)
    requires Queue(f, s, p) && s.dlevel > 0 && Marks(s.vars, s.dlevel, mark, conflicts, count)
    ensures Walking(f, s, mark, conflicts, count, |s.trail| - 1, s.vars)
  {
    hide Strong, WatchesGuard, Entailed, WatchListsOk, Waiting, LevelsRise;
    NothingUndone(s);
    forall v | v in Current(s.vars, s.dlevel, mark) ensures s.tpos[v] <= |s.trail| - 1 {
      assert s.vars[v].isSet;
    }
  }
}
