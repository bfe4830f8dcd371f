/**
 Unwinding the trail, storing a learnt clause and asserting its first literal; and asserting a
 unit clause at level 0, where the variable may be set already.
 */
module SatBackjump {
  import opened Wrappers
  import opened SatLogic
  import opened SatInvariant
  import opened SatPropagation
  import opened SatSteps
  import opened SatAnalysis

  /** The trail from `t` on is exactly the part above level `b`. */
  ghost predicate Cut(s: State, t: nat, b: nat)
    requires TrailOk(s.vars, s.trail, s.tpos, s.dlevel)
  {
    && t <= |s.trail|
    && (forall i :: 0 <= i < t ==> Level(s.vars, s.trail[i]) <= b)
    && (forall i :: t <= i < |s.trail| ==> Level(s.vars, s.trail[i]) > b)
  }

  /** `s` with the trail cut at `t`, the later literals unset (giving `a`), and the level now `e`. */
  ghost function UnwindStep(s: State, t: nat, e: nat, a: seq<Var>): State
    requires t <= |s.trail|
  {
    s.(vars := a, trail := s.trail[..t], dlevel := e)
  }

  lemma KeptBelow(s: State, t: nat, b: nat, a: seq<Var>, v: nat)
    requires TrailOk(s.vars, s.trail, s.tpos, s.dlevel) && Cut(s, t, b) && Undone(s.vars, s.tpos, t - 1, a)
    requires v < |a| && s.vars[v].isSet
    ensures a[v].isSet <==> s.vars[v].dlevel <= b
    ensures a[v].isSet ==> a[v] == s.vars[v] && s.tpos[v] < t
  {
    hide TrailOk;
    OnTrail(s.vars, s.trail, s.tpos, s.dlevel, v);
    TrailEntry(s.vars, s.trail, s.tpos, s.dlevel, s.tpos[v]);
    assert Level(s.vars, s.trail[s.tpos[v]]) == s.vars[v].dlevel;
  }

  lemma UnwindKeepsTrail(s: State, t: nat, b: nat, e: nat, a: seq<Var>)
    requires TrailOk(s.vars, s.trail, s.tpos, s.dlevel)
    requires Cut(s, t, b) && Undone(s.vars, s.tpos, t - 1, a) && b <= e
    ensures TrailOk(a, s.trail[..t], s.tpos, e)
    ensures forall i :: 0 <= i < t ==> a[Index(s.trail[i])] == s.vars[Index(s.trail[i])]
  {
    hide TrailOk, LevelsRise, Cut, Undone, TrueLit;
    CutShape(s, t, b, a);
    var tr := s.trail[..t];
    forall i | 0 <= i < t
      ensures tr[i] == s.trail[i] && InRange(tr[i], |a|) && a[Index(tr[i])] == s.vars[Index(tr[i])]
      ensures a[Index(tr[i])].isSet && Level(a, tr[i]) <= e && (Level(a, tr[i]) > 0 ==> s.tpos[Index(tr[i])] == i)
    {
      TrailEntry(s.vars, s.trail, s.tpos, s.dlevel, i);
      KeptBelow(s, t, b, a, Index(s.trail[i]));
    }
    forall v | 0 <= v < |a| && a[v].isSet ensures s.tpos[v] < t && tr[s.tpos[v]] == TrueLit(a, v) {
      StillSet(s, t, a, v);
      KeptBelow(s, t, b, a, v);
      OnTrail(s.vars, s.trail, s.tpos, s.dlevel, v);
      SameTrueLit(s.vars, a, v);
    }
    TrailShape(s.vars, s.trail, s.tpos, s.dlevel);
    TrailRises(s.vars, s.trail, s.tpos, s.dlevel);
    PrefixRises(s.vars, s.trail, a, t);
    TrailIs(a, tr, s.tpos, e);
  }

  lemma CutShape(s: State, t: nat, b: nat, a: seq<Var>)
    requires TrailOk(s.vars, s.trail, s.tpos, s.dlevel) && Cut(s, t, b) && Undone(s.vars, s.tpos, t - 1, a)
    ensures t <= |s.trail| && |a| == |s.vars| == |s.tpos|
    ensures forall i :: 0 <= i < t ==> InRange(s.trail[i], |s.vars|) && Level(s.vars, s.trail[i]) <= b
  {
    hide TrailOk;
    TrailShape(s.vars, s.trail, s.tpos, s.dlevel);
  }

  lemma StillSet(s: State, t: nat, a: seq<Var>, v: nat)
    requires |s.tpos| == |s.vars| && Undone(s.vars, s.tpos, t - 1, a) && v < |a| && a[v].isSet
    ensures s.vars[v].isSet
  {
  }

  lemma SameTrueLit(a: seq<Var>, b: seq<Var>, v: nat)
    requires v < |a| && v < |b| && a[v] == b[v]
    ensures TrueLit(a, v) == TrueLit(b, v)
  {
  }

  lemma PrefixRises(a: seq<Var>, tr: seq<Lit>, b: seq<Var>, t: nat)
    requires t <= |tr| && |a| == |b| && (forall i :: 0 <= i < |tr| ==> InRange(tr[i], |a|)) && LevelsRise(a, tr)
    requires forall i :: 0 <= i < t ==> b[Index(tr[i])] == a[Index(tr[i])]
    ensures forall i :: 0 <= i < t ==> InRange(tr[..t][i], |b|)
    ensures LevelsRise(b, tr[..t])
  {
    forall i, j | 0 <= i < j < t ensures Level(b, tr[..t][i]) <= Level(b, tr[..t][j]) {
      assert Level(a, tr[i]) <= Level(a, tr[j]);
    }
  }

  lemma UnwindKeepsReasons(s: State, t: nat, b: nat, a: seq<Var>)
    requires ClausesOk(|s.vars|, s.clauses) && TrailOk(s.vars, s.trail, s.tpos, s.dlevel)
    requires Cut(s, t, b) && Undone(s.vars, s.tpos, t - 1, a)
    requires ReasonsOk(s.vars, s.tpos, s.clauses)
    ensures ReasonsOk(a, s.tpos, s.clauses)
  {
    hide TrailOk, Forces, Cut, Undone;
    CutShape(s, t, b, a);
    forall v | 0 <= v < |a| && a[v].isSet && a[v].reason.Some?
      ensures a[v].reason.value < |s.clauses| && Forces(a, s.tpos, s.clauses[a[v].reason.value], v)
    {
      StillSet(s, t, a, v);
      KeptBelow(s, t, b, a, v);
      ReasonKept(s, t, b, a, v, s.clauses[a[v].reason.value]);
    }
  }

  /** What forced a literal that is kept still forces it. */
  lemma ReasonKept(s: State, t: nat, b: nat, a: seq<Var>, v: nat, c: Clause)
    requires TrailOk(s.vars, s.trail, s.tpos, s.dlevel) && Cut(s, t, b) && Undone(s.vars, s.tpos, t - 1, a)
    requires |a| == |s.vars| && v < |a| && ClauseOk(|a|, c) && |s.tpos| == |s.vars| && Forces(s.vars, s.tpos, c, v)
    requires s.vars[v].isSet && a[v].isSet && a[v] == s.vars[v] && s.vars[v].dlevel <= b
    ensures Forces(a, s.tpos, c, v)
  {
    hide TrailOk, Cut, Undone;
    forall k | 1 <= k < |c| ensures a[Index(c[k])] == s.vars[Index(c[k])] {
      KeptBelow(s, t, b, a, Index(c[k]));
    }
  }

  lemma UndoneFree(s: State, t: nat, a: seq<Var>)
    requires |s.tpos| == |s.vars| && Undone(s.vars, s.tpos, t - 1, a)
    ensures |a| == |s.vars| && forall v :: 0 <= v < |a| && !s.vars[v].isSet ==> !a[v].isSet
  {
  }

  lemma UnwindKeepsGuard(s: State, t: nat, b: nat, a: seq<Var>, c: Clause, p: nat)
    requires TrailOk(s.vars, s.trail, s.tpos, s.dlevel) && ClauseOk(|s.vars|, c) && |s.tpos| == |s.vars|
    requires Cut(s, t, b) && Undone(s.vars, s.tpos, t - 1, a) && t <= p
    requires ClauseGuarded(s.vars, s.tpos, c, p)
    ensures |a| == |s.vars| && ClauseGuarded(a, s.tpos, c, t)
  {
    hide TrailOk, Cut, Undone;
    UndoneFree(s, t, a);
    if s.vars[Index(c[0])].isSet { KeptBelow(s, t, b, a, Index(c[0])); }
    if s.vars[Index(c[1])].isSet { KeptBelow(s, t, b, a, Index(c[1])); }
  }

  /** Unwinding to a level below the waiting literals leaves nothing waiting and every clause guarded. */
  lemma UnwindKeeps(f: Cnf, s: State, p: nat, t: nat, b: nat, e: nat, a: seq<Var>)
    requires Queue(f, s, p) && (b < s.dlevel || p == |s.trail|) && b <= e
    requires Cut(s, t, b) && Undone(s.vars, s.tpos, t - 1, a)
    ensures Queue(f, UnwindStep(s, t, e, a), t)
  {
    hide Guarded, Forces, WatchListsOk, AllFalse;
    UnwindKeepsTrail(s, t, b, e, a);
    UnwindKeepsRecords(f, s, t, b, e, a);
    UnwindKeepsReasons(s, t, b, a);
    assert t <= p by {
      assert p < |s.trail| ==> Level(s.vars, s.trail[p]) == s.dlevel;
    }
    forall c | 0 <= c < |s.clauses| ensures ClauseGuarded(a, s.tpos, s.clauses[c], t) {
      UnwindKeepsGuard(s, t, b, a, s.clauses[c], p);
    }
  }

  lemma UnwindKeepsRecords(f: Cnf, s: State, t: nat, b: nat, e: nat, a: seq<Var>)
    requires TrailOk(s.vars, s.trail, s.tpos, s.dlevel) && Consistent(s.vars, s.trail)
    requires Entailed(f, s.vars, s.trail, s.clauses, s.csets, s.units, s.empty)
    requires DecisionsFirst(s.vars, s.trail) && UnitsRecorded(s.vars, s.units)
    requires Cut(s, t, b) && Undone(s.vars, s.tpos, t - 1, a) && b <= e
    ensures |a| == |s.vars| && forall i :: 0 <= i < t ==> InRange(s.trail[..t][i], |a|)
    ensures Entailed(f, a, s.trail[..t], s.clauses, s.csets, s.units, s.empty)
    ensures Consistent(a, s.trail[..t]) && DecisionsFirst(a, s.trail[..t]) && UnitsRecorded(a, s.units)
  {
    hide LevelsRise;
    UnwindKeepsTrail(s, t, b, e, a);
    hide TrailOk;
    var tr := s.trail[..t];
    forall i | 0 <= i < t
      ensures tr[i] == s.trail[i] && InRange(tr[i], |a|) && a[Index(tr[i])] == s.vars[Index(tr[i])]
      ensures IsTrue(a, tr[i])
    {
    }
    forall v | 0 <= v < |a| && a[v].isSet ensures a[v] == s.vars[v] {}
  }

  ghost function LearnStep(s: State, ng: Clause): State
    requires |ng| >= 2 && ng[0] in s.watches && ng[1] in s.watches
  {
    s.(clauses := s.clauses + [ng], csets := s.csets + [LitSet(ng)],
       watches := s.watches[ng[0] := s.watches[ng[0]] + [|s.clauses|]][ng[1] := s.watches[ng[1]] + [|s.clauses|]])
  }

  lemma LearnKeepsInv(f: Cnf, s: State, ng: Clause)
    requires Inv(f, s) && ClauseOk(|s.vars|, ng) && Entails(f, LitSet(ng))
    ensures Inv(f, LearnStep(s, ng))
  {
    AppendKeepsWatchLists(|s.vars|, s.clauses, s.watches, ng);
    if ng[0] != ng[1] {
      assert s.watches[ng[0] := s.watches[ng[0]] + [|s.clauses|]][ng[1]] == s.watches[ng[1]];
    }
  }

  /** A learnt clause fit to be asserted: its first literal free, its second false at the current level. */
  ghost predicate Asserting(s: State, ng: Clause)
    requires ClauseOk(|s.vars|, ng)
  {
    && IsFree(s.vars, ng[0])
    && (forall k :: 1 <= k < |ng| ==> IsFalse(s.vars, ng[k]) && Level(s.vars, ng[k]) <= s.dlevel)
    && Level(s.vars, ng[1]) == s.dlevel > 0
  }

  /** `l` may be set next, with reason `r`, and propagated. */
  ghost predicate Assertable(f: Cnf, s: State, l: Lit, r: Option<nat>) {
    && Inv(f, s) && InRange(l, |s.vars|) && IsFree(s.vars, l)
    && Strong(s.vars, s.trail, s.tpos, s.clauses) && UnitsRecorded(s.vars, s.units)
    && match r {
         case None =>
           && WatchesGuard(s.vars, s.tpos, s.clauses, |s.trail|)
           && if s.dlevel == 0 then Entails(f, {l}) && s.units[Index(l)] == Some(Sign(l))
              else forall i :: 0 <= i < |s.trail| ==> Level(s.vars, s.trail[i]) < s.dlevel
         case Some(c) =>
           && c < |s.clauses| && s.clauses[c][0] == l && Asserting(s, s.clauses[c])
           && forall d :: 0 <= d < |s.clauses| && d != c ==> ClauseGuarded(s.vars, s.tpos, s.clauses[d], |s.trail|)
       }
  }

  lemma LearntAssertable(f: Cnf, s: State, ng: Clause)
    requires Queue(f, s, |s.trail|) && ClauseOk(|s.vars|, ng) && Entails(f, LitSet(ng)) && Asserting(s, ng)
    ensures Assertable(f, LearnStep(s, ng), ng[0], Some(|s.clauses|))
  {
    hide TrailOk, LevelsRise, Entailed, WatchListsOk, Entails, ReasonsOk, ClauseGuarded, Consistent, DecisionsFirst;
    LearnKeepsInv(f, s, ng);
    TrailShape(s.vars, s.trail, s.tpos, s.dlevel);
    ReasonsStay(s.vars, s.tpos, s.clauses, ng);
  }

  lemma ReasonsStay(a: seq<Var>, tpos: seq<nat>, cls: seq<Clause>, c: Clause)
    requires ClausesOk(|a|, cls) && ClauseOk(|a|, c) && |tpos| == |a| && ReasonsOk(a, tpos, cls)
    ensures ClausesOk(|a|, cls + [c]) && ReasonsOk(a, tpos, cls + [c])
  {
    hide Forces, ClauseOk;
    forall v | 0 <= v < |a| && a[v].isSet && a[v].reason.Some?
      ensures a[v].reason.value < |cls| && Forces(a, tpos, (cls + [c])[a[v].reason.value], v)
    {
      assert Forces(a, tpos, cls[a[v].reason.value], v);
    }
  }

  /** Asserting the learnt literal guards the learnt clause. */
  lemma AssertKeepsGuard(f: Cnf, s: State, l: Lit, c: nat)
    requires Assertable(f, s, l, Some(c)) && ClausesOk(|s.vars|, s.clauses)
    ensures var s' := AssignStep(s, l, Some(c));
            |s'.tpos| == |s'.vars| && WatchesGuard(s'.vars, s'.tpos, s'.clauses, |s.trail|)
  {
    hide LevelsRise;
    var s' := AssignStep(s, l, Some(c));
    forall d | 0 <= d < |s.clauses| ensures ClauseGuarded(s'.vars, s'.tpos, s'.clauses[d], |s.trail|) {
      if d != c {
        GuardSurvivesSet(s, s.clauses[d], l, c);
      } else {
        GuardOfAsserted(s, s.clauses[c], c);
      }
    }
  }

  lemma GuardSurvivesSet(s: State, d: Clause, l: Lit, c: nat)
    requires ClauseOk(|s.vars|, d) && |s.tpos| == |s.vars| && InRange(l, |s.vars|) && IsFree(s.vars, l)
    requires ClauseGuarded(s.vars, s.tpos, d, |s.trail|)
    ensures ClauseGuarded(AssignStep(s, l, Some(c)).vars, AssignStep(s, l, Some(c)).tpos, d, |s.trail|)
  {
  }

  lemma GuardOfAsserted(s: State, ng: Clause, c: nat)
    requires ClauseOk(|s.vars|, ng) && |s.tpos| == |s.vars| && Asserting(s, ng)
    ensures ClauseGuarded(AssignStep(s, ng[0], Some(c)).vars, AssignStep(s, ng[0], Some(c)).tpos, ng, |s.trail|)
  {
  }

  lemma AssertKeeps(f: Cnf, s: State, l: Lit, r: Option<nat>)
    requires Assertable(f, s, l, r)
    ensures Queue(f, AssignStep(s, l, r), |s.trail|)
  {
    hide Inv, WatchesGuard, ReasonsOk, DecisionsFirst;
    match r
    case None =>
      StrongOfAssertable(f, s, l);
      AssignKeeps(f, s, l, r, |s.trail|, true);
    case Some(c) =>
      AssertLearnt(f, s, l, c);
  }

  lemma StrongOfAssertable(f: Cnf, s: State, l: Lit)
    requires Assertable(f, s, l, None)
    ensures Queue(f, s, |s.trail|)
  {
    hide WatchesGuard, ReasonsOk, DecisionsFirst, WatchListsOk, Entailed;
  }

  lemma AssertLearnt(f: Cnf, s: State, l: Lit, c: nat)
    requires Assertable(f, s, l, Some(c))
    ensures Queue(f, AssignStep(s, l, Some(c)), |s.trail|)
  {
    hide ReasonsOk, DecisionsFirst, WatchListsOk, Entailed, TrailOk, ClauseGuarded, UnitsRecorded;
    AssignKeeps(f, s, l, Some(c), |s.trail|, false);
    SetKeepsTrail(s.vars, s.trail, s.tpos, s.dlevel, l, Some(c));
    SetKeepsReasons(s.vars, s.trail, s.tpos, s.dlevel, s.clauses, l, Some(c));
    SetKeepsDecisions(s, l, Some(c));
    EmptyWaiting(s);
    SetKeepsWaiting(s, l, Some(c), |s.trail|);
    AssertKeepsGuard(f, s, l, c);
    SetKeepsRecorded(s, l, c);
  }

  lemma EmptyWaiting(s: State)
    requires TrailOk(s.vars, s.trail, s.tpos, s.dlevel)
    ensures Waiting(s, |s.trail|)
  {
  }

  lemma SetKeepsRecorded(s: State, l: Lit, c: nat)
    requires UnitsRecorded(s.vars, s.units) && InRange(l, |s.vars|)
    ensures UnitsRecorded(SetLit(s.vars, l, s.dlevel, Some(c)), s.units)
  {
  }

  /** Setting a unit literal that is true at level 0 already. */
  lemma ResetKeeps(f: Cnf, s: State, l: Lit)
    requires Queue(f, s, |s.trail|) && s.dlevel == 0 && InRange(l, |s.vars|) && IsTrue(s.vars, l)
    requires Entails(f, {l}) && s.units[Index(l)] == Some(Sign(l))
    ensures Queue(f, AssignStep(s, l, None), |s.trail|)
  {
    var s' := AssignStep(s, l, None);
    AllAtZero(s.vars, s.trail, s.tpos);
    AppendKeepsTrail(s.vars, s.trail, s.tpos, 0, l, s'.vars);
    SetKeepsEntailed(f, s.vars, s.trail, s.clauses, s.csets, s.units, s.empty, l, 0, None);
    ResetKeepsReasons(s.vars, s.tpos, s.clauses, l, |s.trail|);
    ResetKeepsGuard(s.vars, s.tpos, s.clauses, l, |s.trail|);
    ResetConsistent(s, l);
  }

  lemma ResetConsistent(s: State, l: Lit)
    requires TrailOk(s.vars, s.trail, s.tpos, 0) && InRange(l, |s.vars|) && IsTrue(s.vars, l)
    requires Consistent(s.vars, s.trail) && s.dlevel == 0
    ensures var s' := AssignStep(s, l, None);
            (forall i :: 0 <= i < |s'.trail| ==> InRange(s'.trail[i], |s'.vars|))
            && Consistent(s'.vars, s'.trail) && DecisionsFirst(s'.vars, s'.trail)
  {
    hide LevelsRise;
    var s' := AssignStep(s, l, None);
    forall i | 0 <= i < |s'.trail| ensures IsTrue(s'.vars, s'.trail[i]) && Level(s'.vars, s'.trail[i]) == 0 {}
  }

  /** Setting a unit literal that is false at level 0: its old reason is now false and will be visited. */
  lemma FlipDooms(f: Cnf, s: State, l: Lit) returns (d: nat, k: nat)
    requires Queue(f, s, |s.trail|) && s.dlevel == 0 && InRange(l, |s.vars|) && IsFalse(s.vars, l)
    requires Entails(f, {l}) && s.units[Index(l)] == Some(Sign(l))
    ensures Scanning(f, AssignStep(s, l, None), -l, |s.trail|, 0, false, d, k)
  {
    hide Weak, WatchesGuard, DecisionsFirst, Consistent, Waiting, Scanned, AllFalse, TrailOk, Forces;
    FlipKeepsInv(f, s, l);
    var v := Index(l);
    StrongOf(f, s, |s.trail|);
    AllAtZero(s.vars, s.trail, s.tpos);
    FlippedHasReason(s, v, l);
    d := s.vars[v].reason.value;
    assert Forces(s.vars, s.tpos, s.clauses[d], v);
    Watched(f, s, d);
    ForcedFirst(s, d, v);
    k :| 0 <= k < |s.watches[-l]| && s.watches[-l][k] == d;
    FlipFalsifies(s, l, s.clauses[d]);
  }

  /** At level 0 a literal may be set against its value. */
  lemma FlipKeepsInv(f: Cnf, s: State, l: Lit)
    requires Inv(f, s) && s.dlevel == 0 && InRange(l, |s.vars|) && IsFalse(s.vars, l) && Entails(f, {l})
    ensures |s.tpos| == |s.vars| && Inv(f, AssignStep(s, l, None))
  {
    hide WatchListsOk, Entailed, TrailOk, Entails;
    TrailShape(s.vars, s.trail, s.tpos, s.dlevel);
    FlipKeepsTrail(s.vars, s.trail, s.tpos, l);
    SetKeepsEntailed(f, s.vars, s.trail, s.clauses, s.csets, s.units, s.empty, l, 0, None);
  }

  lemma FlippedHasReason(s: State, v: nat, l: Lit)
    requires UnitsRecorded(s.vars, s.units) && v < |s.vars| && Index(l) == v && IsFalse(s.vars, l)
             && s.vars[v].dlevel == 0
    requires s.units[v] == Some(Sign(l))
    ensures s.vars[v].reason.Some?
  {
  }

  lemma FlipFalsifies(s: State, l: Lit, c: Clause)
    requires ClauseOk(|s.vars|, c) && |s.tpos| == |s.vars| && InRange(l, |s.vars|) && IsFalse(s.vars, l)
    requires Forces(s.vars, s.tpos, c, Index(l))
    ensures AllFalse(AssignStep(s, l, None).vars, c)
  {
  }

  /** The literals from the conflict's level onwards aside, no stored clause is false: so a learnt clause is new. */
  lemma LearntIsNew(f: Cnf, s: State, p: nat, ng: Clause)
    requires Queue(f, s, p) && |ng| > 0
             && (forall k :: 0 <= k < |ng| ==> InRange(ng[k], |s.vars|) && IsFalse(s.vars, ng[k]))
    requires forall k :: 1 <= k < |ng| ==> Level(s.vars, ng[k]) < s.dlevel
    ensures LitSet(ng) !in s.csets
    ensures LitSet(ng) in Universe(|s.vars|)
  {
    forall c | 0 <= c < |s.csets| ensures s.csets[c] != LitSet(ng) {
      if s.csets[c] == LitSet(ng) {
        assert ClauseGuarded(s.vars, s.tpos, s.clauses[c], p);
        var e := if s.clauses[c][0] == ng[0] then 1 else 0;
        WatchBelow(f, s, p, ng, c, e);
      }
    }
  }

  lemma WatchBelow(f: Cnf, s: State, p: nat, ng: Clause, c: nat, e: nat)
    requires Queue(f, s, p) && |ng| > 0
             && (forall k :: 0 <= k < |ng| ==> InRange(ng[k], |s.vars|) && IsFalse(s.vars, ng[k]))
    requires forall k :: 1 <= k < |ng| ==> Level(s.vars, ng[k]) < s.dlevel
    requires c < |s.csets| && e < 2 && s.clauses[c][e] != ng[0]
    requires Guarded(s.vars, s.tpos, s.clauses[c][e], s.clauses[c][1 - e], p)
    ensures s.csets[c] != LitSet(ng)
  {
    hide Entailed, WatchListsOk, DecisionsFirst, Consistent, ReasonsOk, UnitsRecorded, WatchesGuard, LevelsRise;
    ClauseSet(f, s, c);
    var w, o := s.clauses[c][e], s.clauses[c][1 - e];
    assert w in s.csets[c] && o in s.csets[c];
    if w in ng && o in ng {
      assert IsFalse(s.vars, o) && Level(s.vars, w) < s.dlevel;
      FalseLitOnTrail(s.vars, s.trail, s.tpos, s.dlevel, w);
    }
  }

  lemma ClauseSet(f: Cnf, s: State, c: nat)
    requires Inv(f, s) && c < |s.csets|
    ensures |s.csets| == |s.clauses| && s.csets[c] == LitSet(s.clauses[c])
  {
  }

  /** Trail levels rise, so one literal at or below `b` settles all before it. */
  /** The trail is unwound down to position `k`, which is still to be looked at. */
  ghost predicate Unwound(s: State, k: int, b: nat, a: seq<Var>)
    requires TrailOk(s.vars, s.trail, s.tpos, s.dlevel)
  {
    && -1 <= k < |s.trail| && Undone(s.vars, s.tpos, k, a)
    && forall i :: k < i < |s.trail| ==> Level(s.vars, s.trail[i]) > b
  }

  lemma StartUnwind(s: State, k: int, b: nat, a: seq<Var>)
    requires TrailOk(s.vars, s.trail, s.tpos, s.dlevel) && Undone(s.vars, s.tpos, k, a) && -1 <= k < |s.trail|
    requires forall i :: k < i < |s.trail| ==> Level(s.vars, s.trail[i]) > b
    ensures Unwound(s, k, b, a) && |a| == |s.vars| && (k >= 0 ==> InRange(s.trail[k], |a|))
  {
    hide TrailOk;
    TrailShape(s.vars, s.trail, s.tpos, s.dlevel);
  }

  /** The level of the literal looked at is recorded in either state; above `b` it is unset. */
  lemma StepUnwind(s: State, k: int, b: nat, a: seq<Var>)
    requires TrailOk(s.vars, s.trail, s.tpos, s.dlevel) && Unwound(s, k, b, a) && k >= 0
    requires InRange(s.trail[k], |a|) && Level(a, s.trail[k]) > b
    ensures Unwound(s, k - 1, b, a[Index(s.trail[k]) := a[Index(s.trail[k])].(isSet := false)])
    ensures |a| == |s.vars| && (k > 0 ==> InRange(s.trail[k - 1], |a|))
  {
    hide TrailOk, Undone;
    TrailShape(s.vars, s.trail, s.tpos, s.dlevel);
    UndoneFacts(s, k, a);
    TrailEntry(s.vars, s.trail, s.tpos, s.dlevel, k);
    UndoStep(s, k, a);
  }

  lemma EndUnwind(s: State, t: nat, b: nat, a: seq<Var>)
    requires TrailOk(s.vars, s.trail, s.tpos, s.dlevel) && Unwound(s, t - 1, b, a)
    requires t > 0 ==> InRange(s.trail[t - 1], |a|) && Level(a, s.trail[t - 1]) <= b
    ensures t <= |s.trail| && Cut(s, t, b) && Undone(s.vars, s.tpos, t - 1, a)
  {
    hide TrailOk, Undone, Cut;
    TrailShape(s.vars, s.trail, s.tpos, s.dlevel);
    UndoneFacts(s, t - 1, a);
    CutFound(s, t, b);
  }

  lemma CutFound(s: State, t: nat, b: nat)
    requires TrailOk(s.vars, s.trail, s.tpos, s.dlevel) && t <= |s.trail|
    requires t > 0 ==> Level(s.vars, s.trail[t - 1]) <= b
    requires forall i :: t <= i < |s.trail| ==> Level(s.vars, s.trail[i]) > b
    ensures Cut(s, t, b)
  {
    hide TrailOk;
    TrailShape(s.vars, s.trail, s.tpos, s.dlevel);
    forall i | 0 <= i < t ensures Level(s.vars, s.trail[i]) <= b {
      TrailOrder(s.vars, s.trail, s.tpos, s.dlevel, i, t - 1);
    }
  }

  /** Storing a clause of any length: empty, unit, or watched. */
  ghost function StoreStep(s: State, c: Clause): State
    requires forall k :: 0 <= k < |c| ==> InRange(c[k], |s.units|)
    requires forall k :: 0 <= k < |c| ==> c[k] in s.watches
  {
    if |c| == 0 then s.(empty := true)
    else if |c| == 1 then
      assert InRange(c[0], |s.units|);
      var v := Index(c[0]);
      if s.units[v] == Some(Sign(c[0])) then s
      else if s.units[v] == Some(!Sign(c[0])) then s.(empty := true)
      else s.(units := s.units[v := Some(Sign(c[0]))])
    else LearnStep(s, c)
  }

  /** A consequence of the input may be stored. */
  lemma StoreKeepsInv(f: Cnf, s: State, c: Clause)
    requires Inv(f, s) && Distinct(c) && (forall k :: 0 <= k < |c| ==> InRange(c[k], |s.vars|)) && Entails(f, LitSet(c))
    ensures |s.units| == |s.vars| && forall k :: 0 <= k < |c| ==> c[k] in s.watches
    ensures Inv(f, StoreStep(s, c))
  {
    if |c| == 0 {
      assert LitSet(c) == {};
    } else if |c| == 1 {
      assert LitSet(c) == {c[0]};
      var v := Index(c[0]);
      if s.units[v] == Some(!Sign(c[0])) {
        assert UnitLit(s.units, v) == -c[0];
        Resolve(f, {-c[0]}, {c[0]}, c[0], {});
      } else {
        assert UnitLit(s.units[v := Some(Sign(c[0]))], v) == c[0];
      }
    } else {
      LearnKeepsInv(f, s, c);
    }
  }

  /** What conflict analysis of state `s` has found: the clause `ng`, to be asserted at level `blevel`. */
  ghost predicate Analysed(f: Cnf, s: State, p: nat, mark: seq<bool>, conflicts: seq<Lit>, uip: Lit, ng: Clause,
                           blevel: nat) {
    && Queue(f, s, p) && s.dlevel > 0
    && Marks(s.vars, s.dlevel, mark, conflicts, 0)
    && InRange(uip, |s.vars|) && IsTrue(s.vars, uip) && Level(s.vars, uip) == s.dlevel
    && Entails(f, {-uip} + MarkedLits(s.vars, mark))
    && Nogood(s.vars, uip, conflicts, |conflicts|, ng, blevel)
    && Minimized(s, mark, conflicts, ng)
  }

  lemma LearntClause(f: Cnf, s: State, p: nat, mark: seq<bool>, conflicts: seq<Lit>, uip: Lit, ng: Clause, blevel: nat)
    requires Analysed(f, s, p, mark, conflicts, uip, ng, blevel)
    ensures Entails(f, LitSet(ng)) && blevel < s.dlevel && ng != [] && Distinct(ng)
    ensures forall k :: 0 <= k < |ng| ==> InRange(ng[k], |s.vars|) && IsFalse(s.vars, ng[k])
    ensures forall k :: 1 <= k < |ng| ==> Level(s.vars, ng[k]) < s.dlevel
    ensures LitSet(ng) !in s.csets && LitSet(ng) in Universe(|s.vars|)
  {
    hide Inv, Queue, Entails, MarkedLits, Minimized, Marks, Nogood, LevelsRise;
    StrongOf(f, s, p);
    NogoodEntailed(f, s, mark, conflicts, uip, ng, blevel);
    NogoodFalse(s, mark, conflicts, uip, ng, blevel);
    LearntIsNew(f, s, p, ng);
  }

  lemma NogoodEntailed(f: Cnf, s: State, mark: seq<bool>, conflicts: seq<Lit>, uip: Lit, ng: Clause, blevel: nat)
    requires Inv(f, s) && ReasonsOk(s.vars, s.tpos, s.clauses) && Marks(s.vars, s.dlevel, mark, conflicts, 0)
    requires Entails(f, {-uip} + MarkedLits(s.vars, mark)) && Minimized(s, mark, conflicts, ng)
    requires Nogood(s.vars, uip, conflicts, |conflicts|, ng, blevel)
    ensures Entails(f, LitSet(ng))
  {
    hide Inv, Entails, MarkedLits, Minimized, Marks;
    MinimizedEntailed(f, s, mark, conflicts, ng);
  }

  lemma NogoodFalse(s: State, mark: seq<bool>, conflicts: seq<Lit>, uip: Lit, ng: Clause, blevel: nat)
    requires Marks(s.vars, s.dlevel, mark, conflicts, 0) && Nogood(s.vars, uip, conflicts, |conflicts|, ng, blevel)
    requires InRange(uip, |s.vars|) && IsTrue(s.vars, uip) && s.dlevel > 0
    ensures blevel < s.dlevel && ng != [] && Distinct(ng) && ng[0] == -uip
    ensures forall k :: 0 <= k < |ng| ==> InRange(ng[k], |s.vars|) && IsFalse(s.vars, ng[k])
    ensures forall k :: 1 <= k < |ng| ==> Level(s.vars, ng[k]) < s.dlevel
    ensures forall k :: 1 <= k < |ng| ==> Level(s.vars, ng[k]) <= blevel
    ensures |ng| == 1 ==> blevel == 0
    ensures |ng| >= 2 ==> Level(s.vars, ng[1]) == blevel > 0
  {
    hide Marks;
    MarkedFacts(s.vars, s.dlevel, mark, conflicts, 0);
    forall k | 1 <= k < |ng|
      ensures InRange(ng[k], |s.vars|) && IsFalse(s.vars, ng[k]) && Level(s.vars, ng[k]) < s.dlevel
    {
      assert InPrefix(conflicts, |conflicts|, ng[k]);
      var j :| 0 <= j < |conflicts| && conflicts[j] == ng[k];
    }
  }

  lemma MarkedFacts(a: seq<Var>, dl: nat, mark: seq<bool>, conflicts: seq<Lit>, count: nat)
    requires Marks(a, dl, mark, conflicts, count)
    ensures forall i :: 0 <= i < |conflicts| ==>
      InRange(conflicts[i], |a|) && IsFalse(a, conflicts[i]) && 0 < Level(a, conflicts[i]) < dl
  {
    forall i | 0 <= i < |conflicts|
      ensures InRange(conflicts[i], |a|) && IsFalse(a, conflicts[i]) && 0 < Level(a, conflicts[i]) < dl
    {
      assert IsMarked(a, mark, conflicts[i]);
    }
  }

  lemma StrongOf(f: Cnf, s: State, p: nat)
    requires Queue(f, s, p)
    ensures Inv(f, s) && ClausesOk(|s.vars|, s.clauses) && |s.tpos| == |s.vars| && ReasonsOk(s.vars, s.tpos, s.clauses)
    ensures TrailOk(s.vars, s.trail, s.tpos, s.dlevel)
  {
  }

  /** After unwinding, the learnt literal is free and the others are still false, the second at the new level. */
  lemma LearntAfterUnwind(s: State, t: nat, b: nat, a: seq<Var>, ng: Clause)
    requires TrailOk(s.vars, s.trail, s.tpos, s.dlevel) && Cut(s, t, b) && Undone(s.vars, s.tpos, t - 1, a)
    requires ng != [] && b < s.dlevel
    requires forall k :: 0 <= k < |ng| ==> InRange(ng[k], |s.vars|) && IsFalse(s.vars, ng[k])
    requires Level(s.vars, ng[0]) == s.dlevel && forall k :: 1 <= k < |ng| ==> Level(s.vars, ng[k]) <= b
    ensures |a| == |s.vars| && IsFree(a, ng[0])
    ensures forall k :: 1 <= k < |ng| ==> IsFalse(a, ng[k]) && Level(a, ng[k]) == Level(s.vars, ng[k])
  {
    hide LevelsRise;
    KeptBelow(s, t, b, a, Index(ng[0]));
    forall k | 1 <= k < |ng| ensures IsFalse(a, ng[k]) && Level(a, ng[k]) == Level(s.vars, ng[k]) {
      KeptBelow(s, t, b, a, Index(ng[k]));
    }
  }

  /** Backjumping stores an entailed, new clause whose first literal may be asserted, or refutes the input. */
  lemma Backjump(f: Cnf, s: State, p: nat, mark: seq<bool>, conflicts: seq<Lit>, uip: Lit, ng: Clause, blevel: nat,
                 t: nat, a: seq<Var>)
    requires Analysed(f, s, p, mark, conflicts, uip, ng, blevel)
    requires TrailOk(s.vars, s.trail, s.tpos, s.dlevel) && Cut(s, t, blevel) && Undone(s.vars, s.tpos, t - 1, a)
    ensures ng != [] && Distinct(ng) && |s.units| == |a| == |s.vars| && blevel < s.dlevel
    ensures forall k :: 0 <= k < |ng| ==> InRange(ng[k], |s.vars|)
    ensures forall k :: 0 <= k < |ng| ==> ng[k] in s.watches
    ensures Inv(f, StoreStep(UnwindStep(s, t, blevel, a), ng))
    ensures StoreStep(UnwindStep(s, t, blevel, a), ng).empty ||
            Assertable(f, StoreStep(UnwindStep(s, t, blevel, a), ng), ng[0],
                       if |ng| >= 2 then Some(|s.clauses|) else None)
    ensures |ng| == 1 ==> blevel == 0
  {
    hide Inv, Queue, Strong, Marks, Minimized, MarkedLits, Entails, Undone, Nogood, Assertable, Universe, LevelsRise;
    LearntClause(f, s, p, mark, conflicts, uip, ng, blevel);
    NogoodFalse(s, mark, conflicts, uip, ng, blevel);
    UnwindKeeps(f, s, p, t, blevel, blevel, a);
    LearntAfterUnwind(s, t, blevel, a, ng);
    LearntReady(f, UnwindStep(s, t, blevel, a), ng);
  }

  /** The learnt clause watches the variable of the implication point and one that is set. */
  lemma LearntWatches(f: Cnf, s: State, p: nat, mark: seq<bool>, conflicts: seq<Lit>, uip: Lit, ng: Clause,
                      blevel: nat, t: nat, a: seq<Var>)
    requires Analysed(f, s, p, mark, conflicts, uip, ng, blevel)
    requires TrailOk(s.vars, s.trail, s.tpos, s.dlevel) && Cut(s, t, blevel) && Undone(s.vars, s.tpos, t - 1, a)
    ensures ng != [] && ng[0] == -uip && |a| == |s.vars| && forall k :: 0 <= k < |ng| ==> InRange(ng[k], |a|)
    ensures |ng| >= 2 ==> a[Index(ng[1])].isSet
  {
    hide Inv, Queue, Strong, Marks, Minimized, MarkedLits, Entails, Undone, Nogood, LevelsRise;
    LearntClause(f, s, p, mark, conflicts, uip, ng, blevel);
    NogoodFalse(s, mark, conflicts, uip, ng, blevel);
    LearntAfterUnwind(s, t, blevel, a, ng);
  }

  lemma LearntReady(f: Cnf, s: State, ng: Clause)
    requires Queue(f, s, |s.trail|) && ng != [] && Distinct(ng) && Entails(f, LitSet(ng))
    requires forall k :: 0 <= k < |ng| ==> InRange(ng[k], |s.vars|)
    requires IsFree(s.vars, ng[0])
    requires forall k :: 1 <= k < |ng| ==> IsFalse(s.vars, ng[k]) && Level(s.vars, ng[k]) <= s.dlevel
    requires if |ng| == 1 then s.dlevel == 0 else Level(s.vars, ng[1]) == s.dlevel > 0
    ensures |s.units| == |s.vars| && forall k :: 0 <= k < |ng| ==> ng[k] in s.watches
    ensures Inv(f, StoreStep(s, ng))
    ensures
      || StoreStep(s, ng).empty
      || Assertable(f, StoreStep(s, ng), ng[0], if |ng| >= 2 then Some(|s.clauses|) else None)
  {
    hide Strong, WatchesGuard, Entailed, WatchListsOk, ClausesOk, TrailOk, Entails, Waiting;
    StoreKeepsInv(f, s, ng);
    if |ng| >= 2 {
      assert ClauseOk(|s.vars|, ng) && Asserting(s, ng);
      LearntAssertable(f, s, ng);
    } else {
      assert LitSet(ng) == {ng[0]};
    }
  }

  ghost function SetOf(csets: seq<set<Lit>>): set<set<Lit>> {
    set c | c in csets
  }

  /** Variables not yet fixed at level 0. */
  ghost function Unfixed(a: seq<Var>): set<nat> {
    set v: nat | v < |a| && !(a[v].isSet && a[v].dlevel == 0)
  }

  /** Variables fixed at level 0 stay so. */
  ghost predicate KeepsFixed(a: seq<Var>, b: seq<Var>) {
    |a| == |b| && forall v :: 0 <= v < |a| && a[v].isSet && a[v].dlevel == 0 ==> b[v] == a[v]
  }

  lemma UnwindKeepsFixed(s: State, t: nat, b: nat, a: seq<Var>)
    requires TrailOk(s.vars, s.trail, s.tpos, s.dlevel) && Cut(s, t, b) && Undone(s.vars, s.tpos, t - 1, a)
    ensures KeepsFixed(s.vars, a)
  {
    forall v | 0 <= v < |a| && s.vars[v].isSet && s.vars[v].dlevel == 0 ensures a[v] == s.vars[v] {
      KeptBelow(s, t, b, a, v);
    }
  }

  lemma StartScan(f: Cnf, s: State, p: nat)
    requires Queue(f, s, p) && p < |s.trail|
    ensures Scanning(f, s, -s.trail[p], p, 0, true, 0, 0)
  {
  }

  /** A conflict at the literal being visited involves the current level. */
  lemma ConflictHasCurrent(f: Cnf, s: State, x: Lit, p: nat, c: nat)
    requires Visiting(f, s, x, p) && c < |s.clauses| && (s.clauses[c][0] == x || s.clauses[c][1] == x)
    ensures exists k :: 0 <= k < |s.clauses[c]| && Level(s.vars, s.clauses[c][k]) == s.dlevel
  {
    assert Level(s.vars, s.clauses[c][if s.clauses[c][0] == x then 0 else 1]) == s.dlevel;
  }

  lemma FoundAnalysed(f: Cnf, s: State, p: nat, mark: seq<bool>, conflicts: seq<Lit>, t: int, a: seq<Var>,
                      uip: Lit, ng: Clause, blevel: nat)
    requires Queue(f, s, p) && Walking(f, s, mark, conflicts, 0, t, a) && |mark| == |s.vars|
    requires -1 <= t && t + 1 < |s.trail| && uip == s.trail[t + 1] && InRange(uip, |s.vars|)
    requires IsTrue(s.vars, uip) && Level(s.vars, uip) == s.dlevel
    requires Entails(f, {-uip} + MarkedLits(s.vars, mark))
    requires ClausesOk(|s.vars|, s.clauses) && forall i :: 0 <= i < |conflicts| ==> InRange(conflicts[i], |s.vars|)
    requires Nogood(s.vars, uip, conflicts, |conflicts|, ng, blevel) && Minimized(s, mark, conflicts, ng)
    ensures Analysed(f, s, p, mark, conflicts, uip, ng, blevel)
    ensures |a| == |s.vars| == |s.tpos| && TrailOk(s.vars, s.trail, s.tpos, s.dlevel) && Undone(s.vars, s.tpos, t, a)
    ensures blevel < s.dlevel && forall i :: t < i < |s.trail| ==> Level(s.vars, s.trail[i]) > blevel
    ensures forall v :: 0 <= v < |mark| && mark[v] ==> exists i :: 0 <= i < |conflicts| && Index(conflicts[i]) == v
    ensures -1 <= t < |s.trail|
  {
    hide Queue, Inv, Strong, Walking, Entails, MarkedLits, Minimized, Nogood, Marks, CurrentUpTo, TrailOk, Undone,
      ReasonsOk, ClausesOk;
    StrongOf(f, s, p);
    WalkingEnds(f, s, mark, conflicts, t, a);
    NogoodFalse(s, mark, conflicts, uip, ng, blevel);
    LevelAbove(s, t + 1, blevel);
    ConflictsCoverMarks(s.vars, s.dlevel, mark, conflicts);
  }

  lemma WalkingEnds(f: Cnf, s: State, mark: seq<bool>, conflicts: seq<Lit>, t: int, a: seq<Var>)
    requires Walking(f, s, mark, conflicts, 0, t, a)
    ensures |a| == |s.vars| == |s.tpos| && Undone(s.vars, s.tpos, t, a)
    ensures s.dlevel > 0 && Marks(s.vars, s.dlevel, mark, conflicts, 0) && -1 <= t < |s.trail|
  {
    hide Inv, Strong, Marks, CurrentUpTo;
    TrailOf(f, s);
    hide TrailOk;
    TrailShape(s.vars, s.trail, s.tpos, s.dlevel);
  }

  lemma LevelAbove(s: State, t: nat, b: nat)
    requires TrailOk(s.vars, s.trail, s.tpos, s.dlevel) && t < |s.trail| && Level(s.vars, s.trail[t]) > b
    ensures forall i :: t <= i < |s.trail| ==> InRange(s.trail[i], |s.vars|) && Level(s.vars, s.trail[i]) > b
  {
    hide TrailOk;
    TrailShape(s.vars, s.trail, s.tpos, s.dlevel);
    forall i | t <= i < |s.trail| ensures Level(s.vars, s.trail[i]) > b {
      TrailOrder(s.vars, s.trail, s.tpos, s.dlevel, t, i);
    }
  }

  lemma ConflictsCoverMarks(a: seq<Var>, dl: nat, mark: seq<bool>, conflicts: seq<Lit>)
    requires Marks(a, dl, mark, conflicts, 0)
    ensures |mark| == |a| && forall v :: 0 <= v < |mark| && mark[v] ==>
          exists i :: 0 <= i < |conflicts| && Index(conflicts[i]) == v
  {
    forall v | 0 <= v < |mark| && mark[v] ensures exists i :: 0 <= i < |conflicts| && Index(conflicts[i]) == v {
      assert v !in Current(a, dl, mark);
      var i :| 0 <= i < |conflicts| && conflicts[i] == -TrueLit(a, v);
    }
  }

  lemma LearntStorable(f: Cnf, s: State, ng: Clause)
    requires Inv(f, s) && forall k :: 0 <= k < |ng| ==> InRange(ng[k], |s.vars|)
    ensures |s.units| == |s.vars| && forall k :: 0 <= k < |ng| ==> ng[k] in s.watches
  {
  }

  lemma QueueFacts(f: Cnf, s: State, p: nat)
    requires Queue(f, s, p)
    ensures Inv(f, s) && p <= |s.trail| && |s.tpos| == |s.vars|
  {
  }

  lemma InvClause(f: Cnf, s: State, c: nat)
    requires Inv(f, s) && c < |s.clauses|
    ensures ClauseOk(|s.vars|, s.clauses[c])
  {
  }

  lemma DoomedAtZero(f: Cnf, s: State, x: Lit, p: nat, d: nat, k: nat)
    requires Scanning(f, s, x, p, 0, false, d, k)
    ensures s.dlevel == 0 && Inv(f, s)
  {
  }

  /** The clauses over `n` variables not stored yet. */
  ghost function Unstored(csets: seq<set<Lit>>, n: nat): set<set<Lit>> {
    Universe(n) - SetOf(csets)
  }

  /** Stored clauses stay stored and level-0 variables stay fixed. */
  ghost predicate Grown(csets: seq<set<Lit>>, a: seq<Var>, csets': seq<set<Lit>>, b: seq<Var>) {
    |a| == |b| && Unstored(csets', |b|) <= Unstored(csets, |a|) && Unfixed(b) <= Unfixed(a)
  }

  /** A new clause was stored or a variable was newly fixed at level 0. */
  ghost predicate Advanced(csets: seq<set<Lit>>, a: seq<Var>, csets': seq<set<Lit>>, b: seq<Var>) {
    && |a| == |b|
    && (Unstored(csets', |b|) < Unstored(csets, |a|)
        || (Unstored(csets', |b|) == Unstored(csets, |a|) && Unfixed(b) < Unfixed(a)))
  }

  lemma AdvancedAfterGrown(c0: seq<set<Lit>>, a0: seq<Var>, c1: seq<set<Lit>>, a1: seq<Var>, c2: seq<set<Lit>>,
                           a2: seq<Var>)
    requires Grown(c0, a0, c1, a1) && Grown(c1, a1, c2, a2) && Advanced(c1, a1, c2, a2)
    ensures Grown(c0, a0, c2, a2) && Advanced(c0, a0, c2, a2)
  {
    hide Unstored, Unfixed;
  }

  /** One clause was learnt, unlike any stored before. */
  ghost predicate Learnt(csets: seq<set<Lit>>, csets': seq<set<Lit>>, n: nat) {
    && |csets'| == |csets| + 1 && csets' == csets + [csets'[|csets|]]
    && csets'[|csets|] !in csets && csets'[|csets|] in Universe(n)
  }

  /** Propagating from `a` to `b`, backjumping to `c` and setting `l` there is progress. */
  lemma LearningAdvances(csets: seq<set<Lit>>, a: seq<Var>, b: seq<Var>, csets': seq<set<Lit>>, c: seq<Var>, l: Lit,
                         dl: nat, r: Option<nat>)
    requires Extends(a, b) && KeepsFixed(b, c) && InRange(l, |c|) && IsFree(c, l)
    requires r.Some? ==> Learnt(csets, csets', |c|)
    requires r.None? ==> csets' == csets && dl == 0
    ensures Grown(csets, a, csets', SetLit(c, l, dl, r)) && Advanced(csets, a, csets', SetLit(c, l, dl, r))
  {
    var d := SetLit(c, l, dl, r);
    forall v | v in Unfixed(d) ensures v in Unfixed(a) {
      assert a[v].isSet && a[v].dlevel == 0 ==> b[v] == a[v] && c[v] == a[v];
    }
    if r.Some? {
      LearntShrinks(csets, csets', |c|);
    } else {
      assert Index(l) in Unfixed(a) && Index(l) !in Unfixed(d);
    }
  }

  lemma LearntShrinks(csets: seq<set<Lit>>, csets': seq<set<Lit>>, n: nat)
    requires Learnt(csets, csets', n)
    ensures Unstored(csets', n) < Unstored(csets, n)
  {
    var x := csets'[|csets|];
    assert SetOf(csets') == SetOf(csets) + {x};
    assert x in Unstored(csets, n) && x !in Unstored(csets', n);
  }

  lemma DecisionAssertable(f: Cnf, s: State, l: Lit)
    requires Queue(f, s, |s.trail|) && InRange(l, |s.vars|) && IsFree(s.vars, l)
    requires s.dlevel == 0 ==> Entails(f, {l}) && |s.units| == |s.vars| && s.units[Index(l)] == Some(Sign(l))
    requires s.dlevel > 0 ==> forall i :: 0 <= i < |s.trail| ==>
          InRange(s.trail[i], |s.vars|) && Level(s.vars, s.trail[i]) < s.dlevel
    ensures Assertable(f, s, l, None)
  {
  }

  lemma AssertableFacts(f: Cnf, s: State, l: Lit, r: Option<nat>)
    requires Assertable(f, s, l, r)
    ensures InRange(l, |s.vars|) && IsFree(s.vars, l) && |s.tpos| == |s.vars|
  {
  }

  lemma SetGrows(csets: seq<set<Lit>>, a: seq<Var>, l: Lit, dl: nat)
    requires InRange(l, |a|) && (IsFree(a, l) || dl == 0)
    ensures Grown(csets, a, csets, SetLit(a, l, dl, None))
  {
  }

  lemma ExtendsGrows(csets: seq<set<Lit>>, a: seq<Var>, b: seq<Var>)
    requires Extends(a, b)
    ensures Grown(csets, a, csets, b)
  {
    forall v | v in Unfixed(b) ensures v in Unfixed(a) {
      assert a[v].isSet ==> b[v] == a[v];
    }
  }

  lemma GrownTransitive(c0: seq<set<Lit>>, a0: seq<Var>, c1: seq<set<Lit>>, a1: seq<Var>, c2: seq<set<Lit>>,
                        a2: seq<Var>)
    requires Grown(c0, a0, c1, a1) && Grown(c1, a1, c2, a2)
    ensures Grown(c0, a0, c2, a2)
  {
  }

  lemma GrownAfterAdvanced(c0: seq<set<Lit>>, a0: seq<Var>, c1: seq<set<Lit>>, a1: seq<Var>, c2: seq<set<Lit>>,
                           a2: seq<Var>)
    requires Advanced(c0, a0, c1, a1) && Grown(c1, a1, c2, a2)
    ensures Advanced(c0, a0, c2, a2)
  {
    hide Unstored, Unfixed;
  }
}
