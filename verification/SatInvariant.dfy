/**
 The state invariant of the SAT engine, on values: assignment records, the trail, the clause
 store and the watch lists. `tpos` is the proof's record of where on the trail a variable was
 last set.
 */
module SatInvariant {
  import opened Wrappers
  import opened SatLogic

  /** The part of a variable record that an assignment writes. */
  datatype Var = Var(isSet: bool, sign: bool, dlevel: nat, reason: Option<nat>)

  function Sign(l: Lit): bool {
    l < 0
  }

  function Level(a: seq<Var>, l: Lit): nat
    requires InRange(l, |a|)
  {
    a[Index(l)].dlevel
  }

  predicate IsTrue(a: seq<Var>, l: Lit)
    requires InRange(l, |a|)
  {
    a[Index(l)].isSet && a[Index(l)].sign == Sign(l)
  }

  predicate IsFalse(a: seq<Var>, l: Lit)
    requires InRange(l, |a|)
  {
    a[Index(l)].isSet && a[Index(l)].sign == !Sign(l)
  }

  predicate IsFree(a: seq<Var>, l: Lit)
    requires InRange(l, |a|)
  {
    !a[Index(l)].isSet
  }

  /** The literal of variable `v` that its record makes (or last made) true. */
  function TrueLit(a: seq<Var>, v: nat): Lit
    requires v < |a|
  {
    if a[v].sign then -(v + 1) else v + 1
  }

  ghost function FreeVars(a: seq<Var>): set<nat> {
    set v: nat | v < |a| && !a[v].isSet
  }

  ghost predicate ClausesOk(n: nat, cls: seq<Clause>) {
    forall c :: 0 <= c < |cls| ==> ClauseOk(n, cls[c])
  }

  /** Set variables are on the trail; levels rise along it; above level 0 nothing is set twice. */
  ghost predicate TrailOk(a: seq<Var>, tr: seq<Lit>, tpos: seq<nat>, dl: nat) {
    && |tpos| == |a|
    && (forall i :: 0 <= i < |tr| ==> InRange(tr[i], |a|) && a[Index(tr[i])].isSet && Level(a, tr[i]) <= dl)
    && LevelsRise(a, tr)
    && (forall i :: 0 <= i < |tr| && Level(a, tr[i]) > 0 ==> tpos[Index(tr[i])] == i)
    && (forall v :: 0 <= v < |a| && a[v].isSet ==> tpos[v] < |tr| && tr[tpos[v]] == TrueLit(a, v))
  }

  ghost predicate LevelsRise(a: seq<Var>, tr: seq<Lit>)
    requires forall i :: 0 <= i < |tr| ==> InRange(tr[i], |a|)
  {
    forall i, j :: 0 <= i < j < |tr| ==> Level(a, tr[i]) <= Level(a, tr[j])
  }

  /** Clauses are listed, once each, by exactly their first two literals. */
  ghost predicate WatchListsOk(n: nat, cls: seq<Clause>, ws: map<Lit, seq<nat>>)
    requires ClausesOk(n, cls)
  {
    && (forall l :: InRange(l, n) <==> l in ws)
    && (forall l, i :: l in ws && 0 <= i < |ws[l]| ==>
          ws[l][i] < |cls| && (cls[ws[l][i]][0] == l || cls[ws[l][i]][1] == l))
    && (forall l :: l in ws ==> Distinct(ws[l]))
    && (forall c :: 0 <= c < |cls| ==> cls[c][0] in ws && cls[c][1] in ws && c in ws[cls[c][0]] && c in ws[cls[c][1]])
  }

  /** Clauses of the store, unit flags and level-0 trail literals are consequences of the input. */
  ghost predicate Entailed(f: Cnf, a: seq<Var>, tr: seq<Lit>, cls: seq<Clause>, csets: seq<set<Lit>>,
                           units: seq<Option<bool>>, empty: bool)
    requires forall i :: 0 <= i < |tr| ==> InRange(tr[i], |a|)
  {
    && |csets| == |cls|
    && (forall c :: 0 <= c < |cls| ==> csets[c] == LitSet(cls[c]) && Entails(f, csets[c]))
    && |units| == |a|
    && (forall v :: 0 <= v < |units| && units[v].Some? ==> Entails(f, {UnitLit(units, v)}))
    && (forall i :: 0 <= i < |tr| && Level(a, tr[i]) == 0 ==> Entails(f, {tr[i]}))
    && (empty ==> Entails(f, {}))
  }

  /** The literal that the unit flag and unit sign of variable `v` assert. */
  function UnitLit(units: seq<Option<bool>>, v: nat): Lit
    requires v < |units| && units[v].Some?
  {
    if units[v].value then -(v + 1) else v + 1
  }

  /** Trail literals are true. This fails only when level 0 has just been contradicted. */
  ghost predicate Consistent(a: seq<Var>, tr: seq<Lit>)
    requires forall i :: 0 <= i < |tr| ==> InRange(tr[i], |a|)
  {
    forall i :: 0 <= i < |tr| ==> IsTrue(a, tr[i])
  }

  /** `c` forced its first literal: the others are false, no later in level, and earlier on the trail. */
  ghost predicate Forces(a: seq<Var>, tpos: seq<nat>, c: Clause, v: nat)
    requires ClauseOk(|a|, c) && |tpos| == |a| && v < |a|
  {
    && c[0] == TrueLit(a, v)
    && forall k :: 1 <= k < |c| ==>
         && IsFalse(a, c[k]) && Index(c[k]) != v && Level(a, c[k]) <= a[v].dlevel
         && (a[v].dlevel > 0 ==> tpos[Index(c[k])] < tpos[v])
  }

  ghost predicate ReasonsOk(a: seq<Var>, tpos: seq<nat>, cls: seq<Clause>)
    requires ClausesOk(|a|, cls) && |tpos| == |a|
  {
    forall v :: 0 <= v < |a| && a[v].isSet && a[v].reason.Some? ==>
      a[v].reason.value < |cls| && Forces(a, tpos, cls[a[v].reason.value], v)
  }

  /** Above level 0 only the first literal of a level lacks a reason: it is the decision. */
  ghost predicate DecisionsFirst(a: seq<Var>, tr: seq<Lit>)
    requires forall i :: 0 <= i < |tr| ==> InRange(tr[i], |a|)
  {
    forall i, j :: 0 <= i < j < |tr| && Level(a, tr[j]) > 0 && a[Index(tr[j])].reason.None? ==>
      Level(a, tr[i]) < Level(a, tr[j])
  }

  /** If watch `w` is false and was propagated, its partner `o` is true and was so no later in level. */
  ghost predicate Guarded(a: seq<Var>, tpos: seq<nat>, w: Lit, o: Lit, limit: int)
    requires InRange(w, |a|) && InRange(o, |a|) && |tpos| == |a|
  {
    IsFalse(a, w) && tpos[Index(w)] < limit ==> IsTrue(a, o) && Level(a, o) <= Level(a, w)
  }

  ghost predicate ClauseGuarded(a: seq<Var>, tpos: seq<nat>, c: Clause, limit: int)
    requires ClauseOk(|a|, c) && |tpos| == |a|
  {
    Guarded(a, tpos, c[0], c[1], limit) && Guarded(a, tpos, c[1], c[0], limit)
  }

  /** Every clause is guarded for the trail literals before `limit`. */
  ghost predicate WatchesGuard(a: seq<Var>, tpos: seq<nat>, cls: seq<Clause>, limit: int)
    requires ClausesOk(|a|, cls) && |tpos| == |a|
  {
    forall c :: 0 <= c < |cls| ==> ClauseGuarded(a, tpos, cls[c], limit)
  }

  ghost predicate AllFalse(a: seq<Var>, c: Clause)
    requires forall k :: 0 <= k < |c| ==> InRange(c[k], |a|)
  {
    forall k :: 0 <= k < |c| ==> IsFalse(a, c[k])
  }

  /** What holds at all times, even after a contradiction at level 0. */
  ghost predicate Weak(f: Cnf, a: seq<Var>, tr: seq<Lit>, tpos: seq<nat>, dl: nat, cls: seq<Clause>,
                       csets: seq<set<Lit>>, ws: map<Lit, seq<nat>>, units: seq<Option<bool>>, empty: bool)
  {
    && ClausesOk(|a|, cls)
    && TrailOk(a, tr, tpos, dl)
    && WatchListsOk(|a|, cls, ws)
    && Entailed(f, a, tr, cls, csets, units, empty)
  }

  /** What holds in addition while the trail is consistent. */
  ghost predicate Strong(a: seq<Var>, tr: seq<Lit>, tpos: seq<nat>, cls: seq<Clause>)
    requires ClausesOk(|a|, cls) && |tpos| == |a|
    requires forall i :: 0 <= i < |tr| ==> InRange(tr[i], |a|)
  {
    && Consistent(a, tr)
    && ReasonsOk(a, tpos, cls)
    && DecisionsFirst(a, tr)
  }

  /** Setting free literal `l` at the current level. */
  function SetLit(a: seq<Var>, l: Lit, dl: nat, r: Option<nat>): seq<Var>
    requires InRange(l, |a|)
  {
    a[Index(l) := Var(true, Sign(l), dl, r)]
  }

  lemma TrailShape(a: seq<Var>, tr: seq<Lit>, tpos: seq<nat>, dl: nat)
    requires TrailOk(a, tr, tpos, dl)
    ensures |tpos| == |a|
    ensures forall i :: 0 <= i < |tr| ==> InRange(tr[i], |a|) && a[Index(tr[i])].isSet && Level(a, tr[i]) <= dl
  {
  }

  lemma TrailRises(a: seq<Var>, tr: seq<Lit>, tpos: seq<nat>, dl: nat)
    requires TrailOk(a, tr, tpos, dl)
    ensures (forall i :: 0 <= i < |tr| ==> InRange(tr[i], |a|)) && LevelsRise(a, tr)
  {
    hide LevelsRise;
  }

  /** The parts of a sound trail. */
  lemma TrailIs(a: seq<Var>, tr: seq<Lit>, tpos: seq<nat>, dl: nat)
    requires |tpos| == |a|
    requires forall i :: 0 <= i < |tr| ==>
      && InRange(tr[i], |a|) && a[Index(tr[i])].isSet
      && Level(a, tr[i]) <= dl && (Level(a, tr[i]) > 0 ==> tpos[Index(tr[i])] == i)
    requires LevelsRise(a, tr)
    requires forall v :: 0 <= v < |a| && a[v].isSet ==> tpos[v] < |tr| && tr[tpos[v]] == TrueLit(a, v)
    ensures TrailOk(a, tr, tpos, dl)
  {
    hide LevelsRise, TrueLit;
  }

  lemma OnTrail(a: seq<Var>, tr: seq<Lit>, tpos: seq<nat>, dl: nat, v: nat)
    requires TrailOk(a, tr, tpos, dl) && v < |a| && a[v].isSet
    ensures |tpos| == |a| && tpos[v] < |tr| && tr[tpos[v]] == TrueLit(a, v) && a[v].dlevel <= dl
  {
  }

  lemma TrailEntry(a: seq<Var>, tr: seq<Lit>, tpos: seq<nat>, dl: nat, i: nat)
    requires TrailOk(a, tr, tpos, dl) && i < |tr|
    ensures |tpos| == |a| && InRange(tr[i], |a|) && a[Index(tr[i])].isSet && Level(a, tr[i]) <= dl
    ensures Level(a, tr[i]) > 0 ==> tpos[Index(tr[i])] == i
  {
  }

  lemma TrailOrder(a: seq<Var>, tr: seq<Lit>, tpos: seq<nat>, dl: nat, i: nat, j: nat)
    requires TrailOk(a, tr, tpos, dl) && i <= j < |tr| && InRange(tr[i], |a|) && InRange(tr[j], |a|)
    ensures Level(a, tr[i]) <= Level(a, tr[j])
  {
  }

  lemma FalseLitOnTrail(a: seq<Var>, tr: seq<Lit>, tpos: seq<nat>, dl: nat, l: Lit)
    requires TrailOk(a, tr, tpos, dl) && InRange(l, |a|) && IsFalse(a, l)
    ensures tpos[Index(l)] < |tr| && tr[tpos[Index(l)]] == -l && Level(a, tr[tpos[Index(l)]]) == Level(a, l)
  {
    assert tr[tpos[Index(l)]] == TrueLit(a, Index(l));
  }

  /** A false level-0 literal is refuted by the input. */
  lemma ZeroLevelFalse(f: Cnf, a: seq<Var>, tr: seq<Lit>, tpos: seq<nat>, dl: nat, l: Lit)
    requires TrailOk(a, tr, tpos, dl) && InRange(l, |a|) && IsFalse(a, l) && Level(a, l) == 0
    requires forall i :: 0 <= i < |tr| && Level(a, tr[i]) == 0 ==> Entails(f, {tr[i]})
    ensures Entails(f, {-l})
  {
    FalseLitOnTrail(a, tr, tpos, dl, l);
  }

  /** A clause false at level 0 refutes the input. */
  lemma ConflictAtZero(f: Cnf, a: seq<Var>, tr: seq<Lit>, tpos: seq<nat>, cls: seq<Clause>,
                       csets: seq<set<Lit>>, units: seq<Option<bool>>, empty: bool, c: nat)
    requires ClausesOk(|a|, cls) && TrailOk(a, tr, tpos, 0) && Entailed(f, a, tr, cls, csets, units, empty)
    requires c < |cls| && AllFalse(a, cls[c])
    ensures Unsat(f)
  {
    forall l | l in csets[c] ensures l != NIL && Entails(f, {-l}) {
      var k :| 0 <= k < |cls[c]| && cls[c][k] == l;
      FalseLitOnTrail(a, tr, tpos, 0, l);
      ZeroLevelFalse(f, a, tr, tpos, 0, l);
    }
    DropFalse(f, csets[c], {});
    EmptyIsUnsat(f);
  }
}
