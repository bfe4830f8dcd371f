/**
 The propagation steps of the SAT engine as functions on its state, and the invariant each keeps.
 */
module SatSteps {
  import opened Wrappers
  import opened SatLogic
  import opened SatInvariant
  import opened SatPropagation

  /** The engine's state that its invariant speaks of. */
  datatype State = State(
    vars: seq<Var>,
    trail: seq<Lit>,
    tpos: seq<nat>,
    dlevel: nat,
    clauses: seq<Clause>,
    csets: seq<set<Lit>>,
    watches: map<Lit, seq<nat>>,
    units: seq<Option<bool>>,
    empty: bool)

  /** The other watch of a clause that watches `f`. */
  function Partner(c: Clause, f: Lit): Lit
    requires |c| >= 2
  {
    if c[0] == f then c[1] else c[0]
  }

  ghost predicate Inv(f: Cnf, s: State) {
    Weak(f, s.vars, s.trail, s.tpos, s.dlevel, s.clauses, s.csets, s.watches, s.units, s.empty)
  }

  ghost predicate Waiting(s: State, p: nat)
    requires TrailOk(s.vars, s.trail, s.tpos, s.dlevel)
  {
    && p <= |s.trail|
    && forall q :: p <= q < |s.trail| ==> Level(s.vars, s.trail[q]) == s.dlevel && s.tpos[Index(s.trail[q])] == q
  }

  /** Only unit clauses set variables at level 0 without a reason. */
  ghost predicate UnitsRecorded(a: seq<Var>, units: seq<Option<bool>>)
  {
    |units| == |a| &&
    forall v :: 0 <= v < |a| && a[v].isSet && a[v].dlevel == 0 && a[v].reason.None? ==> units[v] == Some(a[v].sign)
  }

  /** Variables that are set stay as they are. */
  ghost predicate Extends(a: seq<Var>, b: seq<Var>) {
    |a| == |b| && forall v :: 0 <= v < |a| && a[v].isSet ==> b[v] == a[v]
  }

  /** Trail literals before `p` are propagated; those from `p` on wait, all at the current level. */
  ghost predicate Queue(f: Cnf, s: State, p: nat)
  {
    && Inv(f, s)
    && Strong(s.vars, s.trail, s.tpos, s.clauses)
    && WatchesGuard(s.vars, s.tpos, s.clauses, p)
    && Waiting(s, p)
    && UnitsRecorded(s.vars, s.units)
  }

  /** The first `i` clauses watching `x` are guarded against `x`. */
  ghost predicate Scanned(f: Cnf, s: State, x: Lit, i: nat)
    requires Inv(f, s) && InRange(x, |s.vars|)
  {
    && i <= |s.watches[x]|
    && forall k :: 0 <= k < i ==>
      var o := Partner(s.clauses[s.watches[x][k]], x);
      IsTrue(s.vars, o) && Level(s.vars, o) <= s.dlevel
  }

  /** Clause `d`, listed at index `k` under `x`, is false at level 0. */
  ghost predicate Doomed(f: Cnf, s: State, x: Lit, d: nat, k: nat)
    requires Inv(f, s) && InRange(x, |s.vars|)
  {
    s.dlevel == 0 && k < |s.watches[x]| && s.watches[x][k] == d && AllFalse(s.vars, s.clauses[d])
  }

  /** Literal `x`, false since trail position `p`, is being propagated. */
  ghost predicate Visiting(f: Cnf, s: State, x: Lit, p: nat)
  {
    && Inv(f, s) && p < |s.trail| && x == -s.trail[p] && IsFalse(s.vars, x)
    && s.tpos[Index(x)] == p && Level(s.vars, x) == s.dlevel
  }

  /** Clause `c` watches `x` and is false in every literal. */
  ghost predicate Falsified(s: State, x: Lit, c: nat) {
    && c < |s.clauses| && ClauseOk(|s.vars|, s.clauses[c])
    && AllFalse(s.vars, s.clauses[c]) && (s.clauses[c][0] == x || s.clauses[c][1] == x)
  }

  ghost function AssignStep(s: State, l: Lit, r: Option<nat>): State
    requires InRange(l, |s.vars|) && |s.tpos| == |s.vars|
  {
    s.(vars := SetLit(s.vars, l, s.dlevel, r), trail := s.trail + [l], tpos := s.tpos[Index(l) := |s.trail|])
  }

  /** Clause `c` with its free watch brought to the front. */
  ghost function FrontStep(s: State, c: nat, x: Lit): State
    requires c < |s.clauses| && |s.clauses[c]| >= 2
  {
    if s.clauses[c][0] == x then s.(clauses := s.clauses[c := Swap(s.clauses[c], 0, 1)]) else s
  }

  ghost function ImplyStep(s: State, c: nat, x: Lit): State
    requires c < |s.clauses| && |s.clauses[c]| >= 2 && |s.tpos| == |s.vars|
    requires InRange(Partner(s.clauses[c], x), |s.vars|)
  {
    AssignStep(FrontStep(s, c, x), Partner(s.clauses[c], x), Some(c))
  }

  ghost function MoveStep(s: State, x: Lit, i: nat, j: nat): State
    requires x in s.watches && i < |s.watches[x]| && s.watches[x][i] < |s.clauses|
    requires 2 <= j < |s.clauses[s.watches[x][i]]| && s.clauses[s.watches[x][i]][j] in s.watches
  {
    var c := s.watches[x][i];
    s.(clauses := s.clauses[c := Swap(s.clauses[c], if s.clauses[c][0] == x then 0 else 1, j)],
       watches := MovedWatches(s.watches, x, i, s.clauses[c][j]))
  }

  lemma SetLevel(f: Cnf, s: State, l: Lit)
    requires Inv(f, s) && InRange(l, |s.vars|) && s.vars[Index(l)].isSet
    ensures Level(s.vars, l) <= s.dlevel
  {
    hide TrailOk, Entailed, WatchListsOk;
    OnTrail(s.vars, s.trail, s.tpos, s.dlevel, Index(l));
  }

  lemma FrontKeeps(f: Cnf, s: State, c: nat, x: Lit, p: nat, strong: bool)
    requires Inv(f, s) && c < |s.clauses| && (strong ==> Queue(f, s, p))
    requires !IsTrue(s.vars, s.clauses[c][0]) || s.clauses[c][0] != x
    ensures Inv(f, FrontStep(s, c, x)) && (strong ==> Queue(f, FrontStep(s, c, x), p))
  {
    hide LevelsRise;
    if s.clauses[c][0] == x {
      FrontSwapKeepsWatchLists(|s.vars|, s.clauses, s.watches, c);
      SwapKeepsEntailed(f, s.vars, s.trail, s.clauses, s.csets, s.units, s.empty, c, 0, 1);
      if strong {
        SwapKeepsReasons(s.vars, s.tpos, s.clauses, c, 0, 1);
        FrontSwapKeepsGuard(s.vars, s.tpos, s.clauses, c, p);
      }
    }
  }

  /** What makes `l`, with clause `r` as its reason, a consequence of the current assignment. */
  ghost predicate Forced(s: State, l: Lit, r: nat)
    requires ClausesOk(|s.vars|, s.clauses)
  {
    && r < |s.clauses| && s.clauses[r][0] == l
    && forall k :: 1 <= k < |s.clauses[r]| ==> IsFalse(s.vars, s.clauses[r][k])
  }

  /** Setting a free literal that is forced, or that opens a level. */
  lemma AssignKeeps(f: Cnf, s: State, l: Lit, r: Option<nat>, p: nat, strong: bool)
    requires Inv(f, s) && InRange(l, |s.vars|) && IsFree(s.vars, l) && (strong ==> Queue(f, s, p))
    requires r.Some? ==> Forced(s, l, r.value)
    requires r.None? ==> if s.dlevel == 0 then Entails(f, {l})
                         else forall i :: 0 <= i < |s.trail| ==> Level(s.vars, s.trail[i]) < s.dlevel
    requires r.None? && s.dlevel == 0 ==> s.units[Index(l)] == Some(Sign(l))
    ensures Inv(f, AssignStep(s, l, r))
    ensures strong ==> Queue(f, AssignStep(s, l, r), p)
  {
    hide TrailOk, LevelsRise, Entailed, WatchListsOk, WatchesGuard, ReasonsOk, DecisionsFirst;
    TrailShape(s.vars, s.trail, s.tpos, s.dlevel);
    if s.dlevel == 0 && r.Some? {
      ImpliedAtZero(f, s.vars, s.trail, s.tpos, s.clauses, s.csets, s.units, s.empty, r.value, l);
    }
    SetKeepsTrail(s.vars, s.trail, s.tpos, s.dlevel, l, r);
    SetKeepsEntailed(f, s.vars, s.trail, s.clauses, s.csets, s.units, s.empty, l, s.dlevel, r);
    if strong {
      if r.Some? {
        forall k | 1 <= k < |s.clauses[r.value]| ensures Level(s.vars, s.clauses[r.value][k]) <= s.dlevel {
          SetLevel(f, s, s.clauses[r.value][k]);
        }
      }
      SetKeepsReasons(s.vars, s.trail, s.tpos, s.dlevel, s.clauses, l, r);
      SetKeepsGuard(s.vars, s.trail, s.tpos, s.clauses, l, s.dlevel, r, p);
      SetKeepsDecisions(s, l, r);
      SetKeepsWaiting(s, l, r, p);
    }
  }

  lemma SetKeepsDecisions(s: State, l: Lit, r: Option<nat>)
    requires TrailOk(s.vars, s.trail, s.tpos, s.dlevel) && InRange(l, |s.vars|) && IsFree(s.vars, l)
    requires DecisionsFirst(s.vars, s.trail)
    requires r.None? && s.dlevel > 0 ==> forall i :: 0 <= i < |s.trail| ==> Level(s.vars, s.trail[i]) < s.dlevel
    ensures var s' := AssignStep(s, l, r);
            (forall i :: 0 <= i < |s'.trail| ==> InRange(s'.trail[i], |s'.vars|)) && DecisionsFirst(s'.vars, s'.trail)
  {
    hide TrailOk;
    TrailShape(s.vars, s.trail, s.tpos, s.dlevel);
    var s' := AssignStep(s, l, r);
    forall i | 0 <= i < |s.trail|
      ensures s'.trail[i] == s.trail[i] && s'.vars[Index(s.trail[i])] == s.vars[Index(s.trail[i])]
    {
    }
  }

  lemma SetKeepsWaiting(s: State, l: Lit, r: Option<nat>, p: nat)
    requires TrailOk(s.vars, s.trail, s.tpos, s.dlevel) && InRange(l, |s.vars|) && IsFree(s.vars, l)
    requires Waiting(s, p)
    ensures var s' := AssignStep(s, l, r);
            TrailOk(s'.vars, s'.trail, s'.tpos, s'.dlevel) && Waiting(s', p)
  {
    hide TrailOk;
    TrailShape(s.vars, s.trail, s.tpos, s.dlevel);
    var s' := AssignStep(s, l, r);
    SetKeepsTrail(s.vars, s.trail, s.tpos, s.dlevel, l, r);
    forall q | p <= q < |s'.trail|
      ensures InRange(s'.trail[q], |s'.vars|) && Level(s'.vars, s'.trail[q]) == s'.dlevel
              && s'.tpos[Index(s'.trail[q])] == q
    {
      if q < |s.trail| {
        assert s'.trail[q] == s.trail[q] && s.vars[Index(s.trail[q])].isSet;
      }
    }
  }

  /** Clause `c`, false but for its free watch, forces that watch. */
  lemma ImplyKeeps(f: Cnf, s: State, x: Lit, i: nat, p: nat, strong: bool)
    requires Visiting(f, s, x, p) && i < |s.watches[x]| && (strong ==> Queue(f, s, p) && Scanned(f, s, x, i))
    requires var c := s.watches[x][i];
             IsFree(s.vars, Partner(s.clauses[c], x))
             && forall k :: 2 <= k < |s.clauses[c]| ==> IsFalse(s.vars, s.clauses[c][k])
    ensures var c := s.watches[x][i];
            var s' := ImplyStep(s, c, x);
            Visiting(f, s', x, p) && (strong ==> Queue(f, s', p) && Scanned(f, s', x, i + 1))
  {
    hide LevelsRise;
    var c := s.watches[x][i];
    var w := Partner(s.clauses[c], x);
    var t := FrontStep(s, c, x);
    FrontKeeps(f, s, c, x, p, strong);
    FrontForces(f, s, c, x);
    AssignKeeps(f, t, w, Some(c), p, strong);
    AssignKeepsVisiting(f, t, w, Some(c), x, p);
    if strong {
      ImplyKeepsScanned(f, s, x, i);
    }
  }

  lemma FrontForces(f: Cnf, s: State, c: nat, x: Lit)
    requires Inv(f, s) && c < |s.clauses| && InRange(x, |s.vars|) && IsFalse(s.vars, x)
    requires s.clauses[c][0] == x || s.clauses[c][1] == x
    requires forall k :: 2 <= k < |s.clauses[c]| ==> IsFalse(s.vars, s.clauses[c][k])
    requires Inv(f, FrontStep(s, c, x))
    ensures Forced(FrontStep(s, c, x), Partner(s.clauses[c], x), c)
  {
    hide LevelsRise;
  }

  lemma AssignKeepsVisiting(f: Cnf, s: State, l: Lit, r: Option<nat>, x: Lit, p: nat)
    requires Visiting(f, s, x, p) && InRange(l, |s.vars|) && IsFree(s.vars, l)
    requires Inv(f, AssignStep(s, l, r))
    ensures Visiting(f, AssignStep(s, l, r), x, p)
  {
    hide LevelsRise;
  }

  lemma ImplyKeepsScanned(f: Cnf, s: State, x: Lit, i: nat)
    requires Inv(f, s) && x in s.watches && i < |s.watches[x]| && IsFalse(s.vars, x) && Scanned(f, s, x, i)
    requires IsFree(s.vars, Partner(s.clauses[s.watches[x][i]], x))
    requires Inv(f, ImplyStep(s, s.watches[x][i], x))
    ensures Scanned(f, ImplyStep(s, s.watches[x][i], x), x, i + 1)
  {
    hide Inv, ImplyStep, PartnerTrue, Scanned;
    WatchShape(f, s, x, i);
    var s' := ImplyStep(s, s.watches[x][i], x);
    ImplyShape(s, s.watches[x][i], x);
    forall k | 0 <= k < i + 1 ensures PartnerTrue(s', x, k) {
      if k < i {
        ScannedAt(f, s, x, i, k);
        ImplyKeepsPartner(f, s, x, i, k);
      } else {
        ImplyMakesPartner(f, s, x, i);
      }
    }
    ScannedFrom(f, s', x, i + 1);
  }

  /** The partner of `x` in the `k`-th clause watching it is true, at no higher level. */
  ghost predicate PartnerTrue(s: State, x: Lit, k: nat) {
    && x in s.watches && k < |s.watches[x]| && s.watches[x][k] < |s.clauses|
    && ClauseOk(|s.vars|, s.clauses[s.watches[x][k]])
    && var o := Partner(s.clauses[s.watches[x][k]], x);
       IsTrue(s.vars, o) && Level(s.vars, o) <= s.dlevel
  }

  lemma WatchShape(f: Cnf, s: State, x: Lit, i: nat)
    requires Inv(f, s) && x in s.watches && i < |s.watches[x]|
    ensures InRange(x, |s.vars|) && |s.tpos| == |s.vars| && s.watches[x][i] < |s.clauses|
    ensures var c := s.clauses[s.watches[x][i]]; ClauseOk(|s.vars|, c) && (c[0] == x || c[1] == x)
    ensures forall k :: 0 <= k < |s.watches[x]| && k != i ==> s.watches[x][k] != s.watches[x][i]
  {
    hide TrailOk, Entailed;
    TrailShape(s.vars, s.trail, s.tpos, s.dlevel);
  }

  lemma ImplyShape(s: State, c: nat, x: Lit)
    requires c < |s.clauses| && |s.clauses[c]| >= 2 && |s.tpos| == |s.vars|
             && InRange(Partner(s.clauses[c], x), |s.vars|)
    ensures ImplyStep(s, c, x).watches == s.watches && |ImplyStep(s, c, x).vars| == |s.vars|
  {
  }

  lemma ScannedAt(f: Cnf, s: State, x: Lit, i: nat, k: nat)
    requires Inv(f, s) && InRange(x, |s.vars|) && x in s.watches && Scanned(f, s, x, i) && k < i
    ensures PartnerTrue(s, x, k)
  {
    hide TrailOk, Entailed;
    WatchShape(f, s, x, k);
  }

  lemma ScannedFrom(f: Cnf, s: State, x: Lit, i: nat)
    requires Inv(f, s) && InRange(x, |s.vars|) && x in s.watches && i <= |s.watches[x]|
    requires forall k :: 0 <= k < i ==> PartnerTrue(s, x, k)
    ensures Scanned(f, s, x, i)
  {
    hide Inv;
    forall k | 0 <= k < i && PartnerTrue(s, x, k)
      ensures var o := Partner(s.clauses[s.watches[x][k]], x);
              IsTrue(s.vars, o) && Level(s.vars, o) <= s.dlevel
    {
    }
  }

  /** Implying the partner of clause `i` leaves the other clauses alone. */
  lemma ImplyKeepsPartner(f: Cnf, s: State, x: Lit, i: nat, k: nat)
    requires Inv(f, s) && x in s.watches && i < |s.watches[x]| && k < i && PartnerTrue(s, x, k)
    requires IsFree(s.vars, Partner(s.clauses[s.watches[x][i]], x))
    ensures |s.tpos| == |s.vars| && PartnerTrue(ImplyStep(s, s.watches[x][i], x), x, k)
  {
    hide Inv;
    WatchShape(f, s, x, i);
    assert s.watches[x][k] != s.watches[x][i];
  }

  lemma ImplyMakesPartner(f: Cnf, s: State, x: Lit, i: nat)
    requires Inv(f, s) && x in s.watches && i < |s.watches[x]|
    requires IsFree(s.vars, Partner(s.clauses[s.watches[x][i]], x))
    ensures |s.tpos| == |s.vars| && PartnerTrue(ImplyStep(s, s.watches[x][i], x), x, i)
  {
    hide Inv;
    WatchShape(f, s, x, i);
    SwapKeepsLits(|s.vars|, s.clauses[s.watches[x][i]], 0, 1);
  }

  lemma MoveKeeps(f: Cnf, s: State, x: Lit, i: nat, j: nat, p: nat, strong: bool)
    requires Visiting(f, s, x, p) && i < |s.watches[x]| && (strong ==> Queue(f, s, p) && Scanned(f, s, x, i))
    requires var c := s.clauses[s.watches[x][i]];
             !IsTrue(s.vars, Partner(c, x)) && 2 <= j < |c| && !IsFalse(s.vars, c[j])
    ensures s.clauses[s.watches[x][i]][j] in s.watches
    ensures var s' := MoveStep(s, x, i, j);
            Visiting(f, s', x, p) && (strong ==> Queue(f, s', p) && Scanned(f, s', x, i))
  {
    hide TrailOk, LevelsRise, Entailed, Scanned, UnitsRecorded, Consistent, DecisionsFirst;
    TrailShape(s.vars, s.trail, s.tpos, s.dlevel);
    var c := s.watches[x][i];
    var fi := if s.clauses[c][0] == x then 0 else 1;
    MoveKeepsWatchLists(|s.vars|, s.clauses, s.watches, x, i, fi, j);
    SwapKeepsEntailed(f, s.vars, s.trail, s.clauses, s.csets, s.units, s.empty, c, fi, j);
    if strong {
      SwapKeepsReasons(s.vars, s.tpos, s.clauses, c, fi, j);
      MoveKeepsGuard(s.vars, s.tpos, s.clauses, c, fi, j, p);
      MoveKeepsScanned(f, s, x, i, j);
    }
  }

  lemma MoveKeepsScanned(f: Cnf, s: State, x: Lit, i: nat, j: nat)
    requires Inv(f, s) && x in s.watches && i < |s.watches[x]| && Scanned(f, s, x, i)
    requires 2 <= j < |s.clauses[s.watches[x][i]]| && s.clauses[s.watches[x][i]][j] in s.watches
    requires s.clauses[s.watches[x][i]][j] != x
    requires Inv(f, MoveStep(s, x, i, j))
    ensures Scanned(f, MoveStep(s, x, i, j), x, i)
  {
    hide TrailOk, Entailed;
    TrailShape(s.vars, s.trail, s.tpos, s.dlevel);
    var c := s.watches[x][i];
    var s' := MoveStep(s, x, i, j);
    forall k | 0 <= k < i
      ensures var o := Partner(s'.clauses[s'.watches[x][k]], x);
              IsTrue(s'.vars, o) && Level(s'.vars, o) <= s'.dlevel
    {
      assert s'.watches[x][k] == s.watches[x][k] != c;
    }
  }

  lemma ScanComplete(f: Cnf, s: State, x: Lit, p: nat)
    requires Visiting(f, s, x, p) && Queue(f, s, p) && Scanned(f, s, x, |s.watches[x]|)
    ensures Queue(f, s, p + 1)
  {
    hide TrailOk, Strong, Entailed, WatchListsOk, Scanned, Guarded, UnitsRecorded;
    TrailShape(s.vars, s.trail, s.tpos, s.dlevel);
    forall c | 0 <= c < |s.clauses| ensures ClauseGuarded(s.vars, s.tpos, s.clauses[c], p + 1) {
      assert ClauseGuarded(s.vars, s.tpos, s.clauses[c], p);
      WatchScanned(f, s, x, p, c, 0);
      WatchScanned(f, s, x, p, c, 1);
    }
  }

  lemma WatchScanned(f: Cnf, s: State, x: Lit, p: nat, c: nat, e: nat)
    requires Visiting(f, s, x, p) && Scanned(f, s, x, |s.watches[x]|)
    requires c < |s.clauses| && e < 2 && Guarded(s.vars, s.tpos, s.clauses[c][e], s.clauses[c][1 - e], p)
    ensures Guarded(s.vars, s.tpos, s.clauses[c][e], s.clauses[c][1 - e], p + 1)
  {
    hide Inv, Scanned;
    Watched(f, s, c);
    var w := s.clauses[c][e];
    if IsFalse(s.vars, w) && s.tpos[Index(w)] == p {
      FalseAt(f, s, w);
      assert w == x;
      var k :| 0 <= k < |s.watches[x]| && s.watches[x][k] == c;
      ScannedAt(f, s, x, |s.watches[x]|, k);
      assert Partner(s.clauses[s.watches[x][k]], x) == s.clauses[c][1 - e];
    }
  }

  lemma Watched(f: Cnf, s: State, c: nat)
    requires Inv(f, s) && c < |s.clauses|
    ensures |s.tpos| == |s.vars| && ClauseOk(|s.vars|, s.clauses[c])
    ensures s.clauses[c][0] in s.watches && c in s.watches[s.clauses[c][0]]
    ensures s.clauses[c][1] in s.watches && c in s.watches[s.clauses[c][1]]
  {
    hide TrailOk, Entailed;
    TrailShape(s.vars, s.trail, s.tpos, s.dlevel);
  }

  lemma FalseAt(f: Cnf, s: State, l: Lit)
    requires Inv(f, s) && InRange(l, |s.vars|) && IsFalse(s.vars, l)
    ensures |s.tpos| == |s.vars| && s.tpos[Index(l)] < |s.trail| && s.trail[s.tpos[Index(l)]] == -l
  {
    hide TrailOk, Entailed, WatchListsOk;
    OnTrail(s.vars, s.trail, s.tpos, s.dlevel, Index(l));
  }

  /**
   The scan of the list of `x` has reached index `i`. In the strong case all is well so far; else
   `x` contradicts level 0 and clause `d`, which proves it, is still to come at index `k`.
   */
  ghost predicate Scanning(f: Cnf, s: State, x: Lit, p: nat, i: nat, strong: bool, d: nat, k: nat) {
    && Visiting(f, s, x, p) && i <= |s.watches[x]|
    && if strong then Queue(f, s, p) && Scanned(f, s, x, i) else Doomed(f, s, x, d, k) && i <= k
  }

  /** The parts of `Scanning` that make a scan step well defined. */
  lemma ScanningShape(f: Cnf, s: State, x: Lit, p: nat, i: nat, strong: bool, d: nat, k: nat)
    requires Scanning(f, s, x, p, i, strong, d, k)
    ensures Inv(f, s) && Visiting(f, s, x, p) && x in s.watches && i <= |s.watches[x]| && |s.tpos| == |s.vars|
    ensures !strong ==> i < |s.watches[x]|
    ensures strong ==> Queue(f, s, p)
    ensures i < |s.watches[x]| ==>
              var c := s.watches[x][i];
              c < |s.clauses| && ClauseOk(|s.vars|, s.clauses[c]) && (s.clauses[c][0] == x || s.clauses[c][1] == x)
              && IsFalse(s.vars, x)
              && forall k :: 0 <= k < |s.clauses[c]| ==> s.clauses[c][k] in s.watches
  {
  }

  lemma SkipKeepsScanning(f: Cnf, s: State, x: Lit, p: nat, i: nat, strong: bool, d: nat, k: nat)
    requires Scanning(f, s, x, p, i, strong, d, k) && i < |s.watches[x]|
    requires IsTrue(s.vars, Partner(s.clauses[s.watches[x][i]], x))
    ensures Scanning(f, s, x, p, i + 1, strong, d, k)
  {
    SetLevel(f, s, Partner(s.clauses[s.watches[x][i]], x));
  }

  lemma ImplyKeepsScanning(f: Cnf, s: State, x: Lit, p: nat, i: nat, strong: bool, d: nat, k: nat)
    requires Scanning(f, s, x, p, i, strong, d, k) && i < |s.watches[x]|
    requires var c := s.watches[x][i];
             IsFree(s.vars, Partner(s.clauses[c], x))
             && forall k :: 2 <= k < |s.clauses[c]| ==> IsFalse(s.vars, s.clauses[c][k])
    ensures Scanning(f, ImplyStep(s, s.watches[x][i], x), x, p, i + 1, strong, d, k)
    ensures FreeVars(ImplyStep(s, s.watches[x][i], x).vars) < FreeVars(s.vars)
  {
    hide Strong, WatchesGuard, Weak, Scanned, Waiting, UnitsRecorded, LevelsRise;
    ScanningShape(f, s, x, p, i, strong, d, k);
    ImplyKeeps(f, s, x, i, p, strong);
    assert Index(Partner(s.clauses[s.watches[x][i]], x)) in FreeVars(s.vars);
    if !strong {
      ImplyKeepsDoomed(f, s, x, i, d, k);
    }
  }

  lemma ScanningComplete(f: Cnf, s: State, x: Lit, p: nat, d: nat, k: nat)
    requires x in s.watches && Scanning(f, s, x, p, |s.watches[x]|, true, d, k)
    ensures Queue(f, s, p + 1)
  {
    ScanComplete(f, s, x, p);
  }

  lemma ImplyKeepsDoomed(f: Cnf, s: State, x: Lit, i: nat, d: nat, k: nat)
    requires Inv(f, s) && x in s.watches && i < |s.watches[x]| && Doomed(f, s, x, d, k) && i <= k
    requires IsFree(s.vars, Partner(s.clauses[s.watches[x][i]], x))
    requires Inv(f, ImplyStep(s, s.watches[x][i], x))
    ensures Doomed(f, ImplyStep(s, s.watches[x][i], x), x, d, k) && i + 1 <= k
  {
    hide TrailOk, Entailed;
    TrailShape(s.vars, s.trail, s.tpos, s.dlevel);
    var c := s.watches[x][i];
    var w := Partner(s.clauses[c], x);
    assert c != d by {
      assert IsFalse(s.vars, s.clauses[d][0]) && IsFalse(s.vars, s.clauses[d][1]);
    }
    AllFalseKept(s.vars, s.clauses[d], w, s.dlevel, Some(c));
  }

  lemma AllFalseKept(a: seq<Var>, c: Clause, w: Lit, dl: nat, r: Option<nat>)
    requires ClauseOk(|a|, c) && AllFalse(a, c) && InRange(w, |a|) && IsFree(a, w)
    ensures AllFalse(SetLit(a, w, dl, r), c)
  {
  }

  lemma MoveKeepsScanning(f: Cnf, s: State, x: Lit, p: nat, i: nat, j: nat, strong: bool, d: nat, k: nat)
    requires Scanning(f, s, x, p, i, strong, d, k) && i < |s.watches[x]|
    requires var c := s.clauses[s.watches[x][i]];
             !IsTrue(s.vars, Partner(c, x)) && 2 <= j < |c| && !IsFalse(s.vars, c[j])
    ensures s.clauses[s.watches[x][i]][j] in s.watches
    ensures Scanning(f, MoveStep(s, x, i, j), x, p, i, strong, d, if k == |s.watches[x]| - 1 then i else k)
  {
    hide Strong, WatchesGuard, Weak, Scanned, Waiting, UnitsRecorded, LevelsRise;
    ScanningShape(f, s, x, p, i, strong, d, k);
    MoveKeeps(f, s, x, i, j, p, strong);
    if !strong {
      MoveKeepsDoomed(f, s, x, i, j, d, k);
    }
  }

  lemma MoveKeepsDoomed(f: Cnf, s: State, x: Lit, i: nat, j: nat, d: nat, k: nat)
    requires Inv(f, s) && x in s.watches && i < |s.watches[x]| && Doomed(f, s, x, d, k) && i <= k
    requires 2 <= j < |s.clauses[s.watches[x][i]]| && !IsFalse(s.vars, s.clauses[s.watches[x][i]][j])
    requires s.clauses[s.watches[x][i]][j] in s.watches
    requires Inv(f, MoveStep(s, x, i, j)) && IsFalse(s.vars, x)
    ensures var k' := if k == |s.watches[x]| - 1 then i else k;
            Doomed(f, MoveStep(s, x, i, j), x, d, k') && i <= k'
  {
    hide Inv;
    WatchShape(f, s, x, i);
    WatchShape(f, s, x, k);
    assert s.watches[x][i] != d;
  }
}
