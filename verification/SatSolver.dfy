/**
 The SAT engine: two-watched-literal propagation, first-UIP conflict analysis with local
 minimisation, backjumping, restarts, and the search loop.
 */
module SatSolver {
  import opened Wrappers
  import opened SatLogic
  import opened SatInvariant
  import opened SatPropagation
  import opened SatSteps
  import opened SatOrder
  import opened SatAnalysis
  import opened SatBackjump
  import opened SatScan
  import opened SatSearch
  import opened SatLuby

  /** How often a variable occurs among the first `n` literals. */
  ghost function Occurs(c: Clause, n: nat, v: nat): nat
    requires n <= |c| && forall k :: 0 <= k < |c| ==> c[k] != NIL
  {
    if n == 0 then 0 else Occurs(c, n - 1, v) + if Index(c[n - 1]) == v then 1 else 0
  }

  class Solver {
    var vars: seq<Var>
    var mark: seq<bool>
    var units: seq<Option<bool>>
    var trail: seq<Lit>
    var dlevel: nat
    var clauses: seq<Clause>
    var watches: map<Lit, seq<nat>>
    var empty: bool
    var backtracks: nat
    const vsids: VarOrder

    ghost var tpos: seq<nat>
    ghost var csets: seq<set<Lit>>
    ghost var formula: Cnf

    /** How often each variable was unset or came to be watched by one more clause. */
    ghost var touched: seq<nat>
    /** The passes of the scan that selected a literal. */
    ghost var passes: seq<Pass>

    ghost function Scans(): Front
      reads this`vars, this`touched, vsids`rank, vsids`nextVar
    {
      Front(vsids.rank, vsids.nextVar, vars, touched)
    }

    ghost function St(): State
      reads this
    {
      State(vars, trail, tpos, dlevel, clauses, csets, watches, units, empty)
    }

    /** The fields that the search invariant does not mention keep their shape. */
    ghost predicate Shape()
      reads this`vars, this`mark, this`touched, vsids
    {
      vsids.Valid() && |vsids.activity| == |vars| == |mark| == |touched|
    }

    /** Before the search: variables and clauses may be added, and nothing is set. */
    ghost predicate Setup()
      reads this, vsids
    {
      && Shape() && Unmarked() && Blank(formula, St())
      && |vars| > 0 && units[0] == Some(false)
      && vsids.nextVar == 0 && passes == []
    }

    /** The initial state has one variable, asserted true. */
    constructor ()
      ensures Setup() && formula == {{1}} && |vars| == 1 && !empty
      ensures fresh(vsids)
    {
      hide Blank, Inv, Ordered, TouchWatches, Solver.Shape, Solver.Unmarked;
      vars, mark, units, trail, dlevel, clauses, watches := [], [], [], [], 0, [], map[];
      empty, backtracks := false, 0;
      vsids := new VarOrder();
      tpos, csets, formula, touched, passes := [], [], {}, [], [];
      new;
      BlankStart(St());
      EmptyShape();
      var b := AddVar();
      AddBlankClause(formula, St(), [b]);
      formula := formula + {LitSet([b])};
      ScansSized();
      var id := InitClause([b]);
      assert LitSet([1]) == {1};
    }

    /** A new variable, with empty watch lists and at the end of the order. */
    method AddVar() returns (b: Lit)
      requires Shape() && Unmarked() && Blank(formula, St())
      modifies this`vars, this`mark, this`units, this`watches, this`tpos, this`touched, vsids
      ensures Shape() && Unmarked() && Blank(formula, St()) && vsids.nextVar == old(vsids.nextVar)
      ensures b == |old(vars)| + 1 && St() == AddVarStep(old(St()))
    {
      hide Blank, Inv;
      BlankFacts(formula, St());
      AddVarKeepsBlank(formula, St());
      var n := |vars|;
      vars := vars + [Var(false, false, 0, None)];
      mark := mark + [false];
      touched := touched + [0];
      units := units + [None];
      tpos := tpos + [0];
      vsids.AddVar();
      watches := watches[n + 1 := []][-(n + 1) := []];
      b := n + 1;
    }

    /** Add a variable before the search. */
    method MakeVar() returns (b: Lit)
      requires Setup()
      modifies this`vars, this`mark, this`units, this`watches, this`tpos, this`touched, vsids
      ensures Setup() && b == |old(vars)| + 1 && |vars| == |old(vars)| + 1
    {
      b := AddVar();
    }

    /** Add a duplicate-free clause before the search. */
    method AddClause(c: Clause)
      requires Setup() && Distinct(c) && forall k :: 0 <= k < |c| ==> InRange(c[k], |vars|)
      modifies this`empty, this`units, this`clauses, this`csets, this`watches, this`formula, this`touched
      ensures Setup() && formula == old(formula) + {LitSet(c)}
    {
      hide Blank, Inv, Ordered;
      BlankFacts(formula, St());
      AddBlankClause(formula, St(), c);
      formula := formula + {LitSet(c)};
      var id := InitClause(c);
    }

    method Assign(l: Lit, r: Option<nat>)
      requires InRange(l, |vars|) && |tpos| == |vars|
      modifies this`vars, this`trail, this`tpos
      ensures St() == AssignStep(old(St()), l, r)
      ensures old(Shape()) ==> Shape()
      ensures Scans() == old(Scans()).(vars := SetLit(old(vars), l, dlevel, r))
    {
      vars := vars[Index(l) := vars[Index(l)].(sign := Sign(l), isSet := true, dlevel := dlevel, reason := r)];
      tpos := tpos[Index(l) := |trail|];
      trail := trail + [l];
    }

    /** Clause `c`, which watches `x`, forces its other watch. */
    method Imply(c: nat, x: Lit)
      requires c < |clauses| && |clauses[c]| >= 2 && |tpos| == |vars|
      requires InRange(Partner(clauses[c], x), |vars|)
      modifies this`vars, this`trail, this`tpos, this`clauses
      ensures St() == ImplyStep(old(St()), c, x)
      ensures old(Shape()) ==> Shape()
      ensures Scans() == old(Scans()).(vars := SetLit(old(vars), Partner(old(clauses)[c], x), dlevel, Some(c)))
    {
      var w := Partner(clauses[c], x);
      if clauses[c][0] == x {
        clauses := clauses[c := clauses[c][0 := w][1 := x]];
      }
      Assign(w, Some(c));
    }

    /** Clause `c`, at index `i` of the list of `x`, watches its literal `j` instead of `x`. */
    method MoveWatch(x: Lit, i: nat, j: nat)
      requires Shape() && x in watches && i < |watches[x]| && watches[x][i] < |clauses|
      requires 2 <= j < |clauses[watches[x][i]]|
      requires clauses[watches[x][i]][0] == x || clauses[watches[x][i]][1] == x
      requires var y := clauses[watches[x][i]][j]; y != x && y in watches && InRange(y, |vars|)
      modifies this`clauses, this`watches, this`touched, vsids`nextVar
      ensures St() == MoveStep(old(St()), x, i, j) && Shape()
      ensures FallsBack(old(Scans()), Scans())
      ensures var y := Index(old(clauses[watches[x][i]][j]));
        touched == Touch(old(touched), y) && vsids.rank[y] >= vsids.nextVar
    {
      hide FallsBack;
      ghost var a := Scans();
      var c := watches[x][i];
      var y := clauses[c][j];
      clauses := clauses[c := clauses[c][if clauses[c][0] == x then 0 else 1 := y][j := x]];
      watches := watches[y := watches[y] + [c]];
      touched := Touch(touched, Index(y));
      vsids.Lower(Index(y));
      TouchFallsBack(a, Scans(), Index(y));
      watches := watches[x := Remove(watches[x], i)];
    }

    /** The first literal from index 2 on that is not false, or the length. */
    method FindWatch(c: Clause) returns (j: nat)
      requires ClauseOk(|vars|, c)
      ensures 2 <= j <= |c|
      ensures j < |c| ==> !IsFalse(vars, c[j])
      ensures forall k :: 2 <= k < j ==> IsFalse(vars, c[k])
    {
      j := 2;
      while j < |c| && IsFalse(vars, c[j])
        invariant 2 <= j <= |c|
        invariant forall k :: 2 <= k < j ==> IsFalse(vars, c[k])
      {
        j := j + 1;
      }
    }

    /** One step of a scan; `Some(_)` reports a falsified clause. The scan index advances or the list shrinks. */
    method Visit(x: Lit, i: nat, ghost f: Cnf, ghost p: nat, ghost strong: bool, ghost d: nat, ghost k: nat)
      returns (i': nat, conflict: Option<nat>, ghost k': nat)
      requires Shape() && Scanning(f, St(), x, p, i, strong, d, k) && x in watches && i < |watches[x]|
      modifies this`vars, this`trail, this`tpos, this`clauses, this`watches, this`touched, vsids`nextVar
      ensures Shape() && Scanning(f, St(), x, p, i', strong, d, k') && FallsBack(old(Scans()), Scans())
      ensures x in watches && (|watches[x]| - i' < |old(watches)[x]| - i || conflict.Some?)
      ensures Extends(old(vars), vars) && (trail == old(trail) || FreeVars(vars) < old(FreeVars(vars)))
      ensures conflict.Some? ==> Falsified(St(), x, conflict.value)
    {
      hide Scanning, Scanned, Doomed, Queue, Inv, Strong, WatchesGuard, Weak, FallsBack, Solver.Scans,
        Solver.Shape;
      ghost var a := Scans();
      ScansSized();
      FallsBackSelf(a);
      ScanningShape(f, St(), x, p, i, strong, d, k);
      i', conflict, k' := i, None, k;
      var c := watches[x][i];
      var w := Partner(clauses[c], x);
      if IsTrue(vars, w) {
        SkipKeepsScanning(f, St(), x, p, i, strong, d, k);
        i' := i + 1;
      } else {
        var j := FindWatch(clauses[c]);
        if j < |clauses[c]| {
          MoveKeepsScanning(f, St(), x, p, i, j, strong, d, k);
          k' := if k == |watches[x]| - 1 then i else k;
          MoveWatch(x, i, j);
        } else if IsFree(vars, w) {
          ImplyKeepsScanning(f, St(), x, p, i, strong, d, k);
          Imply(c, x);
          SetFallsBack(a, Index(w), Var(true, Sign(w), dlevel, Some(c)));
          i' := i + 1;
        } else {
          conflict := Some(c);
        }
      }
    }

    /**
     Visit the clauses watching `x`, false since trail position `p`. Without a conflict the queue
     advances past `p`. If `x` contradicts an earlier level-0 literal, the clause `d` that forced
     that literal is certain to be found.
     */
    method Scan(x: Lit, ghost f: Cnf, ghost p: nat, ghost strong: bool, ghost d: nat, ghost dk: nat)
      returns (conflict: Option<nat>)
      requires Shape() && Scanning(f, St(), x, p, 0, strong, d, dk)
      modifies this`vars, this`trail, this`tpos, this`clauses, this`watches, this`touched, vsids`nextVar
      ensures Shape() && Inv(f, St()) && FallsBack(old(Scans()), Scans())
      ensures Extends(old(vars), vars) && (trail == old(trail) || FreeVars(vars) < old(FreeVars(vars)))
      ensures conflict.None? ==> strong && Queue(f, St(), p + 1)
      ensures conflict.Some? ==> Falsified(St(), x, conflict.value)
      ensures conflict.Some? && strong ==> Visiting(f, St(), x, p) && Queue(f, St(), p)
    {
      hide Scanning, Visiting, Scanned, Doomed, Queue, Inv, Strong, WatchesGuard, Weak, Falsified, Ordered, FallsBack,
        Solver.Scans, Solver.Shape;
      ghost var k := dk;
      var i: nat := 0;
      conflict := None;
      ScanningShape(f, St(), x, p, i, strong, d, k);
      ScansSized();
      FallsBackSelf(Scans());
      while i < |watches[x]|
        invariant conflict.None? && FallsBack(old(Scans()), Scans())
        invariant Shape() && Scanning(f, St(), x, p, i, strong, d, k) && x in watches && i <= |watches[x]|
        invariant Extends(old(vars), vars) && (trail == old(trail) || FreeVars(vars) < old(FreeVars(vars)))
        decreases |watches[x]| - i
      {
        ghost var b := Scans();
        i, conflict, k := Visit(x, i, f, p, strong, d, k);
        FallsBackThen(old(Scans()), b, Scans());
        ScanningShape(f, St(), x, p, i, strong, d, k);
        if conflict.Some? {
          return;
        }
      }
      ScanningShape(f, St(), x, p, i, strong, d, k);
      if strong {
        ScanningComplete(f, St(), x, p, d, k);
      }
    }

    /** Count the variables of a clause as active. */
    method BumpClause(c: nat)
      requires Shape() && c < |clauses| && ClauseOk(|vars|, clauses[c])
      modifies vsids
      ensures Shape() && FallsBack(old(Scans()), Scans())
      ensures |vsids.activity| == |old(vsids.activity)|
      ensures forall v :: 0 <= v < |vsids.activity| ==>
            vsids.activity[v] == old(vsids.activity[v]) + Occurs(clauses[c], |clauses[c]|, v)
    {
      hide FallsBack;
      FallsBackSelf(Scans());
      for k := 0 to |clauses[c]|
        invariant Shape() && FallsBack(old(Scans()), Scans())
        invariant |vsids.activity| == |old(vsids.activity)|
        invariant forall v :: 0 <= v < |vsids.activity| ==>
              vsids.activity[v] == old(vsids.activity[v]) + Occurs(clauses[c], k, v)
      {
        ghost var b := Scans();
        vsids.Bump(Index(clauses[c][k]));
        RanksFallBack(b, Scans());
        FallsBackThen(old(Scans()), b, Scans());
      }
    }

    /** Mark `l`, listing it if it is from an earlier level and counting it otherwise. */
    method MarkLit(l: Lit, conflicts: seq<Lit>, count: nat, ghost a: seq<Var>)
      returns (conflicts': seq<Lit>, count': nat)
      requires |vars| == |a| && Marks(a, dlevel, mark, conflicts, count)
      requires InRange(l, |a|) && IsFalse(a, l) && 1 <= Level(a, l) <= dlevel && !mark[Index(l)]
      requires vars[Index(l)].dlevel == a[Index(l)].dlevel
      modifies this`mark
      ensures mark == old(mark)[Index(l) := true]
      ensures Marks(a, dlevel, mark, conflicts', count') && count <= count'
      ensures Level(a, l) == dlevel ==> count' > 0
    {
      if Level(vars, l) < dlevel {
        MarkEarlier(a, dlevel, mark, conflicts, count, l);
        conflicts', count' := conflicts + [l], count;
      } else {
        MarkCurrent(a, dlevel, mark, conflicts, count, l);
        conflicts', count' := conflicts, count + 1;
      }
      mark := mark[Index(l) := true];
    }

    /** Mark the literals of the false clause `c` that are above level 0. */
    method MarkConflict(c: nat, ghost f: Cnf) returns (conflicts: seq<Lit>, count: nat)
      requires Inv(f, St()) && |mark| == |vars| && dlevel > 0
      requires c < |clauses| && AllFalse(vars, clauses[c])
      requires exists k :: 0 <= k < |clauses[c]| && Level(vars, clauses[c][k]) == dlevel
      requires forall v :: 0 <= v < |mark| ==> !mark[v]
      modifies this`mark
      ensures Marks(vars, dlevel, mark, conflicts, count) && count > 0 && |mark| == |vars|
      ensures Entails(f, MarkedLits(vars, mark))
    {
      hide Inv, Entails, Marks;
      NoMarks(vars, dlevel, mark);
      conflicts, count := [], 0;
      LevelsBounded(f, c);
      for k := 0 to |clauses[c]|
        invariant Marks(vars, dlevel, mark, conflicts, count) && |mark| == |vars|
        invariant forall j :: 0 <= j < k ==> Level(vars, clauses[c][j]) == 0 || mark[Index(clauses[c][j])]
        invariant forall j :: k <= j < |clauses[c]| ==> !mark[Index(clauses[c][j])]
        invariant forall j :: 0 <= j < k && Level(vars, clauses[c][j]) == dlevel ==> count > 0
      {
        var l := clauses[c][k];
        if Level(vars, l) > 0 {
          OthersElsewhere(vars, clauses[c], k);
          conflicts, count := MarkLit(l, conflicts, count, vars);
        }
      }
      MarkedFromConflict(f, St(), c, mark);
    }

    method Unset(l: Lit)
      requires Shape() && InRange(l, |vars|)
      modifies this`vars, this`touched, vsids`nextVar
      ensures vars == old(vars)[Index(l) := old(vars)[Index(l)].(isSet := false)] && Shape()
      ensures FallsBack(old(Scans()), Scans())
      ensures touched == Touch(old(touched), Index(l)) && vsids.rank[Index(l)] >= vsids.nextVar
    {
      hide FallsBack;
      ghost var a := Scans();
      vars := vars[Index(l) := vars[Index(l)].(isSet := false)];
      touched := Touch(touched, Index(l));
      vsids.Lower(Index(l));
      TouchFallsBack(a, Scans(), Index(l));
    }

    lemma RanksDiffer()
      requires Shape()
      ensures |vsids.rank| == |vars| && forall u, v :: 0 <= u < v < |vars| ==> vsids.rank[u] != vsids.rank[v]
    {
    }

    lemma EmptyShape()
      requires vsids.Valid() && |vsids.activity| == |vars| == |mark| == |touched| == 0
      ensures Shape() && Unmarked()
    {
    }

    lemma ScansSized()
      requires Shape()
      ensures Sized(Scans()) && Scans().vars == vars && Scans().touched == touched && |vars| == |mark| == |touched|
    {
    }

    /** Mark what clause `r`, the reason of the literal at trail position `t + 1`, has besides that literal. */
    method MarkReason(r: nat, conflicts0: seq<Lit>, count0: nat, ghost f: Cnf, ghost s: State, ghost t: int)
      returns (conflicts: seq<Lit>, count: nat)
      requires Walking(f, s, mark, conflicts0, count0, t, vars) && -1 <= t && t + 1 < |s.trail|
      requires clauses == s.clauses && dlevel == s.dlevel
      requires InRange(s.trail[t + 1], |s.vars|) && Level(s.vars, s.trail[t + 1]) == s.dlevel
      requires s.vars[Index(s.trail[t + 1])].reason == Some(r)
      modifies this`mark
      ensures Walking(f, s, mark, conflicts, count, t, vars) && count0 <= count
      ensures |mark| == |old(mark)| && forall u :: 0 <= u < |mark| && old(mark)[u] ==> mark[u]
      ensures r < |s.clauses| && forall k :: 1 <= k < |s.clauses[r]| ==>
                var l := s.clauses[r][k]; InRange(l, |s.vars|) && (Level(s.vars, l) == 0 || mark[Index(l)])
    {
      hide Walking, Marks, Inv;
      WalkReason(f, s, mark, conflicts0, count0, t, vars);
      conflicts, count := conflicts0, count0;
      WalkingFacts(f, s, mark, conflicts, count, t, vars);
      for k := 1 to |clauses[r]|
        invariant Walking(f, s, mark, conflicts, count, t, vars) && count0 <= count
        invariant |mark| == |vars| == |s.vars| == |old(mark)|
        invariant forall u :: 0 <= u < |mark| && old(mark)[u] ==> mark[u]
        invariant forall j :: 1 <= j < k ==> Level(s.vars, clauses[r][j]) == 0 || mark[Index(clauses[r][j])]
      {
        var l := clauses[r][k];
        WalkingFacts(f, s, mark, conflicts, count, t, vars);
        if !mark[Index(l)] {
          if Level(vars, l) != 0 {
            ghost var mark0, conflicts1, count1 := mark, conflicts, count;
            conflicts, count := MarkLit(l, conflicts, count, s.vars);
            WalkMarks(f, s, mark0, conflicts1, count1, t, vars, l, conflicts, count);
          }
        }
      }
    }

    /**
     Walk down the trail, unsetting it and resolving the marked clause with reasons, until one literal
     of the conflict level is left: the first unique implication point, which stood at `t + 1`.
     */
    method FindUip(conflicts0: seq<Lit>, count0: nat, ghost f: Cnf, ghost s: State)
      returns (conflicts: seq<Lit>, uip: Lit, t: int)
      requires Shape() && St() == s && Walking(f, s, mark, conflicts0, count0, |trail| - 1, vars) && count0 > 0
      requires |mark| == |s.vars| && Entails(f, MarkedLits(s.vars, mark))
      modifies this`vars, this`mark, this`touched, vsids
      ensures Shape() && Walking(f, s, mark, conflicts, 0, t, vars)
      ensures FallsBack(old(Scans()), Scans()) && !Behind(Scans(), Index(uip))
      ensures -1 <= t && t + 1 < |s.trail| && uip == s.trail[t + 1] && InRange(uip, |s.vars|)
      ensures IsTrue(s.vars, uip) && Level(s.vars, uip) == s.dlevel && !mark[Index(uip)]
      ensures |mark| == |s.vars| && Entails(f, {-uip} + MarkedLits(s.vars, mark))
    {
      hide Walking, Marks, Entails, MarkedLits, Forces, FallsBack;
      ScansSized();
      FallsBackSelf(Scans());
      conflicts := conflicts0;
      t := |trail| - 1;
      uip := NIL;
      var count := count0;
      while true
        invariant Shape() && Walking(f, s, mark, conflicts, count, t, vars) && count > 0
        invariant FallsBack(old(Scans()), Scans())
        invariant -1 <= t < |s.trail|
        invariant |mark| == |vars| == |s.vars| && Entails(f, MarkedLits(s.vars, mark))
        decreases t
      {
        WalkingShape(f, s, mark, conflicts, count, t, vars);
        var l := trail[t];
        ghost var a, mark0, b := vars, mark, Scans();
        Unset(l);
        FallsBackThen(old(Scans()), b, Scans());
        t := t - 1;
        if !mark[Index(l)] {
          WalkSkips(f, s, mark, conflicts, count, t + 1, a);
        } else {
          WalkUnmarks(f, s, mark, conflicts, count, t + 1, a);
          mark := mark[Index(l) := false];
          count := count - 1;
          if count == 0 {
            UipEntailed(f, s, mark0, l);
            uip := l;
            break;
          }
          var r := vars[Index(l)].reason.value;
          WalkReason(f, s, mark, conflicts, count, t, vars);
          b := Scans();
          BumpClause(r);
          FallsBackThen(old(Scans()), b, Scans());
          conflicts, count := MarkReason(r, conflicts, count, f, s, t);
          ResolvedEntailed(f, s, mark0, mark, conflicts, count, t, vars, r);
        }
      }
    }

    /** Does the reason of `l` have only marked literals besides `-l`? */
    method IsRedundant(l: Lit) returns (b: bool)
      requires InRange(l, |vars|) && |mark| == |vars| && ClausesOk(|vars|, clauses)
      requires vars[Index(l)].reason.Some? ==> vars[Index(l)].reason.value < |clauses|
      ensures b <==> Redundant(vars, clauses, mark, l)
    {
      if vars[Index(l)].reason.None? {
        return false;
      }
      var reason := clauses[vars[Index(l)].reason.value];
      assert ClauseOk(|vars|, reason);
      var k := 1;
      while k < |reason| && mark[Index(reason[k])]
        invariant 1 <= k <= |reason|
        invariant forall j :: 1 <= j < k ==> mark[Index(reason[j])]
      {
        k := k + 1;
      }
      return k >= |reason|;
    }

    /** Build the learnt clause from the negated UIP and the conflicts that are not redundant. */
    method Simplify(conflicts: seq<Lit>, uip: Lit, ghost f: Cnf, ghost s: State, ghost t: int)
      returns (ng: Clause, blevel: nat)
      requires Walking(f, s, mark, conflicts, 0, t, vars) && clauses == s.clauses
      requires InRange(uip, |s.vars|) && |mark| == |s.vars| && !mark[Index(uip)]
      ensures Nogood(s.vars, uip, conflicts, |conflicts|, ng, blevel)
      ensures ClausesOk(|s.vars|, s.clauses) && (forall i :: 0 <= i < |conflicts| ==> InRange(conflicts[i], |s.vars|))
      ensures Minimized(s, mark, conflicts, ng)
    {
      hide Walking, Nogood, Inv, Strong, Marks, Redundant;
      WalkingFacts(f, s, mark, conflicts, 0, t, vars);
      ConflictFacts(f, s, mark, conflicts, 0, t, vars);
      ng, blevel := [-uip], 0;
      assert Nogood(s.vars, uip, conflicts, 0, ng, blevel) by { NogoodStart(s.vars, uip, conflicts); }
      for i := 0 to |conflicts|
        invariant Nogood(s.vars, uip, conflicts, i, ng, blevel) && |ng| >= 1
        invariant forall j :: 0 <= j < i ==> conflicts[j] in ng || Redundant(s.vars, s.clauses, mark, conflicts[j])
      {
        var l := conflicts[i];
        var redundant := IsRedundant(l);
        RedundantAlike(vars, s.vars, clauses, mark, l);
        if redundant {
          NogoodSkip(s.vars, uip, conflicts, i, ng, blevel);
        } else {
          ExtendNogood(s.vars, uip, conflicts, i, ng, blevel);
          ghost var ng0, higher := ng, blevel < Level(vars, l);
          ng := ng + [l];
          if blevel < Level(vars, l) {
            blevel := Level(vars, l);
            ng := ng[|ng| - 1 := ng[1]][1 := l];
          }
          assert ng == Extend(ng0, l, higher);
        }
      }
    }

    /** Unset the trail from position `t` down to the first literal at or below level `b`. */
    method Unwind(t0: int, b: nat, ghost s: State) returns (t: nat)
      requires Shape() && trail == s.trail && |vars| == |s.vars|
      requires TrailOk(s.vars, s.trail, s.tpos, s.dlevel) && Undone(s.vars, s.tpos, t0, vars)
      requires -1 <= t0 < |s.trail| && forall i :: t0 < i < |s.trail| ==> Level(s.vars, s.trail[i]) > b
      modifies this`vars, this`trail, this`touched, vsids`nextVar
      ensures Shape() && t <= |s.trail| && trail == s.trail[..t] && FallsBack(old(Scans()), Scans())
      ensures Cut(s, t, b) && Undone(s.vars, s.tpos, t - 1, vars)
    {
      hide Undone, Cut, TrailOk, Ordered, Unwound, FallsBack;
      ScansSized();
      FallsBackSelf(Scans());
      var k := t0;
      StartUnwind(s, k, b, vars);
      while k >= 0 && Level(vars, trail[k]) > b
        invariant trail == s.trail && Shape() && Unwound(s, k, b, vars) && FallsBack(old(Scans()), Scans())
        invariant -1 <= k < |trail| && (k >= 0 ==> InRange(trail[k], |vars|))
      {
        StepUnwind(s, k, b, vars);
        ghost var front := Scans();
        Unset(trail[k]);
        FallsBackThen(old(Scans()), front, Scans());
        k := k - 1;
      }
      t := k + 1;
      trail := trail[..t];
      EndUnwind(s, t, b, vars);
    }

    method ClearMarks(conflicts: seq<Lit>)
      requires forall i :: 0 <= i < |conflicts| ==> InRange(conflicts[i], |mark|)
      requires forall v :: 0 <= v < |mark| && mark[v] ==> exists i :: 0 <= i < |conflicts| && Index(conflicts[i]) == v
      modifies this`mark
      ensures |mark| == |old(mark)| && forall v :: 0 <= v < |mark| ==> !mark[v]
    {
      for i := 0 to |conflicts|
        invariant |mark| == |old(mark)|
        invariant forall v :: 0 <= v < |mark| && mark[v] ==> old(mark)[v]
        invariant forall j :: 0 <= j < i ==> !mark[Index(conflicts[j])]
      {
        mark := mark[Index(conflicts[i]) := false];
      }
    }

    /** Store a clause: flag emptiness, flag a unit, or list the clause under its first two literals. */
    method InitClause(c: Clause) returns (id: Option<nat>)
      requires |units| == |vars| == |touched| && Distinct(c)
      requires forall k :: 0 <= k < |c| ==> InRange(c[k], |vars|)
      requires forall k :: 0 <= k < |c| ==> c[k] in watches
      modifies this`empty, this`units, this`clauses, this`csets, this`watches, this`touched
      ensures touched == TouchWatches(old(touched), c) && (old(Shape()) ==> Shape())
      ensures St() == StoreStep(old(St()), c)
      ensures id == if |c| >= 2 then Some(|old(clauses)|) else None
    {
      id := None;
      if |c| == 0 {
        empty := true;
      } else if |c| == 1 {
        var v := Index(c[0]);
        if units[v] == Some(Sign(c[0])) {
          return;
        }
        if units[v] == Some(Sign(-c[0])) {
          empty := true;
          return;
        }
        units := units[v := Some(Sign(c[0]))];
      } else {
        id := Some(|clauses|);
        clauses := clauses + [c];
        csets := csets + [LitSet(c)];
        touched := TouchWatches(touched, c);
        watches := watches[c[0] := watches[c[0]] + [id.value]];
        watches := watches[c[1] := watches[c[1]] + [id.value]];
      }
    }

    ghost predicate Unmarked()
      reads this`mark
    {
      forall v :: 0 <= v < |mark| ==> !mark[v]
    }

    /** Derive from the false clause `conflict` the clause to learn and the level to return to. */
    method Analyse(conflict: nat, ghost f: Cnf, ghost s: State, ghost p: nat)
      returns (conflicts: seq<Lit>, uip: Lit, ng: Clause, blevel: nat, t: int)
      requires Shape() && Unmarked() && St() == s && Queue(f, s, p) && dlevel > 0
      requires conflict < |clauses| && ClauseOk(|vars|, clauses[conflict]) && AllFalse(vars, clauses[conflict])
      requires exists k :: 0 <= k < |clauses[conflict]| && Level(vars, clauses[conflict][k]) == dlevel
      modifies this`vars, this`mark, this`touched, vsids
      ensures InRange(uip, |s.vars|) && FallsBack(old(Scans()), Scans()) && !Behind(Scans(), Index(uip))
      ensures Shape() && -1 <= t < |trail| && Analysed(f, s, p, mark, conflicts, uip, ng, blevel)
      ensures |s.tpos| == |s.vars| && TrailOk(s.vars, s.trail, s.tpos, s.dlevel) && Undone(s.vars, s.tpos, t, vars)
      ensures forall i :: t < i < |trail| ==> Level(s.vars, trail[i]) > blevel
      ensures forall v :: 0 <= v < |mark| && mark[v] ==> exists i :: 0 <= i < |conflicts| && Index(conflicts[i]) == v
      ensures |mark| == |s.vars| && forall i :: 0 <= i < |conflicts| ==> InRange(conflicts[i], |mark|)
    {
      hide Inv, Queue, Walking, Marks, Entails, MarkedLits, Nogood, Minimized, Analysed, Undone, AllFalse, FallsBack;
      StrongOf(f, s, p);
      var count;
      conflicts, count := MarkConflict(conflict, f);
      StartWalk(f, s, p, mark, conflicts, count);
      conflicts, uip, t := FindUip(conflicts, count, f, s);
      ng, blevel := Simplify(conflicts, uip, f, s, t);
      FoundAnalysed(f, s, p, mark, conflicts, t, vars, uip, ng, blevel);
    }

    /** Unwind to `blevel`, clear the marks and store the learnt clause. */
    method JumpBack(conflicts: seq<Lit>, ng: Clause, blevel: nat, t: int, ghost s: State)
      returns (reason: Option<nat>, ghost cut: nat, ghost front: Front)
      requires Shape() && St() == s.(vars := vars) && |vars| == |s.vars| == |units| == |s.tpos|
      requires TrailOk(s.vars, s.trail, s.tpos, s.dlevel) && Undone(s.vars, s.tpos, t, vars)
      requires -1 <= t < |trail| && forall i :: t < i < |trail| ==> Level(s.vars, trail[i]) > blevel
      requires forall i :: 0 <= i < |conflicts| ==> InRange(conflicts[i], |mark|)
      requires forall v :: 0 <= v < |mark| && mark[v] ==> exists i :: 0 <= i < |conflicts| && Index(conflicts[i]) == v
      requires Distinct(ng) && forall k :: 0 <= k < |ng| ==> InRange(ng[k], |vars|)
      requires forall k :: 0 <= k < |ng| ==> ng[k] in watches
      modifies this`vars, this`mark, this`trail, this`dlevel, this`clauses, this`csets, this`watches, this`units,
        this`empty, this`touched, vsids`nextVar
      ensures FallsBack(old(Scans()), front) && |front.touched| == |vars|
      ensures Scans() == front.(touched := TouchWatches(front.touched, ng))
      ensures Shape() && Unmarked() && Cut(s, cut, blevel) && Undone(s.vars, s.tpos, cut - 1, vars)
      ensures |vars| == |s.vars| && St() == StoreStep(UnwindStep(s, cut, blevel, vars), ng)
      ensures reason == if |ng| >= 2 then Some(|s.clauses|) else None
    {
      hide TrailOk, Undone, FallsBack, TouchWatches, Cut, Ordered;
      var k := Unwind(t, blevel, s);
      cut, front := k, Scans();
      UndoneFacts(s, cut - 1, vars);
      ClearMarks(conflicts);
      reason := InitClause(ng);
      dlevel := blevel;
    }

    /**
     Analyse the false clause `conflict`, learn from it and jump back. `NIL` means the input is
     unsatisfiable; otherwise the literal returned may be set next, with the reason returned.
     */
    method Backtrack(conflict: nat, ghost f: Cnf, ghost p: nat) returns (lit: Lit, reason: Option<nat>)
      requires Shape() && Unmarked() && Inv(f, St())
      requires conflict < |clauses| && ClauseOk(|vars|, clauses[conflict]) && AllFalse(vars, clauses[conflict])
      requires dlevel > 0 ==>
            Queue(f, St(), p) && exists k :: 0 <= k < |clauses[conflict]| && Level(vars, clauses[conflict][k]) == dlevel
      modifies this`vars, this`mark, this`trail, this`dlevel, this`clauses, this`csets, this`watches, this`units,
        this`empty, this`backtracks, this`touched, vsids
      ensures Shape() && Inv(f, St()) && backtracks == old(backtracks) + 1 && FallsBack(old(Scans()), Scans())
      ensures lit == NIL ==> Unsat(f)
      ensures lit != NIL ==> InRange(lit, |vars|) && Assertable(f, St(), lit, reason) && Unmarked()
      ensures lit != NIL ==> old(dlevel) > 0 && KeepsFixed(old(vars), vars)
      ensures lit != NIL && reason.Some? ==> Learnt(old(csets), csets, |vars|)
      ensures lit != NIL && reason.None? ==> csets == old(csets) && dlevel == 0
      ensures lit != NIL ==> Kept(old(csets), old(units), csets, units) && UnitsStep(old(units), units, lit, reason)
    {
      hide Inv, Queue, Analysed, Undone, Cut, Assertable, AllFalse, KeepsFixed, TrailOk, Entails, Marks, Kept,
        UnitsStep, FallsBack, TouchWatches, Behind, Solver.Shape;
      ghost var s := St();
      backtracks := backtracks + 1;
      BumpClause(conflict);
      ghost var a := Scans();
      if dlevel == 0 {
        ZeroConflict(f, s, conflict);
        return NIL, None;
      }
      var conflicts, uip, ng, blevel, t := Analyse(conflict, f, s, p);
      ghost var mark0, b := mark, Scans();
      ScansSized();
      LearntClause(f, s, p, mark, conflicts, uip, ng, blevel);
      LearntStorable(f, s, ng);
      ghost var cut, front;
      reason, cut, front := JumpBack(conflicts, ng, blevel, t, s);
      LearntWatches(f, s, p, mark0, conflicts, uip, ng, blevel, cut, vars);
      LearntFallsBack(old(Scans()), a, b, front, uip, ng);
      Backjump(f, s, p, mark0, conflicts, uip, ng, blevel, cut, vars);
      UnwindKeepsFixed(s, cut, blevel, vars);
      assert cut <= |s.trail| by { CutFacts(s, cut, blevel); }
      StoreSteps(UnwindStep(s, cut, blevel, vars), ng);
      if empty {
        EmptyRefutes(f, St());
        return NIL, None;
      }
      lit := ng[0];
    }

    /**
     Propagate trail literals from position `curr0` on. Without a conflict the whole trail is
     propagated; with one, `p` is the position reached.
     */
    method Drain(curr0: nat, ghost f: Cnf, ghost strong: bool, ghost d: nat, ghost dk: nat)
      returns (conflict: Option<nat>, p: nat)
      requires Shape() && curr0 <= |trail| && |tpos| == |vars|
      requires if strong then Queue(f, St(), curr0)
               else curr0 < |trail| && Scanning(f, St(), -trail[curr0], curr0, 0, false, d, dk)
      modifies this`vars, this`trail, this`tpos, this`clauses, this`watches, this`touched, vsids`nextVar
      ensures Shape() && Inv(f, St()) && Extends(old(vars), vars) && FallsBack(old(Scans()), Scans())
      ensures conflict.None? ==> Queue(f, St(), |trail|)
      ensures conflict.Some? ==> conflict.value < |clauses| && ClauseOk(|vars|, clauses[conflict.value])
      ensures conflict.Some? ==> AllFalse(vars, clauses[conflict.value])
      ensures conflict.Some? && dlevel > 0 ==> Queue(f, St(), p)
      ensures conflict.Some? && dlevel > 0 ==>
                exists k :: 0 <= k < |clauses[conflict.value]| && Level(vars, clauses[conflict.value][k]) == dlevel
    {
      hide Inv, Queue, Scanning, Visiting, AllFalse, FallsBack, Solver.Scans, Solver.Shape;
      ScansSized();
      FallsBackSelf(Scans());
      p := curr0;
      conflict := None;
      if strong { QueueFacts(f, St(), curr0); }
      while p < |trail|
        invariant Shape() && p <= |trail| && conflict.None? && Extends(old(vars), vars)
        invariant FallsBack(old(Scans()), Scans())
        invariant if strong then Queue(f, St(), p)
                  else p == curr0 < |trail| && Scanning(f, St(), -trail[p], p, 0, false, d, dk)
        decreases FreeVars(vars), |trail| - p
      {
        if strong {
          StartScan(f, St(), p);
        } else {
          DoomedAtZero(f, St(), -trail[p], p, d, dk);
        }
        var x := -trail[p];
        ghost var d', dk' := if strong then 0 else d, if strong then 0 else dk;
        ghost var b := Scans();
        conflict := Scan(x, f, p, strong, d', dk');
        FallsBackThen(old(Scans()), b, Scans());
        if conflict.Some? {
          InvClause(f, St(), conflict.value);
          if strong {
            ConflictHasCurrent(f, St(), x, p, conflict.value);
          }
          return;
        }
        p := p + 1;
        QueueFacts(f, St(), p);
      }
      QueueFacts(f, St(), p);
    }

    /** Set `lit`, a decision or a unit. A unit may be set already, and may even be false. */
    method Begin(lit: Lit, ghost f: Cnf) returns (ghost strong: bool, ghost d: nat, ghost dk: nat)
      requires Queue(f, St(), |trail|) && InRange(lit, |vars|)
      requires dlevel == 0 ==> Entails(f, {lit}) && |units| == |vars| && units[Index(lit)] == Some(Sign(lit))
      requires dlevel > 0 ==> IsFree(vars, lit)
      requires dlevel > 0 ==> forall i :: 0 <= i < |trail| ==>
            InRange(trail[i], |vars|) && Level(vars, trail[i]) < dlevel
      modifies this`vars, this`trail, this`tpos
      ensures vars == SetLit(old(vars), lit, dlevel, None) && |trail| == |old(trail)| + 1 && |tpos| == |vars|
      ensures Scans() == old(Scans()).(vars := vars) && (old(Shape()) ==> Shape())
      ensures if strong then Queue(f, St(), |old(trail)|)
              else Scanning(f, St(), -trail[|old(trail)|], |old(trail)|, 0, false, d, dk)
    {
      hide Inv, Queue, Scanning, Assertable, Entails;
      strong, d, dk := true, 0, 0;
      if IsFree(vars, lit) {
        DecisionAssertable(f, St(), lit);
        AssertKeeps(f, St(), lit, None);
      } else if IsTrue(vars, lit) {
        ResetKeeps(f, St(), lit);
      } else {
        d, dk := FlipDooms(f, St(), lit);
        strong := false;
      }
      QueueFacts(f, St(), |trail|);
      Assign(lit, None);
    }

    /** Learn from a conflict, jump back and set the learnt literal: progress over the state before. */
    method Resume(conflict: nat, ghost f: Cnf, ghost p: nat, ghost vars0: seq<Var>) returns (ok: bool, curr: nat)
      requires Shape() && Unmarked() && Inv(f, St()) && Extends(vars0, vars)
      requires conflict < |clauses| && ClauseOk(|vars|, clauses[conflict]) && AllFalse(vars, clauses[conflict])
      requires dlevel > 0 ==>
            Queue(f, St(), p) && exists k :: 0 <= k < |clauses[conflict]| && Level(vars, clauses[conflict][k]) == dlevel
      modifies this`vars, this`mark, this`trail, this`tpos, this`dlevel, this`clauses, this`csets, this`watches,
        this`units, this`empty, this`backtracks, this`touched, vsids
      ensures !ok ==> Unsat(f)
      ensures ok ==> Shape() && Unmarked() && curr < |trail| && |tpos| == |vars| == |vars0| && Queue(f, St(), curr)
      ensures ok ==> old(dlevel) > 0 && backtracks > old(backtracks) && FallsBack(old(Scans()), Scans())
      ensures ok ==> Grown(old(csets), vars0, csets, vars) && Advanced(old(csets), vars0, csets, vars)
      ensures ok ==> Kept(old(csets), old(units), csets, units)
      ensures ok && UnitsTrue(vars0, old(units), |vars0|) ==> UnitsTrue(vars, units, |vars|)
    {
      hide Inv, Queue, AllFalse, Assertable, Grown, Advanced, Learnt, Extends, KeepsFixed, Kept, UnitsTrue, UnitsStep,
        FallsBack, Solver.Scans, Solver.Shape, Solver.Unmarked;
      ghost var csets0, units0, vars1 := csets, units, vars;
      ExtendsLength(vars0, vars);
      var lit, reason := Backtrack(conflict, f, p);
      if lit == NIL {
        return false, 0;
      }
      AssertableFacts(f, St(), lit, reason);
      AssertKeeps(f, St(), lit, reason);
      LearningAdvances(csets0, vars0, vars1, csets, vars, lit, dlevel, reason);
      if UnitsTrue(vars0, units0, |vars0|) {
        UnitsStayTrue(vars0, vars1, vars, units0, units, lit, dlevel, reason);
      }
      curr := |trail|;
      ghost var front := Scans();
      ScansSized();
      Assign(lit, reason);
      SetThenFallsBack(old(Scans()), front, Index(lit), vars[Index(lit)]);
      ok := true;
    }

    /** Set `lit` and propagate; on a conflict learn, jump back, set the learnt literal and go on. */
    method Propagate(lit0: Lit, ghost f: Cnf) returns (ok: bool)
      requires Shape() && Unmarked() && Queue(f, St(), |trail|) && InRange(lit0, |vars|)
      requires dlevel == 0 ==> Entails(f, {lit0}) && |units| == |vars| && units[Index(lit0)] == Some(Sign(lit0))
      requires dlevel > 0 ==> IsFree(vars, lit0)
      requires dlevel > 0 ==> forall i :: 0 <= i < |trail| ==>
            InRange(trail[i], |vars|) && Level(vars, trail[i]) < dlevel
      modifies this`vars, this`mark, this`trail, this`tpos, this`dlevel, this`clauses, this`csets, this`watches,
        this`units, this`empty, this`backtracks, this`touched, vsids
      ensures !ok ==> Unsat(f)
      ensures ok ==> Shape() && Unmarked() && Queue(f, St(), |trail|) && |vars| == |old(vars)|
      ensures ok ==> Grown(old(csets), old(vars), csets, vars) && Kept(old(csets), old(units), csets, units)
      ensures ok ==> if backtracks == old(backtracks)
                     then csets == old(csets) && units == old(units) && dlevel == old(dlevel)
                          && Extends(SetLit(old(vars), lit0, dlevel, None), vars)
                     else old(dlevel) > 0 && backtracks > old(backtracks)
                          && Advanced(old(csets), old(vars), csets, vars)
      ensures ok && old(dlevel) > 0 && UnitsTrue(old(vars), old(units), |old(vars)|) ==> UnitsTrue(vars, units, |vars|)
      ensures ok ==> FallsBack(old(Scans()).(vars := SetLit(old(vars), lit0, old(dlevel), None)), Scans())
    {
      hide Inv, Queue, Scanning, AllFalse, Grown, Advanced, Extends, Kept, UnitsTrue, Entails, FallsBack,
        Solver.Scans, Solver.Shape, Solver.Unmarked;
      ghost var obeyed := dlevel > 0 && UnitsTrue(vars, units, |vars|);
      ghost var strong, d, dk;
      var curr: nat := |trail|;
      strong, d, dk := Begin(lit0, f);
      ghost var front := Scans();
      ScansSized();
      FallsBackSelf(front);
      SetGrows(csets, old(vars), lit0, dlevel);
      KeptSame(csets, units);
      if obeyed {
        UnitsTrueSet(old(vars), units, lit0, dlevel);
      }
      while true
        invariant Shape() && Unmarked() && curr < |trail| && |tpos| == |vars| == |old(vars)|
        invariant FallsBack(front, Scans())
        invariant if strong then Queue(f, St(), curr) else Scanning(f, St(), -trail[curr], curr, 0, false, d, dk)
        invariant Grown(old(csets), old(vars), csets, vars) && Kept(old(csets), old(units), csets, units)
        invariant if backtracks == old(backtracks)
                  then csets == old(csets) && units == old(units) && dlevel == old(dlevel)
                       && vars == SetLit(old(vars), lit0, old(dlevel), None)
                  else old(dlevel) > 0 && backtracks > old(backtracks) && Advanced(old(csets), old(vars), csets, vars)
        invariant obeyed ==> UnitsTrue(vars, units, |vars|)
        decreases Unstored(csets, |vars|), Unfixed(vars)
      {
        ghost var csets1, vars1, units1 := csets, vars, units;
        ghost var b := Scans();
        var conflict, p := Drain(curr, f, strong, d, dk);
        FallsBackThen(front, b, Scans());
        b := Scans();
        if conflict.None? {
          DrainKeeps(old(csets), old(vars), csets, units, vars1, vars);
          return true;
        }
        ok, curr := Resume(conflict.value, f, p, vars1);
        if !ok {
          return;
        }
        strong := true;
        FallsBackThen(front, b, Scans());
        AdvancedAfterGrown(old(csets), old(vars), csets1, vars1, csets, vars);
        AdvancedMeasure(csets1, vars1, csets, vars);
        KeptTransitive(old(csets), old(units), csets1, units1, csets, units);
      }
    }

    /** How many clauses watching `l` have no true literal. */
    method Score(l: Lit, ghost f: Cnf) returns (score: nat)
      requires Inv(f, St()) && InRange(l, |vars|)
      ensures score == 0 <==> Settled(f, St(), l)
    {
      hide Inv;
      ScoreFacts(f, St(), l);
      score := 0;
      for i := 0 to |watches[l]|
        invariant score == 0 <==> forall j :: 0 <= j < i ==> HasTrue(vars, clauses[watches[l][j]])
      {
        var c := clauses[watches[l][i]];
        var j := 0;
        while j < |c| && !IsTrue(vars, c[j])
          invariant j <= |c| && forall k :: 0 <= k < j ==> !IsTrue(vars, c[k])
        {
          j := j + 1;
        }
        assert HasTrue(vars, c) <==> j < |c|;
        if j >= |c| {
          score := score + 1;
        }
      }
    }

    /** The literal of variable `v` to decide on, or `NIL` if `v` is set or decides nothing. */
    method ShouldSelect(v: nat, ghost f: Cnf) returns (lit: Lit)
      requires Inv(f, St()) && v < |vars|
      ensures lit != NIL ==> InRange(lit, |vars|) && Index(lit) == v && !vars[v].isSet
      ensures lit == NIL <==> Indifferent(f, St(), v)
    {
      hide Inv, Settled;
      if vars[v].isSet {
        return NIL;
      }
      var pos := Score(v + 1, f);
      var neg := Score(-(v + 1), f);
      var coin: bool := *;
      var bestIsNeg := neg > pos || (neg == pos && coin);
      if pos == 0 && neg == 0 {
        return NIL;
      }
      return if bestIsNeg then -(v + 1) else v + 1;
    }

    /** No variable from the scan position on is worth deciding. */
    ghost predicate Passed(f: Cnf)
      requires Inv(f, St()) && Shape()
      reads this, vsids
    {
      forall i :: vsids.nextVar <= i < |vars| ==> vsids.order[i] < |vars| && Indifferent(f, St(), vsids.order[i])
    }

    /** No variable before the scan position is worth deciding: what the engine's own check asks for. */
    ghost predicate NothingBehind(f: Cnf)
      requires Inv(f, St()) && Shape()
      reads this, vsids
    {
      forall v :: 0 <= v < |vars| && vsids.rank[v] < vsids.nextVar ==> Indifferent(f, St(), v)
    }

    /** Scan the order from the scan position for a variable worth deciding. */
    method SelectLiteral(ghost f: Cnf) returns (lit: Lit)
      requires Shape() && Inv(f, St())
      modifies vsids`nextVar, this`passes
      ensures Shape()
      ensures lit != NIL ==> InRange(lit, |vars|) && IsFree(vars, lit)
      ensures lit != NIL ==> old(vsids.nextVar) < vsids.nextVar == vsids.rank[Index(lit)] + 1
      ensures lit != NIL ==>
        forall v :: 0 <= v < |vars| && old(vsids.nextVar) <= vsids.rank[v] < vsids.rank[Index(lit)] ==>
          Indifferent(f, St(), v)
      ensures lit != NIL ==>
        passes == old(passes) + [Pass(St(), touched, vsids.rank, old(vsids.nextVar), vsids.rank[Index(lit)])]
      ensures lit != NIL && old(Accounted(f, passes, Scans(), -1)) ==> Accounted(f, passes, Scans(), Index(lit))
      ensures lit == NIL ==> vsids.nextVar == old(vsids.nextVar) && Passed(f) && passes == old(passes)
    {
      hide Inv, Indifferent, Accounted;
      RanksDiffer();
      var i := vsids.nextVar;
      while i < |vsids.order|
        invariant vsids.nextVar == old(vsids.nextVar) <= i && passes == old(passes)
        invariant forall j :: vsids.nextVar <= j < i && j < |vars| ==>
                    vsids.order[j] < |vars| && Indifferent(f, St(), vsids.order[j])
      {
        lit := ShouldSelect(vsids.order[i], f);
        if lit != NIL {
          if Accounted(f, passes, Scans(), -1) {
            AccountedPass(f, passes, St(), Scans(), Index(lit));
          }
          passes := passes + [Pass(St(), touched, vsids.rank, vsids.nextVar, i)];
          vsids.nextVar := i + 1;
          return;
        }
        i := i + 1;
      }
      lit := NIL;
    }

    /** Undo every decision. The trail is never emptied: the variable asserted true stays. */
    method Restart(ghost f: Cnf)
      requires Shape() && Ready(f, St())
      modifies this`vars, this`trail, this`dlevel, this`touched, vsids`nextVar
      ensures FallsBack(old(Scans()), Scans())
      ensures old(Accounted(f, passes, Scans(), -1)) ==> Accounted(f, passes, Scans(), -1)
      ensures Shape() && Ready(f, St()) && dlevel == 1 && trail != [] && trail <= old(trail)
      ensures |vars| == |old(vars)| && Unfixed(vars) == Unfixed(old(vars))
    {
      hide Inv, Queue, Cut, Undone, TrailOk, UnitsTrue, Ordered, FallsBack, Accounted;
      ScansSized();
      FallsBackSelf(Scans());
      ghost var s := St();
      RestartFacts(f, s);
      if dlevel == 1 {
        return;
      }
      ghost var front := Scans();
      var t := Unwind(|trail| - 1, 0, s);
      if Accounted(f, passes, front, -1) {
        AccountedLater(f, passes, front, Scans(), -1);
      }
      RestartKeeps(f, s, t, vars);
      dlevel := 1;
    }

    /** Restart after as many backtracks as the Luby sequence says. */
    method RestartWhenDue(nextRestart0: nat, restartSeq0: nat, ghost f: Cnf)
        returns (nextRestart: nat, restartSeq: nat)
      requires Shape() && Unmarked() && Ready(f, St())
      modifies this`vars, this`trail, this`dlevel, this`touched, vsids`nextVar
      ensures Shape() && Unmarked() && Ready(f, St()) && |vars| == |old(vars)| && Unfixed(vars) == Unfixed(old(vars))
      ensures old(Accounted(f, passes, Scans(), -1)) ==> Accounted(f, passes, Scans(), -1)
      ensures if backtracks < nextRestart0
              then nextRestart == nextRestart0 && restartSeq == restartSeq0 && vars == old(vars)
              else dlevel == 1 && restartSeq == restartSeq0 + 1 && nextRestart == nextRestart0 + 256 * Luby(restartSeq)
                   && nextRestart > nextRestart0
    {
      hide Ready, Accounted, FallsBack, Unfixed, Luby, Solver.Scans, Solver.Shape;
      nextRestart, restartSeq := nextRestart0, restartSeq0;
      if backtracks >= nextRestart {
        Restart(f);
        restartSeq := restartSeq + 1;
        var luby := LubyTerm(restartSeq);
        nextRestart := nextRestart + 256 * luby;
      }
    }

    /** Propagate every unit clause at level 0. */
    method AssertUnits(ghost f: Cnf) returns (ok: bool)
      requires Shape() && Unmarked() && Blank(f, St()) && !empty && |units| > 0 && units[0] == Some(false)
      requires vsids.nextVar == 0
      modifies this`vars, this`mark, this`trail, this`tpos, this`dlevel, this`clauses, this`csets, this`watches,
        this`units, this`empty, this`backtracks, this`touched, vsids
      ensures !ok ==> Unsat(f)
      ensures ok ==> Shape() && Unmarked() && dlevel == 0 && |vars| == |old(vars)| && Ready(f, St().(dlevel := 1))
      ensures ok ==> Accounted(f, passes, Scans(), -1)
    {
      hide Inv, Queue, Blank, Extends, Grown, Kept, UnitsTrue, Ordered, Covered, Entails, FallsBack, Accounted;
      ScansSized();
      AccountedStart(f, passes, Scans());
      StartFacts(f, St());
      for i := 0 to |vars|
        invariant Shape() && Unmarked() && |vars| == |old(vars)| == |units| && dlevel == 0
        invariant Queue(f, St(), |trail|) && UnitsTrue(vars, units, i)
        invariant Accounted(f, passes, Scans(), -1)
        invariant csets == old(csets) && units == old(units)
      {
        UnitFacts(f, St());
        for s := 0 to 2
          invariant Shape() && Unmarked() && |vars| == |old(vars)| == |units| && dlevel == 0
          invariant Queue(f, St(), |trail|) && UnitsTrue(vars, units, i)
          invariant Accounted(f, passes, Scans(), -1)
          invariant csets == old(csets) && units == old(units)
          invariant s == 1 && units[i] == Some(false) ==> UnitsTrue(vars, units, i + 1)
          invariant s == 2 && units[i].Some? ==> UnitsTrue(vars, units, i + 1)
        {
          var lit := if s == 0 then i + 1 else -(i + 1);
          if units[i] == Some(Sign(lit)) {
            ghost var a, front := vars, Scans();
            ok := Propagate(lit, f);
            if !ok {
              return;
            }
            AccountedSet(f, passes, front, Scans(), lit, -1, 0);
            UnitsTrueNext(a, vars, units, i, lit);
            UnitsTrueLess(vars, units, i);
          }
        }
        if units[i].None? {
          UnitsTrueSkip(vars, units, i);
        }
      }
      ok := true;
      FirstReady(f, St());
    }

    /** Halve every activity. */
    method Decay()
      requires Shape()
      modifies vsids`activity
      ensures Shape() && forall v :: 0 <= v < |vars| ==> vsids.activity[v] == old(vsids.activity)[v] / 2
    {
      vsids.Decay();
    }

    /** Take a decision, propagate it and open the next level. */
    method Decide(lit: Lit, ghost f: Cnf) returns (ok: bool)
      requires Shape() && Unmarked() && Ready(f, St()) && InRange(lit, |vars|) && IsFree(vars, lit)
      requires Accounted(f, passes, Scans(), Index(lit))
      modifies this`vars, this`mark, this`trail, this`tpos, this`dlevel, this`clauses, this`csets, this`watches,
        this`units, this`empty, this`backtracks, this`touched, vsids
      ensures !ok ==> Unsat(f)
      ensures ok ==> Shape() && Unmarked() && Ready(f, St()) && Accounted(f, passes, Scans(), -1)
      ensures ok && backtracks != old(backtracks) ==>
                Unstored(csets, |vars|) < Unstored(old(csets), |old(vars)|)
                || (Unstored(csets, |vars|) == Unstored(old(csets), |old(vars)|) && Unfixed(vars) < Unfixed(old(vars)))
      ensures ok && backtracks == old(backtracks) ==>
                Unstored(csets, |vars|) == Unstored(old(csets), |old(vars)|) && Unfixed(vars) <= Unfixed(old(vars))
                && FreeVars(vars) < FreeVars(old(vars))
    {
      hide Inv, Queue, Extends, Grown, Kept, UnitsTrue, Covered, Entails, Advanced, Ready, Unstored, Unfixed, FreeVars,
        FallsBack, Accounted;
      ghost var s, front := St(), Scans();
      ReadyFacts(f, s);
      ok := Propagate(lit, f);
      if !ok {
        return false;
      }
      AccountedSet(f, passes, front, Scans(), lit, Index(lit), s.dlevel);
      DecideKeeps(f, s, St(), lit, backtracks == old(backtracks));
      dlevel := dlevel + 1;
    }

    /**
     Search. The search always ends; `false` means the clauses added are unsatisfiable. `true` means
     that no clause is false or unit under the final assignment and that no variable from the scan position
     on is worth deciding; every free variable before it was not worth deciding when the scan passed it, and
     has since then neither been unset nor been watched by one more clause. The assignment is a model of the
     clauses added if no variable before the scan position is worth deciding either.
     */
    method Solve() returns (sat: bool)
      requires Setup()
      modifies this`vars, this`mark, this`trail, this`tpos, this`dlevel, this`clauses, this`csets, this`watches,
        this`units, this`empty, this`backtracks, this`touched, this`passes, vsids
      ensures !sat ==> Unsat(formula)
      ensures sat ==> Accounted(formula, passes, Scans(), -1)
      ensures sat ==> Ready(formula, St()) && ClausesOk(|vars|, clauses) && NothingMissed(vars, clauses)
      ensures sat ==> Shape() && Inv(formula, St()) && Passed(formula)
      ensures sat && NothingBehind(formula) ==> Models(AsInterp(vars), formula)
    {
      hide Inv, Queue, Blank, Extends, Grown, Kept, UnitsTrue, Ordered, Covered, Entails, Advanced, NothingMissed,
        Indifferent, Passed, NothingBehind, Ready, Unstored, Unfixed, FreeVars, FallsBack, Accounted,
        Solver.Scans, Solver.Shape, Solver.Unmarked, ClausesOk, Models, AsInterp, Unsat, Luby, IsFree, InRange;
      BlankFacts(formula, St());
      if empty {
        EmptyBlank(formula, St());
        return false;
      }
      var ok := AssertUnits(formula);
      if !ok {
        return false;
      }
      var nextDecay, nextRestart, restartSeq := 128, 256, 1;
      dlevel := 1;
      while true
        invariant Shape() && Unmarked() && Ready(formula, St()) && Accounted(formula, passes, Scans(), -1)
        decreases Unstored(csets, |vars|), Unfixed(vars),
                  if backtracks >= nextRestart then backtracks - nextRestart + 1 else 0, FreeVars(vars)
      {
        nextRestart, restartSeq := RestartWhenDue(nextRestart, restartSeq, formula);
        ReadyInv(formula, St());
        var lit := SelectLiteral(formula);
        if lit == NIL {
          NothingSelected(formula);
          return true;
        }
        if backtracks >= nextDecay {
          nextDecay := nextDecay + 128;
          Decay();
        }
        ok := Decide(lit, formula);
        if !ok {
          return false;
        }
      }
    }

    /** What holds when nothing from the scan position on is worth deciding. */
    lemma NothingSelected(f: Cnf)
      requires Shape() && Ready(f, St()) && Inv(f, St()) && Passed(f)
      ensures ClausesOk(|vars|, clauses) && NothingMissed(vars, clauses)
      ensures NothingBehind(f) ==> Models(AsInterp(vars), f)
    {
      hide Ready, Inv, NothingMissed, Passed, NothingBehind, Models;
      ReadyMissesNothing(f, St());
      if NothingBehind(f) {
        NothingLeft(f);
      }
    }

    /** If no variable at all is worth deciding, the assignment is a model. */
    lemma NothingLeft(f: Cnf)
      requires Shape() && Ready(f, St()) && Inv(f, St()) && Passed(f) && NothingBehind(f)
      ensures Models(AsInterp(vars), f)
    {
      hide Ready, Inv, Indifferent;
      forall v | 0 <= v < |vars| ensures Indifferent(f, St(), v) {
        if vsids.rank[v] >= vsids.nextVar {
          assert vsids.order[vsids.rank[v]] == v;
        }
      }
      ReadyModel(f, St());
    }

    lemma LevelsBounded(f: Cnf, c: nat)
      requires Inv(f, St()) && c < |clauses| && AllFalse(vars, clauses[c])
      ensures ClauseOk(|vars|, clauses[c])
      ensures forall k :: 0 <= k < |clauses[c]| ==> Level(vars, clauses[c][k]) <= dlevel
    {
      forall k | 0 <= k < |clauses[c]| ensures Level(vars, clauses[c][k]) <= dlevel {
        SetLevel(f, St(), clauses[c][k]);
      }
    }
  }

  lemma ZeroConflict(f: Cnf, s: State, c: nat)
    requires Inv(f, s) && s.dlevel == 0 && c < |s.clauses| && AllFalse(s.vars, s.clauses[c])
    ensures Unsat(f)
  {
    ConflictAtZero(f, s.vars, s.trail, s.tpos, s.clauses, s.csets, s.units, s.empty, c);
  }

  lemma EmptyRefutes(f: Cnf, s: State)
    requires Inv(f, s) && s.empty
    ensures Unsat(f)
  {
    EmptyIsUnsat(f);
  }

  /** Distinct false literals belong to distinct variables. */
  lemma OthersElsewhere(a: seq<Var>, c: Clause, k: nat)
    requires ClauseOk(|a|, c) && AllFalse(a, c) && k < |c|
    ensures forall j :: 0 <= j < |c| && j != k ==> Index(c[j]) != Index(c[k])
  {
    forall j | 0 <= j < |c| && j != k ensures Index(c[j]) != Index(c[k]) {
      assert IsFalse(a, c[j]) && IsFalse(a, c[k]) && c[j] != c[k];
    }
  }
}
