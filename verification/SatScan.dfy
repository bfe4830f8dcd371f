/**
 The scan for decisions of the SAT engine: what stands before the scan position, and why the scan
 need not look at it again.
 */
module SatScan {
  import opened Wrappers
  import opened SatLogic
  import opened SatInvariant
  import opened SatSteps
  import opened SatSearch
  import opened SatOrder

  /**
   Where the scan stands: the rank of each variable, the scan position, the assignment, and how
   often each variable was unset or came to be watched by one more clause.
   */
  datatype Front = Front(rank: seq<nat>, next: nat, vars: seq<Var>, touched: seq<nat>)

  ghost predicate Sized(a: Front) {
    |a.rank| == |a.vars| == |a.touched|
  }

  /** Variable `v` stands before the scan position. */
  ghost predicate Behind(a: Front, v: int) {
    0 <= v < |a.rank| && a.rank[v] < a.next
  }

  ghost predicate FreeAt(a: Front, v: int) {
    0 <= v < |a.vars| && !a.vars[v].isSet
  }

  /**
   From `a` to `b` the scan falls back to every variable that is unset or gets a watch: what stands
   before the position at `b` stood before it at `a`, and if it is free it was so all the time and
   no clause came to watch it.
   */
  ghost predicate FallsBack(a: Front, b: Front) {
    && Sized(a) && Sized(b) && |a.rank| == |b.rank|
    && forall v :: Behind(b, v) ==>
         Behind(a, v) && (FreeAt(b, v) ==> FreeAt(a, v) && b.touched[v] == a.touched[v])
  }

  lemma FallsBackSelf(a: Front)
    requires Sized(a)
    ensures FallsBack(a, a)
  {
  }

  lemma FallsBackThen(a: Front, b: Front, c: Front)
    requires FallsBack(a, b) && FallsBack(b, c)
    ensures FallsBack(a, c)
  {
  }

  /** Setting a variable. */
  lemma SetFallsBack(a: Front, v: int, x: Var)
    requires Sized(a) && 0 <= v < |a.vars| && x.isSet
    ensures FallsBack(a, a.(vars := a.vars[v := x])) && !FreeAt(a.(vars := a.vars[v := x]), v)
  {
  }

  lemma SetThenFallsBack(a: Front, b: Front, v: int, x: Var)
    requires FallsBack(a, b) && 0 <= v < |b.vars| && x.isSet
    ensures FallsBack(a, b.(vars := b.vars[v := x]))
  {
    SetFallsBack(b, v, x);
    FallsBackThen(a, b, b.(vars := b.vars[v := x]));
  }

  /** Moving variables in the order: none gets before the scan position. */
  lemma RanksFallBack(a: Front, b: Front)
    requires Sized(a) && |b.rank| == |a.rank| && b.vars == a.vars && b.touched == a.touched && b.next <= a.next
    requires forall v :: 0 <= v < |b.rank| && b.rank[v] < b.next ==> b.rank[v] == a.rank[v]
    ensures FallsBack(a, b)
  {
  }

  function Touch(touched: seq<nat>, v: int): seq<nat>
    requires 0 <= v < |touched|
  {
    touched[v := touched[v] + 1]
  }

  /** Lowering the scan position to a variable that is unset or gets a watch. */
  lemma TouchFallsBack(a: Front, b: Front, v: int)
    requires Sized(a) && Sized(b) && 0 <= v < |a.rank| && a.rank == b.rank && b.touched == Touch(a.touched, v)
    requires b.next == if a.rank[v] < a.next then a.rank[v] else a.next
    requires forall u :: 0 <= u < |a.rank| && u != v ==> b.vars[u] == a.vars[u]
    ensures FallsBack(a, b) && !Behind(b, v)
  {
  }

  /** The two watches of a stored clause. */
  function TouchWatches(touched: seq<nat>, c: Clause): (r: seq<nat>)
    requires forall k :: 0 <= k < |c| ==> InRange(c[k], |touched|)
    ensures |r| == |touched|
  {
    if |c| < 2 then touched
    else
      assert InRange(c[0], |touched|) && InRange(c[1], |touched|);
      Touch(Touch(touched, Index(c[0])), Index(c[1]))
  }

  /** A clause that gets its watches where the scan will look again, or at variables that are set. */
  lemma WatchesFallBack(a: Front, b: Front, c: Clause)
    requires FallsBack(a, b) && forall k :: 0 <= k < |c| ==> InRange(c[k], |b.touched|)
    requires |c| >= 2 ==> !Behind(b, Index(c[0])) && !FreeAt(b, Index(c[1]))
    ensures FallsBack(a, b.(touched := TouchWatches(b.touched, c)))
  {
  }

  lemma StaysAhead(a: Front, b: Front, v: int)
    requires FallsBack(a, b) && !Behind(a, v)
    ensures !Behind(b, v)
  {
  }

  /** Analysis, from `a` over `b` to `c`, then unwinding, to `d`, and storing the learnt clause. */
  lemma LearntFallsBack(a: Front, b: Front, c: Front, d: Front, uip: Lit, ng: Clause)
    requires FallsBack(a, b) && FallsBack(b, c) && FallsBack(c, d) && !Behind(c, Index(uip))
    requires ng != [] && ng[0] == -uip && forall k :: 0 <= k < |ng| ==> InRange(ng[k], |d.vars|)
    requires |ng| >= 2 ==> !FreeAt(d, Index(ng[1]))
    ensures |d.touched| == |d.vars| && FallsBack(a, d.(touched := TouchWatches(d.touched, ng)))
  {
    StaysAhead(c, d, Index(uip));
    FallsBackThen(a, b, c);
    FallsBackThen(a, c, d);
    WatchesFallBack(a, d, ng);
  }

  /** A pass of the scan: the state it saw, and the positions it went over. */
  datatype Pass = Pass(s: State, touched: seq<nat>, rank: seq<nat>, lo: nat, hi: nat)

  /** The pass went over `v` and found that a decision on it would not matter. */
  ghost predicate WentOver(f: Cnf, p: Pass, v: int) {
    && 0 <= v < |p.s.vars| == |p.touched| == |p.rank| && p.lo <= p.rank[v] < p.hi
    && Inv(f, p.s) && Indifferent(f, p.s, v) && !p.s.vars[v].isSet
  }

  /** Some pass went over `v`, which was neither unset since then nor got a watch. */
  ghost predicate LeftAlone(f: Cnf, passes: seq<Pass>, a: Front, v: int)
    requires 0 <= v < |a.touched|
  {
    exists k :: 0 <= k < |passes| && WentOver(f, passes[k], v) && passes[k].touched[v] == a.touched[v]
  }

  /** Every free variable before the scan position but `except` was left alone since it was passed. */
  ghost predicate Accounted(f: Cnf, passes: seq<Pass>, a: Front, except: int) {
    Sized(a) && forall v :: Behind(a, v) && FreeAt(a, v) && v != except ==> LeftAlone(f, passes, a, v)
  }

  lemma AccountedStart(f: Cnf, passes: seq<Pass>, a: Front)
    requires Sized(a) && a.next == 0
    ensures Accounted(f, passes, a, -1)
  {
  }

  lemma AccountedLater(f: Cnf, passes: seq<Pass>, a: Front, b: Front, except: int)
    requires Accounted(f, passes, a, except) && FallsBack(a, b) && (except >= 0 ==> !FreeAt(a, except))
    ensures Accounted(f, passes, b, -1)
  {
    forall v | Behind(b, v) && FreeAt(b, v) ensures LeftAlone(f, passes, b, v) {
      assert Behind(a, v) && FreeAt(a, v);
      assert v != except;
      assert LeftAlone(f, passes, a, v);
    }
  }

  /** Setting a literal, `except` or another, and what happens afterwards. */
  lemma AccountedSet(f: Cnf, passes: seq<Pass>, a: Front, b: Front, lit: Lit, except: int, dl: nat)
    requires Accounted(f, passes, a, except) && InRange(lit, |a.vars|) && (except == -1 || except == Index(lit))
    requires FallsBack(a.(vars := SetLit(a.vars, lit, dl, None)), b)
    ensures Accounted(f, passes, b, -1)
  {
    hide FallsBack, LeftAlone;
    var c := a.(vars := SetLit(a.vars, lit, dl, None));
    forall v | Behind(c, v) && FreeAt(c, v) ensures LeftAlone(f, passes, c, v) {
      assert Behind(a, v) && FreeAt(a, v) && v != Index(lit);
      SameCount(f, passes, a, c, v);
    }
    AccountedLater(f, passes, c, b, -1);
  }

  lemma SameCount(f: Cnf, passes: seq<Pass>, a: Front, b: Front, v: int)
    requires 0 <= v < |a.touched| == |b.touched| && a.touched[v] == b.touched[v] && LeftAlone(f, passes, a, v)
    ensures LeftAlone(f, passes, b, v)
  {
  }

  /** What a pass that ends at a selected variable adds. */
  lemma AccountedPass(f: Cnf, passes: seq<Pass>, s: State, a: Front, sel: int)
    requires Accounted(f, passes, a, -1) && s.vars == a.vars && Inv(f, s)
    requires 0 <= sel < |a.rank| && a.next <= a.rank[sel]
    requires forall u, v :: 0 <= u < v < |a.rank| ==> a.rank[u] != a.rank[v]
    requires forall v :: 0 <= v < |a.rank| && a.next <= a.rank[v] < a.rank[sel] ==> Indifferent(f, s, v)
    ensures Accounted(f, passes + [Pass(s, a.touched, a.rank, a.next, a.rank[sel])], a.(next := a.rank[sel] + 1), sel)
  {
    hide Inv, Indifferent;
    var b, p := a.(next := a.rank[sel] + 1), Pass(s, a.touched, a.rank, a.next, a.rank[sel]);
    var all := passes + [p];
    forall v | Behind(b, v) && FreeAt(b, v) && v != sel ensures LeftAlone(f, all, b, v) {
      if Behind(a, v) {
        assert LeftAlone(f, passes, a, v);
        var k :| 0 <= k < |passes| && WentOver(f, passes[k], v) && passes[k].touched[v] == a.touched[v];
        assert all[k] == passes[k];
      } else {
        assert all[|passes|] == p && WentOver(f, p, v);
      }
    }
  }
}
