/**
 How setting a literal, moving a watch and storing a clause affect the engine's invariant.
 */
module SatPropagation {
  import opened Wrappers
  import opened SatLogic
  import opened SatInvariant

  /** Exchange positions `i` and `j` of a clause. */
  function Swap(c: Clause, i: nat, j: nat): Clause
    requires i < |c| && j < |c|
  {
    c[i := c[j]][j := c[i]]
  }

  function Remove(s: seq<nat>, i: nat): seq<nat>
    requires i < |s|
  {
    s[i := s[|s| - 1]][..|s| - 1]
  }

  lemma SwapKeepsLits(n: nat, c: Clause, i: nat, j: nat)
    requires ClauseOk(n, c) && i < |c| && j < |c|
    ensures ClauseOk(n, Swap(c, i, j)) && LitSet(Swap(c, i, j)) == LitSet(c)
  {
    var d := Swap(c, i, j);
    assert forall l :: l in d ==> l in c;
    forall l | l in c ensures l in d {
      var k :| 0 <= k < |c| && c[k] == l;
      assert d[if k == i then j else if k == j then i else k] == l;
    }
  }

  lemma RemoveIsDifference(s: seq<nat>, i: nat)
    requires Distinct(s) && i < |s|
    ensures Distinct(Remove(s, i))
    ensures forall x :: x in Remove(s, i) <==> x in s && x != s[i]
  {
    var t := Remove(s, i);
    forall x | x in s && x != s[i] ensures x in t {
      var k :| 0 <= k < |s| && s[k] == x;
      assert t[if k == |s| - 1 then i else k] == x;
    }
  }

  /** Watch lists after clause `c` trades its watch `f`, listed at `i`, for the literal at index `j`. */
  function MovedWatches(ws: map<Lit, seq<nat>>, f: Lit, i: nat, g: Lit): map<Lit, seq<nat>>
    requires f in ws && g in ws && i < |ws[f]|
  {
    ws[g := ws[g] + [ws[f][i]]][f := Remove(ws[f], i)]
  }

  lemma MoveKeepsWatchLists(n: nat, cls: seq<Clause>, ws: map<Lit, seq<nat>>, f: Lit, i: nat, fi: nat, j: nat)
    requires ClausesOk(n, cls) && WatchListsOk(n, cls, ws)
    requires f in ws && i < |ws[f]| && fi < 2 && 2 <= j < |cls[ws[f][i]]|
    requires cls[ws[f][i]][fi] == f
    ensures var c := ws[f][i];
            var cls' := cls[c := Swap(cls[c], fi, j)];
            cls[c][j] in ws && ClausesOk(n, cls') && WatchListsOk(n, cls', MovedWatches(ws, f, i, cls[c][j]))
  {
    var c := ws[f][i];
    var g := cls[c][j];
    var cls' := cls[c := Swap(cls[c], fi, j)];
    SwapKeepsLits(n, cls[c], fi, j);
    RemoveIsDifference(ws[f], i);
    var ws' := MovedWatches(ws, f, i, g);
    assert c !in ws[g] by {
      assert cls[c][0] != g && cls[c][1] != g;
    }
    forall l | l in ws' ensures Distinct(ws'[l]) {}
    forall l, k | l in ws' && 0 <= k < |ws'[l]|
      ensures ws'[l][k] < |cls'| && (cls'[ws'[l][k]][0] == l || cls'[ws'[l][k]][1] == l)
    {
      if l == f {
        assert ws'[l][k] in Remove(ws[f], i);
        assert ws'[l][k] in ws[f];
      } else if l == g && k == |ws[g]| {
        assert ws'[l][k] == c;
      } else {
        assert ws'[l][k] == ws[l][k];
      }
    }
    forall d | 0 <= d < |cls'|
      ensures d in ws'[cls'[d][0]] && d in ws'[cls'[d][1]]
    {
      if d == c {
        assert c in ws'[g];
        assert cls[c][1 - fi] != g;
      }
    }
  }

  /** The lists with clause `d` added under its first two literals. */
  ghost function ListUnder(ws: map<Lit, seq<nat>>, x: Lit, y: Lit, d: nat): map<Lit, seq<nat>>
    requires x in ws && y in ws
  {
    ws[x := ws[x] + [d]][y := ws[y] + [d]]
  }

  lemma ListedUnder(ws: map<Lit, seq<nat>>, x: Lit, y: Lit, d: nat, l: Lit)
    requires x in ws && y in ws && x != y && l in ws
    ensures l in ListUnder(ws, x, y, d)
    ensures ListUnder(ws, x, y, d)[l] == if l == x || l == y then ws[l] + [d] else ws[l]
  {
  }

  lemma AppendKeepsWatchLists(n: nat, cls: seq<Clause>, ws: map<Lit, seq<nat>>, c: Clause)
    requires ClausesOk(n, cls) && WatchListsOk(n, cls, ws) && ClauseOk(n, c)
    ensures ClausesOk(n, cls + [c])
    ensures WatchListsOk(n, cls + [c], ws[c[0] := ws[c[0]] + [|cls|]][c[1] := ws[c[1]] + [|cls|]])
  {
    hide ListUnder;
    assert InRange(c[0], n) && InRange(c[1], n) && c[0] != c[1];
    assert c[0] in ws && c[1] in ws;
    var all, lists := cls + [c], ListUnder(ws, c[0], c[1], |cls|);
    UnderBoth(ws, c[0], c[1], |cls|);
    forall l | l in lists
      ensures Distinct(lists[l])
      ensures forall i :: 0 <= i < |lists[l]| ==>
        lists[l][i] < |all| && (all[lists[l][i]][0] == l || all[lists[l][i]][1] == l)
    {
      ListedUnder(ws, c[0], c[1], |cls|, l);
      assert forall i :: 0 <= i < |ws[l]| ==> ws[l][i] < |cls|;
    }
    forall d | 0 <= d < |all|
      ensures var e := all[d]; e[0] in lists && e[1] in lists && d in lists[e[0]] && d in lists[e[1]]
    {
      ListedUnder(ws, c[0], c[1], |cls|, all[d][0]);
      ListedUnder(ws, c[0], c[1], |cls|, all[d][1]);
    }
  }

  lemma UnderBoth(ws: map<Lit, seq<nat>>, x: Lit, y: Lit, d: nat)
    requires x in ws && y in ws
    ensures ListUnder(ws, x, y, d) == ws[x := ws[x] + [d]][y := ws[y] + [d]]
    ensures forall l :: l in ListUnder(ws, x, y, d) <==> l in ws
  {
  }

  lemma FrontSwapKeepsWatchLists(n: nat, cls: seq<Clause>, ws: map<Lit, seq<nat>>, c: nat)
    requires ClausesOk(n, cls) && WatchListsOk(n, cls, ws) && c < |cls|
    ensures ClausesOk(n, cls[c := Swap(cls[c], 0, 1)])
    ensures WatchListsOk(n, cls[c := Swap(cls[c], 0, 1)], ws)
  {
    SwapKeepsLits(n, cls[c], 0, 1);
  }

  lemma SwapKeepsEntailed(f: Cnf, a: seq<Var>, tr: seq<Lit>, cls: seq<Clause>, csets: seq<set<Lit>>,
                          units: seq<Option<bool>>, empty: bool, c: nat, i: nat, j: nat)
    requires forall i :: 0 <= i < |tr| ==> InRange(tr[i], |a|)
    requires ClausesOk(|a|, cls) && Entailed(f, a, tr, cls, csets, units, empty)
    requires c < |cls| && i < |cls[c]| && j < |cls[c]|
    ensures Entailed(f, a, tr, cls[c := Swap(cls[c], i, j)], csets, units, empty)
  {
    SwapKeepsLits(|a|, cls[c], i, j);
  }

  /** A clause whose first literal is not true is nobody's reason. */
  lemma SwapKeepsReasons(a: seq<Var>, tpos: seq<nat>, cls: seq<Clause>, c: nat, i: nat, j: nat)
    requires ClausesOk(|a|, cls) && |tpos| == |a| && ReasonsOk(a, tpos, cls)
    requires c < |cls| && i < |cls[c]| && j < |cls[c]| && !IsTrue(a, cls[c][0])
    ensures ClausesOk(|a|, cls[c := Swap(cls[c], i, j)])
    ensures ReasonsOk(a, tpos, cls[c := Swap(cls[c], i, j)])
  {
    var cls' := cls[c := Swap(cls[c], i, j)];
    SwapKeepsLits(|a|, cls[c], i, j);
    forall v | 0 <= v < |a| && a[v].isSet && a[v].reason.Some?
      ensures a[v].reason.value < |cls'| && Forces(a, tpos, cls'[a[v].reason.value], v)
    {
      assert Forces(a, tpos, cls[a[v].reason.value], v);
      assert IsTrue(a, TrueLit(a, v));
    }
  }

  /** Trading a false watch for a literal that is not false. */
  lemma MoveKeepsGuard(a: seq<Var>, tpos: seq<nat>, cls: seq<Clause>, c: nat, fi: nat, j: nat, limit: int)
    requires ClausesOk(|a|, cls) && |tpos| == |a| && WatchesGuard(a, tpos, cls, limit)
    requires c < |cls| && fi < 2 && 2 <= j < |cls[c]|
    requires !IsTrue(a, cls[c][1 - fi]) && !IsFalse(a, cls[c][j])
    ensures ClausesOk(|a|, cls[c := Swap(cls[c], fi, j)])
    requires IsFalse(a, cls[c][fi]) && tpos[Index(cls[c][fi])] >= limit
    ensures WatchesGuard(a, tpos, cls[c := Swap(cls[c], fi, j)], limit)
  {
    var cls' := cls[c := Swap(cls[c], fi, j)];
    SwapKeepsLits(|a|, cls[c], fi, j);
    assert ClauseGuarded(a, tpos, cls[c], limit);
    forall d | 0 <= d < |cls'| ensures ClauseGuarded(a, tpos, cls'[d], limit) {
      if d != c { assert ClauseGuarded(a, tpos, cls[d], limit); }
    }
  }

  lemma FrontSwapKeepsGuard(a: seq<Var>, tpos: seq<nat>, cls: seq<Clause>, c: nat, limit: int)
    requires ClausesOk(|a|, cls) && |tpos| == |a| && WatchesGuard(a, tpos, cls, limit) && c < |cls|
    ensures ClausesOk(|a|, cls[c := Swap(cls[c], 0, 1)])
    ensures WatchesGuard(a, tpos, cls[c := Swap(cls[c], 0, 1)], limit)
  {
    var cls' := cls[c := Swap(cls[c], 0, 1)];
    SwapKeepsLits(|a|, cls[c], 0, 1);
    forall d | 0 <= d < |cls'| ensures ClauseGuarded(a, tpos, cls'[d], limit) {
      assert ClauseGuarded(a, tpos, cls[d], limit);
    }
  }

  /** Setting a free literal. */
  lemma SetKeepsTrail(a: seq<Var>, tr: seq<Lit>, tpos: seq<nat>, dl: nat, l: Lit, r: Option<nat>)
    requires TrailOk(a, tr, tpos, dl) && InRange(l, |a|) && IsFree(a, l)
    ensures TrailOk(SetLit(a, l, dl, r), tr + [l], tpos[Index(l) := |tr|], dl)
    ensures Consistent(a, tr) ==> Consistent(SetLit(a, l, dl, r), tr + [l])
  {
    hide LevelsRise;
    AppendKeepsTrail(a, tr, tpos, dl, l, SetLit(a, l, dl, r));
  }

  /** Appending a literal, recorded at the current level, that does not stand above level 0 already. */
  lemma AppendKeepsTrail(a: seq<Var>, tr: seq<Lit>, tpos: seq<nat>, dl: nat, l: Lit, a': seq<Var>)
    requires TrailOk(a, tr, tpos, dl) && InRange(l, |a|) && (IsFree(a, l) || dl == 0)
    requires |a'| == |a| && a' == a[Index(l) := a'[Index(l)]]
    requires a'[Index(l)].isSet && a'[Index(l)].sign == Sign(l) && a'[Index(l)].dlevel == dl
    ensures TrailOk(a', tr + [l], tpos[Index(l) := |tr|], dl)
  {
    var tr', tpos' := tr + [l], tpos[Index(l) := |tr|];
    forall i | 0 <= i < |tr|
      ensures InRange(tr'[i], |a'|) && a'[Index(tr'[i])].isSet && Level(a', tr'[i]) == Level(a, tr[i]) <= dl
      ensures Level(a', tr'[i]) > 0 ==> tpos'[Index(tr'[i])] == i
    {
      assert Index(tr[i]) != Index(l) || dl == 0;
    }
    forall v | 0 <= v < |a'| && a'[v].isSet
      ensures tpos'[v] < |tr'| && tr'[tpos'[v]] == TrueLit(a', v)
    {
      if v != Index(l) {
        assert tr'[tpos[v]] == tr[tpos[v]];
      }
    }
  }

  lemma SetKeepsEntailed(f: Cnf, a: seq<Var>, tr: seq<Lit>, cls: seq<Clause>, csets: seq<set<Lit>>,
                         units: seq<Option<bool>>, empty: bool, l: Lit, dl: nat, r: Option<nat>)
    requires InRange(l, |a|) && (forall i :: 0 <= i < |tr| ==> InRange(tr[i], |a|))
    requires Entailed(f, a, tr, cls, csets, units, empty)
    requires forall i :: 0 <= i < |tr| ==> Level(a, tr[i]) <= dl
    requires dl == 0 || (IsFree(a, l) && forall i :: 0 <= i < |tr| ==> a[Index(tr[i])].isSet)
    requires dl == 0 ==> Entails(f, {l})
    ensures Entailed(f, SetLit(a, l, dl, r), tr + [l], cls, csets, units, empty)
  {
  }

  lemma SetKeepsReasons(a: seq<Var>, tr: seq<Lit>, tpos: seq<nat>, dl: nat, cls: seq<Clause>, l: Lit, r: Option<nat>)
    requires ClausesOk(|a|, cls) && TrailOk(a, tr, tpos, dl) && ReasonsOk(a, tpos, cls)
    requires InRange(l, |a|) && IsFree(a, l)
    requires r.Some? ==> r.value < |cls| && cls[r.value][0] == l
                         && forall k :: 1 <= k < |cls[r.value]| ==> IsFalse(a, cls[r.value][k])
    requires r.Some? ==> forall k :: 1 <= k < |cls[r.value]| ==> Level(a, cls[r.value][k]) <= dl
    ensures ReasonsOk(SetLit(a, l, dl, r), tpos[Index(l) := |tr|], cls)
  {
    hide LevelsRise;
    var a', tpos' := SetLit(a, l, dl, r), tpos[Index(l) := |tr|];
    forall v | 0 <= v < |a'| && a'[v].isSet && a'[v].reason.Some?
      ensures a'[v].reason.value < |cls| && Forces(a', tpos', cls[a'[v].reason.value], v)
    {
      if v != Index(l) {
        assert Forces(a, tpos, cls[a[v].reason.value], v);
      } else {
        assert TrueLit(a', v) == l;
      }
    }
  }

  lemma SetKeepsGuard(a: seq<Var>, tr: seq<Lit>, tpos: seq<nat>, cls: seq<Clause>, l: Lit, dl: nat, r: Option<nat>,
                      limit: int)
    requires ClausesOk(|a|, cls) && |tpos| == |a| && WatchesGuard(a, tpos, cls, limit)
    requires InRange(l, |a|) && IsFree(a, l) && limit <= |tr|
    ensures WatchesGuard(SetLit(a, l, dl, r), tpos[Index(l) := |tr|], cls, limit)
  {
    var a', tpos' := SetLit(a, l, dl, r), tpos[Index(l) := |tr|];
    forall c | 0 <= c < |cls| ensures ClauseGuarded(a', tpos', cls[c], limit) {
      assert ClauseGuarded(a, tpos, cls[c], limit);
    }
  }

  /** A clause with one literal left, all others refuted, yields that literal. */
  lemma ImpliedAtZero(f: Cnf, a: seq<Var>, tr: seq<Lit>, tpos: seq<nat>, cls: seq<Clause>,
                      csets: seq<set<Lit>>, units: seq<Option<bool>>, empty: bool, c: nat, w: Lit)
    requires ClausesOk(|a|, cls) && TrailOk(a, tr, tpos, 0) && Entailed(f, a, tr, cls, csets, units, empty)
    requires c < |cls| && forall k :: 0 <= k < |cls[c]| ==> cls[c][k] == w || IsFalse(a, cls[c][k])
    ensures Entails(f, {w})
  {
    hide LevelsRise;
    forall l | l in csets[c] && l != w ensures l != NIL && Entails(f, {-l}) {
      var k :| 0 <= k < |cls[c]| && cls[c][k] == l;
      FalseLitOnTrail(a, tr, tpos, 0, l);
      ZeroLevelFalse(f, a, tr, tpos, 0, l);
    }
    DropFalse(f, csets[c], {w});
  }

  /** Setting a level-0 literal a second time, to the same sign. */
  lemma ResetKeepsReasons(a: seq<Var>, tpos: seq<nat>, cls: seq<Clause>, l: Lit, p: nat)
    requires ClausesOk(|a|, cls) && |tpos| == |a| && InRange(l, |a|) && IsTrue(a, l)
    requires forall v :: 0 <= v < |a| && a[v].isSet ==> a[v].dlevel == 0
    requires ReasonsOk(a, tpos, cls)
    ensures ReasonsOk(SetLit(a, l, 0, None), tpos[Index(l) := p], cls)
  {
    hide LevelsRise;
    var a', tpos' := SetLit(a, l, 0, None), tpos[Index(l) := p];
    forall v | 0 <= v < |a'| && a'[v].isSet && a'[v].reason.Some?
      ensures a'[v].reason.value < |cls| && Forces(a', tpos', cls[a'[v].reason.value], v)
    {
      assert Forces(a, tpos, cls[a[v].reason.value], v);
    }
  }

  lemma ResetKeepsGuard(a: seq<Var>, tpos: seq<nat>, cls: seq<Clause>, l: Lit, limit: nat)
    requires ClausesOk(|a|, cls) && |tpos| == |a| && InRange(l, |a|) && IsTrue(a, l)
    requires forall v :: 0 <= v < |a| && a[v].isSet ==> a[v].dlevel == 0
    requires WatchesGuard(a, tpos, cls, limit)
    ensures WatchesGuard(SetLit(a, l, 0, None), tpos[Index(l) := limit], cls, limit)
  {
    hide LevelsRise;
    var a', tpos' := SetLit(a, l, 0, None), tpos[Index(l) := limit];
    forall c | 0 <= c < |cls| ensures ClauseGuarded(a', tpos', cls[c], limit) {
      assert ClauseGuarded(a, tpos, cls[c], limit);
    }
  }

  /** At level 0 every set variable is a level-0 variable. */
  lemma AllAtZero(a: seq<Var>, tr: seq<Lit>, tpos: seq<nat>)
    requires TrailOk(a, tr, tpos, 0)
    ensures forall v :: 0 <= v < |a| && a[v].isSet ==> a[v].dlevel == 0
  {
    forall v | 0 <= v < |a| && a[v].isSet ensures a[v].dlevel == 0 {
      assert Level(a, tr[tpos[v]]) == a[v].dlevel;
    }
  }

  /** Contradicting level 0 keeps the trail records, though the trail is no longer consistent. */
  lemma FlipKeepsTrail(a: seq<Var>, tr: seq<Lit>, tpos: seq<nat>, l: Lit)
    requires TrailOk(a, tr, tpos, 0) && InRange(l, |a|) && IsFalse(a, l)
    ensures TrailOk(SetLit(a, l, 0, None), tr + [l], tpos[Index(l) := |tr|], 0)
  {
    hide LevelsRise;
    AppendKeepsTrail(a, tr, tpos, 0, l, SetLit(a, l, 0, None));
  }
}
