/**
 How a clause from a theory solver is normalised before it is stored: duplicates and false
 constants dropped, tautologies recognised, and the two best literals brought to the front.
 */
module SatLazyClause {
  import opened SatLogic
  import opened SatInvariant

  /**
   The first two literals are fit to be watched: a true literal of lowest level comes first; failing
   that, free literals come first, then a false literal of highest level; failing that, the false
   literals of highest level.
   */
  ghost predicate WellWatched(a: seq<Var>, c: Clause)
    requires forall k :: 0 <= k < |c| ==> InRange(c[k], |a|)
  {
    && (forall k :: 0 <= k < |c| && IsTrue(a, c[k]) ==> IsTrue(a, c[0]) && Level(a, c[0]) <= Level(a, c[k]))
    && (forall k :: 0 <= k < |c| && IsFree(a, c[k]) ==> !IsFalse(a, c[0]))
    && (forall k :: 1 <= k < |c| && IsFree(a, c[0]) && IsFree(a, c[k]) ==> IsFree(a, c[1]))
    && (forall k :: 1 <= k < |c| && !IsTrue(a, c[0]) && IsFalse(a, c[1]) ==>
          IsFalse(a, c[k]) && Level(a, c[k]) <= Level(a, c[1]))
    && (|c| >= 2 && IsFalse(a, c[0]) ==> Level(a, c[1]) <= Level(a, c[0]))
  }

  /** Place `lit` among the `idx` literals already in the buffer. */
  method InsertLiteral(a: seq<Var>, lits: array<Lit>, lit: Lit, idx: nat)
    requires idx < lits.Length && InRange(lit, |a|)
    requires forall k :: 0 <= k < idx ==> InRange(lits[k], |a|)
    modifies lits
    ensures lits[..idx + 1] == Placed(a, old(lits[..idx]), lit)
  {
    if idx == 0 {
      lits[0] := lit;
    } else if idx == 1 {
      InsertSecond(a, lits, lit);
    } else {
      InsertLater(a, lits, lit, idx);
    }
  }

  method InsertSecond(a: seq<Var>, lits: array<Lit>, lit: Lit)
    requires 1 < lits.Length && InRange(lit, |a|) && InRange(lits[0], |a|)
    modifies lits
    ensures lits[..2] == Placed(a, [old(lits[0])], lit)
  {
    var lit0 := lits[0];
    if IsTrue(a, lit) {
      if IsTrue(a, lit0) && Level(a, lit0) < Level(a, lit) {
        lits[1] := lit;
      } else {
        lits[1] := lit0;
        lits[0] := lit;
      }
    } else if IsFree(a, lit) {
      if IsTrue(a, lit0) {
        lits[1] := lit;
      } else {
        lits[1] := lit0;
        lits[0] := lit;
      }
    } else if IsFalse(a, lit0) && Level(a, lit) > Level(a, lit0) {
      lits[1] := lit0;
      lits[0] := lit;
    } else {
      lits[1] := lit;
    }
  }

  method InsertLater(a: seq<Var>, lits: array<Lit>, lit: Lit, idx: nat)
    requires 2 <= idx < lits.Length && InRange(lit, |a|)
    requires forall k :: 0 <= k < idx ==> InRange(lits[k], |a|)
    modifies lits
    ensures lits[..idx + 1] == Placed(a, old(lits[..idx]), lit)
  {
    ghost var c := lits[..idx];
    var lit0, lit1 := lits[0], lits[1];
    if IsTrue(a, lit) {
      lits[idx] := lit1;
      if !IsTrue(a, lit0) || Level(a, lit) < Level(a, lit0) {
        lits[1] := lit0;
        lits[0] := lit;
      } else {
        lits[1] := lit;
      }
    } else if IsFree(a, lit) {
      lits[idx] := lit1;
      if !IsTrue(a, lit0) {
        lits[1] := lit0;
        lits[0] := lit;
      } else {
        lits[1] := lit;
      }
    } else if IsFalse(a, lit0) {
      if Level(a, lit) > Level(a, lit0) {
        lits[idx] := lit1;
        lits[1] := lit0;
        lits[0] := lit;
      } else if IsFalse(a, lit1) && Level(a, lit) > Level(a, lit1) {
        lits[idx] := lit1;
        lits[1] := lit;
      } else {
        lits[idx] := lit;
      }
    } else if IsFalse(a, lit1) && Level(a, lit) > Level(a, lit1) {
      lits[idx] := lit1;
      lits[1] := lit;
    } else {
      lits[idx] := lit;
    }
    assert lits[2..idx] == c[2..];
    assert lits[..idx + 1] == [lits[0], lits[1]] + lits[2..idx] + [lits[idx]];
  }

  /** The buffer `c` after `lit` is placed; whatever stood second may move to the back. */
  ghost function Placed(a: seq<Var>, c: Clause, lit: Lit): Clause
    requires InRange(lit, |a|) && forall k :: 0 <= k < |c| ==> InRange(c[k], |a|)
  {
    if c == [] then [lit]
    else
      var rest := if |c| == 1 then [] else c[2..] + [c[1]];
      match Position(a, c, lit)
      case 0 => [lit, c[0]] + rest
      case 1 => [c[0], lit] + rest
      case _ => c + [lit]
  }

  /** Placing a literal keeps the literals, and keeps the front fit to be watched. */
  lemma PlacedIsWatched(a: seq<Var>, c: Clause, lit: Lit)
    requires InRange(lit, |a|) && forall k :: 0 <= k < |c| ==> InRange(c[k], |a|)
    requires WellWatched(a, c)
    ensures multiset(Placed(a, c, lit)) == multiset(c + [lit])
    ensures forall k :: 0 <= k < |Placed(a, c, lit)| ==> InRange(Placed(a, c, lit)[k], |a|)
    ensures WellWatched(a, Placed(a, c, lit))
  {
    hide WellWatched;
    if |c| == 0 {
      FirstIsWatched(a, lit);
    } else if |c| == 1 {
      assert c == [c[0]];
      SecondIsWatched(a, c[0], lit);
    } else {
      LaterIsWatched(a, c, lit);
      PlacedKeepsLits(a, c, lit);
    }
  }

  /** Where `lit` belongs: first, second, or behind. */
  ghost function Position(a: seq<Var>, c: Clause, lit: Lit): nat
    requires |c| >= 1 && InRange(lit, |a|) && forall k :: 0 <= k < |c| ==> InRange(c[k], |a|)
  {
    if IsTrue(a, lit) then
      (if |c| == 1 then (if IsTrue(a, c[0]) && Level(a, c[0]) < Level(a, lit) then 1 else 0)
       else if !IsTrue(a, c[0]) || Level(a, lit) < Level(a, c[0]) then 0 else 1)
    else if IsFree(a, lit) then (if IsTrue(a, c[0]) then 1 else 0)
    else if IsFalse(a, c[0]) && Level(a, lit) > Level(a, c[0]) then 0
    else if |c| == 1 || (IsFalse(a, c[1]) && Level(a, lit) > Level(a, c[1])) then 1
    else 2
  }

  lemma FirstIsWatched(a: seq<Var>, lit: Lit)
    requires InRange(lit, |a|)
    ensures WellWatched(a, [lit])
  {
  }

  lemma SecondIsWatched(a: seq<Var>, lit0: Lit, lit: Lit)
    requires InRange(lit0, |a|) && InRange(lit, |a|)
    ensures forall k :: 0 <= k < |Placed(a, [lit0], lit)| ==> InRange(Placed(a, [lit0], lit)[k], |a|)
    ensures WellWatched(a, Placed(a, [lit0], lit))
    ensures multiset(Placed(a, [lit0], lit)) == multiset([lit0] + [lit])
  {
    var d := Placed(a, [lit0], lit);
    assert d == [lit0, lit] || d == [lit, lit0];
  }

  lemma PlacedKeepsLits(a: seq<Var>, c: Clause, lit: Lit)
    requires |c| >= 2 && InRange(lit, |a|) && forall k :: 0 <= k < |c| ==> InRange(c[k], |a|)
    ensures multiset(Placed(a, c, lit)) == multiset(c + [lit])
  {
    hide Position, IsTrue, IsFalse, IsFree;
    var rest := c[2..];
    assert c == [c[0], c[1]] + rest;
    assert [lit, c[0]] + (rest + [c[1]]) == [lit, c[0]] + rest + [c[1]];
    assert [c[0], lit] + (rest + [c[1]]) == [c[0], lit] + rest + [c[1]];
  }

  /** Literal `l` may stand behind the watches `x` and `y`. */
  ghost predicate Follows(a: seq<Var>, x: Lit, y: Lit, l: Lit)
    requires InRange(x, |a|) && InRange(y, |a|) && InRange(l, |a|)
  {
    && (IsTrue(a, l) ==> IsTrue(a, x) && Level(a, x) <= Level(a, l))
    && (IsFree(a, l) ==> !IsFalse(a, x))
    && (IsFree(a, x) && IsFree(a, l) ==> IsFree(a, y))
    && (!IsTrue(a, x) && IsFalse(a, y) ==> IsFalse(a, l) && Level(a, l) <= Level(a, y))
  }

  lemma WatchedIff(a: seq<Var>, c: Clause)
    requires |c| >= 2 && forall k :: 0 <= k < |c| ==> InRange(c[k], |a|)
    ensures WellWatched(a, c) <==>
      && (IsFalse(a, c[0]) ==> Level(a, c[1]) <= Level(a, c[0]))
      && forall k :: 1 <= k < |c| ==> Follows(a, c[0], c[1], c[k])
  {
  }

  /** The place taken suits the two literals that stood first, and those behind them. */
  lemma PositionSuits(a: seq<Var>, c: Clause, lit: Lit, l: Lit)
    requires |c| >= 2 && InRange(lit, |a|) && InRange(l, |a|) && forall k :: 0 <= k < |c| ==> InRange(c[k], |a|)
    requires IsFalse(a, c[0]) ==> Level(a, c[1]) <= Level(a, c[0])
    requires Follows(a, c[0], c[1], c[1]) && Follows(a, c[0], c[1], l)
    ensures var p := Position(a, c, lit);
      var x, y := if p == 0 then lit else c[0], if p == 0 then c[0] else if p == 1 then lit else c[1];
      && (p != 0 ==> Follows(a, x, y, lit)) && Follows(a, x, y, y) && Follows(a, x, y, c[1]) && Follows(a, x, y, l)
      && (IsFalse(a, x) ==> Level(a, y) <= Level(a, x))
  {
  }

  lemma LaterIsWatched(a: seq<Var>, c: Clause, lit: Lit)
    requires |c| >= 2 && InRange(lit, |a|) && forall k :: 0 <= k < |c| ==> InRange(c[k], |a|)
    requires WellWatched(a, c)
    ensures forall k :: 0 <= k < |Placed(a, c, lit)| ==> InRange(Placed(a, c, lit)[k], |a|)
    ensures WellWatched(a, Placed(a, c, lit))
  {
    hide WellWatched, Position, Follows, IsTrue, IsFalse, IsFree;
    var d, p := Placed(a, c, lit), Position(a, c, lit);
    WatchedIff(a, c);
    PositionSuits(a, c, lit, c[1]);
    forall k | 0 <= k < |d|
      ensures InRange(d[k], |a|)
      ensures k >= 1 ==> Follows(a, d[0], d[1], d[k])
    {
      if 2 <= k < |c| {
        assert d[k] == c[k];
        PositionSuits(a, c, lit, c[k]);
      }
    }
    WatchedIff(a, d);
  }

  /** The literals of `lits` that matter: neither missing nor the constant false. */
  ghost predicate Matters(lits: seq<Lit>, l: Lit) {
    l in lits && l != NIL && l != -1
  }

  /** Different positions of `c` hold different variables, so `c` has no duplicate and is no tautology. */
  ghost predicate DistinctVars(c: Clause) {
    forall i, j :: 0 <= i < j < |c| ==> Index(c[i]) != Index(c[j])
  }

  /** `c` holds exactly the literals that matter among `lits`, fit to be watched. */
  ghost predicate Normalised(a: seq<Var>, lits: seq<Lit>, c: Clause) {
    && (forall k :: 0 <= k < |c| ==> InRange(c[k], |a|))
    && (forall l :: l in c <==> Matters(lits, l))
    && DistinctVars(c) && WellWatched(a, c)
  }

  /** The marks are those of the variables of `c`. */
  ghost predicate MarksOf(mark: seq<bool>, c: Clause) {
    forall v :: 0 <= v < |mark| ==> (mark[v] <==> exists k :: 0 <= k < |c| && Index(c[k]) == v)
  }

  /**
   Drop what does not matter and duplicates, or find the clause to be a tautology. The marks, clear
   on entry, are clear again on exit.
   */
  method Normalise(a: seq<Var>, lits: seq<Lit>, mark: array<bool>) returns (useless: bool, c: Clause)
    requires mark.Length == |a| && forall v :: 0 <= v < |a| ==> !mark[v]
    requires forall k :: 0 <= k < |lits| ==> lits[k] == NIL || InRange(lits[k], |a|)
    modifies mark
    ensures forall v :: 0 <= v < |a| ==> !mark[v]
    ensures useless ==> exists l :: Matters(lits, l) && Matters(lits, -l)
    ensures !useless ==> Normalised(a, lits, c)
  {
    hide Normalised, MarksOf;
    var buf := new Lit[|lits| + 1];
    var j := 0;
    NothingNormalised(a, mark[..]);
    useless := false;
    for i := 0 to |lits|
      invariant j <= i && fresh(buf) && buf.Length == |lits| + 1
      invariant Normalised(a, lits[..i], buf[..j]) && MarksOf(mark[..], buf[..j])
    {
      var lit := lits[i];
      assert lits[..i + 1] == lits[..i] + [lit];
      if lit == NIL || lit == -1 {
        SkipKeeps(a, lits[..i], buf[..j], lit);
        continue;
      }
      if mark[Index(lit)] {
        var k := 0;
        while k < j && lit != buf[k] && lit != -buf[k]
          invariant 0 <= k <= j && forall m :: 0 <= m < k ==> buf[m] != lit && buf[m] != -lit
        {
          k := k + 1;
        }
        MarkedIsPresent(a, lits[..i], buf[..j], mark[..], lit, k);
        if lit == -buf[k] {
          TautologyFound(a, lits, i, buf[..j], k);
          NormalisedRange(a, lits[..i], buf[..j]);
          useless := true;
          break;
        }
        SkipKeeps(a, lits[..i], buf[..j], lit);
        continue;
      }
      NormalisedRange(a, lits[..i], buf[..j]);
      ghost var c0, mark0 := buf[..j], mark[..];
      InsertLiteral(a, buf, lit, j);
      InsertKeeps(a, lits[..i], c0, mark0, lit);
      j := j + 1;
      mark[Index(lit)] := true;
      assert mark[..] == mark0[Index(lit) := true];
    }
    c := buf[..j];
    if !useless {
      assert lits[..|lits|] == lits;
      NormalisedRange(a, lits, c);
    }
    ClearMarks(a, c, mark);
  }

  method ClearMarks(a: seq<Var>, c: Clause, mark: array<bool>)
    requires mark.Length == |a| && MarksOf(mark[..], c)
    requires forall k :: 0 <= k < |c| ==> InRange(c[k], |a|)
    modifies mark
    ensures forall v :: 0 <= v < |a| ==> !mark[v]
  {
    for k := 0 to |c|
      invariant forall v :: 0 <= v < |a| && mark[v] ==> exists m :: k <= m < |c| && Index(c[m]) == v
    {
      mark[Index(c[k])] := false;
    }
  }

  lemma NothingNormalised(a: seq<Var>, mark: seq<bool>)
    requires |mark| == |a| && forall v :: 0 <= v < |a| ==> !mark[v]
    ensures Normalised(a, [], []) && MarksOf(mark, [])
  {
  }

  lemma NormalisedRange(a: seq<Var>, lits: seq<Lit>, c: Clause)
    requires Normalised(a, lits, c)
    ensures (forall k :: 0 <= k < |c| ==> InRange(c[k], |a|)) && WellWatched(a, c)
  {
  }

  /** A literal that does not matter, or is present already, changes nothing. */
  lemma SkipKeeps(a: seq<Var>, lits: seq<Lit>, c: Clause, lit: Lit)
    requires Normalised(a, lits, c) && (lit == NIL || lit == -1 || lit in c)
    ensures Normalised(a, lits + [lit], c)
  {
    forall l ensures l in c <==> Matters(lits + [lit], l) {
      assert l in lits + [lit] <==> l in lits || l == lit;
    }
  }

  lemma MarkedIsPresent(a: seq<Var>, lits: seq<Lit>, c: Clause, mark: seq<bool>, lit: Lit, k: nat)
    requires Normalised(a, lits, c) && MarksOf(mark, c) && InRange(lit, |mark|) && mark[Index(lit)]
    requires k <= |c| && (forall m :: 0 <= m < k ==> c[m] != lit && c[m] != -lit)
    requires k < |c| ==> c[k] == lit || c[k] == -lit
    ensures k < |c| && (forall m :: 0 <= m < |c| ==> InRange(c[m], |a|))
  {
    var m :| 0 <= m < |c| && Index(c[m]) == Index(lit);
    assert c[m] == lit || c[m] == -lit;
  }

  lemma TautologyFound(a: seq<Var>, lits: seq<Lit>, i: nat, c: Clause, k: nat)
    requires i < |lits| && Normalised(a, lits[..i], c) && k < |c| && lits[i] == -c[k] && lits[i] != NIL && lits[i] != -1
    ensures Matters(lits, lits[i]) && Matters(lits, -lits[i])
  {
    assert c[k] in c;
    assert Matters(lits[..i], c[k]);
  }

  lemma InsertKeeps(a: seq<Var>, lits: seq<Lit>, c: Clause, mark: seq<bool>, lit: Lit)
    requires Normalised(a, lits, c) && MarksOf(mark, c) && |mark| == |a|
    requires InRange(lit, |a|) && !mark[Index(lit)] && lit != -1
    requires forall k :: 0 <= k < |c| ==> InRange(c[k], |a|)
    ensures Normalised(a, lits + [lit], Placed(a, c, lit))
    ensures MarksOf(mark[Index(lit) := true], Placed(a, c, lit))
  {
    var d := Placed(a, c, lit);
    PlacedIsWatched(a, c, lit);
    assert forall l :: l in d <==> l in multiset(d);
    assert forall l :: l in c + [lit] <==> l in multiset(c + [lit]);
    forall l ensures l in d <==> Matters(lits + [lit], l) {
      assert l in lits + [lit] <==> l in lits || l == lit;
    }
    PlacedDistinct(a, c, lit);
    PlacedMarks(a, c, mark, lit);
  }

  lemma PlacedDistinct(a: seq<Var>, c: Clause, lit: Lit)
    requires InRange(lit, |a|) && (forall k :: 0 <= k < |c| ==> InRange(c[k], |a|)) && DistinctVars(c)
    requires forall k :: 0 <= k < |c| ==> Index(c[k]) != Index(lit)
    ensures DistinctVars(Placed(a, c, lit))
  {
  }

  lemma PlacedMarks(a: seq<Var>, c: Clause, mark: seq<bool>, lit: Lit)
    requires MarksOf(mark, c) && |mark| == |a| && InRange(lit, |a|)
    requires forall k :: 0 <= k < |c| ==> InRange(c[k], |a|)
    requires multiset(Placed(a, c, lit)) == multiset(c + [lit])
    ensures MarksOf(mark[Index(lit) := true], Placed(a, c, lit))
  {
    var d, mark' := Placed(a, c, lit), mark[Index(lit) := true];
    forall v | 0 <= v < |mark'| ensures mark'[v] <==> exists k :: 0 <= k < |d| && Index(d[k]) == v {
      if mark'[v] {
        var l: Lit;
        if v == Index(lit) {
          l := lit;
          assert (c + [lit])[|c|] == l;
        } else {
          var k :| 0 <= k < |c| && Index(c[k]) == v;
          l := c[k];
          assert (c + [lit])[k] == l;
        }
        assert l in multiset(c + [lit]);
        assert l in multiset(d);
        assert l in d;
      }
      if exists k :: 0 <= k < |d| && Index(d[k]) == v {
        var k :| 0 <= k < |d| && Index(d[k]) == v;
        assert d[k] in multiset(d);
        assert d[k] in c + [lit];
      }
    }
  }

  /** Dropping duplicates and the constant false keeps the clause's meaning, variable 0 being true. */
  lemma NormalisedMeaning(a: seq<Var>, lits: seq<Lit>, c: Clause, m: Interp)
    requires Normalised(a, lits, c) && 0 in m
    ensures SatClause(m, LitSet(c)) <==> exists l :: l in lits && l != NIL && Holds(m, l)
  {
    if l :| l in LitSet(c) && Holds(m, l) {
      assert Matters(lits, l);
    }
    if l :| l in lits && l != NIL && Holds(m, l) {
      assert Matters(lits, l);
      assert l in LitSet(c);
    }
  }

  /** A tautology holds in every interpretation. */
  lemma UselessMeaning(lits: seq<Lit>, l: Lit, m: Interp)
    requires Matters(lits, l) && Matters(lits, -l)
    ensures SatClause(m, LitSet(lits))
  {
    assert l in LitSet(lits) && -l in LitSet(lits);
    assert Holds(m, l) || Holds(m, -l);
  }

  /** How many literals lead `lits` up to the first that is not free. */
  ghost function FreePrefix(a: seq<Var>, lits: seq<Lit>): (n: nat)
    requires forall k :: 0 <= k < |lits| ==> InRange(lits[k], |a|)
    ensures n <= |lits|
  {
    if lits == [] || !IsFree(a, lits[0]) then 0 else 1 + FreePrefix(a, lits[1..])
  }

  /** Clause `c` is false but for literals that are among the leading free literals of `lits`. */
  ghost predicate Covers(a: seq<Var>, c: Clause, lits: seq<Lit>)
    requires forall k :: 0 <= k < |c| ==> InRange(c[k], |a|)
    requires forall k :: 0 <= k < |lits| ==> InRange(lits[k], |a|)
  {
    forall k :: 0 <= k < |c| ==> IsFalse(a, c[k]) || (IsFree(a, c[k]) && c[k] in lits[..FreePrefix(a, lits)])
  }

  lemma {:induction false} FreePrefixFree(a: seq<Var>, lits: seq<Lit>, k: nat)
    requires forall k :: 0 <= k < |lits| ==> InRange(lits[k], |a|)
    requires k <= FreePrefix(a, lits)
    ensures forall i :: 0 <= i < k ==> IsFree(a, lits[i])
    ensures k < |lits| ==> (IsFree(a, lits[k]) <==> k < FreePrefix(a, lits))
  {
    if lits != [] && IsFree(a, lits[0]) && k > 0 {
      FreePrefixFree(a, lits[1..], k - 1);
      forall i | 0 <= i < k ensures IsFree(a, lits[i]) {
        assert i > 0 ==> lits[i] == lits[1..][i - 1];
      }
      assert k < |lits| ==> lits[k] == lits[1..][k - 1];
    }
  }

  /** Is the literal `x` among the leading free literals? */
  method IsFreeMember(a: seq<Var>, lits: seq<Lit>, x: Lit) returns (found: bool)
    requires forall k :: 0 <= k < |lits| ==> InRange(lits[k], |a|)
    ensures found <==> x in lits[..FreePrefix(a, lits)]
  {
    var l := 0;
    found := false;
    FreePrefixFree(a, lits, 0);
    while !found && l < |lits| && IsFree(a, lits[l])
      invariant l <= FreePrefix(a, lits)
      invariant found <==> x in lits[..l]
      decreases |lits| - l
    {
      FreePrefixFree(a, lits, l);
      found := x == lits[l];
      assert lits[..l + 1] == lits[..l] + [lits[l]];
      l := l + 1;
    }
    FreePrefixFree(a, lits, l);
    if found {
      assert forall y :: y in lits[..l] ==> y in lits[..FreePrefix(a, lits)];
    } else {
      assert l == FreePrefix(a, lits);
    }
  }

  /** Does some clause that watches a leading free literal of `lits` make `lits` redundant? */
  method IsSubsumed(a: seq<Var>, clauses: seq<Clause>, watches: map<Lit, seq<nat>>, lits: seq<Lit>) returns (r: bool)
    requires forall k :: 0 <= k < |lits| ==> InRange(lits[k], |a|)
    requires ClausesOk(|a|, clauses) && WatchListsOk(|a|, clauses, watches)
    ensures r <==> exists i, j :: 0 <= i < FreePrefix(a, lits) && 0 <= j < |watches[lits[i]]|
                                  && Covers(a, clauses[watches[lits[i]][j]], lits)
  {
    FreePrefixFree(a, lits, 0);
    var i := 0;
    while i < |lits| && IsFree(a, lits[i])
      invariant i <= FreePrefix(a, lits) && (i < |lits| ==> (IsFree(a, lits[i]) <==> i < FreePrefix(a, lits)))
      invariant forall m, j :: 0 <= m < i && 0 <= j < |watches[lits[m]]| ==>
            !Covers(a, clauses[watches[lits[m]][j]], lits)
      decreases |lits| - i
    {
      var watch := watches[lits[i]];
      for j := 0 to |watch|
        invariant forall m :: 0 <= m < j ==> !Covers(a, clauses[watch[m]], lits)
      {
        assert ClauseOk(|a|, clauses[watch[j]]);
        var covers := IsCovering(a, clauses[watch[j]], lits, i);
        if covers {
          return true;
        }
      }
      i := i + 1;
      FreePrefixFree(a, lits, i);
    }
    return false;
  }

  method IsCovering(a: seq<Var>, c: Clause, lits: seq<Lit>, i: nat) returns (r: bool)
    requires ClauseOk(|a|, c) && forall k :: 0 <= k < |lits| ==> InRange(lits[k], |a|)
    requires i < FreePrefix(a, lits)
    ensures r <==> Covers(a, c, lits)
  {
    FreePrefixFree(a, lits, FreePrefix(a, lits));
    var k := 0;
    while k < |c|
      invariant k <= |c|
      invariant forall m :: 0 <= m < k ==> IsFalse(a, c[m]) || (IsFree(a, c[m]) && c[m] in lits[..FreePrefix(a, lits)])
    {
      var lit := c[k];
      if lit == lits[i] {
        assert lits[..FreePrefix(a, lits)][i] == lit;
      } else if !IsFalse(a, lit) {
        if IsTrue(a, lit) {
          return false;
        }
        var found := IsFreeMember(a, lits, lit);
        if !found {
          return false;
        }
      }
      k := k + 1;
    }
    return true;
  }

  /** Whatever satisfies a covering clause and keeps the false literals false satisfies `lits`. */
  lemma CoveredIsRedundant(a: seq<Var>, c: Clause, lits: seq<Lit>, m: Interp)
    requires forall k :: 0 <= k < |c| ==> InRange(c[k], |a|)
    requires forall k :: 0 <= k < |lits| ==> InRange(lits[k], |a|)
    requires Covers(a, c, lits) && SatClause(m, LitSet(c))
    requires forall l :: InRange(l, |a|) && IsFalse(a, l) ==> !Holds(m, l)
    ensures SatClause(m, LitSet(lits))
  {
    var l :| l in LitSet(c) && Holds(m, l);
    assert l in lits[..FreePrefix(a, lits)];
    assert l in LitSet(lits);
  }
}
