// The abstract side of the 2-3-4 trees: an ascending list of bindings, with
// the two updates and the two searches that the trees implement (tree.c).
module TreeOrder {
  import opened Wrappers

  // A machine word, used both as key and as value.
  type Word = nat
  type Entry = (Word, Word)

  // A caller-supplied comparison: negative, zero or positive.
  type Compare = (Word, Word) -> int

  // The comparisons a caller may use: total, and zero on equal words only.
  ghost predicate TotalOrder(c: Compare) {
    && (forall a: Word, b: Word :: c(a, b) == 0 <==> a == b)
    && (forall a: Word, b: Word :: c(a, b) < 0 <==> c(b, a) > 0)
    && (forall a: Word, b: Word, d: Word :: c(a, b) < 0 && c(b, d) < 0 ==> c(a, d) < 0)
  }

  ghost predicate Sorted(s: seq<Entry>, c: Compare) {
    forall i, j :: 0 <= i < j < |s| ==> c(s[i].0, s[j].0) < 0
  }

  // The map that an ascending list stands for.
  ghost function MapOf(s: seq<Entry>): map<Word, Word> {
    if s == [] then map[] else MapOf(s[..|s| - 1])[s[|s| - 1].0 := s[|s| - 1].1]
  }

  // How many bindings come before k.
  function Rank(s: seq<Entry>, k: Word, c: Compare): (n: nat)
    ensures n <= |s|
    ensures forall i :: 0 <= i < n ==> c(k, s[i].0) > 0
    ensures n < |s| ==> c(k, s[n].0) <= 0
  {
    if s == [] || c(k, s[0].0) <= 0 then 0 else 1 + Rank(s[1..], k, c)
  }

  // How many bindings come before k or bind k itself.
  function Past(s: seq<Entry>, k: Word, c: Compare): (n: nat)
    ensures n <= |s|
  {
    var n := Rank(s, k, c);
    if n < |s| && c(k, s[n].0) == 0 then n + 1 else n
  }

  // Add or replace the binding of k.
  function Put(s: seq<Entry>, k: Word, v: Word, c: Compare): seq<Entry> {
    s[..Rank(s, k, c)] + [(k, v)] + s[Past(s, k, c)..]
  }

  // Remove the binding of k, if there is one.
  function Drop(s: seq<Entry>, k: Word, c: Compare): seq<Entry> {
    s[..Rank(s, k, c)] + s[Past(s, k, c)..]
  }

  // The value bound to k.
  function Get(s: seq<Entry>, k: Word, c: Compare): Option<Word> {
    var n := Rank(s, k, c);
    if n < Past(s, k, c) then Some(s[n].1) else None
  }

  // The bindings from the first key not below k on.
  function From(s: seq<Entry>, k: Word, c: Compare): seq<Entry> {
    s[Rank(s, k, c)..]
  }

  // The last binding below k.
  function Before(s: seq<Entry>, k: Word, c: Compare): Option<Entry> {
    var n := Rank(s, k, c);
    if n > 0 then Some(s[n - 1]) else None
  }

  // The first binding above k.
  function After(s: seq<Entry>, k: Word, c: Compare): Option<Entry> {
    var n := Past(s, k, c);
    if n < |s| then Some(s[n]) else None
  }

  // ----- what the list functions mean -----

  lemma Transitive(x: Word, y: Word, z: Word, c: Compare)
    requires TotalOrder(c) && c(x, y) <= 0 && c(y, z) < 0
    ensures c(x, z) < 0
  {
  }

  lemma Flip(x: Word, y: Word, c: Compare)
    requires TotalOrder(c)
    ensures c(x, y) < 0 <==> c(y, x) > 0
    ensures c(x, y) == 0 <==> x == y
  {
  }

  // The list is cut in three: keys below k, k itself, keys above k.
  lemma RankCuts(s: seq<Entry>, k: Word, c: Compare)
    requires TotalOrder(c) && Sorted(s, c)
    ensures forall i :: 0 <= i < Rank(s, k, c) ==> c(s[i].0, k) < 0
    ensures forall i :: Rank(s, k, c) <= i < Past(s, k, c) ==> s[i].0 == k
    ensures forall i :: Past(s, k, c) <= i < |s| ==> c(k, s[i].0) < 0
  {
    hide TotalOrder;
    var n := Rank(s, k, c);
    forall i | 0 <= i < |s|
      ensures i < n ==> c(s[i].0, k) < 0
      ensures i == n && n < Past(s, k, c) ==> s[i].0 == k
      ensures Past(s, k, c) <= i ==> c(k, s[i].0) < 0
    {
      Flip(s[i].0, k, c);
      Flip(k, s[i].0, c);
      if i > n {
        Transitive(k, s[n].0, s[i].0, c);
      }
    }
  }

  // From keeps exactly the bindings whose key is not below k.
  lemma FromKeeps(s: seq<Entry>, k: Word, c: Compare, e: Entry)
    requires TotalOrder(c) && Sorted(s, c)
    ensures e in From(s, k, c) <==> e in s && c(e.0, k) >= 0
  {
    RankCuts(s, k, c);
    var n := Rank(s, k, c);
    assert s == s[..n] + s[n..];
    forall i | n <= i < |s| ensures c(s[i].0, k) >= 0 {
      Flip(s[i].0, k, c);
      Flip(k, s[i].0, c);
    }
    if e in s && e !in s[n..] {
      var i :| 0 <= i < n && s[i] == e;
    }
  }

  lemma {:induction false} MapHas(s: seq<Entry>, k: Word)
    ensures k in MapOf(s) <==> exists i :: 0 <= i < |s| && s[i].0 == k
  {
    if s != [] {
      var n := |s| - 1;
      MapHas(s[..n], k);
      if k in MapOf(s[..n]) {
        var i :| 0 <= i < n && s[..n][i].0 == k;
        assert s[i].0 == k;
      }
      if i :| 0 <= i < |s| && s[i].0 == k && k != s[n].0 {
        assert s[..n][i].0 == k;
      }
    }
  }

  lemma {:induction false} MapGives(s: seq<Entry>, i: nat, c: Compare)
    requires TotalOrder(c) && Sorted(s, c) && i < |s|
    ensures s[i].0 in MapOf(s) && MapOf(s)[s[i].0] == s[i].1
  {
    hide TotalOrder;
    var n := |s| - 1;
    if i < n {
      MapGives(s[..n], i, c);
      Flip(s[i].0, s[n].0, c);
      assert c(s[i].0, s[n].0) < 0;
    }
  }

  // A map is determined by its bindings.
  lemma MapUnique(s: seq<Entry>, m: map<Word, Word>, c: Compare)
    requires TotalOrder(c) && Sorted(s, c)
    requires forall i :: 0 <= i < |s| ==> s[i].0 in m && m[s[i].0] == s[i].1
    requires forall k :: k in m ==> exists i :: 0 <= i < |s| && s[i].0 == k
    ensures MapOf(s) == m
  {
    hide TotalOrder;
    forall k ensures k in MapOf(s) <==> k in m {
      MapHas(s, k);
    }
    forall k | k in m ensures MapOf(s)[k] == m[k] {
      var i :| 0 <= i < |s| && s[i].0 == k;
      MapGives(s, i, c);
    }
  }

  // Where a key of the list is bound.
  lemma WhereBound(s: seq<Entry>, k: Word) returns (i: nat)
    requires k in MapOf(s)
    ensures i < |s| && s[i].0 == k
  {
    MapHas(s, k);
    i :| i < |s| && s[i].0 == k;
  }

  // Put is map update.
  lemma PutIsUpdate(s: seq<Entry>, k: Word, v: Word, c: Compare)
    requires TotalOrder(c) && Sorted(s, c)
    ensures Sorted(Put(s, k, v, c), c)
    ensures MapOf(Put(s, k, v, c)) == MapOf(s)[k := v]
  {
    hide TotalOrder;
    RankCuts(s, k, c);
    PutSorted(s, k, v, c);
    var n, p := Rank(s, k, c), Past(s, k, c);
    var r, m := Put(s, k, v, c), MapOf(s)[k := v];
    forall i | 0 <= i < |r| ensures r[i].0 in m && m[r[i].0] == r[i].1 {
      if i != n {
        var j: nat := if i < n then i else i - n - 1 + p;
        assert r[i] == s[j];
        MapGives(s, j, c);
        Flip(s[j].0, k, c);
        Flip(k, s[j].0, c);
      }
    }
    forall q | q in m ensures exists i :: 0 <= i < |r| && r[i].0 == q {
      if q == k {
        assert r[n].0 == q;
      } else {
        var j := WhereBound(s, q);
        assert r[if j < n then j else j - p + n + 1] == s[j];
      }
    }
    MapUnique(r, m, c);
  }

  lemma PutSorted(s: seq<Entry>, k: Word, v: Word, c: Compare)
    requires TotalOrder(c) && Sorted(s, c)
    ensures Sorted(Put(s, k, v, c), c)
  {
    hide TotalOrder;
    RankCuts(s, k, c);
    var n, p, r := Rank(s, k, c), Past(s, k, c), Put(s, k, v, c);
    forall i, j | 0 <= i < j < |r| ensures c(r[i].0, r[j].0) < 0 {
      assert i < n ==> r[i] == s[i];
      assert j < n ==> r[j] == s[j];
      assert i > n ==> r[i] == s[i - n - 1 + p];
      assert j > n ==> r[j] == s[j - n - 1 + p];
    }
  }

  lemma DropSorted(s: seq<Entry>, k: Word, c: Compare)
    requires Sorted(s, c)
    ensures Sorted(Drop(s, k, c), c)
  {
    var n, p, r := Rank(s, k, c), Past(s, k, c), Drop(s, k, c);
    forall i, j | 0 <= i < j < |r| ensures c(r[i].0, r[j].0) < 0 {
      assert r[i] == s[if i < n then i else i - n + p];
      assert r[j] == s[if j < n then j else j - n + p];
    }
  }

  // Drop is map removal.
  lemma DropIsRemoval(s: seq<Entry>, k: Word, c: Compare)
    requires TotalOrder(c) && Sorted(s, c)
    ensures Sorted(Drop(s, k, c), c)
    ensures MapOf(Drop(s, k, c)) == MapOf(s) - {k}
  {
    hide TotalOrder, Rank;
    RankCuts(s, k, c);
    var n, p := Rank(s, k, c), Past(s, k, c);
    var r, m := Drop(s, k, c), MapOf(s) - {k};
    DropSorted(s, k, c);
    forall i | 0 <= i < |r| ensures r[i].0 in m && m[r[i].0] == r[i].1 {
      var j: nat := if i < n then i else i - n + p;
      assert r[i] == s[j];
      MapGives(s, j, c);
      Flip(s[j].0, k, c);
      Flip(k, s[j].0, c);
    }
    forall q | q in m ensures exists i :: 0 <= i < |r| && r[i].0 == q {
      var j := WhereBound(s, q);
      assert r[if j < n then j else j - p + n] == s[j];
    }
    MapUnique(r, m, c);
  }

  // Get is map lookup.
  lemma GetIsLookup(s: seq<Entry>, k: Word, c: Compare)
    requires TotalOrder(c) && Sorted(s, c)
    ensures Get(s, k, c).Some? <==> k in MapOf(s)
    ensures Get(s, k, c).Some? ==> MapOf(s)[k] == Get(s, k, c).value
  {
    hide TotalOrder;
    RankCuts(s, k, c);
    var n := Rank(s, k, c);
    if n < Past(s, k, c) {
      MapGives(s, n, c);
    } else if k in MapOf(s) {
      var i := WhereBound(s, k);
      Flip(k, s[i].0, c);
    }
  }

  // Before and After are the neighbours of k: nothing lies in between.
  lemma NeighboursAreNearest(s: seq<Entry>, k: Word, c: Compare)
    requires TotalOrder(c) && Sorted(s, c)
    ensures Before(s, k, c).None? <==> forall i :: 0 <= i < |s| ==> c(s[i].0, k) >= 0
    ensures Before(s, k, c).Some? ==>
      var e := Before(s, k, c).value;
      e in s && c(e.0, k) < 0 && forall i :: 0 <= i < |s| && c(s[i].0, k) < 0 ==> c(s[i].0, e.0) <= 0
    ensures After(s, k, c).None? <==> forall i :: 0 <= i < |s| ==> c(s[i].0, k) <= 0
    ensures After(s, k, c).Some? ==>
      var e := After(s, k, c).value;
      e in s && c(e.0, k) > 0 && forall i :: 0 <= i < |s| && c(s[i].0, k) > 0 ==> c(e.0, s[i].0) <= 0
  {
    hide TotalOrder;
    RankCuts(s, k, c);
    var n, p := Rank(s, k, c), Past(s, k, c);
    forall i | 0 <= i < |s|
      ensures i < n <==> c(s[i].0, k) < 0
      ensures p <= i <==> c(s[i].0, k) > 0
      ensures c(s[i].0, s[i].0) == 0
    {
      Flip(s[i].0, k, c);
      Flip(k, s[i].0, c);
      Flip(s[i].0, s[i].0, c);
    }
  }

  // ----- joining two lists around a binding -----

  // The list a, then the binding x, then the list b.
  function Join(a: seq<Entry>, x: Entry, b: seq<Entry>): seq<Entry> {
    a + [x] + b
  }

  lemma JoinAssoc(a: seq<Entry>, x: Entry, b: seq<Entry>, y: Entry, d: seq<Entry>)
    ensures Join(Join(a, x, b), y, d) == Join(a, x, Join(b, y, d))
  {
  }

  lemma JoinPrefix(p: seq<Entry>, a: seq<Entry>, x: Entry, b: seq<Entry>)
    ensures p + Join(a, x, b) == Join(p + a, x, b)
  {
  }

  lemma JoinSuffix(a: seq<Entry>, x: Entry, b: seq<Entry>, s: seq<Entry>)
    ensures Join(a, x, b) + s == Join(a, x, b + s)
  {
  }

  lemma JoinAround(a: seq<Entry>, x: Entry, lo: seq<Entry>, y: Entry, hi: seq<Entry>)
    ensures Join(a, x, lo) + [y] + hi == Join(a, x, lo + [y] + hi)
  {
  }

  lemma JoinSorted(a: seq<Entry>, x: Entry, b: seq<Entry>, c: Compare)
    requires Sorted(Join(a, x, b), c)
    ensures Sorted(a, c) && Sorted(b, c)
    ensures forall i :: 0 <= i < |a| ==> c(a[i].0, x.0) < 0
    ensures forall i :: 0 <= i < |b| ==> c(x.0, b[i].0) < 0
  {
    var s := Join(a, x, b);
    assert forall i :: 0 <= i < |a| ==> s[i] == a[i];
    assert s[|a|] == x;
    assert forall i :: 0 <= i < |b| ==> b[i] == s[|a| + 1 + i];
  }

  // Cutting a joined list inside its first or its last part.
  lemma CutFirst(a: seq<Entry>, x: Entry, b: seq<Entry>, n: nat)
    requires n <= |a|
    ensures |Join(a, x, b)| == |a| + 1 + |b|
    ensures Join(a, x, b)[..n] == a[..n]
    ensures Join(a, x, b)[n..] == Join(a[n..], x, b)
    ensures Join(a, x, b)[n] == if n < |a| then a[n] else x
  {
  }

  lemma CutLast(a: seq<Entry>, x: Entry, b: seq<Entry>, n: nat)
    requires n <= |b|
    ensures |Join(a, x, b)| == |a| + 1 + |b|
    ensures Join(a, x, b)[..|a| + 1 + n] == Join(a, x, b[..n])
    ensures Join(a, x, b)[|a| + 1 + n..] == b[n..]
    ensures n < |b| ==> Join(a, x, b)[|a| + 1 + n] == b[n]
    ensures Join(a, x, b)[|a| + n] == if n == 0 then x else b[n - 1]
  {
  }

  lemma {:induction false} RankIs(s: seq<Entry>, k: Word, c: Compare, n: nat)
    requires n <= |s|
    requires forall i :: 0 <= i < n ==> c(k, s[i].0) > 0
    requires n < |s| ==> c(k, s[n].0) <= 0
    ensures Rank(s, k, c) == n
  {
    if n > 0 {
      RankIs(s[1..], k, c, n - 1);
    }
  }

  // A key that does not come after x is ranked among what precedes x.
  lemma RankLeft(a: seq<Entry>, x: Entry, b: seq<Entry>, k: Word, c: Compare)
    requires c(k, x.0) <= 0
    ensures Rank(Join(a, x, b), k, c) == Rank(a, k, c)
  {
    var s, n := Join(a, x, b), Rank(a, k, c);
    assert forall i :: 0 <= i < |a| ==> s[i] == a[i];
    assert s[|a|] == x;
    RankIs(s, k, c, n);
  }

  // A key after x is ranked among what follows x.
  lemma RankRight(a: seq<Entry>, x: Entry, b: seq<Entry>, k: Word, c: Compare)
    requires TotalOrder(c) && Sorted(Join(a, x, b), c) && c(k, x.0) > 0
    ensures Rank(Join(a, x, b), k, c) == |a| + 1 + Rank(b, k, c)
  {
    hide TotalOrder;
    var s, n := Join(a, x, b), Rank(b, k, c);
    JoinSorted(a, x, b, c);
    forall i | 0 <= i < |a| + 1 + n ensures c(k, s[i].0) > 0 {
      if i < |a| {
        assert s[i] == a[i];
        Flip(k, x.0, c);
        Flip(x.0, k, c);
        Transitive(a[i].0, x.0, k, c);
        Flip(a[i].0, k, c);
      } else if i > |a| {
        assert s[i] == b[i - |a| - 1];
      }
    }
    RankIs(s, k, c, |a| + 1 + n);
  }

  // The key of x is ranked just before x.
  lemma RankHere(a: seq<Entry>, x: Entry, b: seq<Entry>, k: Word, c: Compare)
    requires TotalOrder(c) && Sorted(Join(a, x, b), c) && c(k, x.0) == 0
    ensures Rank(Join(a, x, b), k, c) == |a| == Rank(a, k, c)
  {
    hide TotalOrder;
    JoinSorted(a, x, b, c);
    Flip(k, x.0, c);
    forall i | 0 <= i < |a| ensures c(k, a[i].0) > 0 {
      Flip(a[i].0, x.0, c);
    }
    RankIs(a, k, c, |a|);
    RankLeft(a, x, b, k, c);
  }

  lemma RankLePast(s: seq<Entry>, k: Word, c: Compare)
    ensures Rank(s, k, c) <= Past(s, k, c) <= Rank(s, k, c) + 1
  {
  }

  lemma PastLeft(a: seq<Entry>, x: Entry, b: seq<Entry>, k: Word, c: Compare)
    requires c(k, x.0) < 0
    ensures Past(Join(a, x, b), k, c) == Past(a, k, c)
  {
    hide Join;
    RankLeft(a, x, b, k, c);
    CutFirst(a, x, b, Rank(a, k, c));
  }

  lemma PastHere(a: seq<Entry>, x: Entry, b: seq<Entry>, k: Word, c: Compare)
    requires TotalOrder(c) && Sorted(Join(a, x, b), c) && c(k, x.0) == 0
    ensures Past(Join(a, x, b), k, c) == |a| + 1
    ensures Past(b, k, c) == 0
  {
    RankHere(a, x, b, k, c);
    JoinSorted(a, x, b, c);
  }

  lemma PastRight(a: seq<Entry>, x: Entry, b: seq<Entry>, k: Word, c: Compare)
    requires TotalOrder(c) && Sorted(Join(a, x, b), c) && c(k, x.0) > 0
    ensures Past(Join(a, x, b), k, c) == |a| + 1 + Past(b, k, c)
  {
    hide TotalOrder, Join;
    RankRight(a, x, b, k, c);
    CutLast(a, x, b, Rank(b, k, c));
  }

  // Every operation goes to the side of x on which its key falls.
  lemma SplitBelow(a: seq<Entry>, x: Entry, b: seq<Entry>, k: Word, v: Word, c: Compare)
    requires c(k, x.0) < 0
    ensures Put(Join(a, x, b), k, v, c) == Join(Put(a, k, v, c), x, b)
    ensures Drop(Join(a, x, b), k, c) == Join(Drop(a, k, c), x, b)
    ensures Get(Join(a, x, b), k, c) == Get(a, k, c)
    ensures From(Join(a, x, b), k, c) == Join(From(a, k, c), x, b)
    ensures Before(Join(a, x, b), k, c) == Before(a, k, c)
    ensures After(Join(a, x, b), k, c) == if After(a, k, c).None? then Some(x) else After(a, k, c)
  {
    hide Rank, Past, Join;
    RankLeft(a, x, b, k, c);
    PastLeft(a, x, b, k, c);
    RankLePast(a, k, c);
    var n, p := Rank(a, k, c), Past(a, k, c);
    CutFirst(a, x, b, n);
    CutFirst(a, x, b, p);
    if n > 0 {
      CutFirst(a, x, b, n - 1);
    }
    JoinPrefix(a[..n] + [(k, v)], a[p..], x, b);
    JoinPrefix(a[..n], a[p..], x, b);
  }

  lemma SplitAt(a: seq<Entry>, x: Entry, b: seq<Entry>, k: Word, v: Word, c: Compare)
    requires TotalOrder(c) && Sorted(Join(a, x, b), c) && c(k, x.0) == 0
    ensures Put(Join(a, x, b), k, v, c) == Join(a, (k, v), b)
    ensures Drop(Join(a, x, b), k, c) == a + b
    ensures Get(Join(a, x, b), k, c) == Some(x.1)
    ensures From(Join(a, x, b), k, c) == Join([], x, b)
    ensures Before(Join(a, x, b), k, c) == (if a == [] then None else Some(a[|a| - 1]))
    ensures After(Join(a, x, b), k, c) == (if b == [] then None else Some(b[0]))
    ensures Before(a, k, c) == Before(Join(a, x, b), k, c)
    ensures After(b, k, c) == After(Join(a, x, b), k, c)
  {
    hide TotalOrder, Rank, Past, Sorted;
    RankHere(a, x, b, k, c);
    PastHere(a, x, b, k, c);
    CutFirst(a, x, b, |a|);
    CutLast(a, x, b, 0);
    if a != [] {
      CutFirst(a, x, b, |a| - 1);
    }
  }

  lemma SplitAbove(a: seq<Entry>, x: Entry, b: seq<Entry>, k: Word, v: Word, c: Compare)
    requires TotalOrder(c) && Sorted(Join(a, x, b), c) && c(k, x.0) > 0
    ensures Put(Join(a, x, b), k, v, c) == Join(a, x, Put(b, k, v, c))
    ensures Drop(Join(a, x, b), k, c) == Join(a, x, Drop(b, k, c))
    ensures From(Join(a, x, b), k, c) == From(b, k, c)
    ensures Get(Join(a, x, b), k, c) == Get(b, k, c)
    ensures Before(Join(a, x, b), k, c) == if Before(b, k, c).None? then Some(x) else Before(b, k, c)
    ensures After(Join(a, x, b), k, c) == After(b, k, c)
  {
    hide *;
    UpdatesAbove(a, x, b, k, v, c);
    PointsAbove(a, x, b, k, c);
  }

  lemma UpdatesAbove(a: seq<Entry>, x: Entry, b: seq<Entry>, k: Word, v: Word, c: Compare)
    requires TotalOrder(c) && Sorted(Join(a, x, b), c) && c(k, x.0) > 0
    ensures Put(Join(a, x, b), k, v, c) == Join(a, x, Put(b, k, v, c))
    ensures Drop(Join(a, x, b), k, c) == Join(a, x, Drop(b, k, c))
    ensures From(Join(a, x, b), k, c) == From(b, k, c)
  {
    hide TotalOrder, Sorted, Rank, Past, Join;
    RankRight(a, x, b, k, c);
    PastRight(a, x, b, k, c);
    RankLePast(b, k, c);
    var n, p := Rank(b, k, c), Past(b, k, c);
    CutLast(a, x, b, n);
    CutLast(a, x, b, p);
    var lo, hi := b[..n], b[p..];
    JoinAround(a, x, lo, (k, v), hi);
    JoinSuffix(a, x, lo, hi);
  }

  lemma PointsAbove(a: seq<Entry>, x: Entry, b: seq<Entry>, k: Word, c: Compare)
    requires TotalOrder(c) && Sorted(Join(a, x, b), c) && c(k, x.0) > 0
    ensures Get(Join(a, x, b), k, c) == Get(b, k, c)
    ensures Before(Join(a, x, b), k, c) == if Before(b, k, c).None? then Some(x) else Before(b, k, c)
    ensures After(Join(a, x, b), k, c) == After(b, k, c)
  {
    hide TotalOrder, Rank, Past, Join;
    RankRight(a, x, b, k, c);
    PastRight(a, x, b, k, c);
    CutLast(a, x, b, Rank(b, k, c));
    CutLast(a, x, b, Past(b, k, c));
  }
}
