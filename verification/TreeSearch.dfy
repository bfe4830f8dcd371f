// Lookups in a 2-3-4 tree and maps over its values (tree.c).
module TreeSearch {
  import opened Wrappers
  import opened TreeOrder
  import opened Tree

  // Get, Before and After go to one side of a binding.
  lemma GetInto(a: seq<Entry>, x: Entry, b: seq<Entry>, k: Word, c: Compare)
    requires TotalOrder(c) && Sorted(Join(a, x, b), c)
    ensures Sorted(a, c) && Sorted(b, c)
    ensures c(k, x.0) < 0 ==> Get(Join(a, x, b), k, c) == Get(a, k, c)
    ensures c(k, x.0) > 0 ==> Get(Join(a, x, b), k, c) == Get(b, k, c)
    ensures c(k, x.0) == 0 ==> Get(Join(a, x, b), k, c) == Some(x.1)
    ensures Before(Join(a, x, b), k, c) ==
      if c(k, x.0) <= 0 then Before(a, k, c)
      else if Before(b, k, c).None? then Some(x) else Before(b, k, c)
    ensures After(Join(a, x, b), k, c) ==
      if c(k, x.0) >= 0 then After(b, k, c)
      else if After(a, k, c).None? then Some(x) else After(a, k, c)
  {
    hide *;
    JoinSorted(a, x, b, c);
    if c(k, x.0) < 0 {
      SplitBelow(a, x, b, k, 0, c);
    } else if c(k, x.0) > 0 {
      SplitAbove(a, x, b, k, 0, c);
    } else {
      SplitAt(a, x, b, k, 0, c);
    }
  }

  // The value bound to k, found by walking down.
  method Search(root: Tree, k: Word, c: Compare) returns (v: Option<Word>)
    requires ValidTree(root, c) && TotalOrder(c)
    ensures v.Some? <==> k in MapOf(Items(root))
    ensures v.Some? ==> v.value == MapOf(Items(root))[k]
  {
    hide TotalOrder, Join, Get, Sorted, MapOf;
    GetIsLookup(Items(root), k, c);
    var t := root;
    while true
      invariant ValidTree(t, c)
      invariant Get(Items(t), k, c) == Get(Items(root), k, c)
      decreases t
    {
      match t
      case Nil =>
        GetNothing(k, c);
        return None;
      case Two(t0, k0, v0, t1) =>
        GetInto(Items(t0), (k0, v0), Items(t1), k, c);
        var cmp := c(k, k0);
        if cmp < 0 {
          t := t0;
        } else if cmp > 0 {
          t := t1;
        } else {
          return Some(v0);
        }
      case Three(t0, k0, v0, t1, k1, v1, t2) =>
        GetInto(Join(Items(t0), (k0, v0), Items(t1)), (k1, v1), Items(t2), k, c);
        GetInto(Items(t0), (k0, v0), Items(t1), k, c);
        KeysApart(Items(t0), (k0, v0), Items(t1), (k1, v1), Items(t2), k, c);
        var cmp := c(k, k0);
        if cmp < 0 {
          t := t0;
        } else if cmp > 0 {
          cmp := c(k, k1);
          if cmp < 0 {
            t := t1;
          } else if cmp > 0 {
            t := t2;
          } else {
            return Some(v1);
          }
        } else {
          return Some(v0);
        }
      case Four(t0, k0, v0, t1, k1, v1, t2, k2, v2, t3) =>
        GetInto(Join(Items(t0), (k0, v0), Items(t1)), (k1, v1), Join(Items(t2), (k2, v2), Items(t3)), k, c);
        GetInto(Items(t0), (k0, v0), Items(t1), k, c);
        GetInto(Items(t2), (k2, v2), Items(t3), k, c);
        var cmp := c(k, k1);
        if cmp < 0 {
          cmp := c(k, k0);
          if cmp < 0 {
            t := t0;
          } else if cmp > 0 {
            t := t1;
          } else {
            return Some(v0);
          }
        } else if cmp > 0 {
          cmp := c(k, k2);
          if cmp < 0 {
            t := t2;
          } else if cmp > 0 {
            t := t3;
          } else {
            return Some(v2);
          }
        } else {
          return Some(v1);
        }
    }
  }

  lemma GetNothing(k: Word, c: Compare)
    ensures Get([], k, c) == None && Before([], k, c) == None && After([], k, c) == None
  {
  }

  // The smallest binding, at the bottom of the leftmost path.
  method SearchMin(root: Tree) returns (e: Option<Entry>)
    ensures e == if root == Nil then None else Some(Items(root)[0])
  {
    if root == Nil {
      return None;
    }
    var t := root;
    while t.t0 != Nil
      invariant t != Nil && Items(t) != [] && Items(t)[0] == Items(root)[0]
      decreases t
    {
      t := t.t0;
    }
    e := Some((t.k0, t.v0));
  }

  // The largest binding, at the bottom of the rightmost path.
  method SearchMax(root: Tree) returns (e: Option<Entry>)
    requires Balanced(root)
    ensures e == if root == Nil then None else Some(Items(root)[|Items(root)| - 1])
  {
    if root == Nil {
      return None;
    }
    var t := root;
    while true
      invariant t != Nil && Balanced(t) && Items(t) != [] && Items(t)[|Items(t)| - 1] == Items(root)[|Items(root)| - 1]
      decreases t
    {
      match t
      case Two(t0, k0, v0, t1) =>
        if t0 == Nil {
          return Some((k0, v0));
        }
        t := t1;
      case Three(_, _, _, t1, k1, v1, t2) =>
        if t1 == Nil {
          return Some((k1, v1));
        }
        t := t2;
      case Four(_, _, _, _, _, _, t2, k2, v2, t3) =>
        if t2 == Nil {
          return Some((k2, v2));
        }
        t := t3;
    }
  }

  function OrElse(a: Option<Entry>, e: Entry): Option<Entry> {
    if a.None? then Some(e) else a
  }

  // The nearest binding strictly below k.
  function SearchLt(t: Tree, k: Word, c: Compare): Option<Entry> {
    match t
    case Nil => None
    case Two(t0, k0, v0, t1) =>
      if c(k, k0) > 0 then OrElse(SearchLt(t1, k, c), (k0, v0)) else SearchLt(t0, k, c)
    case Three(t0, k0, v0, t1, k1, v1, t2) =>
      if c(k, k1) > 0 then OrElse(SearchLt(t2, k, c), (k1, v1))
      else if c(k, k0) > 0 then OrElse(SearchLt(t1, k, c), (k0, v0))
      else SearchLt(t0, k, c)
    case Four(t0, k0, v0, t1, k1, v1, t2, k2, v2, t3) =>
      if c(k, k1) > 0 then
        if c(k, k2) > 0 then OrElse(SearchLt(t3, k, c), (k2, v2))
        else OrElse(SearchLt(t2, k, c), (k1, v1))
      else if c(k, k0) > 0 then OrElse(SearchLt(t1, k, c), (k0, v0))
      else SearchLt(t0, k, c)
  }

  // The nearest binding strictly above k.
  function SearchGt(t: Tree, k: Word, c: Compare): Option<Entry> {
    match t
    case Nil => None
    case Two(t0, k0, v0, t1) =>
      if c(k, k0) < 0 then OrElse(SearchGt(t0, k, c), (k0, v0)) else SearchGt(t1, k, c)
    case Three(t0, k0, v0, t1, k1, v1, t2) =>
      if c(k, k0) < 0 then OrElse(SearchGt(t0, k, c), (k0, v0))
      else if c(k, k1) < 0 then OrElse(SearchGt(t1, k, c), (k1, v1))
      else SearchGt(t2, k, c)
    case Four(t0, k0, v0, t1, k1, v1, t2, k2, v2, t3) =>
      if c(k, k1) < 0 then
        if c(k, k0) < 0 then OrElse(SearchGt(t0, k, c), (k0, v0))
        else OrElse(SearchGt(t1, k, c), (k1, v1))
      else if c(k, k2) < 0 then OrElse(SearchGt(t2, k, c), (k2, v2))
      else SearchGt(t3, k, c)
  }

  lemma {:induction false} SearchesAreNeighbours(t: Tree, k: Word, c: Compare)
    requires ValidTree(t, c) && TotalOrder(c)
    ensures SearchLt(t, k, c) == Before(Items(t), k, c)
    ensures SearchGt(t, k, c) == After(Items(t), k, c)
  {
    hide TotalOrder, Join, Get, Before, After, Sorted;
    match t
    case Nil => GetNothing(k, c);
    case Two(t0, k0, v0, t1) =>
      GetInto(Items(t0), (k0, v0), Items(t1), k, c);
      SearchesAreNeighbours(t0, k, c);
      SearchesAreNeighbours(t1, k, c);
    case Three(t0, k0, v0, t1, k1, v1, t2) =>
      GetInto(Join(Items(t0), (k0, v0), Items(t1)), (k1, v1), Items(t2), k, c);
      GetInto(Items(t0), (k0, v0), Items(t1), k, c);
      KeysApart(Items(t0), (k0, v0), Items(t1), (k1, v1), Items(t2), k, c);
      SearchesAreNeighbours(t0, k, c);
      SearchesAreNeighbours(t1, k, c);
      SearchesAreNeighbours(t2, k, c);
    case Four(t0, k0, v0, t1, k1, v1, t2, k2, v2, t3) =>
      GetInto(Join(Items(t0), (k0, v0), Items(t1)), (k1, v1), Join(Items(t2), (k2, v2), Items(t3)), k, c);
      GetInto(Items(t0), (k0, v0), Items(t1), k, c);
      GetInto(Items(t2), (k2, v2), Items(t3), k, c);
      SearchesAreNeighbours(t0, k, c);
      SearchesAreNeighbours(t1, k, c);
      SearchesAreNeighbours(t2, k, c);
      SearchesAreNeighbours(t3, k, c);
  }

  // The two searches return the nearest binding on either side of k.
  lemma SearchesAreNearest(t: Tree, k: Word, c: Compare)
    requires ValidTree(t, c) && TotalOrder(c)
    ensures var s := Items(t); match SearchLt(t, k, c)
      case None => forall i :: 0 <= i < |s| ==> c(s[i].0, k) >= 0
      case Some(e) => e in s && c(e.0, k) < 0 && forall i :: 0 <= i < |s| && c(s[i].0, k) < 0 ==> c(s[i].0, e.0) <= 0
    ensures var s := Items(t); match SearchGt(t, k, c)
      case None => forall i :: 0 <= i < |s| ==> c(s[i].0, k) <= 0
      case Some(e) => e in s && c(e.0, k) > 0 && forall i :: 0 <= i < |s| && c(s[i].0, k) > 0 ==> c(e.0, s[i].0) <= 0
  {
    hide TotalOrder, Join, Before, After, Sorted;
    SearchesAreNeighbours(t, k, c);
    NeighboursAreNearest(Items(t), k, c);
  }

  // ----- mapping over the values -----

  type Mapping = (Word, Word) -> Word

  function Map(t: Tree, f: Mapping): Tree {
    match t
    case Nil => Nil
    case Two(t0, k0, v0, t1) => Two(Map(t0, f), k0, f(k0, v0), Map(t1, f))
    case Three(t0, k0, v0, t1, k1, v1, t2) =>
      Three(Map(t0, f), k0, f(k0, v0), Map(t1, f), k1, f(k1, v1), Map(t2, f))
    case Four(t0, k0, v0, t1, k1, v1, t2, k2, v2, t3) =>
      Four(Map(t0, f), k0, f(k0, v0), Map(t1, f), k1, f(k1, v1), Map(t2, f), k2, f(k2, v2), Map(t3, f))
  }

  ghost function MapItems(s: seq<Entry>, f: Mapping): seq<Entry> {
    seq(|s|, i requires 0 <= i < |s| => (s[i].0, f(s[i].0, s[i].1)))
  }

  lemma MapJoin(a: seq<Entry>, x: Entry, b: seq<Entry>, f: Mapping)
    ensures MapItems(Join(a, x, b), f) == Join(MapItems(a, f), (x.0, f(x.0, x.1)), MapItems(b, f))
  {
  }

  // Mapping applies f to every value in place: same keys, same shape.
  lemma {:induction false} MapAppliesToAll(t: Tree, f: Mapping)
    ensures Items(Map(t, f)) == MapItems(Items(t), f)
    ensures Depth(Map(t, f)) == Depth(t) && (Balanced(Map(t, f)) <==> Balanced(t))
  {
    hide Join, MapItems;
    match t
    case Nil => MapNothing(f);
    case Two(t0, k0, v0, t1) =>
      MapAppliesToAll(t0, f);
      MapAppliesToAll(t1, f);
      MapJoin(Items(t0), (k0, v0), Items(t1), f);
    case Three(t0, k0, v0, t1, k1, v1, t2) =>
      MapAppliesToAll(t0, f);
      MapAppliesToAll(t1, f);
      MapAppliesToAll(t2, f);
      MapJoin(Join(Items(t0), (k0, v0), Items(t1)), (k1, v1), Items(t2), f);
      MapJoin(Items(t0), (k0, v0), Items(t1), f);
    case Four(t0, k0, v0, t1, k1, v1, t2, k2, v2, t3) =>
      MapAppliesToAll(t0, f);
      MapAppliesToAll(t1, f);
      MapAppliesToAll(t2, f);
      MapAppliesToAll(t3, f);
      MapJoin(Join(Items(t0), (k0, v0), Items(t1)), (k1, v1), Join(Items(t2), (k2, v2), Items(t3)), f);
      MapJoin(Items(t0), (k0, v0), Items(t1), f);
      MapJoin(Items(t2), (k2, v2), Items(t3), f);
  }

  lemma MapNothing(f: Mapping)
    ensures MapItems([], f) == []
  {
  }

  // The value that the destructive map leaves behind: it does not descend
  // into the last child of a full node.
  function MapInPlace(t: Tree, f: Mapping): Tree {
    match t
    case Nil => Nil
    case Two(t0, k0, v0, t1) => Two(MapInPlace(t0, f), k0, f(k0, v0), MapInPlace(t1, f))
    case Three(t0, k0, v0, t1, k1, v1, t2) =>
      Three(MapInPlace(t0, f), k0, f(k0, v0), MapInPlace(t1, f), k1, f(k1, v1), MapInPlace(t2, f))
    case Four(t0, k0, v0, t1, k1, v1, t2, k2, v2, t3) =>
      Four(MapInPlace(t0, f), k0, f(k0, v0), MapInPlace(t1, f), k1, f(k1, v1), MapInPlace(t2, f), k2, f(k2, v2), t3)
  }

  // f changes the value of no binding in the list.
  ghost predicate AllFixed(s: seq<Entry>, f: Mapping) {
    forall i :: 0 <= i < |s| ==> f(s[i].0, s[i].1) == s[i].1
  }

  // No binding under the last child of a full node is changed by f.
  ghost predicate LastFixed(t: Tree, f: Mapping) {
    match t
    case Nil => true
    case Two(t0, _, _, t1) => LastFixed(t0, f) && LastFixed(t1, f)
    case Three(t0, _, _, t1, _, _, t2) => LastFixed(t0, f) && LastFixed(t1, f) && LastFixed(t2, f)
    case Four(t0, _, _, t1, _, _, t2, _, _, t3) =>
      && LastFixed(t0, f) && LastFixed(t1, f) && LastFixed(t2, f)
      && AllFixed(Items(t3), f)
  }

  lemma {:induction false} MapFixes(t: Tree, f: Mapping)
    ensures Map(t, f) == t <==> AllFixed(Items(t), f)
  {
    MapAppliesToAll(t, f);
    if AllFixed(Items(t), f) {
      MapFixesShape(t, f);
    } else {
      var i :| 0 <= i < |Items(t)| && f(Items(t)[i].0, Items(t)[i].1) != Items(t)[i].1;
      assert Items(Map(t, f))[i] != Items(t)[i];
    }
  }

  lemma {:induction false} MapFixesShape(t: Tree, f: Mapping)
    requires forall e :: e in Items(t) ==> f(e.0, e.1) == e.1
    ensures Map(t, f) == t
  {
    match t
    case Nil =>
    case Two(t0, k0, v0, t1) =>
      assert (k0, v0) in Items(t);
      MapFixesShape(t0, f);
      MapFixesShape(t1, f);
    case Three(t0, k0, v0, t1, k1, v1, t2) =>
      assert (k0, v0) in Items(t) && (k1, v1) in Items(t);
      MapFixesShape(t0, f);
      MapFixesShape(t1, f);
      MapFixesShape(t2, f);
    case Four(t0, k0, v0, t1, k1, v1, t2, k2, v2, t3) =>
      assert (k0, v0) in Items(t) && (k1, v1) in Items(t) && (k2, v2) in Items(t);
      MapFixesShape(t0, f);
      MapFixesShape(t1, f);
      MapFixesShape(t2, f);
      MapFixesShape(t3, f);
  }

  // The destructive map does what the persistent one does exactly when the
  // subtrees it skips hold nothing that f changes.
  lemma {:induction false} MapInPlaceIff(t: Tree, f: Mapping)
    ensures MapInPlace(t, f) == Map(t, f) <==> LastFixed(t, f)
  {
    hide AllFixed;
    match t
    case Nil =>
    case Two(t0, _, _, t1) =>
      MapInPlaceIff(t0, f);
      MapInPlaceIff(t1, f);
    case Three(t0, _, _, t1, _, _, t2) =>
      MapInPlaceIff(t0, f);
      MapInPlaceIff(t1, f);
      MapInPlaceIff(t2, f);
    case Four(t0, _, _, t1, _, _, t2, _, _, t3) =>
      MapInPlaceIff(t0, f);
      MapInPlaceIff(t1, f);
      MapInPlaceIff(t2, f);
      MapFixes(t3, f);
  }

  // A full root over four leaves: the fourth leaf keeps its old value.
  lemma MapInPlaceMisses()
    ensures var leaf := (k: Word) => Two(Nil, k, 0, Nil);
      var t := Four(leaf(1), 2, 0, leaf(3), 4, 0, leaf(5), 6, 0, leaf(7));
      var f := (k: Word, v: Word) => v + 1;
      MapInPlace(t, f) != Map(t, f)
  {
    var f := (k: Word, v: Word) => v + 1;
    assert Map(Two(Nil, 7, 0, Nil), f) == Two(Nil, 7, 1, Nil);
  }
}
