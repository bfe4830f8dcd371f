// What the store means: the constraints under each key, in the order in which
// a search lists them (store.c), and what each operation makes of them.
module StoreContents {
  import opened StoreCore
  import opened StoreTrim

  // A key that is absent has no constraints.
  type Table = map<Key, seq<nat>>

  function Under(t: Table, key: Key): seq<nat> {
    if key in t then t[key] else []
  }

  // ----- the operations on tables -----

  function Stored(t: Table, key: Key, v: nat): Table {
    t[key := [v] + Under(t, key)]
  }

  function Renamed(t: Table, keyOld: Key, keyNew: Key): Table {
    if keyOld in t then
      var rest := t - {keyOld};
      rest[keyNew := Under(rest, keyNew) + t[keyOld]]
    else t
  }

  function Unpurged(found: seq<nat>, purged: set<nat>): seq<nat> {
    if found == [] then []
    else
      var n := |found| - 1;
      Unpurged(found[..n], purged) + if found[n] in purged then [] else [found[n]]
  }

  // Exactly the constraints that are not purged stay, as often as they were
  // there.
  lemma {:induction false} UnpurgedIs(found: seq<nat>, purged: set<nat>, x: nat)
    ensures multiset(Unpurged(found, purged))[x] == if x in purged then 0 else multiset(found)[x]
  {
    if found != [] {
      var n := |found| - 1;
      assert found == found[..n] + [found[n]];
      UnpurgedIs(found[..n], purged, x);
    }
  }

  // They stay in order.
  lemma {:induction false} UnpurgedJoins(found: seq<nat>, more: seq<nat>, purged: set<nat>)
    ensures Unpurged(found + more, purged) == Unpurged(found, purged) + Unpurged(more, purged)
  {
    if more == [] {
      assert found + more == found;
    } else {
      var m := |more| - 1;
      UnpurgedJoins(found, more[..m], purged);
      UnpurgedLast(found + more[..m], more[m], purged);
      assert found + more == found + more[..m] + [more[m]];
    }
  }

  lemma UnpurgedLast(found: seq<nat>, v: nat, purged: set<nat>)
    ensures Unpurged(found + [v], purged) == Unpurged(found, purged) + if v in purged then [] else [v]
  {
    assert (found + [v])[..|found + [v]| - 1] == found;
  }

  // Without the purged constraints, except that the first one always stays.
  function Cleaned(t: Table, key: Key, purged: set<nat>): Table {
    if key in t && t[key] != [] then t[key := [t[key][0]] + Unpurged(t[key][1..], purged)] else t
  }

  // v is the first constraint under a key.
  predicate First(t: Table, key: Key, v: nat) {
    key in t && t[key] != [] && t[key][0] == v
  }

  // What may happen to the store; an attempt is taken back at its end.
  datatype Op =
    | Put(key: Key, v: nat)
    | Move(keyOld: Key, keyNew: Key)
    | Purge(key: Key, purged: set<nat>)
    | Expand
    | Attempt(ops: seq<Op>)

  function After(t: Table, op: Op): Table {
    match op
    case Put(key, v) => Stored(t, key, v)
    case Move(keyOld, keyNew) => Renamed(t, keyOld, keyNew)
    case Purge(key, purged) => Cleaned(t, key, purged)
    case Expand => t
    case Attempt(_) => t
  }

  function AfterAll(t: Table, ops: seq<Op>): Table {
    if ops == [] then t else After(AfterAll(t, ops[..|ops| - 1]), ops[|ops| - 1])
  }

  // ----- the table of a store -----

  ghost function ConsOf(nodes: map<nat, Node>, s: seq<nat>): (found: seq<nat>)
    requires forall i :: 0 <= i < |s| ==> s[i] in nodes
    ensures |found| == |s| && forall i :: 0 <= i < |s| ==> found[i] == nodes[s[i]].cons
  {
    seq(|s|, i requires 0 <= i < |s| => nodes[s[i]].cons)
  }

  ghost predicate HasKey(c: Core, key: Key) {
    exists e :: e in c.stored && e in c.entries && c.entries[e].key == key
  }

  lemma InChain(c: Core, e: nat, s: seq<nat>)
    requires HasList(c, e, s)
    ensures |s| > 0 && forall i :: 0 <= i < |s| ==> s[i] in c.nodes
  {
  }

  lemma SomethingFound(c: Core, key: Key)
    requires CoreOk(c)
    ensures exists found :: Finds(c, key, found)
  {
    hide HasList;
    if e :| e in c.stored && e in c.entries && c.entries[e].key == key {
      var lists :| ListedBy(c, lists);
      InChain(c, e, lists[e]);
      FindsOne(c, e, lists[e], key, ConsOf(c.nodes, lists[e]));
    } else {
      assert Finds(c, key, []);
    }
  }

  lemma OneFound(c: Core, key: Key, f: seq<nat>, g: seq<nat>)
    requires CoreOk(c) && Finds(c, key, f) && Finds(c, key, g)
    ensures f == g
  {
    hide HasList;
    if e :| e in c.stored && e in c.entries && c.entries[e].key == key {
      var lists :| ListedBy(c, lists);
      FindsOne(c, e, lists[e], key, f);
      FindsOne(c, e, lists[e], key, g);
    }
  }

  ghost function Found(c: Core, key: Key): (found: seq<nat>)
    requires CoreOk(c)
    ensures Finds(c, key, found)
  {
    SomethingFound(c, key);
    var found :| Finds(c, key, found);
    found
  }

  ghost function Contents(c: Core): Table
    requires CoreOk(c)
  {
    map key | key in (set e | e in c.stored && e in c.entries :: c.entries[e].key) :: Found(c, key)
  }

  // The table lists exactly what searches find.
  lemma FindsIsContents(c: Core, key: Key, found: seq<nat>)
    requires CoreOk(c)
    ensures Finds(c, key, found) <==> found == Under(Contents(c), key)
  {
    hide HasList, CoreOk;
    if HasKey(c, key) {
      assert key in Contents(c);
      if Finds(c, key, found) {
        OneFound(c, key, found, Found(c, key));
      }
    }
  }

  // What searches find after a constraint was stored: it comes first under its
  // key, and nothing changes under another.
  lemma StoredFinds(c: Core, d: Core, key: Key, v: nat)
    requires CoreOk(c) && CoreOk(d) && Contents(d) == Stored(Contents(c), key, v)
    ensures forall found :: Finds(c, key, found) ==> Finds(d, key, [v] + found)
    ensures forall k, found :: k != key ==> (Finds(c, k, found) <==> Finds(d, k, found))
  {
    hide CoreOk, Finds, Contents;
    forall found | Finds(c, key, found) ensures Finds(d, key, [v] + found) {
      FindsIsContents(c, key, found);
      FindsIsContents(d, key, [v] + found);
    }
    forall k, found | k != key ensures Finds(c, k, found) <==> Finds(d, k, found) {
      FindsIsContents(c, k, found);
      FindsIsContents(d, k, found);
    }
  }

  // What searches find after an entry was moved: nothing under the old key,
  // and its constraints follow those of the new one.
  lemma RenamedFinds(c: Core, d: Core, keyOld: Key, keyNew: Key)
    requires CoreOk(c) && CoreOk(d) && Contents(d) == Renamed(Contents(c), keyOld, keyNew)
    ensures keyOld != keyNew ==> Finds(d, keyOld, [])
    ensures keyOld != keyNew ==> forall f, g :: Finds(c, keyOld, f) && Finds(c, keyNew, g) ==> Finds(d, keyNew, g + f)
    ensures forall k, found :: (k != keyOld && k != keyNew) || keyOld == keyNew ==>
      (Finds(c, k, found) <==> Finds(d, k, found))
  {
    hide CoreOk, Finds, Contents;
    FindsIsContents(d, keyOld, []);
    if keyOld != keyNew {
      forall f, g | Finds(c, keyOld, f) && Finds(c, keyNew, g) ensures Finds(d, keyNew, g + f) {
        FindsIsContents(c, keyOld, f);
        FindsIsContents(c, keyNew, g);
        FindsIsContents(d, keyNew, g + f);
        assert keyOld !in Contents(c) ==> g + f == g;
      }
    }
    forall k, found | (k != keyOld && k != keyNew) || keyOld == keyNew
      ensures Finds(c, k, found) <==> Finds(d, k, found)
    {
      FindsIsContents(c, k, found);
      FindsIsContents(d, k, found);
      assert forall f: seq<nat> :: [] + f == f;
    }
  }

  // The constraints of an entry.
  lemma EntryContents(c: Core, e: nat, s: seq<nat>)
    requires CoreOk(c) && e in c.stored && HasList(c, e, s)
    ensures e in c.entries && (forall i :: 0 <= i < |s| ==> s[i] in c.nodes)
    ensures c.entries[e].key in Contents(c) && Contents(c)[c.entries[e].key] == ConsOf(c.nodes, s) != []
  {
    hide HasList, Finds;
    InChain(c, e, s);
    var key := c.entries[e].key;
    FindsOne(c, e, s, key, ConsOf(c.nodes, s));
    FindsIsContents(c, key, ConsOf(c.nodes, s));
    assert HasKey(c, key);
  }

  lemma TableKeys(c: Core)
    requires CoreOk(c)
    ensures forall key :: key in Contents(c) <==> HasKey(c, key)
  {
    hide CoreOk, Finds;
  }

  // Nodes keep their constraints.
  ghost predicate ConsKept(c: Core, d: Core) {
    forall n :: n in c.nodes ==> n in d.nodes && d.nodes[n].cons == c.nodes[n].cons
  }

  // The first constraint of an entry.
  lemma HeadOfContents(c: Core, e: nat)
    requires CoreOk(c) && e in c.stored && e in c.entries
    ensures c.entries[e].cons in c.nodes
    ensures First(Contents(c), c.entries[e].key, c.nodes[c.entries[e].cons].cons)
  {
    hide CoreOk, Contents;
    var s := OneListOf(c, e);
    EntryContents(c, e, s);
  }

  // Entries keep their keys, nodes their constraints.
  ghost predicate KeysAndCons(c: Core, d: Core) {
    ConsKept(c, d) && forall e :: e in c.entries ==> e in d.entries && d.entries[e].key == c.entries[e].key
  }

  // t is the table of d: it has the keys of the entries, with their lists.
  lemma TableIs(d: Core, t: Table)
    requires CoreOk(d)
    requires forall key :: key in t ==> HasKey(d, key)
    requires forall e :: e in d.stored ==> Shows(d, e, t)
    ensures Contents(d) == t
  {
    hide HasList, CoreOk, Finds, Lists;
    var m := Contents(d);
    TableKeys(d);
    forall key
      ensures key in m <==> key in t
      ensures key in t ==> m[key] == t[key]
    {
      if HasKey(d, key) {
        var e :| e in d.stored && e in d.entries && d.entries[e].key == key;
        var s :| HasList(d, e, s) && Lists(d, s, t[key]);
        EntryContents(d, e, s);
        ListsCons(d, s, t[key]);
      }
    }
  }

  ghost predicate Lists(d: Core, s: seq<nat>, found: seq<nat>) {
    |found| == |s| && forall i :: 0 <= i < |s| ==> s[i] in d.nodes && found[i] == d.nodes[s[i]].cons
  }

  lemma ListsCons(d: Core, s: seq<nat>, found: seq<nat>)
    requires Lists(d, s, found)
    ensures (forall i :: 0 <= i < |s| ==> s[i] in d.nodes) && found == ConsOf(d.nodes, s)
  {
  }

  // An entry that keeps key and list keeps its place in the table.
  lemma EntryKept(c: Core, d: Core, e: nat, s: seq<nat>)
    requires CoreOk(c) && e in c.stored && HasList(c, e, s) && ConsKept(c, d)
    ensures e in c.entries && c.entries[e].key in Contents(c) && Lists(d, s, Contents(c)[c.entries[e].key])
  {
    hide HasList, CoreOk, Finds;
    EntryContents(c, e, s);
  }

  // Entry e of d shows its part of t.
  ghost predicate Shows(d: Core, e: nat, t: Table) {
    e in d.entries && d.entries[e].key in t && exists s :: HasList(d, e, s) && Lists(d, s, t[d.entries[e].key])
  }

  // The list of one entry.
  lemma OneListOf(c: Core, e: nat) returns (s: seq<nat>)
    requires CoreOk(c) && e in c.stored
    ensures HasList(c, e, s) && e in c.entries
  {
    hide HasList;
    var lists :| ListedBy(c, lists);
    s := lists[e];
  }

  lemma TwoLists(c: Core, e: nat, e': nat, s: seq<nat>, t: seq<nat>)
    requires CoreOk(c) && e in c.stored && e' in c.stored && e != e' && HasList(c, e, s) && HasList(c, e', t)
    ensures Disjoint(s, t) && e in c.entries && e' in c.entries && c.entries[e].key != c.entries[e'].key
  {
    hide HasList, Disjoint;
    var lists :| ListedBy(c, lists);
    OneList(c, e, s, lists[e]);
    OneList(c, e', t, lists[e']);
  }

  lemma EntriesThere(c: Core)
    requires CoreOk(c)
    ensures forall e :: e in c.stored ==> e in c.entries
  {
  }

  // A new constraint at an entry goes first.
  lemma InsertFrontShows(c: Core, e: nat, n: nat, v: nat, x: nat)
    requires CoreOk(c) && e in c.stored && e in c.entries && n !in c.nodes && x in c.stored
    ensures Shows(InsertFront(c, e, n, v), x, Stored(Contents(c), c.entries[e].key, v))
  {
    hide HasList, Disjoint, Finds, Lists, CoreOk, Contents;
    var d := InsertFront(c, e, n, v);
    var s := OneListOf(c, x);
    EntryKept(c, d, x, s);
    if x == e {
      InsertFrontList(c, e, n, v, s);
      ListsFront(c, d, n, v, s, Contents(c)[c.entries[e].key]);
    } else {
      var t := OneListOf(c, e);
      TwoLists(c, x, e, s, t);
      NodesOfList(c, x, s);
      SameList(c, d, x, s);
    }
  }

  lemma InsertFrontContents(c: Core, e: nat, n: nat, v: nat)
    requires CoreOk(c) && e in c.stored && e in c.entries && n !in c.nodes
    requires CoreOk(InsertFront(c, e, n, v))
    ensures Contents(InsertFront(c, e, n, v)) == Stored(Contents(c), c.entries[e].key, v)
  {
    hide HasList, Finds, Lists, CoreOk, Contents;
    var d, key := InsertFront(c, e, n, v), c.entries[e].key;
    EntriesThere(c);
    forall x | x in d.stored ensures Shows(d, x, Stored(Contents(c), key, v)) {
      InsertFrontShows(c, e, n, v, x);
    }
    TableKeys(c);
    assert HasKey(c, key);
    forall k | HasKey(c, k) ensures HasKey(d, k) {
      var x :| x in c.stored && x in c.entries && c.entries[x].key == k;
      assert x in d.entries && d.entries[x].key == k;
    }
    TableIs(d, Stored(Contents(c), key, v));
  }

  lemma ListsFront(c: Core, d: Core, n: nat, v: nat, s: seq<nat>, found: seq<nat>)
    requires Lists(d, s, found) && n in d.nodes && d.nodes[n].cons == v
    ensures Lists(d, [n] + s, [v] + found)
  {
  }

  // An entry and node of its own for a constraint under a new key.
  lemma InsertNewContents(c: Core, e: nat, key: Key, n: nat, v: nat)
    requires CoreOk(c) && e !in c.entries && n !in c.nodes && !HasKey(c, key)
    requires CoreOk(InsertNew(c, e, key, n, v)) && HasList(InsertNew(c, e, key, n, v), e, [n])
    ensures Contents(InsertNew(c, e, key, n, v)) == Stored(Contents(c), key, v)
  {
    hide HasList, Finds, CoreOk, Contents;
    var d, t := InsertNew(c, e, key, n, v), Stored(Contents(c), key, v);
    EntriesThere(c);
    TableKeys(c);
    forall x | x in d.stored ensures Shows(d, x, t) {
      if x == e {
        assert Lists(d, [n], t[key]);
      } else {
        var s := OneListOf(c, x);
        EntryKept(c, d, x, s);
        NodesOfList(c, x, s);
        SameList(c, d, x, s);
        assert HasKey(c, c.entries[x].key);
      }
    }
    forall k | HasKey(c, k) ensures HasKey(d, k) {
      var x :| x in c.stored && x in c.entries && c.entries[x].key == k;
      assert x in d.entries && d.entries[x].key == k;
    }
    assert HasKey(d, key);
    TableIs(d, t);
  }

  // The list of `from` stands under another key, which had none.
  lemma MoveCopyContents(c: Core, from: nat, into: nat, key: Key)
    requires CoreOk(c) && from in c.stored && from in c.entries && into !in c.entries
    requires forall x :: x in c.stored && x in c.entries && x != from ==> c.entries[x].key != key
    requires CoreOk(MoveCopy(c, from, into, key))
    ensures Contents(MoveCopy(c, from, into, key)) == Renamed(Contents(c), c.entries[from].key, key)
  {
    hide HasList, Finds, CoreOk, Contents, Lists;
    var d, t := MoveCopy(c, from, into, key), Renamed(Contents(c), c.entries[from].key, key);
    EntriesThere(c);
    TableKeys(c);
    assert HasKey(c, c.entries[from].key);
    var r := OneListOf(c, from);
    forall x | x in d.stored ensures Shows(d, x, t) {
      if x == into {
        EntryKept(c, d, from, r);
        MoveCopyList(c, from, into, key, r);
        NewKeyFree(c, from, key);
        assert [] + Contents(c)[c.entries[from].key] == Contents(c)[c.entries[from].key];
      } else {
        var s := OneListOf(c, x);
        TwoLists(c, x, from, s, r);
        EntryKept(c, d, x, s);
        SameList(c, d, x, s);
      }
    }
    RenamedKeys(c, d, from, into, key);
    TableIs(d, t);
  }

  lemma NewKeyFree(c: Core, from: nat, key: Key)
    requires CoreOk(c) && from in c.stored && from in c.entries
    requires forall x :: x in c.stored && x in c.entries && x != from ==> c.entries[x].key != key
    ensures key !in Contents(c) - {c.entries[from].key}
  {
    hide CoreOk, Contents;
    TableKeys(c);
  }

  // Every key but the old one still has an entry, and so has the new one.
  lemma RenamedKeys(c: Core, d: Core, from: nat, into: nat, key: Key)
    requires from in c.entries && into in d.stored && into in d.entries && d.entries[into].key == key
    requires forall x :: x in c.stored && x in c.entries && x != from ==>
      x in d.stored && x in d.entries && d.entries[x].key == c.entries[x].key
    requires CoreOk(c)
    ensures forall k :: k in Renamed(Contents(c), c.entries[from].key, key) ==> HasKey(d, k)
  {
    hide CoreOk, Contents;
    TableKeys(c);
    assert HasKey(d, key);
    forall k | HasKey(c, k) && k != c.entries[from].key ensures HasKey(d, k) {
      var x :| x in c.stored && x in c.entries && c.entries[x].key == k;
      assert x in d.entries && d.entries[x].key == k;
    }
    if !HasKey(c, c.entries[from].key) {
      forall k | HasKey(c, k) ensures HasKey(d, k) {}
    }
  }

  lemma ListsJoin(d: Core, s: seq<nat>, t: seq<nat>, f: seq<nat>, g: seq<nat>)
    requires Lists(d, s, f) && Lists(d, t, g)
    ensures Lists(d, s + t, f + g)
  {
  }

  // The list of `from` follows that of `into`.
  lemma MoveMergeShows(c: Core, from: nat, into: nat, x: nat)
    requires CoreOk(c) && from in c.stored && into in c.stored && from != into && x in c.stored && x != from
    ensures from in c.entries && into in c.entries && c.entries[into].tail in c.nodes
    ensures Shows(MoveMerge(c, from, into), x, Renamed(Contents(c), c.entries[from].key, c.entries[into].key))
  {
    hide HasList, Finds, CoreOk, Contents, Lists, Disjoint;
    EntriesThere(c);
    var r := OneListOf(c, from);
    var s := OneListOf(c, into);
    TwoLists(c, into, from, s, r);
    MoveMergeList(c, from, into, s, r);
    var d := MoveMerge(c, from, into);
    EntryKept(c, d, from, r);
    EntryKept(c, d, into, s);
    if x == into {
      ListsJoin(d, s, r, Contents(c)[c.entries[into].key], Contents(c)[c.entries[from].key]);
    } else {
      var t := OneListOf(c, x);
      TwoLists(c, into, x, s, t);
      TwoLists(c, from, x, r, t);
      TailInList(c, into, s);
      NotIn(c.entries[into].tail, s, t);
      SameList(c, d, x, t);
      EntryKept(c, d, x, t);
    }
  }

  lemma MoveMergeContents(c: Core, from: nat, into: nat)
    requires CoreOk(c) && from in c.stored && into in c.stored && from != into
    requires from in c.entries && into in c.entries && c.entries[into].tail in c.nodes
    requires CoreOk(MoveMerge(c, from, into))
    ensures Contents(MoveMerge(c, from, into)) == Renamed(Contents(c), c.entries[from].key, c.entries[into].key)
  {
    hide HasList, Finds, CoreOk, Contents, Lists;
    var d := MoveMerge(c, from, into);
    EntriesThere(c);
    forall x | x in d.stored
      ensures Shows(d, x, Renamed(Contents(c), c.entries[from].key, c.entries[into].key))
    {
      MoveMergeShows(c, from, into, x);
    }
    RenamedKeys(c, d, from, into, c.entries[into].key);
    TableIs(d, Renamed(Contents(c), c.entries[from].key, c.entries[into].key));
  }

  // What the list without purged nodes holds.
  lemma {:induction false} KeptCons(nodes: map<nat, Node>, s: seq<nat>, n: nat, purged: set<nat>, found: seq<nat>)
    requires 0 < n <= |s| == |found| && (forall x :: x in s ==> x in nodes)
    requires forall i :: 0 <= i < |s| ==> found[i] == nodes[s[i]].cons
    ensures var k, f := Kept(nodes, s, n, purged), [found[0]] + Unpurged(found[1..n], purged);
      |k| == |f| && forall i :: 0 <= i < |k| ==> k[i] in nodes && f[i] == nodes[k[i]].cons
  {
    assert s[n - 1] in s && s[0] in s;
    if n > 1 {
      KeptCons(nodes, s, n - 1, purged, found);
      assert found[1..n][..n - 2] == found[1..n - 1];
    }
  }

  // The lists of a store after the purged constraints of a key were removed.
  lemma CleanedShows(c: Core, d: Core, key: Key, purged: set<nat>, x: nat, s: seq<nat>)
    requires CoreOk(c) && x in c.stored && HasList(c, x, s) && |s| > 0 && x in c.entries && x in d.entries
    requires d.entries[x].key == c.entries[x].key && ConsKept(c, d) && (forall y :: y in s ==> y in c.nodes)
    requires HasList(d, x, if c.entries[x].key == key then Kept(c.nodes, s, |s|, purged) else s)
    ensures Shows(d, x, Cleaned(Contents(c), key, purged))
  {
    hide HasList, Finds, CoreOk, Contents;
    EntryContents(c, x, s);
    var found := Contents(c)[c.entries[x].key];
    KeptCons(c.nodes, s, |s|, purged, found);
    assert found[1..|s|] == found[1..];
  }

  lemma CleanedContents(c: Core, d: Core, key: Key, purged: set<nat>)
    requires CoreOk(c) && CoreOk(d) && d.stored == c.stored && KeysAndCons(c, d)
    requires forall x, s :: x in c.stored && x in c.entries && HasList(c, x, s) ==>
      && (forall y :: y in s ==> y in c.nodes) && |s| > 0
      && HasList(d, x, if c.entries[x].key == key then Kept(c.nodes, s, |s|, purged) else s)
    ensures Contents(d) == Cleaned(Contents(c), key, purged)
  {
    hide HasList, Finds, CoreOk, Contents, Lists, Kept;
    EntriesThere(c);
    var t := Cleaned(Contents(c), key, purged);
    forall x | x in d.stored ensures Shows(d, x, t) {
      var s := OneListOf(c, x);
      NodesOfList(c, x, s);
      CleanedShows(c, d, key, purged, x, s);
    }
    TableKeys(c);
    forall k | HasKey(c, k) ensures HasKey(d, k) {
      var x :| x in c.stored && x in c.entries && c.entries[x].key == k;
      assert x in d.entries && d.entries[x].key == k;
    }
    TableIs(d, t);
  }

  // States in agreement have the same table.
  lemma AgreeContents(c: Core, d: Core)
    requires Agree(c, d) && CoreOk(c) && CoreOk(d)
    ensures Contents(c) == Contents(d)
  {
    hide HasList, Finds, CoreOk, Contents, Agree;
    TableKeys(c);
    TableKeys(d);
    forall key
      ensures key in Contents(c) <==> key in Contents(d)
      ensures key in Contents(c) ==> Contents(c)[key] == Contents(d)[key]
    {
      AgreeKeys(c, d, key);
      if key in Contents(c) {
        FindsIsContents(c, key, Contents(c)[key]);
        AgreeFinds(c, d, key, Contents(c)[key]);
        FindsIsContents(d, key, Contents(c)[key]);
      }
    }
  }

  lemma AgreeKeys(c: Core, d: Core, key: Key)
    requires Agree(c, d) && CoreOk(c)
    ensures HasKey(c, key) <==> HasKey(d, key)
  {
    EntriesThere(c);
    if e :| e in c.stored && e in c.entries && c.entries[e].key == key {
      assert e in d.stored && e in d.entries && d.entries[e].key == key;
    }
  }
}
