// What the constraint store holds, and how each logged change is taken back
// (store.c, trail.c).
module StoreCore {
  import opened Wrappers

  type Key = nat

  // An entry: the constraints stored under one key, as a linked list.
  datatype Entry = Entry(key: Key, cons: nat, tail: nat)

  // A list node.
  datatype Node = Node(cons: nat, next: Option<nat>)

  // Entries and nodes by address; stored are the entries the index can reach.
  datatype Core = Core(entries: map<nat, Entry>, nodes: map<nat, Node>, stored: set<nat>)

  // What the trail records: an old field value, or how to undo an operation.
  datatype Item =
    | OldCons(e: nat, head: nat)
    | OldTail(e: nat, last: nat)
    | OldNext(n: nat, link: Option<nat>)
    | Uninsert(e: nat)
    | Unmove(from: nat, into: nat)

  // ----- linked lists -----

  // s is a chain of nodes.
  ghost predicate Chain(nodes: map<nat, Node>, s: seq<nat>) {
    && (forall i :: 0 <= i < |s| ==> s[i] in nodes)
    && forall i :: 0 <= i < |s| - 1 ==> nodes[s[i]].next == Some(s[i + 1])
  }

  // s is the whole list of entry e.
  ghost predicate HasList(c: Core, e: nat, s: seq<nat>) {
    && e in c.entries && |s| > 0 && Chain(c.nodes, s)
    && s[0] == c.entries[e].cons && s[|s| - 1] == c.entries[e].tail
    && c.nodes[s[|s| - 1]].next == None
    && forall i, j :: 0 <= i < j < |s| ==> s[i] != s[j]
  }

  // s leads from the first node of entry e to the node before `to`.
  ghost predicate LeadsTo(c: Core, e: nat, to: nat, s: seq<nat>) {
    && e in c.entries && |s| > 0 && Chain(c.nodes, s)
    && s[0] == c.entries[e].cons
    && c.nodes[s[|s| - 1]].next == Some(to)
    && forall i :: 0 <= i < |s| ==> s[i] != to
  }

  lemma {:induction false} ChainsAgree(nodes: map<nat, Node>, s: seq<nat>, t: seq<nat>, k: nat)
    requires Chain(nodes, s) && Chain(nodes, t) && k < |s| && k < |t| && s[0] == t[0]
    ensures s[k] == t[k]
  {
    if k > 0 {
      ChainsAgree(nodes, s, t, k - 1);
      assert nodes[s[k - 1]].next == Some(s[k - 1 + 1]);
      assert nodes[t[k - 1]].next == Some(t[k - 1 + 1]);
    }
  }

  // The way to a node is unique.
  lemma OneWay(c: Core, e: nat, to: nat, s: seq<nat>, t: seq<nat>)
    requires LeadsTo(c, e, to, s) && LeadsTo(c, e, to, t)
    ensures s == t
  {
    NotShorterWay(c, e, to, s, t);
    NotShorterWay(c, e, to, t, s);
    forall k | 0 <= k < |s| ensures s[k] == t[k] {
      ChainsAgree(c.nodes, s, t, k);
    }
  }

  ghost function At(s: seq<nat>, i: nat): Option<nat> {
    if i < |s| then Some(s[i]) else None
  }

  lemma NotShorterWay(c: Core, e: nat, to: nat, s: seq<nat>, t: seq<nat>)
    requires LeadsTo(c, e, to, s) && LeadsTo(c, e, to, t)
    ensures |s| >= |t|
  {
    if |s| <= |t| {
      ChainsAgree(c.nodes, s, t, |s| - 1);
      assert At(t, |s|) != Some(to);
    }
  }

  // A list is unique.
  lemma OneList(c: Core, e: nat, s: seq<nat>, t: seq<nat>)
    requires HasList(c, e, s) && HasList(c, e, t)
    ensures s == t
  {
    NotShorterList(c, e, s, t);
    NotShorterList(c, e, t, s);
    forall k | 0 <= k < |s| ensures s[k] == t[k] {
      ChainsAgree(c.nodes, s, t, k);
    }
  }

  lemma NotShorterList(c: Core, e: nat, s: seq<nat>, t: seq<nat>)
    requires HasList(c, e, s) && HasList(c, e, t)
    ensures |s| >= |t|
  {
    if |s| <= |t| {
      ChainsAgree(c.nodes, s, t, |s| - 1);
    }
  }

  // ----- undoing -----

  ghost predicate Undoable(c: Core, item: Item) {
    match item
    case OldCons(e, _) => e in c.entries
    case OldTail(e, _) => e in c.entries
    case OldNext(n, _) => n in c.nodes
    case Uninsert(e) => e in c.entries
    case Unmove(from, into) =>
      && from in c.entries && into in c.entries && from !in c.stored && from != into
      && (c.entries[into].cons != c.entries[from].cons ==> exists s :: LeadsTo(c, into, c.entries[from].cons, s))
  }

  ghost function WayTo(c: Core, e: nat, to: nat): (s: seq<nat>)
    requires exists s :: LeadsTo(c, e, to, s)
    ensures LeadsTo(c, e, to, s)
  {
    var s :| LeadsTo(c, e, to, s);
    s
  }

  function SetCons(c: Core, e: nat, v: nat): Core
    requires e in c.entries
  {
    c.(entries := c.entries[e := c.entries[e].(cons := v)])
  }

  function SetTail(c: Core, e: nat, v: nat): Core
    requires e in c.entries
  {
    c.(entries := c.entries[e := c.entries[e].(tail := v)])
  }

  function SetNext(c: Core, n: nat, v: Option<nat>): Core
    requires n in c.nodes
  {
    c.(nodes := c.nodes[n := c.nodes[n].(next := v)])
  }

  ghost function Undo(c: Core, item: Item): Core
    requires Undoable(c, item)
  {
    match item
    case OldCons(e, v) => SetCons(c, e, v)
    case OldTail(e, v) => SetTail(c, e, v)
    case OldNext(n, v) => SetNext(c, n, v)
    case Uninsert(e) => c.(stored := c.stored - {e})
    case Unmove(from, into) =>
      if c.entries[into].cons == c.entries[from].cons then c.(stored := c.stored - {into} + {from})
      else
        var s := WayTo(c, into, c.entries[from].cons);
        var last := s[|s| - 1];
        SetTail(SetNext(c, last, None), into, last).(stored := c.stored + {from})
  }

  // c has everything a has, and the index reaches the same entries.
  ghost predicate Agree(a: Core, c: Core) {
    && (forall e :: e in a.entries ==> e in c.entries && c.entries[e] == a.entries[e])
    && (forall n :: n in a.nodes ==> n in c.nodes && c.nodes[n] == a.nodes[n])
    && a.stored == c.stored
  }

  lemma LeadsToo(a: Core, c: Core, e: nat, to: nat, s: seq<nat>)
    requires Agree(a, c) && LeadsTo(a, e, to, s)
    ensures LeadsTo(c, e, to, s)
  {
  }

  // Undoing keeps two states in agreement.
  lemma UndoAgrees(a: Core, c: Core, item: Item)
    requires Agree(a, c) && Undoable(a, item)
    ensures Undoable(c, item) && Agree(Undo(a, item), Undo(c, item))
  {
    hide Chain;
    match item
    case OldCons(e, v) =>
    case OldTail(e, v) =>
    case OldNext(n, v) =>
    case Uninsert(e) =>
    case Unmove(from, into) =>
      if a.entries[into].cons != a.entries[from].cons {
        var s := WayTo(a, into, a.entries[from].cons);
        LeadsToo(a, c, into, a.entries[from].cons, s);
        OneWay(c, into, a.entries[from].cons, s, WayTo(c, into, a.entries[from].cons));
        LastNode(a, into, a.entries[from].cons, s);
      }
  }

  lemma LastNode(c: Core, e: nat, to: nat, s: seq<nat>)
    requires LeadsTo(c, e, to, s)
    ensures s[|s| - 1] in c.nodes
  {
  }

  lemma AgreeTrans(a: Core, b: Core, c: Core)
    requires Agree(a, b) && Agree(b, c)
    ensures Agree(a, c)
  {
  }

  // ----- the operations, seen from the core -----

  // A new entry with a list of one node.
  function AddEntry(c: Core, e: nat, key: Key, n: nat): Core {
    c.(entries := c.entries[e := Entry(key, n, n)], stored := c.stored + {e})
  }

  lemma AddEntryUndone(c: Core, e: nat, key: Key, n: nat)
    requires e !in c.entries && e !in c.stored
    ensures Undoable(AddEntry(c, e, key, n), Uninsert(e))
    ensures Agree(c, Undo(AddEntry(c, e, key, n), Uninsert(e)))
  {
  }

  // Entry `from` leaves the index; its list goes to the new entry `into`.
  function MoveCopy(c: Core, from: nat, into: nat, key: Key): Core
    requires from in c.entries
  {
    c.(entries := c.entries[into := c.entries[from].(key := key)], stored := c.stored - {from} + {into})
  }

  lemma MoveCopyUndone(c: Core, from: nat, into: nat, key: Key)
    requires from in c.entries && from in c.stored && into !in c.entries && into !in c.stored
    ensures Undoable(MoveCopy(c, from, into, key), Unmove(from, into))
    ensures Agree(c, Undo(MoveCopy(c, from, into, key), Unmove(from, into)))
  {
  }

  // Entry `from` leaves the index; its list is appended to that of `into`.
  function MoveMerge(c: Core, from: nat, into: nat): Core
    requires from in c.entries && into in c.entries && c.entries[into].tail in c.nodes
  {
    SetTail(SetNext(c, c.entries[into].tail, Some(c.entries[from].cons)), into, c.entries[from].tail)
    .(stored := c.stored - {from})
  }

  lemma MoveMergeLeads(c: Core, from: nat, into: nat, s: seq<nat>, t: seq<nat>)
    requires HasList(c, into, s) && HasList(c, from, t) && from != into && Disjoint(s, t)
    ensures LeadsTo(MoveMerge(c, from, into), into, c.entries[from].cons, s)
    ensures c.entries[into].cons != c.entries[from].cons
  {
    assert s[0] in s && t[0] in t;
    var d := MoveMerge(c, from, into);
    forall i | 0 <= i < |s| ensures s[i] != t[0] {
      assert s[i] in s;
    }
    forall i | 0 <= i < |s| - 1 ensures d.nodes[s[i]].next == Some(s[i + 1]) {
      assert s[i] != s[|s| - 1];
    }
  }

  lemma LastInList(c: Core, e: nat, s: seq<nat>)
    requires HasList(c, e, s)
    ensures c.entries[e].tail in c.nodes
  {
  }

  lemma MoveMergeUndone(c: Core, from: nat, into: nat, s: seq<nat>, t: seq<nat>)
    requires HasList(c, into, s) && HasList(c, from, t) && from != into && Disjoint(s, t)
    requires from in c.stored
    ensures Undoable(MoveMerge(c, from, into), Unmove(from, into))
    ensures Agree(c, Undo(MoveMerge(c, from, into), Unmove(from, into)))
  {
    hide Chain, LeadsTo;
    LastInList(c, into, s);
    MoveMergeLeads(c, from, into, s, t);
    var d := MoveMerge(c, from, into);
    OneWay(d, into, c.entries[from].cons, s, WayTo(d, into, c.entries[from].cons));
    LastNode(d, into, c.entries[from].cons, s);
  }

  // ----- what a search sees -----

  // Keys are unique among the entries in the index.
  ghost predicate KeysUnique(c: Core) {
    && (forall e :: e in c.stored ==> e in c.entries)
    && forall e, e' :: e in c.stored && e' in c.stored && c.entries[e].key == c.entries[e'].key ==> e == e'
  }

  // The lists of the entries in the index; no two of them share a node.
  ghost predicate ListedBy(c: Core, lists: map<nat, seq<nat>>) {
    && lists.Keys == c.stored
    && (forall e :: e in lists ==> HasList(c, e, lists[e]))
    && forall e, e' :: e in lists && e' in lists && e != e' ==> Disjoint(lists[e], lists[e'])
  }

  ghost predicate Disjoint(s: seq<nat>, t: seq<nat>) {
    forall x :: x in s ==> x !in t
  }

  ghost predicate CoreOk(c: Core) {
    KeysUnique(c) && exists lists :: ListedBy(c, lists)
  }

  // The constraints found under a key, in order.
  ghost predicate Finds(c: Core, key: Key, found: seq<nat>) {
    if exists e :: e in c.stored && e in c.entries && c.entries[e].key == key then
      exists e, s :: e in c.stored && e in c.entries && c.entries[e].key == key && HasList(c, e, s)
        && |found| == |s| && forall i :: 0 <= i < |s| ==> s[i] in c.nodes && found[i] == c.nodes[s[i]].cons
    else found == []
  }

  lemma ListKept(a: Core, c: Core, e: nat, s: seq<nat>)
    requires Agree(a, c) && HasList(a, e, s)
    ensures HasList(c, e, s)
  {
  }

  // States in agreement are equally sound.
  lemma AgreeOk(a: Core, c: Core)
    requires Agree(a, c) && CoreOk(a)
    ensures CoreOk(c)
  {
    hide HasList;
    var lists :| ListedBy(a, lists);
    forall e | e in lists ensures HasList(c, e, lists[e]) {
      ListKept(a, c, e, lists[e]);
    }
    assert ListedBy(c, lists);
  }

  // A search finds the same constraints in the same order.
  lemma AgreeFinds(a: Core, c: Core, key: Key, found: seq<nat>)
    requires Agree(a, c) && CoreOk(a)
    ensures Finds(a, key, found) <==> Finds(c, key, found)
  {
    hide HasList;
    if e :| e in a.stored && e in a.entries && a.entries[e].key == key {
      var lists :| ListedBy(a, lists);
      var s := lists[e];
      FindsOne(a, e, s, key, found);
      AgreeOk(a, c);
      ListKept(a, c, e, s);
      FindsOne(c, e, s, key, found);
      ListNodes(a, c, e, s);
    } else {
      assert forall e :: e in c.stored ==> e in a.stored && e in a.entries && c.entries[e] == a.entries[e];
    }
  }

  lemma ListNodes(a: Core, c: Core, e: nat, s: seq<nat>)
    requires Agree(a, c) && HasList(a, e, s)
    ensures forall i :: 0 <= i < |s| ==> s[i] in a.nodes && s[i] in c.nodes && c.nodes[s[i]] == a.nodes[s[i]]
  {
  }

  lemma FindsOne(c: Core, e: nat, s: seq<nat>, key: Key, found: seq<nat>)
    requires CoreOk(c) && e in c.stored && e in c.entries && c.entries[e].key == key && HasList(c, e, s)
    ensures Finds(c, key, found) <==> |found| == |s| && forall i :: 0 <= i < |s| ==>
          s[i] in c.nodes && found[i] == c.nodes[s[i]].cons
  {
    hide HasList;
    if Finds(c, key, found) {
      var e', s' :| e' in c.stored && e' in c.entries && c.entries[e'].key == key && HasList(c, e', s')
        && |found| == |s'| && forall i :: 0 <= i < |s'| ==> s'[i] in c.nodes && found[i] == c.nodes[s'[i]].cons;
      OneList(c, e, s, s');
    }
  }

  // ----- what the operations do to the lists -----

  // An entry whose node list lies elsewhere is not touched.
  ghost predicate SameOn(c: Core, d: Core, e: nat, s: seq<nat>) {
    && e in c.entries && e in d.entries && d.entries[e].cons == c.entries[e].cons
    && d.entries[e].tail == c.entries[e].tail
    && forall x :: x in s && x in c.nodes ==> x in d.nodes && d.nodes[x] == c.nodes[x]
  }

  lemma SameList(c: Core, d: Core, e: nat, s: seq<nat>)
    requires HasList(c, e, s) && SameOn(c, d, e, s)
    ensures HasList(d, e, s)
  {
    assert forall i :: 0 <= i < |s| ==> s[i] in s;
  }

  // A constraint put in front of an entry's list.
  function InsertFront(c: Core, e: nat, n: nat, v: nat): Core
    requires e in c.entries
  {
    SetCons(c.(nodes := c.nodes[n := Node(v, Some(c.entries[e].cons))]), e, n)
  }

  lemma InsertFrontList(c: Core, e: nat, n: nat, v: nat, s: seq<nat>)
    requires HasList(c, e, s) && n !in c.nodes
    ensures HasList(InsertFront(c, e, n, v), e, [n] + s)
  {
    var d, t := InsertFront(c, e, n, v), [n] + s;
    forall i | 0 <= i < |t| ensures t[i] in d.nodes {
      assert i > 0 ==> t[i] == s[i - 1];
    }
    forall i | 0 <= i < |t| - 1 ensures d.nodes[t[i]].next == Some(t[i + 1]) {
      if i > 0 {
        assert t[i] == s[i - 1] && t[i + 1] == s[i];
        assert c.nodes[s[i - 1]].next == Some(s[i - 1 + 1]);
      }
    }
  }

  lemma NodesOfList(c: Core, e: nat, s: seq<nat>)
    requires HasList(c, e, s)
    ensures forall x :: x in s ==> x in c.nodes
  {
  }

  lemma DisjointFlip(s: seq<nat>, t: seq<nat>)
    requires Disjoint(s, t)
    ensures Disjoint(t, s)
  {
  }

  lemma PrependApart(n: nat, s: seq<nat>, t: seq<nat>)
    requires Disjoint(s, t) && n !in t
    ensures Disjoint([n] + s, t) && Disjoint(t, [n] + s)
  {
  }

  lemma AppendApart(r: seq<nat>, s: seq<nat>, t: seq<nat>)
    requires Disjoint(r, t) && Disjoint(s, t)
    ensures Disjoint(r + s, t) && Disjoint(t, r + s)
  {
  }

  lemma InsertFrontOk(c: Core, e: nat, n: nat, v: nat)
    requires CoreOk(c) && e in c.stored && n !in c.nodes
    ensures CoreOk(InsertFront(c, e, n, v))
  {
    hide HasList, Disjoint;
    var d := InsertFront(c, e, n, v);
    var lists :| ListedBy(c, lists);
    var lists' := lists[e := [n] + lists[e]];
    InsertFrontList(c, e, n, v, lists[e]);
    forall x | x in lists && x != e
      ensures HasList(d, x, lists[x]) && Disjoint(lists'[e], lists[x]) && Disjoint(lists[x], lists'[e])
    {
      NodesOfList(c, x, lists[x]);
      SameList(c, d, x, lists[x]);
      PrependApart(n, lists[e], lists[x]);
    }
    assert ListedBy(d, lists');
  }

  // A new entry with one constraint.
  function InsertNew(c: Core, e: nat, key: Key, n: nat, v: nat): Core {
    AddEntry(c.(nodes := c.nodes[n := Node(v, None)]), e, key, n)
  }

  lemma InsertNewOk(c: Core, e: nat, key: Key, n: nat, v: nat)
    requires CoreOk(c) && e !in c.entries && n !in c.nodes
    requires forall x :: x in c.stored && x in c.entries ==> c.entries[x].key != key
    ensures CoreOk(InsertNew(c, e, key, n, v))
    ensures HasList(InsertNew(c, e, key, n, v), e, [n])
  {
    var d := InsertNew(c, e, key, n, v);
    assert HasList(d, e, [n]);
    InsertNewLists(c, e, key, n, v);
  }

  lemma InsertNewLists(c: Core, e: nat, key: Key, n: nat, v: nat)
    requires CoreOk(c) && e !in c.entries && n !in c.nodes
    requires HasList(InsertNew(c, e, key, n, v), e, [n])
    ensures exists lists :: ListedBy(InsertNew(c, e, key, n, v), lists)
  {
    hide HasList, Disjoint;
    var d := InsertNew(c, e, key, n, v);
    var lists :| ListedBy(c, lists);
    var lists' := lists[e := [n]];
    forall x | x in lists ensures HasList(d, x, lists[x]) && Disjoint([n], lists[x]) && Disjoint(lists[x], [n]) {
      NodesOfList(c, x, lists[x]);
      SameList(c, d, x, lists[x]);
      OneApart(n, lists[x]);
    }
    assert ListedBy(d, lists');
  }

  lemma OneApart(n: nat, t: seq<nat>)
    requires n !in t
    ensures Disjoint([n], t) && Disjoint(t, [n])
  {
  }

  lemma MoveCopyList(c: Core, from: nat, into: nat, key: Key, s: seq<nat>)
    requires HasList(c, from, s)
    ensures HasList(MoveCopy(c, from, into, key), into, s)
  {
  }

  lemma MoveCopyOk(c: Core, from: nat, into: nat, key: Key)
    requires CoreOk(c) && from in c.stored && into !in c.entries
    requires forall x :: x in c.stored && x in c.entries && x != from ==> c.entries[x].key != key
    ensures CoreOk(MoveCopy(c, from, into, key))
    ensures forall s :: HasList(c, from, s) ==> HasList(MoveCopy(c, from, into, key), into, s)
  {
    hide HasList, Disjoint;
    var d := MoveCopy(c, from, into, key);
    forall s | HasList(c, from, s) ensures HasList(d, into, s) {
      MoveCopyList(c, from, into, key, s);
    }
    var lists :| ListedBy(c, lists);
    var lists' := (lists - {from})[into := lists[from]];
    forall x | x in lists && x != from ensures HasList(d, x, lists[x]) {
      SameList(c, d, x, lists[x]);
    }
    assert ListedBy(d, lists');
  }

  lemma MoveMergeList(c: Core, from: nat, into: nat, s: seq<nat>, t: seq<nat>)
    requires HasList(c, into, s) && HasList(c, from, t) && from != into && Disjoint(s, t)
    ensures c.entries[into].tail in c.nodes
    ensures HasList(MoveMerge(c, from, into), into, s + t)
  {
    assert forall i :: 0 <= i < |s| ==> s[i] in s;
    assert forall i :: 0 <= i < |t| ==> t[i] in t;
    var d, u := MoveMerge(c, from, into), s + t;
    forall i | 0 <= i < |u| - 1 ensures d.nodes[u[i]].next == Some(u[i + 1]) {
      if i < |s| - 1 {
        assert u[i] == s[i] && u[i + 1] == s[i + 1] && s[i] != s[|s| - 1];
      } else if i >= |s| {
        assert u[i] == t[i - |s|] && u[i + 1] == t[i - |s| + 1];
        assert c.nodes[t[i - |s|]].next == Some(t[i - |s| + 1]);
      }
    }
  }

  lemma MoveMergeOk(c: Core, from: nat, into: nat)
    requires CoreOk(c) && from in c.stored && into in c.stored && from != into
    ensures c.entries[into].tail in c.nodes && CoreOk(MoveMerge(c, from, into))
  {
    hide HasList, Disjoint;
    var lists :| ListedBy(c, lists);
    MoveMergeList(c, from, into, lists[into], lists[from]);
    var d := MoveMerge(c, from, into);
    var lists' := (lists - {from})[into := lists[into] + lists[from]];
    TailInList(c, into, lists[into]);
    forall x | x in lists && x != from && x != into
      ensures HasList(d, x, lists[x]) && Disjoint(lists'[into], lists[x]) && Disjoint(lists[x], lists'[into])
    {
      NotIn(c.entries[into].tail, lists[into], lists[x]);
      SameList(c, d, x, lists[x]);
      AppendApart(lists[into], lists[from], lists[x]);
    }
    assert ListedBy(d, lists');
  }

  lemma NotIn(n: nat, s: seq<nat>, t: seq<nat>)
    requires n in s && Disjoint(s, t)
    ensures n !in t
  {
  }

  lemma TailInList(c: Core, e: nat, s: seq<nat>)
    requires HasList(c, e, s)
    ensures c.entries[e].tail in s
  {
  }
}
