// The constraint store (store.c): a chained hash index that grows in place,
// and the trail that takes its changes back (trail.c).
module StoreTable {
  import opened Wrappers
  import opened StoreContents
  import opened StoreCore
  import opened StoreTrim

  const GROWTH_FACTOR := 3
  const INIT_SHIFT: nat := 12

  // ----- the index -----

  type Buckets = seq<seq<nat>>

  function Pow2(n: nat): (r: nat)
    ensures r > 0
  {
    if n == 0 then 1 else 2 * Pow2(n - 1)
  }

  // The bucket of a key: its low bits, as many as shift.
  function Index(key: Key, shift: nat): (i: nat)
    ensures i < Pow2(shift)
  {
    if shift == 0 then 0 else 2 * Index(key / 2, shift - 1) + key % 2
  }

  ghost predicate NoDup(s: seq<nat>) {
    forall i, j :: 0 <= i < j < |s| ==> s[i] != s[j]
  }

  // Every entry of the store is in the chain of its key, once.
  ghost predicate Indexed(buckets: Buckets, shift: nat, c: Core) {
    && |buckets| == Pow2(shift)
    && (forall i :: 0 <= i < |buckets| ==> NoDup(buckets[i]))
    && (forall i, e :: 0 <= i < |buckets| && e in buckets[i] ==>
          e in c.stored && e in c.entries && Index(c.entries[e].key, shift) == i)
    && (forall e :: e in c.stored ==> e in c.entries && e in buckets[Index(c.entries[e].key, shift)])
  }

  function Without(s: seq<nat>, e: nat): seq<nat> {
    if s == [] then [] else if s[0] == e then s[1..] else [s[0]] + Without(s[1..], e)
  }

  lemma {:induction false} WithoutIs(s: seq<nat>, e: nat)
    requires NoDup(s)
    ensures NoDup(Without(s, e))
    ensures forall x :: x in Without(s, e) <==> x in s && x != e
  {
    if s != [] {
      WithoutIs(s[1..], e);
      assert forall i :: 0 <= i < |s[1..]| ==> s[1..][i] != s[0];
      assert forall x :: x in s <==> x == s[0] || x in s[1..];
      var w := Without(s[1..], e);
      forall j | 0 <= j < |w| ensures w[j] != s[0] {
        assert w[j] in w;
      }
    }
  }

  function Unlink(buckets: Buckets, i: nat, e: nat): Buckets
    requires i < |buckets|
  {
    buckets[i := Without(buckets[i], e)]
  }

  function Link(buckets: Buckets, i: nat, e: nat): Buckets
    requires i < |buckets|
  {
    buckets[i := [e] + buckets[i]]
  }

  lemma UnlinkIndexed(buckets: Buckets, shift: nat, c: Core, e: nat)
    requires Indexed(buckets, shift, c) && e in c.entries
    ensures Indexed(Unlink(buckets, Index(c.entries[e].key, shift), e), shift, c.(stored := c.stored - {e}))
  {
    var i := Index(c.entries[e].key, shift);
    WithoutIs(buckets[i], e);
  }

  lemma LinkIndexed(buckets: Buckets, shift: nat, c: Core, e: nat)
    requires Indexed(buckets, shift, c) && e in c.entries && e !in c.stored
    ensures Indexed(Link(buckets, Index(c.entries[e].key, shift), e), shift, c.(stored := c.stored + {e}))
  {
    var i := Index(c.entries[e].key, shift);
    var b := Link(buckets, i, e);
    assert forall x :: x in b[i] <==> x == e || x in buckets[i];
  }

  // The index does not look at list heads, tails and nodes.
  lemma SameIndexed(buckets: Buckets, shift: nat, c: Core, d: Core)
    requires Indexed(buckets, shift, c) && c.stored == d.stored
    requires forall e :: e in c.stored ==> e in d.entries && e in c.entries && d.entries[e].key == c.entries[e].key
    ensures Indexed(buckets, shift, d)
  {
  }

  // ----- the trail -----

  // The state before the item was written, as good as it gets when all items
  // from i on are taken back.
  ghost function Top(c: Core, snaps: seq<Core>, i: nat): Core
    requires i <= |snaps|
  {
    if i == |snaps| then c else snaps[i]
  }

  // Each item leads back from the state after it to the state before it.
  ghost predicate Restorable(c: Core, trail: seq<Item>, snaps: seq<Core>) {
    && |snaps| == |trail|
    && (forall i :: 0 <= i < |trail| ==>
          Undoable(Top(c, snaps, i + 1), trail[i]) && Agree(snaps[i], Undo(Top(c, snaps, i + 1), trail[i])))
    && forall i :: 0 <= i < |snaps| ==> KeysUnique(snaps[i])
  }

  // Logging an operation and its inverse.
  lemma Logged(c: Core, trail: seq<Item>, snaps: seq<Core>, d: Core, item: Item)
    requires Restorable(c, trail, snaps) && KeysUnique(c)
    requires Undoable(d, item) && Agree(c, Undo(d, item))
    ensures Restorable(d, trail + [item], snaps + [c])
  {
    hide Undoable, Undo, Agree, KeysUnique;
    var t, s := trail + [item], snaps + [c];
    forall i | 0 <= i < |t| ensures Undoable(Top(d, s, i + 1), t[i]) && Agree(s[i], Undo(Top(d, s, i + 1), t[i])) {
      if i < |trail| {
        assert Top(d, s, i + 1) == Top(c, snaps, i + 1);
      }
    }
  }

  // Adding what nobody refers to yet changes nothing.
  lemma Extended(c: Core, trail: seq<Item>, snaps: seq<Core>, d: Core)
    requires Restorable(c, trail, snaps) && Agree(c, d)
    ensures Restorable(d, trail, snaps)
  {
    hide Undoable, Undo, Agree, KeysUnique;
    var n := |trail| - 1;
    forall i | 0 <= i < |trail|
      ensures Undoable(Top(d, snaps, i + 1), trail[i]) && Agree(snaps[i], Undo(Top(d, snaps, i + 1), trail[i]))
    {
      if i == n {
        UndoAgrees(c, d, trail[i]);
        AgreeTrans(snaps[i], Undo(c, trail[i]), Undo(d, trail[i]));
      } else {
        assert Top(d, snaps, i + 1) == Top(c, snaps, i + 1);
      }
    }
  }

  // a was the state when the trail had length cp, and still can be restored.
  ghost predicate Since(a: Core, cp: nat, c: Core, snaps: seq<Core>) {
    cp <= |snaps| && Agree(a, Top(c, snaps, cp))
  }

  // From (c, snaps) to (d, snaps'), whatever could be restored still can.
  ghost predicate Carries(c: Core, snaps: seq<Core>, d: Core, snaps': seq<Core>) {
    |snaps| <= |snaps'| && snaps'[..|snaps|] == snaps && Agree(c, Top(d, snaps', |snaps|))
  }

  lemma CarriesSince(a: Core, cp: nat, c: Core, snaps: seq<Core>, d: Core, snaps': seq<Core>)
    requires Since(a, cp, c, snaps) && Carries(c, snaps, d, snaps')
    ensures Since(a, cp, d, snaps')
  {
    hide Agree;
    if cp == |snaps| {
      AgreeTrans(a, c, Top(d, snaps', |snaps|));
    } else {
      assert snaps'[..|snaps|][cp] == snaps[cp];
    }
  }

  lemma CarriesTrans(c: Core, s: seq<Core>, d: Core, t: seq<Core>, e: Core, u: seq<Core>)
    requires Carries(c, s, d, t) && Carries(d, t, e, u)
    ensures Carries(c, s, e, u)
  {
    hide Agree;
    assert u[..|s|] == u[..|t|][..|s|];
    if |s| == |t| {
      AgreeTrans(c, d, Top(e, u, |s|));
    } else {
      assert u[..|t|][|s|] == t[|s|];
    }
  }

  lemma AgreeSelf(c: Core)
    ensures Agree(c, c)
  {
  }

  lemma CarriesLogged(c: Core, snaps: seq<Core>, d: Core)
    ensures Carries(c, snaps, d, snaps + [c])
  {
    hide Agree;
    AgreeSelf(c);
  }

  lemma CarriesExtended(c: Core, snaps: seq<Core>, d: Core)
    requires Agree(c, d)
    ensures Carries(c, snaps, d, snaps)
  {
  }

  // ----- growth -----

  // The chain of bucket i after the table became twice as long: what stays,
  // or what moves to bucket i, in reverse order.
  function Stay(chain: seq<nat>, entries: map<nat, Entry>, i: nat, shift: nat): seq<nat> {
    if chain == [] then []
    else
      var e := chain[|chain| - 1];
      var rest := Stay(chain[..|chain| - 1], entries, i, shift);
      if e in entries && Index(entries[e].key, shift) == i then [e] + rest else rest
  }

  lemma {:induction false} StayIs(chain: seq<nat>, entries: map<nat, Entry>, i: nat, shift: nat)
    requires NoDup(chain)
    ensures NoDup(Stay(chain, entries, i, shift))
    ensures forall e :: e in Stay(chain, entries, i, shift) <==>
          e in chain && e in entries && Index(entries[e].key, shift) == i
  {
    if chain != [] {
      var n := |chain| - 1;
      StayIs(chain[..n], entries, i, shift);
      assert forall e :: e in chain <==> e == chain[n] || e in chain[..n];
      assert forall j :: 0 <= j < n ==> chain[..n][j] != chain[n];
    }
  }

  // The table after growth.
  ghost function Grown(buckets: Buckets, entries: map<nat, Entry>, shift: nat): Buckets {
    var n := |buckets|;
    seq(2 * n, i requires 0 <= i < 2 * n => Stay(buckets[if i < n then i else i - n], entries, i, shift + 1))
  }

  // One more bit leaves a key where it is or moves it by the old length.
  lemma {:induction false} OneMoreBit(key: nat, shift: nat)
    ensures Index(key, shift + 1) == Index(key, shift) || Index(key, shift + 1) == Index(key, shift) + Pow2(shift)
  {
    if shift > 0 {
      OneMoreBit(key / 2, shift - 1);
    }
  }

  lemma GrownIndexed(buckets: Buckets, shift: nat, c: Core)
    requires Indexed(buckets, shift, c)
    ensures Indexed(Grown(buckets, c.entries, shift), shift + 1, c)
  {
    hide Index;
    var n, b := |buckets|, Grown(buckets, c.entries, shift);
    forall i | 0 <= i < 2 * n
      ensures NoDup(b[i])
      ensures forall e :: e in b[i] <==>
            e in buckets[if i < n then i else i - n] && e in c.entries && Index(c.entries[e].key, shift + 1) == i
    {
      StayIs(buckets[if i < n then i else i - n], c.entries, i, shift + 1);
    }
    forall e | e in c.stored ensures e in c.entries && e in b[Index(c.entries[e].key, shift + 1)] {
      OneMoreBit(c.entries[e].key, shift);
    }
  }

  lemma Unchanged(c: Core, s: seq<Core>)
    ensures Carries(c, s, c, s)
  {
    AgreeSelf(c);
  }

  // The state at the start is remembered.
  lemma CarriedSince(c: Core, s: seq<Core>, d: Core, t: seq<Core>)
    requires Carries(c, s, d, t)
    ensures Since(c, |s|, d, t)
  {
    hide Agree;
  }

  lemma CarriedPrefix(c: Core, s: seq<Core>, d: Core, t: seq<Core>)
    requires Carries(c, s, d, t)
    ensures |s| <= |t| && t[..|s|] == s
  {
    hide Agree;
  }

  lemma BackAgain(c: Core, s: seq<Core>, d: Core, t: seq<Core>)
    requires Agree(c, d) && t == s
    ensures Carries(c, s, d, t)
  {
    hide Agree;
  }

  // ----- the store -----

  class Store {
    var entries: map<nat, Entry>
    var nodes: map<nat, Node>
    var buckets: Buckets
    var shift: nat
    var usage: int
    var trail: seq<Item>
    var nextAddr: nat                 // addresses below this one may be in use
    ghost var stored: set<nat>
    ghost var snaps: seq<Core>

    ghost function St(): Core
      reads this
    {
      Core(entries, nodes, stored)
    }

    ghost predicate Valid()
      reads this
    {
      && Indexed(buckets, shift, St())
      && KeysUnique(St())
      && Restorable(St(), trail, snaps)
      && Addressed()
    }

    ghost predicate Addressed()
      reads this
    {
      (forall e :: e in entries ==> e < nextAddr) && (forall n :: n in nodes ==> n < nextAddr)
    }

    // State a, seen when the trail had length cp, can still be restored.
    ghost predicate Remembers(a: Core, cp: nat)
      reads this
    {
      Since(a, cp, St(), snaps)
    }

    constructor ()
      ensures Valid() && CoreOk(St()) && stored == {} && trail == []
    {
      entries, nodes, trail, stored, snaps := map[], map[], [], {}, [];
      shift, usage, nextAddr := INIT_SHIFT, 0, 0;
      buckets := seq(Pow2(INIT_SHIFT), _ => []);
      new;
      EmptyOk(St());
    }

    // The entry of a key.
    method Lookup(key: Key) returns (r: Option<nat>)
      requires Indexed(buckets, shift, St())
      ensures r.Some? ==> r.value in stored && r.value in entries && entries[r.value].key == key
      ensures r.None? ==> forall e :: e in stored && e in entries ==> entries[e].key != key
    {
      hide Restorable, Index;
      var chain := buckets[Index(key, shift)];
      var i := 0;
      while i < |chain|
        invariant 0 <= i <= |chain|
        invariant forall j :: 0 <= j < i ==> chain[j] in entries && entries[chain[j]].key != key
      {
        assert chain[i] in buckets[Index(key, shift)];
        if entries[chain[i]].key == key {
          return Some(chain[i]);
        }
        i := i + 1;
      }
      r := None;
      forall e | e in stored && e in entries ensures entries[e].key != key {
        assert e in buckets[Index(entries[e].key, shift)];
      }
    }

    // The head of the list stored under a key.
    method Search(key: Key) returns (r: Option<nat>)
      requires Valid()
      ensures r.Some? ==> exists e :: e in stored && e in entries && entries[e].key == key && r.value == entries[e].cons
      ensures r.None? ==> forall e :: e in stored && e in entries ==> entries[e].key != key
      ensures CoreOk(St()) ==> if r.None? then key !in Contents(St())
        else r.value in nodes && First(Contents(St()), key, nodes[r.value].cons)
    {
      hide Contents, CoreOk, Restorable, Indexed, KeysUnique;
      var e := Lookup(key);
      if CoreOk(St()) {
        TableKeys(St());
      }
      if e.Some? {
        if CoreOk(St()) {
          HeadOfContents(St(), e.value);
        }
        return Some(entries[e.value].cons);
      }
      return None;
    }

    // Save the old value of a field and change it.
    method PutCons(e: nat, v: nat)
      requires Valid() && e in entries
      modifies this`entries, this`trail, this`snaps
      ensures Valid() && St() == SetCons(old(St()), e, v)
      ensures Carries(old(St()), old(snaps), St(), snaps)
    {
      hide Restorable, Index, Agree, Carries;
      ghost var c := St();
      FieldWrites(c, e, e, v, None);
      trail := trail + [OldCons(e, entries[e].cons)];
      entries := entries[e := entries[e].(cons := v)];
      Logged(c, old(trail), snaps, St(), OldCons(e, c.entries[e].cons));
      snaps := snaps + [c];
      SameIndexed(buckets, shift, c, St());
      CarriesLogged(c, old(snaps), St());
    }

    method PutTail(e: nat, v: nat)
      requires Valid() && e in entries
      modifies this`entries, this`trail, this`snaps
      ensures Valid() && St() == SetTail(old(St()), e, v)
      ensures Carries(old(St()), old(snaps), St(), snaps)
    {
      hide Restorable, Index, Agree, Carries;
      ghost var c := St();
      FieldWrites(c, e, e, v, None);
      trail := trail + [OldTail(e, entries[e].tail)];
      entries := entries[e := entries[e].(tail := v)];
      Logged(c, old(trail), snaps, St(), OldTail(e, c.entries[e].tail));
      snaps := snaps + [c];
      SameIndexed(buckets, shift, c, St());
      CarriesLogged(c, old(snaps), St());
    }

    method PutNext(e: nat, v: Option<nat>)
      requires Valid() && e in nodes
      modifies this`nodes, this`trail, this`snaps
      ensures Valid() && St() == SetNext(old(St()), e, v)
      ensures Carries(old(St()), old(snaps), St(), snaps)
    {
      hide Restorable, Index, Agree, Carries;
      ghost var c := St();
      FieldWrites(c, e, e, 0, v);
      trail := trail + [OldNext(e, nodes[e].next)];
      nodes := nodes[e := nodes[e].(next := v)];
      Logged(c, old(trail), snaps, St(), OldNext(e, c.nodes[e].next));
      snaps := snaps + [c];
      SameIndexed(buckets, shift, c, St());
      CarriesLogged(c, old(snaps), St());
    }

    // A fresh list node; nobody refers to it yet.
    method NewNode(v: nat, next: Option<nat>) returns (n: nat)
      requires Valid()
      modifies this`nodes, this`nextAddr
      ensures Valid() && n !in old(nodes) && n !in old(entries)
      ensures St() == old(St()).(nodes := old(nodes)[n := Node(v, next)])
      ensures Carries(old(St()), old(snaps), St(), snaps)
    {
      hide Restorable, Index, Carries;
      ghost var c := St();
      n := nextAddr;
      nextAddr := nextAddr + 1;
      nodes := nodes[n := Node(v, next)];
      assert Agree(c, St());
      Extended(c, trail, snaps, St());
      SameIndexed(buckets, shift, c, St());
      CarriesExtended(c, snaps, St());
    }

    // Double the table and spread each chain over two buckets.
    method Grow()
      requires Valid()
      modifies this`buckets, this`shift, this`usage
      ensures Valid() && shift == old(shift) + 1 && buckets == Grown(old(buckets), entries, old(shift))
      ensures Carries(old(St()), old(snaps), St(), snaps)
    {
      hide Restorable, Index, Carries, Stay, KeysUnique;
      GrownIndexed(buckets, shift, St());
      ghost var old' := buckets;
      AgreeSelf(St());
      CarriesExtended(St(), snaps, St());
      var n, longer := |buckets|, shift + 1;
      var lower, upper: Buckets, count := [], [], 0;
      for i := 0 to n
        modifies {}
        invariant |lower| == |upper| == i
        invariant forall k :: 0 <= k < i ==> lower[k] == Stay(buckets[k], entries, k, longer)
        invariant forall k :: 0 <= k < i ==> upper[k] == Stay(buckets[k], entries, n + k, longer)
      {
        HomeOrAway(buckets, shift, St(), i);
        var stay, moved, visited := Spread(buckets[i], i, n + i, longer);
        lower, upper, count := lower + [stay], upper + [moved], count + visited;
      }
      buckets := lower + upper;
      shift := longer;
      assert buckets == Grown(old', entries, shift - 1);
      usage := count;
    }

    // The loop over one chain.
    method Spread(chain: seq<nat>, home: nat, away: nat, bits: nat)
      returns (stay: seq<nat>, moved: seq<nat>, count: nat)
      requires home != away
      requires forall e :: e in chain ==>
            e in entries && (Index(entries[e].key, bits) == home || Index(entries[e].key, bits) == away)
      ensures stay == Stay(chain, entries, home, bits)
      ensures moved == Stay(chain, entries, away, bits)
      ensures count == |chain|
    {
      hide Index;
      stay, moved, count := [], [], 0;
      while count < |chain|
        invariant 0 <= count <= |chain|
        invariant stay == Stay(chain[..count], entries, home, bits)
        invariant moved == Stay(chain[..count], entries, away, bits)
      {
        var e := chain[count];
        assert chain[..count + 1][..count] == chain[..count];
        if Index(entries[e].key, bits) != home {
          moved := [e] + moved;
        } else {
          stay := [e] + stay;
        }
        count := count + 1;
      }
      assert chain[..count] == chain;
    }

    // Store constraint v under a key; the change is logged.
    method Insert(key: Key, v: nat)
      requires Valid() && CoreOk(St())
      modifies this
      ensures Valid() && CoreOk(St())
      ensures forall e, s ::
            e in old(stored) && e in old(entries) && old(entries)[e].key == key && HasList(old(St()), e, s) ==>
        exists n :: n !in old(nodes) && St() == InsertFront(old(St()), e, n, v) && HasList(St(), e, [n] + s)
      ensures (forall e :: e in old(stored) && e in old(entries) ==> old(entries)[e].key != key) ==>
        exists e, n :: e !in old(entries) && n !in old(nodes) && St() == InsertNew(old(St()), e, key, n, v)
      ensures Contents(St()) == Stored(old(Contents(St())), key, v)
      ensures forall found :: Finds(old(St()), key, found) ==> Finds(St(), key, [v] + found)
      ensures forall k, found :: k != key ==> (Finds(old(St()), k, found) <==> Finds(St(), k, found))
      ensures Carries(old(St()), old(snaps), St(), snaps)
    {
      hide Restorable, Index, Carries, Indexed, CoreOk, HasList, KeysUnique, Contents, Finds, Stored;
      ghost var c := St();
      KeysIn(c);
      var found := Lookup(key);
      if found.Some? {
        var e := found.value;
        var n := NewNode(v, Some(entries[e].cons));
        ghost var d, t := St(), snaps;
        PutCons(e, n);
        CarriesTrans(c, old(snaps), d, t, St(), snaps);
        assert St() == InsertFront(c, e, n, v);
        InsertFrontOk(c, e, n, v);
        InsertFrontContents(c, e, n, v);
        forall e', s | e' in c.stored && e' in c.entries && c.entries[e'].key == key && HasList(c, e', s)
          ensures n !in c.nodes && St() == InsertFront(c, e', n, v) && HasList(St(), e', [n] + s) {
          SameKey(c, e, e');
          InsertFrontList(c, e', n, v, s);
        }
      } else {
        var n := NewNode(v, None);
        ghost var d, t := St(), snaps;
        var e := NewEntry(key, n);
        CarriesTrans(c, old(snaps), d, t, St(), snaps);
        assert St() == InsertNew(c, e, key, n, v);
        InsertNewOk(c, e, key, n, v);
        InsertNewContents(c, e, key, n, v);
        usage := usage + 1;
        if GROWTH_FACTOR * usage > |buckets| {
          d, t := St(), snaps;
          Grow();
          CarriesTrans(c, old(snaps), d, t, St(), snaps);
        }
      }
      StoredFinds(c, St(), key, v);
    }

    // A new entry in front of its chain.
    method NewEntry(key: Key, n: nat) returns (e: nat)
      requires Valid() && forall x :: x in stored && x in entries ==> entries[x].key != key
      modifies this`entries, this`buckets, this`stored, this`trail, this`snaps, this`nextAddr
      ensures Valid() && e !in old(entries) && St() == AddEntry(old(St()), e, key, n)
      ensures Carries(old(St()), old(snaps), St(), snaps)
    {
      hide Restorable, Index, Agree, Carries, Indexed;
      ghost var c := St();
      KeysIn(c);
      e := nextAddr;
      nextAddr := nextAddr + 1;
      AddEntryUndone(c, e, key, n);
      entries := entries[e := Entry(key, n, n)];
      ghost var d := St();
      SameIndexed(buckets, shift, c, d);
      LinkIndexed(buckets, shift, d, e);
      buckets := Link(buckets, Index(key, shift), e);
      stored := stored + {e};
      trail := trail + [Uninsert(e)];
      Logged(c, old(trail), snaps, St(), Uninsert(e));
      snaps := snaps + [c];
      CarriesLogged(c, old(snaps), St());
    }

    // Move the entry of one key to another key; an entry that is there
    // already gets its list appended.
    method MoveEntry(keyOld: Key, keyNew: Key)
      requires Valid() && CoreOk(St())
      modifies this
      ensures Valid() && CoreOk(St())
      ensures Moved(old(St()), keyOld, keyNew, St())
      ensures Contents(St()) == Renamed(old(Contents(St())), keyOld, keyNew)
      ensures keyOld != keyNew ==> Finds(St(), keyOld, [])
      ensures keyOld != keyNew ==>
        forall f, g :: Finds(old(St()), keyOld, f) && Finds(old(St()), keyNew, g) ==> Finds(St(), keyNew, g + f)
      ensures forall k, found :: (k != keyOld && k != keyNew) || keyOld == keyNew ==>
        (Finds(old(St()), k, found) <==> Finds(St(), k, found))
      ensures Carries(old(St()), old(snaps), St(), snaps)
    {
      hide Restorable, Index, Carries, Indexed, CoreOk, HasList, KeysUnique, Agree, Contents, Finds;
      ghost var c := St();
      KeysIn(c);
      var found := Lookup(keyOld);
      if found.None? {
        AgreeSelf(c);
        CarriesExtended(c, snaps, c);
        TableKeys(c);
        RenamedFinds(c, c, keyOld, keyNew);
        return;
      }
      var from := found.value;
      UnlinkIndexed(buckets, shift, c, from);
      BucketThere(buckets, shift, c, keyOld);
      buckets := Unlink(buckets, Index(keyOld, shift), from);
      stored := stored - {from};
      var other := Lookup(keyNew);
      if other.Some? {
        Append(c, from, other.value);
        MoveMergeContents(c, from, other.value);
      } else {
        Copy(c, from, keyNew);
        ghost var into :| into !in c.entries && St() == MoveCopy(c, from, into, keyNew);
        MoveCopyContents(c, from, into, keyNew);
      }
      RenamedFinds(c, St(), keyOld, keyNew);
    }

    // The entry at the new key takes over the list.
    method Append(ghost c: Core, from: nat, into: nat)
      requires CoreOk(c) && from in c.stored && into in c.stored && from != into && from in entries
      requires St() == c.(stored := c.stored - {from}) && Indexed(buckets, shift, St()) && Restorable(c, trail, snaps)
      requires Addressed()
      modifies this`entries, this`nodes, this`trail, this`snaps
      ensures Valid() && CoreOk(St())
      ensures c.entries[into].tail in c.nodes && St() == MoveMerge(c, from, into)
      ensures Carries(c, old(snaps), St(), snaps)
    {
      hide Restorable, Index, Carries, Indexed, CoreOk, HasList, KeysUnique, Agree;
      OkKeys(c);
      KeysIn(c);
      MoveMergeOk(c, from, into);
      MergeUndone(c, from, into);
      var last := entries[into].tail;
      ghost var d := St();
      nodes := nodes[last := nodes[last].(next := Some(entries[from].cons))];
      entries := entries[into := entries[into].(tail := entries[from].tail)];
      SameIndexed(buckets, shift, d, St());
      OkKeys(St());
      Log(c, Unmove(from, into));
    }

    // A new entry at the new key takes over the list.
    method Copy(ghost c: Core, from: nat, keyNew: Key)
      requires CoreOk(c) && from in c.stored && from in entries
      requires St() == c.(stored := c.stored - {from}) && Indexed(buckets, shift, St()) && Restorable(c, trail, snaps)
      requires Addressed() && forall e :: e in stored && e in entries ==> entries[e].key != keyNew
      modifies this`entries, this`buckets, this`stored, this`trail, this`snaps, this`nextAddr
      ensures Valid() && CoreOk(St())
      ensures exists into :: into !in c.entries && St() == MoveCopy(c, from, into, keyNew)
      ensures Carries(c, old(snaps), St(), snaps)
    {
      hide Restorable, Index, Carries, Indexed, CoreOk, HasList, KeysUnique, Agree;
      OkKeys(c);
      KeysIn(c);
      var into := nextAddr;
      nextAddr := nextAddr + 1;
      MoveCopyOk(c, from, into, keyNew);
      MoveCopyUndone(c, from, into, keyNew);
      ghost var b := St();
      entries := entries[into := entries[from].(key := keyNew)];
      ghost var d := St();
      SameIndexed(buckets, shift, b, d);
      LinkIndexed(buckets, shift, d, into);
      BucketThere(buckets, shift, d, keyNew);
      buckets := Link(buckets, Index(keyNew, shift), into);
      stored := stored + {into};
      assert St() == MoveCopy(c, from, into, keyNew);
      OkKeys(St());
      Log(c, Unmove(from, into));
    }

    // Record how to get back from the present state to c.
    method Log(ghost c: Core, item: Item)
      requires KeysUnique(c) && Restorable(c, trail, snaps)
      requires Undoable(St(), item) && Agree(c, Undo(St(), item))
      modifies this`trail, this`snaps
      ensures trail == old(trail) + [item] && snaps == old(snaps) + [c]
      ensures Restorable(St(), trail, snaps) && Carries(c, old(snaps), St(), snaps)
    {
      hide Restorable, Carries, KeysUnique, Agree;
      Logged(c, trail, snaps, St(), item);
      CarriesLogged(c, snaps, St());
      trail := trail + [item];
      snaps := snaps + [c];
    }

    // Take back the last item of the trail.
    method UndoLast()
      requires Valid() && |trail| > 0
      modifies this
      ensures Valid()
      ensures trail == old(trail)[..old(|trail|) - 1] && snaps == old(snaps)[..old(|trail|) - 1]
      ensures Agree(old(snaps)[old(|trail|) - 1], St())
    {
      hide Index, Indexed, KeysUnique, Agree;
      var n := |trail| - 1;
      var item := trail[n];
      ghost var c, a := St(), snaps[n];
      Popped(c, trail, snaps);
      UndoneKeys(a, Undo(c, item));
      trail, snaps := trail[..n], snaps[..n];
      UndoItem(item);
    }

    // Run one item of the trail.
    method UndoItem(item: Item)
      requires Indexed(buckets, shift, St()) && Undoable(St(), item)
      requires KeysUnique(Undo(St(), item))
      modifies this`entries, this`nodes, this`buckets, this`stored, this`usage
      ensures Indexed(buckets, shift, St()) && St() == Undo(old(St()), item)
      ensures entries.Keys == old(entries.Keys) && nodes.Keys == old(nodes.Keys)
    {
      hide Index, Indexed, Undo, KeysUnique;
      ghost var c := St();
      BucketThere(buckets, shift, c, if item.Uninsert? then entries[item.e].key else 0);
      match item
      case OldCons(e, v) =>
        entries := entries[e := entries[e].(cons := v)];
        FieldUndone(c, item, St());
        SameIndexed(buckets, shift, c, St());
      case OldTail(e, v) =>
        entries := entries[e := entries[e].(tail := v)];
        FieldUndone(c, item, St());
        SameIndexed(buckets, shift, c, St());
      case OldNext(m, v) =>
        nodes := nodes[m := nodes[m].(next := v)];
        FieldUndone(c, item, St());
        SameIndexed(buckets, shift, c, St());
      case Uninsert(e) =>
        usage := usage - 1;
        UnlinkIndexed(buckets, shift, c, e);
        buckets := Unlink(buckets, Index(entries[e].key, shift), e);
        stored := stored - {e};
        FieldUndone(c, item, St());
      case Unmove(from, into) =>
        UndoMove(from, into);
    }

    method UndoMove(from: nat, into: nat)
      requires Indexed(buckets, shift, St()) && Undoable(St(), Unmove(from, into))
      requires KeysUnique(Undo(St(), Unmove(from, into)))
      modifies this`entries, this`nodes, this`buckets, this`stored
      ensures Indexed(buckets, shift, St()) && St() == Undo(old(St()), Unmove(from, into))
      ensures entries.Keys == old(entries.Keys) && nodes.Keys == old(nodes.Keys)
    {
      hide Index, Indexed, KeysUnique;
      ghost var c := St();
      LinkIndexed(buckets, shift, c, from);
      BucketThere(buckets, shift, c, entries[from].key);
      buckets := Link(buckets, Index(entries[from].key, shift), from);
      stored := stored + {from};
      ghost var d := St();
      if entries[into].cons == entries[from].cons {
        BucketThere(buckets, shift, d, entries[into].key);
        UnlinkIndexed(buckets, shift, d, into);
        buckets := Unlink(buckets, Index(entries[into].key, shift), into);
        stored := stored - {into};
        assert stored == c.stored - {into} + {from};
        return;
      }
      ghost var way := WayTo(c, into, entries[from].cons);
      var prev := entries[into].cons;
      var cs := nodes[prev].next;
      ghost var i := 0;
      while cs != Some(entries[from].cons)
        modifies {}
        invariant 0 <= i < |way| && prev == way[i] && prev in nodes && cs == nodes[prev].next
        decreases |way| - i
      {
        assert nodes[way[i]].next == Some(way[i + 1]);
        prev := cs.value;
        cs := nodes[prev].next;
        i := i + 1;
      }
      WayEnds(c, into, entries[from].cons, way, i);
      nodes := nodes[prev := nodes[prev].(next := None)];
      entries := entries[into := entries[into].(tail := prev)];
      SameIndexed(buckets, shift, d, St());
    }

    // Remove the purged constraints from the list of a key, all but the head.
    method DeletePurged(key: Key, purged: set<nat>)
      requires Valid() && CoreOk(St())
      modifies this`entries, this`nodes, this`trail, this`snaps
      ensures Valid() && CoreOk(St()) && stored == old(stored)
      ensures forall e, s :: e in old(stored) && e in old(entries) && HasList(old(St()), e, s) ==>
        HasList(St(), e, if old(entries)[e].key == key then KeptAll(old(nodes), s, purged) else s)
      ensures Contents(St()) == Cleaned(old(Contents(St())), key, purged)
      ensures Carries(old(St()), old(snaps), St(), snaps)
    {
      hide Restorable, Index, Carries, Indexed, CoreOk, HasList, KeysUnique, Agree, Contents, Kept;
      ghost var c := St();
      KeysIn(c);
      AgreeSelf(c);
      CarriesExtended(c, snaps, c);
      var found := Lookup(key);
      if found.None? {
        TableKeys(c);
        return;
      }
      ghost var s := TheList(c, found.value);
      Trim(found.value, purged, s);
      forall e, t | e in c.stored && e in c.entries && HasList(c, e, t)
        ensures HasList(St(), e, if c.entries[e].key == key then KeptAll(c.nodes, t, purged) else t) {
        if c.entries[e].key == key {
          SameKey(c, e, found.value);
          OneList(c, e, s, t);
        }
      }
      forall e, t | e in c.stored && e in c.entries && HasList(c, e, t)
        ensures (forall y :: y in t ==> y in c.nodes) && |t| > 0 {
        NodesOfList(c, e, t);
        InChain(c, e, t);
      }
      CleanedContents(c, St(), key, purged);
    }

    method Trim(e: nat, purged: set<nat>, ghost s: seq<nat>)
      requires Valid() && CoreOk(St()) && e in stored && e in entries && HasList(St(), e, s)
      modifies this`entries, this`nodes, this`trail, this`snaps
      ensures Valid() && CoreOk(St()) && stored == old(stored)
      ensures HasList(St(), e, KeptAll(old(nodes), s, purged))
      ensures KeysAndCons(old(St()), St())
      ensures forall e', t :: e' in stored && e' != e && HasList(old(St()), e', t) ==> HasList(St(), e', t)
      ensures Carries(old(St()), old(snaps), St(), snaps)
    {
      hide Restorable, Index, Carries, Indexed, CoreOk, HasList, KeysUnique, Agree, Trimming, Chain;
      ghost var c, t := St(), snaps;
      AgreeSelf(c);
      CarriesExtended(c, t, c);
      TrimStart(c, e, s, purged);
      ListHead(c, e, s);
      TrimNext(c, c, e, s, 0, 1, purged, 0);
      var prev := entries[e].cons;
      var cs := nodes[prev].next;
      ghost var p, q: nat := 0, 1;
      while true
        invariant Valid() && Carries(c, t, St(), snaps) && entries == c.entries
        invariant Trimming(c, St(), e, s, p, q, purged) && q == p + 1 <= |s|
        invariant prev == s[p] && cs == At(s, q)
        decreases |s| - q
      {
        NodeThere(c, St(), e, s, p, q, purged);
        while cs.Some? && nodes[cs.value].cons in purged
          modifies {}
          invariant p < q <= |s| && (q < |s| ==> s[q] in nodes) && Trimming(c, St(), e, s, p, q, purged)
          invariant cs == At(s, q)
          decreases |s| - q
        {
          TrimNext(c, St(), e, s, p, q, purged, q);
          TrimSkip(c, St(), e, s, p, q, purged);
          q := q + 1;
          cs := nodes[cs.value].next;
          NodeThere(c, St(), e, s, p, q, purged);
        }
        TrimNext(c, St(), e, s, p, q, purged, p);
        if cs.None? {
          Finish(c, t, e, s, p, prev, purged);
          return;
        }
        TrimLink(c, St(), e, s, p, q, purged);
        if nodes[prev].next != cs {
          ghost var d, u := St(), snaps;
          PutNext(prev, cs);
          CarriesTrans(c, t, d, u, St(), snaps);
        } else {
          SetSame(St(), prev, cs);
        }
        prev := cs.value;
        p, q := q, q + 1;
        TrimNext(c, St(), e, s, p, q, purged, p);
        cs := nodes[prev].next;
      }
    }

    // Cut the list after its last kept node.
    method Finish(ghost c: Core, ghost t: seq<Core>, e: nat, ghost s: seq<nat>, ghost p: nat, prev: nat,
                  purged: set<nat>)
      requires Valid() && CoreOk(c) && Carries(c, t, St(), snaps) && e in c.stored && e in entries && prev in nodes
      requires Trimming(c, St(), e, s, p, |s|, purged) && p < |s| && prev == s[p]
      modifies this`entries, this`nodes, this`trail, this`snaps
      ensures Valid() && CoreOk(St()) && stored == old(stored)
      ensures HasList(St(), e, KeptAll(c.nodes, s, purged))
      ensures KeysAndCons(c, St())
      ensures forall e', l :: e' in c.stored && e' != e && HasList(c, e', l) ==> HasList(St(), e', l)
      ensures Carries(c, t, St(), snaps)
    {
      hide Restorable, Index, Carries, Indexed, CoreOk, HasList, KeysUnique, Agree, Chain, Kept;
      ghost var d, u := St(), snaps;
      TrimOk(c, d, e, s, p, purged);
      TrimEnd(c, d, e, s, p, purged);
      if entries[e].tail != prev {
        PutTail(e, prev);
        CarriesTrans(c, t, d, u, St(), snaps);
      } else {
        SetSameTail(d, e);
      }
      ghost var d', u' := St(), snaps;
      if nodes[prev].next != None {
        PutNext(prev, None);
        CarriesTrans(c, t, d', u', St(), snaps);
      } else {
        SetSame(d', prev, None);
      }
    }

    // Take back everything since a choicepoint.
    method Backtrack(cp: nat)
      requires Valid() && cp <= |trail|
      modifies this
      ensures Valid() && trail == old(trail)[..cp] && snaps == old(snaps)[..cp]
      ensures forall a :: Since(a, cp, old(St()), old(snaps)) ==> Agree(a, St())
      ensures forall a :: Since(a, cp, old(St()), old(snaps)) && CoreOk(a) ==>
        CoreOk(St()) && forall key, found :: Finds(a, key, found) <==> Finds(St(), key, found)
    {
      hide Index, Indexed, KeysUnique, Agree, Restorable, CoreOk, Finds, Undo;
      ghost var c, s := St(), snaps;
      AgreeSelf(c);
      SnapsFit();
      while |trail| > cp
        invariant Valid() && cp <= |trail| <= |s| && trail == old(trail)[..|trail|] && snaps == s[..|trail|]
        invariant Agree(Top(c, s, |trail|), St())
        decreases |trail|
      {
        UndoLast();
      }
      forall a | Since(a, cp, c, s) ensures Agree(a, St()) {
        AgreeTrans(a, Top(c, s, cp), St());
      }
      forall a | Since(a, cp, c, s) && CoreOk(a)
        ensures CoreOk(St()) && forall key, found :: Finds(a, key, found) <==> Finds(St(), key, found) {
        AgreeOk(a, St());
        forall key, found ensures Finds(a, key, found) <==> Finds(St(), key, found) {
          AgreeFinds(a, St(), key, found);
        }
      }
    }

    // Any operations in sequence, with subordinate attempts among them.  What
    // could be restored before can be restored afterwards.
    method Perform(ops: seq<Op>)
      requires Valid() && CoreOk(St())
      modifies this
      ensures Valid() && CoreOk(St())
      ensures Carries(old(St()), old(snaps), St(), snaps)
      ensures Contents(St()) == AfterAll(old(Contents(St())), ops)
      ensures forall a, cp :: old(Remembers(a, cp)) ==> Remembers(a, cp)
      decreases ops, 0
    {
      hide Indexed, KeysUnique, Agree, Restorable, CoreOk, Carries, Since, Contents, Stored, Renamed, Cleaned;
      ghost var c, t := St(), snaps;
      ghost var table := Contents(c);
      Unchanged(c, t);
      for i := 0 to |ops|
        invariant Valid() && CoreOk(St()) && Carries(c, t, St(), snaps)
        invariant Contents(St()) == AfterAll(table, ops[..i])
      {
        ghost var d, u := St(), snaps;
        assert ops[..i + 1][..i] == ops[..i];
        match ops[i] {
          case Put(key, v) => Insert(key, v);
          case Move(keyOld, keyNew) => MoveEntry(keyOld, keyNew);
          case Purge(key, purged) => DeletePurged(key, purged);
          case Expand => Grow();
          case Attempt(inner) => Try(inner);
        }
        CarriesTrans(c, t, d, u, St(), snaps);
      }
      assert ops[..|ops|] == ops;
      forall a, cp | Since(a, cp, c, t) ensures Since(a, cp, St(), snaps) {
        CarriesSince(a, cp, c, t, St(), snaps);
      }
    }

    // A choicepoint, any operations, and backtracking: every search finds what
    // it found at the choicepoint.
    method Try(ops: seq<Op>)
      requires Valid() && CoreOk(St())
      modifies this
      ensures Valid() && CoreOk(St()) && |trail| == old(|trail|) && snaps == old(snaps)
      ensures forall key, found :: Finds(old(St()), key, found) <==> Finds(St(), key, found)
      ensures Contents(St()) == old(Contents(St()))
      ensures Carries(old(St()), old(snaps), St(), snaps)
      decreases ops, 1
    {
      hide Indexed, KeysUnique, Agree, Restorable, CoreOk, Since, Finds, Carries, Contents;
      var cp := |trail|;
      ghost var c := St();
      SnapsFit();
      Unchanged(c, snaps);
      assert Remembers(c, cp) by { CarriedSince(c, snaps, St(), snaps); }
      Perform(ops);
      CarriedPrefix(c, old(snaps), St(), snaps);
      SnapsFit();
      Backtrack(cp);
      BackAgain(c, old(snaps), St(), snaps);
      AgreeContents(c, St());
    }

    lemma SnapsFit()
      requires Valid()
      ensures |snaps| == |trail|
    {
    }
  }

  // The purged constraints are gone, but for the head.
  ghost function KeptAll(nodes: map<nat, Node>, s: seq<nat>, purged: set<nat>): seq<nat> {
    if |s| > 0 && forall x :: x in s ==> x in nodes then Kept(nodes, s, |s|, purged) else s
  }

  lemma TheList(c: Core, e: nat) returns (s: seq<nat>)
    requires CoreOk(c) && e in c.stored
    ensures HasList(c, e, s)
  {
    hide HasList;
    var lists :| ListedBy(c, lists);
    s := lists[e];
  }

  lemma SetSameTail(d: Core, e: nat)
    requires e in d.entries
    ensures SetTail(d, e, d.entries[e].tail) == d
  {
    assert d.entries[e := d.entries[e]] == d.entries;
  }

  // The next node to look at exists.
  lemma NodeThere(c: Core, d: Core, e: nat, s: seq<nat>, p: nat, q: nat, purged: set<nat>)
    requires Trimming(c, d, e, s, p, q, purged)
    ensures q < |s| ==> s[q] in d.nodes
  {
  }

  lemma SetSame(d: Core, n: nat, link: Option<nat>)
    requires n in d.nodes && d.nodes[n].next == link
    ensures SetNext(d, n, link) == d
  {
    assert d.nodes[n := d.nodes[n].(next := link)] == d.nodes;
  }

  // What moving an entry does to the store.
  ghost predicate Moved(c: Core, keyOld: Key, keyNew: Key, d: Core) {
    if exists from :: from in c.stored && from in c.entries && c.entries[from].key == keyOld then
      exists from, into :: from in c.stored && from in c.entries && c.entries[from].key == keyOld && from != into
        && if into in c.stored then
             && into in c.entries && c.entries[into].key == keyNew && c.entries[into].tail in c.nodes
             && d == MoveMerge(c, from, into)
           else
             && into !in c.entries
             && (forall x :: x in c.stored && x in c.entries && x != from ==> c.entries[x].key != keyNew)
             && d == MoveCopy(c, from, into, keyNew)
    else d == c
  }

  lemma MergeUndone(c: Core, from: nat, into: nat)
    requires CoreOk(c) && from in c.stored && into in c.stored && from != into
    ensures c.entries[into].tail in c.nodes
    ensures Undoable(MoveMerge(c, from, into), Unmove(from, into))
    ensures Agree(c, Undo(MoveMerge(c, from, into), Unmove(from, into)))
  {
    hide HasList;
    var lists :| ListedBy(c, lists);
    LastInList(c, into, lists[into]);
    MoveMergeUndone(c, from, into, lists[into], lists[from]);
  }

  lemma FieldUndone(c: Core, item: Item, d: Core)
    requires Undoable(c, item)
    requires match item
      case OldCons(e, v) => d == SetCons(c, e, v)
      case OldTail(e, v) => d == SetTail(c, e, v)
      case OldNext(n, v) => d == SetNext(c, n, v)
      case Uninsert(e) => d == c.(stored := c.stored - {e})
      case Unmove(_, _) => false
    ensures d == Undo(c, item)
  {
  }

  lemma WayEnds(c: Core, e: nat, to: nat, way: seq<nat>, i: nat)
    requires LeadsTo(c, e, to, way) && i < |way| && c.nodes[way[i]].next == Some(to)
    ensures i == |way| - 1
  {
    OneWay(c, e, to, way, way[..i + 1]);
  }

  lemma BucketThere(buckets: Buckets, shift: nat, c: Core, key: Key)
    requires Indexed(buckets, shift, c)
    ensures Index(key, shift) < |buckets|
    ensures forall e :: e in c.stored ==> e in c.entries
  {
  }

  lemma OkKeys(c: Core)
    requires CoreOk(c)
    ensures KeysUnique(c)
  {
  }

  lemma UndoneKeys(a: Core, c: Core)
    requires KeysUnique(a) && Agree(a, c)
    ensures KeysUnique(c)
  {
  }

  // What is left of the trail after its last item is taken back.
  lemma Popped(c: Core, trail: seq<Item>, snaps: seq<Core>)
    requires Restorable(c, trail, snaps) && |trail| > 0
    ensures |snaps| == |trail|
    ensures var n := |trail| - 1;
      && Undoable(c, trail[n]) && Agree(snaps[n], Undo(c, trail[n])) && KeysUnique(snaps[n])
      && Restorable(Undo(c, trail[n]), trail[..n], snaps[..n])
  {
    hide Undoable, Undo, Agree, KeysUnique;
    var n := |trail| - 1;
    assert Top(c, snaps, n + 1) == c;
    var s, t := snaps[..n], trail[..n];
    forall i | 0 <= i < n
      ensures Undoable(Top(snaps[n], s, i + 1), t[i]) && Agree(s[i], Undo(Top(snaps[n], s, i + 1), t[i]))
    {
      assert Top(snaps[n], s, i + 1) == Top(c, snaps, i + 1);
    }
    assert Restorable(snaps[n], t, s);
    Extended(snaps[n], t, s, Undo(c, trail[n]));
  }

  lemma KeysIn(c: Core)
    requires KeysUnique(c)
    ensures forall e :: e in c.stored ==> e in c.entries
  {
  }

  lemma SameKey(c: Core, e: nat, e': nat)
    requires KeysUnique(c) && e in c.stored && e' in c.stored && c.entries[e].key == c.entries[e'].key
    ensures e == e'
  {
  }

  // The entries of bucket i stay there or move by the old length.
  lemma HomeOrAway(buckets: Buckets, shift: nat, c: Core, i: nat)
    requires Indexed(buckets, shift, c) && i < |buckets|
    ensures forall e :: e in buckets[i] ==>
      e in c.entries && (Index(c.entries[e].key, shift + 1) == i || Index(c.entries[e].key, shift + 1) == |buckets| + i)
  {
    hide Index;
    forall e | e in buckets[i] ensures e in c.entries &&
      (Index(c.entries[e].key, shift + 1) == i || Index(c.entries[e].key, shift + 1) == |buckets| + i) {
      OneMoreBit(c.entries[e].key, shift);
    }
  }

  lemma EmptyOk(c: Core)
    requires c.stored == {}
    ensures CoreOk(c)
  {
    assert ListedBy(c, map[]);
  }

  // Writing a field back undoes the write.
  lemma FieldWrites(c: Core, e: nat, n: nat, v: nat, w: Option<nat>)
    ensures e in c.entries ==> Agree(c, Undo(SetCons(c, e, v), OldCons(e, c.entries[e].cons)))
    ensures e in c.entries ==> Agree(c, Undo(SetTail(c, e, v), OldTail(e, c.entries[e].tail)))
    ensures n in c.nodes ==> Agree(c, Undo(SetNext(c, n, w), OldNext(n, c.nodes[n].next)))
  {
  }
}
