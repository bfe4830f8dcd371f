// Allocation from one region (gc.c): the free list, lazy sweeping of the
// marked part, and fresh space; and the sweep that starts a new round.
module GcAlloc {
  import opened Wrappers
  import opened GcBits
  import opened GcMasks

  const FREELIST_LEN := 256

  // Objects are named by their index in the region.
  class Allocator {
    const capacity: nat        // the first index past the region's end
    var bits: Bits             // mark bits
    var freelist: seq<nat>     // next to hand out first
    var sweepAt: nat           // the part still to be swept
    var sweepEnd: nat
    var top: nat               // the first index never handed out

    ghost predicate Valid()
      reads this
    {
      && sweepEnd <= top
      && (forall i :: 0 <= i < |freelist| ==> freelist[i] < top)
      && (forall i, j :: 0 <= i < j < |freelist| ==> freelist[i] != freelist[j])
      && forall i :: 0 <= i < |freelist| && sweepAt <= freelist[i] < sweepEnd ==> Bit(bits, freelist[i])
    }

    // What may still be handed out: the free list, the unmarked objects of
    // the part not swept yet, and the fresh space.
    ghost function Available(): set<nat>
      reads this
    {
      Listed(freelist) + Unswept(bits, sweepAt, sweepEnd) + Span(top, capacity)
    }

    // Everything that can be handed out lies in the region.
    ghost predicate InRegion()
      reads this
    {
      sweepEnd <= capacity && forall i :: 0 <= i < |freelist| ==> freelist[i] < capacity
    }

    constructor (capacity: nat)
      ensures InRegion() && top == 0 && bits == []
      ensures Valid() && this.capacity == capacity && Available() == Span(0, capacity)
    {
      this.capacity := capacity;
      bits, freelist, sweepAt, sweepEnd, top := [], [], 0, 0, 0;
    }

    // Hand out an available object; there is none to hand out only when
    // nothing is available.
    method Malloc() returns (r: Option<nat>)
      requires Valid()
      modifies this`freelist, this`sweepAt, this`top
      ensures Valid()
      ensures r.None? <==> old(Available()) == {}
      ensures r.Some? ==> r.value in old(Available()) && Available() == old(Available()) - {r.value}
      ensures r.None? ==> Available() == {} && top == old(top) + 1
      ensures r.Some? ==> r.value < top && (top == old(top) || (top == old(top) + 1 && r.value == old(top) < capacity))
      ensures old(InRegion()) ==> InRegion() && (r.Some? ==> r.value < capacity)
    {
      hide Bit;
      if freelist == [] && sweepAt < sweepEnd {
        SweepSome();
      }
      if freelist != [] {
        r := Pop();
        return;
      }
      ghost var before := Available();
      assert before == Span(top, capacity);
      var i := top;
      top := top + 1;
      if i >= capacity {
        return None;
      }
      assert Span(i, capacity) == {i} + Span(i + 1, capacity);
      r := Some(i);
    }

    method Pop() returns (r: Option<nat>)
      requires Valid() && freelist != []
      modifies this`freelist
      ensures Valid() && r.Some? && r.value in old(Available()) && r.value < top
      ensures Available() == old(Available()) - {r.value}
      ensures old(InRegion()) ==> InRegion() && r.value < capacity
    {
      hide Bit;
      var i := freelist[0];
      ghost var rest := freelist[1..];
      ListSplits(freelist);
      assert sweepAt <= i < sweepEnd ==> Bit(bits, i);
      assert i !in Span(top, capacity);
      freelist := freelist[1..];
      r := Some(i);
    }

    // Sweep until enough free objects are found or the marked part ends.
    method SweepSome()
      requires Valid() && freelist == [] && sweepAt < sweepEnd
      modifies this`freelist, this`sweepAt
      ensures Valid() && Available() == old(Available())
      ensures freelist == [] ==> sweepAt == sweepEnd
      ensures old(InRegion()) ==> InRegion()
    {
      hide Bit;
      ghost var from := sweepAt;
      assert Available() == Unswept(bits, sweepAt, sweepEnd) + Span(top, capacity);
      var i, at, list: seq<nat> := 0, sweepAt, [];
      while i < FREELIST_LEN && at < sweepEnd
        invariant sweepAt <= at <= sweepEnd && i == |list|
        invariant forall j :: 0 <= j < |list| ==> sweepAt <= list[j] < at
        invariant forall j, k :: 0 <= j < k < |list| ==> list[j] != list[k]
        invariant Listed(list) + Unswept(bits, at, sweepEnd) == Unswept(bits, from, sweepEnd)
      {
        SweepOne(bits, at, sweepEnd);
        if !Bit(bits, at) {
          ListGrows(list, at);
          list := [at] + list;
          i := i + 1;
        }
        at := at + 1;
      }
      if at == sweepEnd {
        assert Unswept(bits, at, sweepEnd) == {};
      }
      assert Listed(list) + Unswept(bits, at, sweepEnd) == Unswept(bits, from, sweepEnd);
      sweepAt, freelist := at, list;
      assert Listed(freelist) + Unswept(bits, sweepAt, sweepEnd) == Unswept(bits, from, sweepEnd);
      assert Available() == Unswept(bits, from, sweepEnd) + Span(top, capacity);
    }

    // Give an object back.
    method Free(i: nat)
      requires Valid() && i < top && i !in Available()
      modifies this`freelist
      ensures Valid() && Available() == old(Available()) + {i}
      ensures old(InRegion()) && i < capacity ==> InRegion()
    {
      hide Bit;
      ListGrows(freelist, i);
      assert forall j :: 0 <= j < |freelist| ==> freelist[j] in freelist;
      assert i !in Unswept(bits, sweepAt, sweepEnd);
      freelist := [i] + freelist;
    }

    // Start a new round: fresh space begins after the last marked object, or
    // half way down when the upper half is free.
    method Sweep()
      requires Valid() && forall i: nat :: Bit(bits, i) ==> i < top
      modifies this`freelist, this`sweepAt, this`sweepEnd, this`top
      ensures Valid() && top <= old(top) && forall i: nat :: Bit(bits, i) ==> i < top
      ensures Available() == set i | 0 <= i < (if top < capacity then capacity else top) && !Bit(bits, i)
      ensures (forall i: nat :: Bit(bits, i) ==> i < capacity) ==> (InRegion() <==> old(top) <= 2 * capacity + 2)
    {
      hide Bit;
      if top == 0 {
        NothingSwept();
        return;
      }
      var idx: int := top - 1;
      var target := idx / 2;
      while !(idx < target || Bit(bits, idx))
        invariant -1 <= idx < top && target - 1 <= idx
        invariant forall j :: idx < j < top ==> !Bit(bits, j)
        decreases idx
      {
        idx := idx - 1;
      }
      top := idx + 1;
      sweepAt, sweepEnd, freelist := 0, top, [];
    }

    lemma NothingSwept()
      requires Valid() && top == 0 && forall i: nat :: Bit(bits, i) ==> i < top
      ensures Available() == set i | 0 <= i < capacity && !Bit(bits, i)
    {
      hide Bit;
      forall i | i in freelist ensures i < top {
      }
    }
  }

  // Each failing request moves the first fresh index on.  After enough of
  // them a sweep takes it that there are objects past the region's end.
  method PastTheEnd() returns (a: Allocator)
    ensures a.Valid() && a.capacity == 1 && 1 in a.Available()
  {
    hide Bit;
    a := new Allocator(1);
    var r := a.Malloc();
    r := a.Malloc();
    r := a.Malloc();
    r := a.Malloc();
    r := a.Malloc();
    assert forall i: nat :: !Bit(a.bits, i) by { NoBitsAtAll(); }
    a.Sweep();
  }

  lemma NoBitsAtAll()
    ensures forall i: nat :: !Bit([], i)
  {
  }

  function Listed(list: seq<nat>): set<nat> {
    set i | i in list
  }

  predicate Within(lo: nat, i: nat, hi: nat) {
    lo <= i < hi
  }

  function Span(lo: nat, hi: nat): set<nat> {
    set i: nat | lo <= i < hi && Within(lo, i, hi)
  }

  ghost function Unswept(bits: Bits, lo: nat, hi: nat): set<nat> {
    set i: nat | lo <= i < hi && !Bit(bits, i)
  }

  lemma SweepOne(bits: Bits, lo: nat, hi: nat)
    requires lo < hi
    ensures Unswept(bits, lo, hi) == Unswept(bits, lo + 1, hi) + if Bit(bits, lo) then {} else {lo}
  {
    hide Bit;
  }

  lemma ListGrows(list: seq<nat>, i: nat)
    ensures Listed([i] + list) == Listed(list) + {i}
  {
  }

  lemma ListSplits(list: seq<nat>)
    requires list != [] && forall i, j :: 0 <= i < j < |list| ==> list[i] != list[j]
    ensures Listed(list) == Listed(list[1..]) + {list[0]}
    ensures list[0] !in list[1..]
  {
    assert list == [list[0]] + list[1..];
  }

  // ----- runs of the allocator -----

  datatype Event = Handed(i: nat) | Freed(i: nat)

  // From what was available at first, the events can happen in this order.
  ghost predicate Run(available: set<nat>, events: seq<Event>)
    decreases |events|
  {
    events == [] ||
    match events[0]
    case Handed(i) => i in available && Run(available - {i}, events[1..])
    case Freed(i) => i !in available && Run(available + {i}, events[1..])
  }

  // An object that is not available, say because it is marked, is handed out
  // only after it was freed.
  lemma {:induction false} NotHandedOut(available: set<nat>, events: seq<Event>, n: nat, o: nat)
    requires Run(available, events) && o !in available && n < |events| && events[n] == Handed(o)
    ensures exists m :: 0 <= m < n && events[m] == Freed(o)
    decreases |events|
  {
    var rest := events[1..];
    assert forall m :: 0 <= m < |rest| ==> rest[m] == events[m + 1];
    if events[0] != Freed(o) {
      var next := if events[0].Handed? then available - {events[0].i} else available + {events[0].i};
      NotHandedOut(next, rest, n - 1, o);
      var m :| 0 <= m < n - 1 && rest[m] == Freed(o);
      assert events[m + 1] == Freed(o);
    }
  }

  // An object handed out twice was freed in between.
  lemma HandedOutOnce(available: set<nat>, events: seq<Event>, n: nat, n': nat, o: nat)
    requires Run(available, events) && n < n' < |events| && events[n] == Handed(o) && events[n'] == Handed(o)
    ensures exists m :: n < m < n' && events[m] == Freed(o)
    decreases |events|
  {
    var rest := events[1..];
    assert forall m :: 0 <= m < |rest| ==> rest[m] == events[m + 1];
    if n == 0 {
      NotHandedOut(available - {o}, rest, n' - 1, o);
      var m :| 0 <= m < n' - 1 && rest[m] == Freed(o);
      assert events[m + 1] == Freed(o);
    } else {
      var next := if events[0].Handed? then available - {events[0].i} else available + {events[0].i};
      HandedOutOnce(next, rest, n - 1, n' - 1, o);
      var m :| n - 1 < m < n' - 1 && rest[m] == Freed(o);
      assert events[m + 1] == Freed(o);
    }
  }
}
