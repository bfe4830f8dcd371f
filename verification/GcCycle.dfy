// Collection and allocation together (gc.c): the requests of a program are
// served, and a collection never makes a reachable object available.
module GcCycle {
  import opened Wrappers
  import opened GcBits
  import opened GcMark
  import opened GcAlloc

  // A program asks for an object, or gives back one of those it holds.
  datatype Request = Want | GiveBack(k: nat)

  // What a program may hold: objects that were handed out and are not
  // available, each once.
  ghost predicate Held(available: set<nat>, top: nat, held: seq<nat>) {
    && (forall i :: 0 <= i < |held| ==> held[i] < top && held[i] !in available)
    && forall i, j :: 0 <= i < j < |held| ==> held[i] != held[j]
  }

  lemma OneMoreHeld(available: set<nat>, top: nat, held: seq<nat>, i: nat, top': nat)
    requires Held(available, top, held) && i in available && i < top' && top <= top'
    ensures Held(available - {i}, top', held + [i])
  {
  }

  lemma StillHeld(available: set<nat>, top: nat, held: seq<nat>, top': nat)
    requires Held(available, top, held) && top <= top'
    ensures Held(available, top', held)
  {
  }

  lemma OneLessHeld(available: set<nat>, top: nat, held: seq<nat>, k: nat)
    requires Held(available, top, held) && k < |held|
    ensures held[k] < top && held[k] !in available
    ensures Held(available + {held[k]}, top, held[..k] + held[k + 1..])
    ensures forall i :: i in held[..k] + held[k + 1..] ==> i in held
  {
  }

  // What the program holds, and what has happened.
  datatype Course = Course(held: seq<nat>, events: seq<Event>)

  // The course of the requests, each with its answer: the object that was
  // asked for, if there is one.  A request for something that is not held is
  // void.
  function CourseOf(held0: seq<nat>, requests: seq<Request>, answers: seq<Option<nat>>): Course
    requires |answers| == |requests|
  {
    if requests == [] then Course(held0, [])
    else
      var n := |requests| - 1;
      var c := CourseOf(held0, requests[..n], answers[..n]);
      match requests[n]
      case Want =>
        if answers[n].Some? then Course(c.held + [answers[n].value], c.events + [Handed(answers[n].value)]) else c
      case GiveBack(k) =>
        if k < |c.held| then Course(c.held[..k] + c.held[k + 1..], c.events + [Freed(c.held[k])]) else c
  }

  // The program is refused an object exactly when none is available.
  ghost predicate Answered(available: set<nat>, held0: seq<nat>, requests: seq<Request>, answers: seq<Option<nat>>)
    requires |answers| == |requests|
  {
    forall n :: 0 <= n < |requests| && requests[n].Want? ==>
      (answers[n].None? <==> After(available, CourseOf(held0, requests[..n], answers[..n]).events) == {})
  }

  lemma AnsweredMore(available: set<nat>, held0: seq<nat>, requests: seq<Request>, n: nat, answers: seq<Option<nat>>,
                     r: Option<nat>)
    requires n < |requests| && |answers| == n && Answered(available, held0, requests[..n], answers)
    requires requests[n].Want? ==> (r.None? <==> After(available, CourseOf(held0, requests[..n], answers).events) == {})
    ensures Answered(available, held0, requests[..n + 1], answers + [r])
    ensures requests[..n + 1][..n] == requests[..n] && (answers + [r])[..n] == answers
  {
    hide After;
    var some, all := requests[..n + 1], answers + [r];
    assert all[..n] == answers;
    forall m | 0 <= m < n + 1 && some[m].Want?
      ensures all[m].None? <==> After(available, CourseOf(held0, some[..m], all[..m]).events) == {}
    {
      assert some[..m] == requests[..n][..m] && all[..m] == answers[..m];
      if m < n {
        assert requests[..n][m] == some[m] && all[m] == answers[m];
      } else {
        assert answers[..n] == answers && some[..m] == requests[..n];
      }
    }
  }

  // Serving requests one by one is a run of the allocator; objects in the
  // region stay in the region.
  method Serve(a: Allocator, requests: seq<Request>, held0: seq<nat>)
      returns (answers: seq<Option<nat>>, held: seq<nat>, ghost events: seq<Event>)
    requires a.Valid() && Held(a.Available(), a.top, held0)
    modifies a
    ensures a.Valid() && Held(a.Available(), a.top, held) && Run(old(a.Available()), events)
    ensures After(old(a.Available()), events) == a.Available()
    ensures |answers| == |requests| && CourseOf(held0, requests, answers) == Course(held, events)
    ensures Answered(old(a.Available()), held0, requests, answers)
    ensures old(a.InRegion()) && (forall i :: i in held0 ==> i < a.capacity) ==>
      a.InRegion() && forall e :: e in events && e.Handed? ==> e.i < a.capacity
  {
    hide GcAlloc.Allocator.Valid, GcAlloc.Allocator.Available, GcAlloc.Allocator.InRegion, Bit, Run, After, Held;
    answers, held, events := [], held0, [];
    ghost var inside := a.InRegion() && forall i :: i in held0 ==> i < a.capacity;
    NoEvents(a.Available());
    for n := 0 to |requests|
      invariant a.Valid() && Held(a.Available(), a.top, held) && Run(old(a.Available()), events)
      invariant After(old(a.Available()), events) == a.Available()
      invariant |answers| == n && CourseOf(held0, requests[..n], answers) == Course(held, events)
      invariant Answered(old(a.Available()), held0, requests[..n], answers)
      invariant inside ==> a.InRegion() && (forall i :: i in held ==> i < a.capacity)
      invariant inside ==> forall e :: e in events && e.Handed? ==> e.i < a.capacity
    {
      ghost var before, top := a.Available(), a.top;
      match requests[n] {
        case Want =>
          var r := a.Malloc();
          AnsweredMore(old(a.Available()), held0, requests, n, answers, r);
          answers := answers + [r];
          if r.Some? {
            RunMore(old(a.Available()), events, Handed(r.value));
            OneMoreHeld(before, top, held, r.value, a.top);
            ghost var was := held;
            held, events := held + [r.value], events + [Handed(r.value)];
            assert forall j :: j in held ==> j in was || j == r.value;
          } else {
            StillHeld(before, top, held, a.top);
          }
        case GiveBack(k) =>
          AnsweredMore(old(a.Available()), held0, requests, n, answers, None);
          answers := answers + [None];
          if k < |held| {
            var i := held[k];
            assert i in held;
            OneLessHeld(before, top, held, k);
            RunMore(old(a.Available()), events, Freed(i));
            a.Free(i);
            ghost var was := held;
            held, events := held[..k] + held[k + 1..], events + [Freed(i)];
            assert forall j :: j in held ==> j in was;
          }
      }
    }
    assert requests[..|requests|] == requests;
  }

  // What is available after the events.
  ghost function After(available: set<nat>, events: seq<Event>): set<nat>
    decreases |events|
  {
    if events == [] then available
    else After(if events[0].Handed? then available - {events[0].i} else available + {events[0].i}, events[1..])
  }

  lemma NoEvents(available: set<nat>)
    ensures Run(available, []) && After(available, []) == available
  {
  }

  lemma {:induction false} RunMore(available: set<nat>, events: seq<Event>, e: Event)
    requires Run(available, events)
    requires if e.Handed? then e.i in After(available, events) else e.i !in After(available, events)
    ensures Run(available, events + [e])
    ensures After(available, events + [e]) ==
      if e.Handed? then After(available, events) - {e.i} else After(available, events) + {e.i}
    decreases |events|
  {
    var all := events + [e];
    if events != [] {
      assert all[1..] == events[1..] + [e];
      RunMore(if events[0].Handed? then available - {events[0].i} else available + {events[0].i}, events[1..], e);
    } else {
      assert all[1..] == [];
    }
  }

  // The objects of region r are those of the allocator.
  ghost predicate SameRegion(l: Layout, r: nat, a: Allocator)
    requires LayoutOk(l)
    reads a
  {
    r < |l.regions| && RegionOk(l.regions[r]) && Count(l.regions[r]) == a.top
  }

  // A collection: what is available in a region afterwards is not reachable.
  method Collect(l: Layout, mem: Memory, roots: seq<Frame>, r: nat, a: Allocator)
    requires LayoutOk(l) && a.Valid() && SameRegion(l, r, a)
    modifies a
    ensures a.Valid() && a.top <= old(a.top)
    ensures forall i: nat :: i < old(a.top) && Reachable(l, mem, roots, Obj(r, i)) ==> i !in a.Available() && i < a.top
    ensures forall i: nat :: i < a.capacity && i !in a.Available() ==>
          i < old(a.top) && Reachable(l, mem, roots, Obj(r, i))
  {
    hide LayoutOk, Reachable, Marked, MarksFit, Bit;
    var marker := new Marker(l, mem);
    marker.Mark(roots);
    var bits := MarksOf(marker.marks, r);
    forall i: nat ensures Bit(bits, i) <==> i < a.top && Reachable(l, mem, roots, Obj(r, i)) {
      RegionBits(l, marker.marks, r, i);
    }
    a.bits := bits;
    a.freelist, a.sweepAt, a.sweepEnd := [], 0, 0;
    a.Sweep();
  }

  function MarksOf(m: Marks, r: nat): Bits {
    if r < |m| then m[r] else []
  }

  lemma RegionBits(l: Layout, m: Marks, r: nat, i: nat)
    requires LayoutOk(l) && r < |l.regions| && MarksFit(l, m)
    ensures Bit(MarksOf(m, r), i) <==> Marked(m, Obj(r, i))
    ensures RegionOk(l.regions[r]) && (IsObj(l, Obj(r, i)) <==> i < Count(l.regions[r]))
  {
    hide Bit;
  }

  // After a collection no reachable object is handed out before it was freed.
  method CollectAndServe(l: Layout, mem: Memory, roots: seq<Frame>, r: nat, a: Allocator, requests: seq<Request>,
                         held0: seq<nat>)
      returns (answers: seq<Option<nat>>, held: seq<nat>, ghost events: seq<Event>)
    requires LayoutOk(l) && a.Valid() && SameRegion(l, r, a)
    requires forall i :: 0 <= i < |held0| ==> held0[i] < a.top && Reachable(l, mem, roots, Obj(r, held0[i]))
    requires forall i, j :: 0 <= i < j < |held0| ==> held0[i] != held0[j]
    modifies a
    ensures a.Valid()
    ensures |answers| == |requests| && CourseOf(held0, requests, answers) == Course(held, events)
    ensures forall n, i: nat ::
          0 <= n < |events| && events[n] == Handed(i) && i < old(a.top) && Reachable(l, mem, roots, Obj(r, i)) ==>
          exists m :: 0 <= m < n && events[m] == Freed(i)
    ensures forall n, n', i: nat :: 0 <= n < n' < |events| && events[n] == events[n'] == Handed(i) ==>
      exists m :: n < m < n' && events[m] == Freed(i)
  {
    hide LayoutOk, Reachable, Run, GcAlloc.Allocator.Valid, GcAlloc.Allocator.Available, GcAlloc.Allocator.InRegion;
    Collect(l, mem, roots, r, a);
    ghost var available := a.Available();
    answers, held, events := Serve(a, requests, held0);
    forall n, i: nat |
      0 <= n < |events| && events[n] == Handed(i) && i < old(a.top) && Reachable(l, mem, roots, Obj(r, i))
      ensures exists m :: 0 <= m < n && events[m] == Freed(i)
    {
      NotHandedOut(available, events, n, i);
    }
    forall n, n', i: nat | 0 <= n < n' < |events| && events[n] == events[n'] == Handed(i)
      ensures exists m :: n < m < n' && events[m] == Freed(i)
    {
      HandedOutOnce(available, events, n, n', i);
    }
  }
}
