// The propagator queue (prop.c): one intrusive list for each priority.
module PropQueue {
  import opened Wrappers

  const MAX_PRIORITY: nat := 8

  // Links by propagator; a propagator without a link is not scheduled.  The
  // last propagator of a list links to itself.
  type Links = map<nat, nat>

  ghost predicate Linked(q: seq<nat>, head: Option<nat>, tail: Option<nat>, next: Links) {
    && (forall i :: 0 <= i < |q| ==> q[i] in next)
    && (forall i :: 0 <= i < |q| - 1 ==> next[q[i]] == q[i + 1])
    && (forall i, j :: 0 <= i < j < |q| ==> q[i] != q[j])
    && if q == [] then head == None
       else head == Some(q[0]) && tail == Some(q[|q| - 1]) && next[q[|q| - 1]] == q[|q| - 1]
  }

  lemma OtherLinks(q: seq<nat>, head: Option<nat>, tail: Option<nat>, next: Links, next': Links)
    requires Linked(q, head, tail, next)
    requires forall p :: p in q && p in next ==> p in next' && next'[p] == next[p]
    ensures Linked(q, head, tail, next')
  {
    assert forall i :: 0 <= i < |q| ==> q[i] in q;
  }

  // The end of a list is where a propagator links to itself.
  lemma SelfLink(q: seq<nat>, head: Option<nat>, tail: Option<nat>, next: Links, i: nat)
    requires Linked(q, head, tail, next) && i < |q|
    ensures next[q[i]] == q[i] <==> i == |q| - 1
  {
    if i < |q| - 1 {
      assert next[q[i]] == q[i + 1] && q[i] != q[i + 1];
    }
  }

  // What is left when the first propagator of a list is taken off.
  lemma HeadTaken(q: seq<nat>, head: Option<nat>, tail: Option<nat>, next: Links)
    requires Linked(q, head, tail, next) && q != []
    ensures head == Some(q[0]) && q[0] in next && q[0] !in q[1..]
    ensures next[q[0]] == q[0] <==> |q| == 1
    ensures |q| == 1 ==> q[1..] == [] && Linked(q[1..], None, None, next)
    ensures |q| > 1 ==> Linked(q[1..], Some(next[q[0]]), tail, next)
  {
    SelfLink(q, head, tail, next, 0);
    if |q| > 1 {
      DropHead(q, head, tail, next);
    }
  }

  lemma Append(q: seq<nat>, head: Option<nat>, tail: Option<nat>, next: Links, p: nat)
    requires Linked(q, head, tail, next) && p !in q && q != []
    ensures q[|q| - 1] != p
    ensures Linked(q + [p], head, Some(p), next[p := p][q[|q| - 1] := p])
  {
    var q', next' := q + [p], next[p := p][q[|q| - 1] := p];
    assert q[|q| - 1] in q;
    forall i | 0 <= i < |q'| - 1 ensures next'[q'[i]] == q'[i + 1] {
      if i < |q| - 1 {
        assert q[i] in q && q[i] != q[|q| - 1];
      }
    }
    forall i | 0 <= i < |q| ensures q[i] != p {
      assert q[i] in q;
    }
  }

  lemma DropHead(q: seq<nat>, head: Option<nat>, tail: Option<nat>, next: Links)
    requires Linked(q, head, tail, next) && |q| > 1
    ensures Linked(q[1..], Some(next[q[0]]), tail, next)
  {
  }

  class Scheduler {
    // The priority of the first propagator of a propagator's constraint symbol.
    const rank: nat -> nat
    var heads: seq<Option<nat>>
    var tails: seq<Option<nat>>
    var next: Links
    var priority: nat
    var current: Option<nat>

    // What is pending at each priority, oldest first.
    ghost var queues: seq<seq<nat>>

    // The lists are what is pending, each propagator in the list of its own
    // priority.
    ghost predicate Lists()
      reads this
    {
      && |heads| == |tails| == |queues| == MAX_PRIORITY
      && (forall p: nat :: rank(p) < MAX_PRIORITY)
      && (forall k :: 0 <= k < MAX_PRIORITY ==> Linked(queues[k], heads[k], tails[k], next))
      && (forall k, p :: 0 <= k < MAX_PRIORITY && p in queues[k] ==> rank(p) == k)
    }

    // The lowest pending priority is known, and the running propagator has a
    // link but is in no list.
    ghost predicate Valid()
      reads this
    {
      && Lists()
      && priority <= MAX_PRIORITY
      && (forall k :: 0 <= k < priority ==> queues[k] == [])
      && (priority < MAX_PRIORITY ==> queues[priority] != [])
      && (current.Some? ==> Loose(current.value))
    }

    ghost predicate Pending(p: nat)
      reads this
    {
      rank(p) < |queues| && p in queues[rank(p)]
    }

    ghost predicate Loose(p: nat)
      reads this
    {
      p in next && !Pending(p)
    }

    // A link that belongs neither to a pending propagator nor to the running one.
    ghost predicate Stray(p: nat)
      reads this
    {
      Loose(p) && current != Some(p)
    }

    ghost function Now(): Plan
      requires |queues| == MAX_PRIORITY
      reads this
    {
      Plan(Order(queues, MAX_PRIORITY), current, set q | q in next && Stray(q))
    }

    constructor (rank: nat -> nat)
      requires forall p: nat :: rank(p) < MAX_PRIORITY
      ensures Valid() && this.rank == rank && current == None && next == map[]
      ensures forall k :: 0 <= k < MAX_PRIORITY ==> queues[k] == []
    {
      this.rank := rank;
      heads, tails := seq(MAX_PRIORITY, _ => None), seq(MAX_PRIORITY, _ => None);
      next, priority, current := map[], MAX_PRIORITY, None;
      queues := seq(MAX_PRIORITY, _ => []);
    }

    // Schedule a propagator, unless it is pending already or its constraint
    // was purged.
    method Schedule(p: nat, purged: bool)
      requires Valid()
      modifies this
      ensures Valid()
      ensures var k := rank(p);
        queues == if old(Pending(p)) || old(Stray(p)) || purged then old(queues)
                  else old(queues)[k := old(queues)[k] + [p]]
      ensures current == if old(current) == Some(p) then None else old(current)
      ensures forall q :: Stray(q) <==> old(Stray(q)) || (q == p && purged && old(current) == Some(p))
      ensures |old(queues)| == |queues| == MAX_PRIORITY && Now() == Asks(rank, old(Now()), p, purged)
    {
      hide Linked, Order;
      PendingInOrder(p);
      PendingHasLink(p);
      if !purged {
        AppendPlaces(rank, queues, p, MAX_PRIORITY);
      }
      if p in next {
        if current != Some(p) {
          return;
        }
        current := None;
      }
      if purged {
        return;
      }
      Enqueue(p);
    }

    method Enqueue(p: nat)
      requires Valid() && !Pending(p) && current != Some(p)
      modifies this`heads, this`tails, this`next, this`priority, this`queues
      ensures Valid()
      ensures queues == old(queues)[rank(p) := old(queues)[rank(p)] + [p]]
      ensures next.Keys == old(next.Keys) + {p}
    {
      var k := rank(p);
      AddLast(p, k);
      priority := if priority <= k then priority else k;
    }

    method AddLast(p: nat, k: nat)
      requires Lists() && !Pending(p) && k == rank(p)
      modifies this`heads, this`tails, this`next, this`queues
      ensures Lists() && queues == old(queues)[k := old(queues)[k] + [p]]
      ensures next.Keys == old(next.Keys) + {p}
    {
      hide Linked;
      ghost var q := queues[k];
      HeadsTell();
      if heads[k].None? {
        FirstLink(p);
        assert q + [p] == [p];
        heads, tails := heads[k := Some(p)], tails[k := Some(p)];
        next := next[p := p];
      } else {
        LastLink(k);
        Append(q, heads[k], tails[k], next, p);
        ghost var t := tails[k].value;
        next := next[p := p][tails[k].value := p];
        tails := tails[k := Some(p)];
      }
      queues := queues[k := q + [p]];
      forall j | 0 <= j < MAX_PRIORITY ensures Linked(queues[j], heads[j], tails[j], next) {
        if j != k {
          Elsewhere(old(queues)[j], j, q, k, p);
          OtherLinks(queues[j], heads[j], tails[j], old(next), next);
        }
      }
    }

    lemma FirstLink(p: nat)
      ensures Linked([p], Some(p), Some(p), next[p := p])
    {
    }

    lemma LastLink(k: nat)
      requires Lists() && k < MAX_PRIORITY && queues[k] != []
      ensures heads[k] == Some(queues[k][0]) && tails[k] == Some(queues[k][|queues[k]| - 1]) && tails[k].value in next
    {
      assert Linked(queues[k], heads[k], tails[k], next);
    }

    // Lists of different priorities share nothing.
    lemma Elsewhere(other: seq<nat>, j: nat, q: seq<nat>, k: nat, p: nat)
      requires j != k && rank(p) == k
      requires (forall r :: r in other ==> rank(r) == j) && forall r :: r in q ==> rank(r) == k
      ensures forall r :: r in other ==> r != p && r !in q
      ensures |q| > 0 ==> q[|q| - 1] in q
    {
    }

    // Take the oldest propagator of the lowest pending priority off its list.
    method Pop() returns (p: nat)
      requires Valid() && priority < MAX_PRIORITY
      modifies this`heads, this`tails, this`priority, this`queues
      ensures old(priority) <= priority
      ensures p == old(queues)[old(priority)][0] && p in next && !Pending(p)
      ensures queues == old(queues)[old(priority) := old(queues)[old(priority)][1..]]
      ensures current != Some(p) && Valid()
      ensures forall q :: Pending(q) <==> old(Pending(q)) && q != p
    {
      hide Linked;
      var k := priority;
      ghost var q := queues[k];
      HeadTaken(q, heads[k], tails[k], next);
      p := heads[k].value;
      if next[p] == p {
        heads, tails := heads[k := None], tails[k := None];
      } else {
        heads := heads[k := Some(next[p])];
      }
      queues := queues[k := q[1..]];
      assert p in q;
      forall j | 0 <= j < MAX_PRIORITY ensures Linked(queues[j], heads[j], tails[j], next) {
      }
      forall j, r | 0 <= j < MAX_PRIORITY && r in queues[j] ensures rank(r) == j && r != p {
        assert r in old(queues)[j];
      }
      HeadsTell();
      Advance();
    }

    // Move to the lowest priority that has something pending.
    method Advance()
      requires |heads| == |queues| == MAX_PRIORITY && priority <= MAX_PRIORITY
      requires forall k :: 0 <= k < MAX_PRIORITY ==> (heads[k] == None <==> queues[k] == [])
      requires forall k :: 0 <= k < priority ==> queues[k] == []
      modifies this`priority
      ensures old(priority) <= priority <= MAX_PRIORITY
      ensures forall k :: 0 <= k < priority ==> queues[k] == []
      ensures priority < MAX_PRIORITY ==> queues[priority] != []
    {
      while priority < MAX_PRIORITY && heads[priority].None?
        invariant old(priority) <= priority <= MAX_PRIORITY
        invariant forall k :: 0 <= k < priority ==> queues[k] == []
      {
        priority := priority + 1;
      }
    }

    // Clear the link of a propagator that is in no list.
    method Unlink(p: nat)
      requires Lists() && Loose(p)
      modifies this`next
      ensures Lists() && next.Keys == old(next.Keys) - {p}
    {
      next := next - {p};
      forall j | 0 <= j < MAX_PRIORITY ensures Linked(queues[j], heads[j], tails[j], next) {
        assert forall r :: r in queues[j] ==> rank(r) == j;
        OtherLinks(queues[j], heads[j], tails[j], old(next), next);
      }
    }

    // Choose the next propagator to run: the oldest of the lowest priority,
    // passing over those that were killed or whose constraint was purged.
    method WakeStart(dead: set<nat>) returns (p: Option<nat>, ghost dropped: seq<nat>)
      requires Valid() && current == None
      modifies this
      ensures Valid() && current == p
      ensures forall x :: x in dropped ==> x in dead
      ensures Order(old(queues), MAX_PRIORITY) == dropped + Asked(p) + Order(queues, MAX_PRIORITY)
      ensures p.Some? ==> p.value !in dead
      ensures p.None? ==> forall k :: 0 <= k < MAX_PRIORITY ==> queues[k] == []
      ensures forall q :: Stray(q) <==> old(Stray(q))
      ensures |old(queues)| == |queues| == MAX_PRIORITY && Now() == Wakes(old(Now()), dead)
    {
      hide Linked, Order, Wakes;
      AllThere();
      ghost var before := Order(queues, MAX_PRIORITY);
      dropped := [];
      while priority < MAX_PRIORITY
        invariant Valid() && current == None
        invariant forall x :: x in dropped ==> x in dead
        invariant |queues| == MAX_PRIORITY && before == dropped + Order(queues, MAX_PRIORITY)
        invariant forall q :: Stray(q) <==> old(Stray(q))
        decreases |Order(queues, MAX_PRIORITY)|
      {
        PopOrder(queues, priority, MAX_PRIORITY);
        ghost var q1 := queues;
        var r := Pop();
        AllThere();
        Dequeued(dropped, r, Order(queues, MAX_PRIORITY));
        if r !in dead {
          current := Some(r);
          p := Some(r);
          WokenIs(old(Now()), dropped, p, Order(queues, MAX_PRIORITY), dead);
          return;
        }
        Unlink(r);
        dropped := dropped + [r];
      }
      p := None;
      NothingLeft(queues);
      WokenIs(old(Now()), dropped, None, [], dead);
    }

    lemma PendingHasLink(p: nat)
      requires Lists()
      ensures rank(p) < |queues| && (Pending(p) ==> p in next)
    {
      assert rank(p) < MAX_PRIORITY && Linked(queues[rank(p)], heads[rank(p)], tails[rank(p)], next);
    }

    lemma PendingInOrder(p: nat)
      requires Lists()
      ensures |queues| == MAX_PRIORITY && rank(p) < MAX_PRIORITY
      ensures forall k, q :: 0 <= k < |queues| && q in queues[k] ==> rank(q) == k
      ensures Pending(p) <==> p in Order(queues, MAX_PRIORITY)
    {
      InOrder(queues, MAX_PRIORITY, p);
    }

    lemma AllThere()
      requires Lists()
      ensures |queues| == MAX_PRIORITY
    {
    }

    // The handler of p has returned; unless it scheduled itself again, p is done.
    method WakeEnd(p: nat)
      requires Valid() && (current.None? || current == Some(p))
      modifies this`current, this`next, this`priority
      ensures Valid() && current == None && priority == old(priority)
      ensures next.Keys == if old(current).Some? then old(next.Keys) - {p} else old(next.Keys)
      ensures forall q :: Stray(q) <==> old(Stray(q))
      ensures queues == old(queues)
    {
      if current != None {
        current := None;
        Unlink(p);
      }
      HeadsTell();
      Advance();
    }

    lemma HeadsTell()
      requires Lists()
      ensures forall k :: 0 <= k < MAX_PRIORITY ==> (heads[k] == None <==> queues[k] == [])
    {
      forall k | 0 <= k < MAX_PRIORITY ensures heads[k] == None <==> queues[k] == [] {
        assert Linked(queues[k], heads[k], tails[k], next);
      }
    }

    // Forget everything that is pending, and the running propagator.
    method Flush()
      requires Valid()
      modifies this
      ensures Valid() && current == None
      ensures forall k :: 0 <= k < MAX_PRIORITY ==> queues[k] == []
      ensures forall q :: q in next <==> old(Stray(q))
      ensures forall q :: Stray(q) <==> old(Stray(q))
    {
      while priority < MAX_PRIORITY
        invariant Lists() && priority <= MAX_PRIORITY && current == old(current)
        invariant forall k :: 0 <= k < priority ==> queues[k] == []
        invariant forall q :: Loose(q) <==> old(Loose(q))
      {
        HeadsTell();
        if heads[priority].Some? {
          FlushList(priority);
        }
        priority := priority + 1;
      }
      if current != None {
        Unlink(current.value);
        current := None;
      }
    }

    method FlushList(k: nat)
      requires Lists() && k < MAX_PRIORITY && heads[k].Some?
      modifies this`heads, this`tails, this`next, this`queues
      ensures Lists() && queues == old(queues)[k := []]
      ensures forall q :: Loose(q) <==> old(Loose(q))
    {
      HeadsTell();
      ghost var q, next0 := queues[k], next;
      assert Linked(q, heads[k], tails[k], next);
      var p := heads[k].value;
      ghost var i := 0;
      SelfLink(q, heads[k], tails[k], next0, 0);
      while next[p] != p
        invariant 0 <= i < |q| && p == q[i] && p in next && next[p] == next0[p]
        invariant next[p] == p <==> i == |q| - 1
        invariant heads == old(heads) && tails == old(tails) && queues == old(queues)
        invariant forall r :: r in next <==> r in next0 && r !in q[..i]
        invariant forall r :: r in next ==> next[r] == next0[r]
        decreases |q| - i
      {
        var before := p;
        p := next[p];
        next := next - {before};
        assert q[..i + 1] == q[..i] + [q[i]];
        assert q[i + 1] !in q[..i + 1];
        i := i + 1;
        SelfLink(q, heads[k], tails[k], next0, i);
      }
      next := next - {p};
      assert q[..i] + [q[i]] == q;
      heads, tails := heads[k := None], tails[k := None];
      queues := queues[k := []];
      forall j | 0 <= j < MAX_PRIORITY ensures Linked(queues[j], heads[j], tails[j], next) {
        if j != k {
          assert forall r :: r in queues[j] ==> rank(r) == j;
          assert forall r :: r in q ==> rank(r) == k;
          OtherLinks(queues[j], heads[j], tails[j], next0, next);
        }
      }
    }
  }

  // All pending propagators in the order in which they would be run.
  ghost function Order(queues: seq<seq<nat>>, n: nat): seq<nat>
    requires n <= |queues|
  {
    if n == 0 then [] else Order(queues, n - 1) + queues[n - 1]
  }

  function Asked(p: Option<nat>): seq<nat> {
    if p.Some? then [p.value] else []
  }

  lemma Dequeued(dropped: seq<nat>, r: nat, rest: seq<nat>)
    ensures dropped + ([r] + rest) == dropped + [r] + rest
    ensures dropped + [] == dropped
  {
  }

  lemma NothingLeft(queues: seq<seq<nat>>)
    requires |queues| == MAX_PRIORITY && forall k :: 0 <= k < MAX_PRIORITY ==> queues[k] == []
    ensures Order(queues, MAX_PRIORITY) == []
  {
    NothingBefore(queues, MAX_PRIORITY);
  }

  lemma {:induction false} NothingBefore(queues: seq<seq<nat>>, n: nat)
    requires n <= |queues| && forall j :: 0 <= j < n ==> queues[j] == []
    ensures Order(queues, n) == []
  {
    if n > 0 {
      NothingBefore(queues, n - 1);
    }
  }

  // Taking the oldest of the lowest pending priority takes the first of all.
  lemma {:induction false} PopOrder(queues: seq<seq<nat>>, k: nat, n: nat)
    requires k < n <= |queues| && queues[k] != [] && forall j :: 0 <= j < k ==> queues[j] == []
    ensures Order(queues, n) == [queues[k][0]] + Order(queues[k := queues[k][1..]], n)
  {
    var q' := queues[k := queues[k][1..]];
    if n == k + 1 {
      NothingBefore(queues, k);
      NothingBefore(q', k);
      assert queues[k] == [queues[k][0]] + queues[k][1..];
    } else {
      PopOrder(queues, k, n - 1);
    }
  }

  // ----- the scheduler as one list -----

  // What is pending, in the order in which it would be run, the running
  // propagator, and those with a stray link.
  datatype Plan = Plan(order: seq<nat>, current: Option<nat>, stray: set<nat>)

  // p goes behind all that are no less urgent.
  function Placed(rank: nat -> nat, order: seq<nat>, p: nat): seq<nat> {
    if order == [] || rank(order[0]) > rank(p) then [p] + order
    else [order[0]] + Placed(rank, order[1..], p)
  }

  lemma {:induction false} PlacedLast(rank: nat -> nat, order: seq<nat>, p: nat)
    requires forall q :: q in order ==> rank(q) <= rank(p)
    ensures Placed(rank, order, p) == order + [p]
  {
    if order != [] {
      PlacedLast(rank, order[1..], p);
    }
  }

  lemma {:induction false} PlacedBefore(rank: nat -> nat, order: seq<nat>, later: seq<nat>, p: nat)
    requires forall q :: q in later ==> rank(q) > rank(p)
    ensures Placed(rank, order + later, p) == Placed(rank, order, p) + later
  {
    if order == [] {
      assert order + later == later;
    } else {
      PlacedBefore(rank, order[1..], later, p);
      assert (order + later)[1..] == order[1..] + later;
    }
  }

  // Appending to the list of its priority places a propagator in the order.
  lemma {:induction false} AppendPlaces(rank: nat -> nat, queues: seq<seq<nat>>, p: nat, n: nat)
    requires rank(p) < n <= |queues|
    requires forall k, q :: 0 <= k < |queues| && q in queues[k] ==> rank(q) == k
    ensures Order(queues[rank(p) := queues[rank(p)] + [p]], n) == Placed(rank, Order(queues, n), p)
  {
    var k := rank(p);
    var queues' := queues[k := queues[k] + [p]];
    if n == k + 1 {
      SameOrder(queues, queues', k);
      RanksBelow(rank, queues, n);
      PlacedLast(rank, Order(queues, n), p);
    } else {
      AppendPlaces(rank, queues, p, n - 1);
      PlacedBefore(rank, Order(queues, n - 1), queues[n - 1], p);
    }
  }

  lemma {:induction false} SameOrder(queues: seq<seq<nat>>, queues': seq<seq<nat>>, n: nat)
    requires n <= |queues| == |queues'| && forall k :: 0 <= k < n ==> queues'[k] == queues[k]
    ensures Order(queues', n) == Order(queues, n)
  {
    if n > 0 {
      SameOrder(queues, queues', n - 1);
    }
  }

  lemma {:induction false} RanksBelow(rank: nat -> nat, queues: seq<seq<nat>>, n: nat)
    requires n <= |queues| && forall k, q :: 0 <= k < |queues| && q in queues[k] ==> rank(q) == k
    ensures forall q :: q in Order(queues, n) ==> rank(q) < n
  {
    if n > 0 {
      RanksBelow(rank, queues, n - 1);
    }
  }

  lemma {:induction false} InOrder(queues: seq<seq<nat>>, n: nat, p: nat)
    requires n <= |queues|
    ensures p in Order(queues, n) <==> exists k :: 0 <= k < n && p in queues[k]
  {
    if n > 0 {
      InOrder(queues, n - 1, p);
    }
  }

  function Asks(rank: nat -> nat, s: Plan, p: nat, purged: bool): Plan {
    if p in s.order || p in s.stray then s
    else
      Plan(if purged then s.order else Placed(rank, s.order, p),
           if s.current == Some(p) then None else s.current,
           if purged && s.current == Some(p) then s.stray + {p} else s.stray)
  }

  function AfterRequest(rank: nat -> nat, s: Plan, r: Request): Plan {
    match r
    case Ask(p, purged) => Asks(rank, s, p, purged)
    case Forget => Plan([], None, s.stray)
  }

  function AfterRequests(rank: nat -> nat, s: Plan, requests: seq<Request>): Plan {
    if requests == [] then s
    else
      var n := |requests| - 1;
      AfterRequest(rank, AfterRequests(rank, s, requests[..n]), requests[n])
  }

  // The order without the dead ones at its front.
  function Alive(order: seq<nat>, dead: set<nat>): seq<nat> {
    if order != [] && order[0] in dead then Alive(order[1..], dead) else order
  }

  lemma {:induction false} DeadDropped(dropped: seq<nat>, p: Option<nat>, rest: seq<nat>, dead: set<nat>)
    requires (forall x :: x in dropped ==> x in dead) && (p.Some? ==> p.value !in dead) && (p.None? ==> rest == [])
    ensures Alive(dropped + Asked(p) + rest, dead) == Asked(p) + rest
  {
    var order := dropped + Asked(p) + rest;
    if dropped != [] {
      assert order[0] == dropped[0] && order[1..] == dropped[1..] + Asked(p) + rest;
      DeadDropped(dropped[1..], p, rest, dead);
    } else {
      assert order == Asked(p) + rest;
    }
  }

  // The first that is alive starts to run.
  function Wakes(s: Plan, dead: set<nat>): Plan {
    var alive := Alive(s.order, dead);
    if alive == [] then Plan([], None, s.stray) else Plan(alive[1..], Some(alive[0]), s.stray)
  }

  lemma WokenIs(s: Plan, dropped: seq<nat>, p: Option<nat>, rest: seq<nat>, dead: set<nat>)
    requires s.order == dropped + Asked(p) + rest
    requires (forall x :: x in dropped ==> x in dead) && (p.Some? ==> p.value !in dead) && (p.None? ==> rest == [])
    ensures Wakes(s, dead) == Plan(rest, p, s.stray)
  {
    DeadDropped(dropped, p, rest, dead);
  }

  // One round: what is asked for while the chosen propagator runs, and then
  // nothing runs.
  function AfterRound(rank: nat -> nat, s: Plan, round: Round): Plan {
    AfterRequests(rank, Wakes(s, round.dead), round.requests).(current := None)
  }

  datatype Course = Course(plan: Plan, ran: seq<nat>)

  function AfterRounds(rank: nat -> nat, s: Plan, rounds: seq<Round>): Course {
    if rounds == [] then Course(s, [])
    else
      var n := |rounds| - 1;
      var c := AfterRounds(rank, s, rounds[..n]);
      Course(AfterRound(rank, c.plan, rounds[n]), c.ran + Asked(Wakes(c.plan, rounds[n].dead).current))
  }

  // What a handler, or the program outside of one, asks of the scheduler.
  datatype Request = Ask(p: nat, purged: bool) | Forget

  // One call to wake a propagator: those found dead, and what is asked for
  // while the chosen one runs, or if there is none.
  datatype Round = Round(dead: set<nat>, requests: seq<Request>)

  // The requests do what they do to one list; a stray link survives them.
  method Answer(s: Scheduler, requests: seq<Request>)
    requires s.Valid()
    modifies s
    ensures s.Valid() && (s.current.None? || s.current == old(s.current))
    ensures |old(s.queues)| == |s.queues| == MAX_PRIORITY
    ensures s.Now() == AfterRequests(s.rank, old(s.Now()), requests)
    ensures forall q :: old(s.Stray(q)) ==> s.Stray(q)
  {
    hide Linked, Scheduler.Lists, Order, Asks;
    s.AllThere();
    for i := 0 to |requests|
      invariant s.Valid() && (s.current.None? || s.current == old(s.current))
      invariant |s.queues| == MAX_PRIORITY && s.Now() == AfterRequests(s.rank, old(s.Now()), requests[..i])
      invariant forall q :: old(s.Stray(q)) ==> s.Stray(q)
    {
      assert requests[..i + 1][..i] == requests[..i];
      match requests[i]
      case Ask(p, purged) =>
        s.Schedule(p, purged);
      case Forget =>
        s.Flush();
        s.AllThere();
        NothingLeft(s.queues);
    }
    assert requests[..|requests|] == requests;
  }

  // In any course of events the scheduler runs what one list would have run,
  // and a propagator with a stray link is never run.
  method NeverAgain(s: Scheduler, rounds: seq<Round>) returns (ran: seq<nat>)
    requires s.Valid() && s.current == None
    modifies s
    ensures s.Valid() && s.current == None
    ensures |old(s.queues)| == |s.queues| == MAX_PRIORITY
    ensures Course(s.Now(), ran) == AfterRounds(s.rank, old(s.Now()), rounds)
    ensures forall q :: old(s.Stray(q)) ==> s.Stray(q) && q !in ran
  {
    hide Linked, Order, Scheduler.Lists, AfterRequests, Alive, Scheduler.Pending;
    s.AllThere();
    ran := [];
    for i := 0 to |rounds|
      invariant s.Valid() && s.current == None && |s.queues| == MAX_PRIORITY
      invariant Course(s.Now(), ran) == AfterRounds(s.rank, old(s.Now()), rounds[..i])
      invariant forall q :: old(s.Stray(q)) ==> s.Stray(q) && q !in ran
    {
      assert rounds[..i + 1][..i] == rounds[..i];
      ghost var before := s.Now();
      var p, dropped := s.WakeStart(rounds[i].dead);
      Answer(s, rounds[i].requests);
      if p.Some? {
        ran := ran + [p.value];
        s.WakeEnd(p.value);
      }
    }
    assert rounds[..|rounds|] == rounds;
  }

  // A propagator that schedules itself while it runs, after its constraint
  // was purged, keeps a link although it is pending nowhere.  It never runs
  // again, even if the purge is taken back and it is scheduled once more.
  method ForgetsItself(s: Scheduler, p: nat, rounds: seq<Round>) returns (ran: seq<nat>)
    requires s.Valid() && s.current == Some(p)
    modifies s
    ensures s.Valid() && s.Stray(p) && p !in ran
  {
    hide Linked;
    s.Schedule(p, true);
    s.WakeEnd(p);
    ran := NeverAgain(s, rounds);
  }
}
