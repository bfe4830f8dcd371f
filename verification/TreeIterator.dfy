// In-order iteration over a 2-3-4 tree with an explicit stack (tree.c).
module TreeIterator {
  import opened Wrappers
  import opened TreeOrder
  import opened Tree

  // A stacked node, tagged with the index of its next key.
  datatype Frame = Frame(node: Tree, offset: nat)

  predicate FrameOk(f: Frame) {
    match f.node
    case Nil => false
    case Two(_, _, _, _) => f.offset == 0
    case Three(_, _, _, _, _, _, _) => f.offset < 2
    case Four(_, _, _, _, _, _, _, _, _, _) => f.offset < 3
  }

  // The binding at a frame.
  function Current(f: Frame): Entry
    requires FrameOk(f)
  {
    if f.offset == 0 then (f.node.k0, f.node.v0)
    else if f.offset == 1 then (f.node.k1, f.node.v1)
    else (f.node.k2, f.node.v2)
  }

  // The child that follows that binding.
  function Child(f: Frame): Tree
    requires FrameOk(f)
  {
    if f.offset == 0 then f.node.t1 else if f.offset == 1 then f.node.t2 else f.node.t3
  }

  predicate IsLast(f: Frame)
    requires FrameOk(f)
    ensures IsLast(f) <==> !FrameOk(Frame(f.node, f.offset + 1))
  {
    match f.node
    case Two(_, _, _, _) => true
    case Three(_, _, _, _, _, _, _) => f.offset > 0
    case Four(_, _, _, _, _, _, _, _, _, _) => f.offset == 2
  }

  // The bindings of a node that come after the one at the frame.
  ghost function Tail(f: Frame): seq<Entry>
    requires FrameOk(f)
  {
    match f.node
    case Two(_, _, _, t1) => Items(t1)
    case Three(_, _, _, t1, k1, v1, t2) =>
      if f.offset == 0 then Join(Items(t1), (k1, v1), Items(t2)) else Items(t2)
    case Four(_, _, _, t1, k1, v1, t2, k2, v2, t3) =>
      if f.offset == 0 then Join(Items(t1), (k1, v1), Join(Items(t2), (k2, v2), Items(t3)))
      else if f.offset == 1 then Join(Items(t2), (k2, v2), Items(t3))
      else Items(t3)
  }

  ghost function Cons(x: Entry, s: seq<Entry>): seq<Entry> {
    [x] + s
  }

  // What is left to visit at a frame.
  ghost function FrameItems(f: Frame): seq<Entry>
    requires FrameOk(f)
  {
    Cons(Current(f), Tail(f))
  }

  ghost predicate StackOk(fs: seq<Frame>) {
    forall i :: 0 <= i < |fs| ==> FrameOk(fs[i])
  }

  // What is left to visit on a whole stack, top first.
  ghost function StackItems(fs: seq<Frame>): seq<Entry>
    requires StackOk(fs)
  {
    if fs == [] then [] else FrameItems(fs[|fs| - 1]) + StackItems(fs[..|fs| - 1])
  }

  // Each stacked node leaves room for what hangs below it.
  ghost predicate Fits(fs: seq<Frame>, room: nat) {
    forall i :: 0 <= i < |fs| ==> Balanced(fs[i].node) && i + Depth(fs[i].node) <= room
  }

  lemma JoinIs(a: seq<Entry>, x: Entry, b: seq<Entry>)
    ensures Join(a, x, b) == a + Cons(x, b)
  {
  }

  lemma Regroup(a: seq<Entry>, b: seq<Entry>, d: seq<Entry>)
    ensures (a + b) + d == a + (b + d)
  {
  }

  lemma FirstFrame(t: Tree)
    requires t != Nil
    ensures FrameOk(Frame(t, 0))
    ensures Items(t) == Items(t.t0) + FrameItems(Frame(t, 0))
  {
    hide Join, Cons;
    match t
    case Two(t0, k0, v0, t1) =>
      JoinIs(Items(t0), (k0, v0), Items(t1));
    case Three(t0, k0, v0, t1, k1, v1, t2) =>
      JoinAssoc(Items(t0), (k0, v0), Items(t1), (k1, v1), Items(t2));
      JoinIs(Items(t0), (k0, v0), Tail(Frame(t, 0)));
    case Four(t0, k0, v0, t1, k1, v1, t2, k2, v2, t3) =>
      JoinAssoc(Items(t0), (k0, v0), Items(t1), (k1, v1), Join(Items(t2), (k2, v2), Items(t3)));
      JoinIs(Items(t0), (k0, v0), Tail(Frame(t, 0)));
  }

  // After the binding at a frame comes the child to its right, then the
  // frame's next binding.
  lemma NextFrame(f: Frame)
    requires FrameOk(f)
    ensures Tail(f) == if IsLast(f) then Items(Child(f)) else Items(Child(f)) + FrameItems(Frame(f.node, f.offset + 1))
  {
    hide Join, Cons;
    match f.node
    case Two(_, _, _, t1) =>
    case Three(_, _, _, t1, k1, v1, t2) =>
      JoinIs(Items(t1), (k1, v1), Items(t2));
    case Four(_, _, _, t1, k1, v1, t2, k2, v2, t3) =>
      JoinIs(Items(t1), (k1, v1), Join(Items(t2), (k2, v2), Items(t3)));
      JoinIs(Items(t2), (k2, v2), Items(t3));
  }

  lemma PushItems(fs: seq<Frame>, f: Frame)
    requires StackOk(fs) && FrameOk(f)
    ensures StackOk(fs + [f])
    ensures StackItems(fs + [f]) == FrameItems(f) + StackItems(fs)
  {
    assert (fs + [f])[..|fs|] == fs;
  }

  // From k on, a node continues at its first key not below k.
  lemma FromInto(a: seq<Entry>, x: Entry, b: seq<Entry>, k: Word, c: Compare)
    requires TotalOrder(c) && Sorted(Join(a, x, b), c)
    ensures Sorted(a, c) && Sorted(b, c)
    ensures From(Join(a, x, b), k, c) ==
      if c(k, x.0) < 0 then From(a, k, c) + Cons(x, b)
      else if c(k, x.0) > 0 then From(b, k, c)
      else Cons(x, b)
  {
    hide TotalOrder, From, Sorted;
    JoinSorted(a, x, b, c);
    if c(k, x.0) < 0 {
      JoinIs(From(a, k, c), x, b);
      SplitBelow(a, x, b, k, 0, c);
    } else if c(k, x.0) > 0 {
      SplitAbove(a, x, b, k, 0, c);
    } else {
      SplitAt(a, x, b, k, 0, c);
    }
  }

  // Where the search for k goes in a node: the frame to push, if any, and
  // the child to descend into, if k is not found here.
  datatype Turn = Turn(frame: Option<Frame>, next: Option<Tree>)

  function TurnAt(t: Tree, k: Word, c: Compare): Turn
    requires t != Nil
  {
    match t
    case Two(t0, k0, v0, t1) =>
      if c(k, k0) < 0 then Turn(Some(Frame(t, 0)), Some(t0))
      else if c(k, k0) == 0 then Turn(Some(Frame(t, 0)), None)
      else Turn(None, Some(t1))
    case Three(t0, k0, v0, t1, k1, v1, t2) =>
      if c(k, k0) < 0 then Turn(Some(Frame(t, 0)), Some(t0))
      else if c(k, k0) == 0 then Turn(Some(Frame(t, 0)), None)
      else if c(k, k1) < 0 then Turn(Some(Frame(t, 1)), Some(t1))
      else if c(k, k1) == 0 then Turn(Some(Frame(t, 1)), None)
      else Turn(None, Some(t2))
    case Four(t0, k0, v0, t1, k1, v1, t2, k2, v2, t3) =>
      if c(k, k1) < 0 then
        if c(k, k0) < 0 then Turn(Some(Frame(t, 0)), Some(t0))
        else if c(k, k0) == 0 then Turn(Some(Frame(t, 0)), None)
        else Turn(Some(Frame(t, 1)), Some(t1))
      else if c(k, k1) == 0 then Turn(Some(Frame(t, 1)), None)
      else if c(k, k2) < 0 then Turn(Some(Frame(t, 2)), Some(t2))
      else if c(k, k2) == 0 then Turn(Some(Frame(t, 2)), None)
      else Turn(None, Some(t3))
  }

  ghost predicate TurnOk(u: Turn, t: Tree, c: Compare) {
    && (u.frame.Some? ==> FrameOk(u.frame.value) && u.frame.value.node == t)
    && (u.next.Some? ==> u.next.value < t && ValidTree(u.next.value, c) && Depth(u.next.value) + 1 == Depth(t))
    && (u.next.None? ==> u.frame.Some?)
  }

  ghost function TurnItems(u: Turn, t: Tree, k: Word, c: Compare): seq<Entry>
    requires TurnOk(u, t, c)
  {
    if u.next.None? then FrameItems(u.frame.value)
    else if u.frame.None? then From(Items(u.next.value), k, c)
    else From(Items(u.next.value), k, c) + FrameItems(u.frame.value)
  }

  lemma TurnFindsFour(t: Tree, k: Word, c: Compare)
    requires t.Four? && ValidTree(t, c) && TotalOrder(c)
    ensures TurnOk(TurnAt(t, k, c), t, c)
    ensures TurnItems(TurnAt(t, k, c), t, k, c) == From(Items(t), k, c)
  {
    hide TotalOrder, From, Sorted, Join, Cons;
    var Four(t0, k0, v0, t1, k1, v1, t2, k2, v2, t3) := t;
    var r := Join(Items(t2), (k2, v2), Items(t3));
    KeysApart(Items(t0), (k0, v0), Items(t1), (k1, v1), r, k, c);
    JoinAssoc(Items(t0), (k0, v0), Items(t1), (k1, v1), r);
    FromInto(Items(t0), (k0, v0), Join(Items(t1), (k1, v1), r), k, c);
    FromInto(Items(t1), (k1, v1), r, k, c);
    FromInto(Items(t2), (k2, v2), Items(t3), k, c);
  }

  // The turn leads to exactly the bindings from k on.
  lemma TurnFinds(t: Tree, k: Word, c: Compare)
    requires t != Nil && ValidTree(t, c) && TotalOrder(c)
    ensures TurnOk(TurnAt(t, k, c), t, c)
    ensures TurnItems(TurnAt(t, k, c), t, k, c) == From(Items(t), k, c)
  {
    hide TotalOrder, From, Sorted, Join, Cons;
    match t
    case Two(t0, k0, v0, t1) =>
      FromInto(Items(t0), (k0, v0), Items(t1), k, c);
    case Three(t0, k0, v0, t1, k1, v1, t2) =>
      KeysApart(Items(t0), (k0, v0), Items(t1), (k1, v1), Items(t2), k, c);
      JoinAssoc(Items(t0), (k0, v0), Items(t1), (k1, v1), Items(t2));
      FromInto(Items(t0), (k0, v0), Join(Items(t1), (k1, v1), Items(t2)), k, c);
      FromInto(Items(t1), (k1, v1), Items(t2), k, c);
    case Four(t0, k0, v0, t1, k1, v1, t2, k2, v2, t3) =>
      TurnFindsFour(t, k, c);
  }

  class TreeIterator {
    var stack: array<Frame>
    var stackptr: int

    ghost predicate Valid()
      reads this, stack
    {
      && -1 <= stackptr < stack.Length
      && StackOk(stack[..stackptr + 1])
      && Fits(stack[..stackptr + 1], stack.Length)
    }

    // The bindings still to be visited, in order.
    ghost function Remaining(): seq<Entry>
      reads this, stack
      requires Valid()
    {
      StackItems(stack[..stackptr + 1])
    }

    // An iterator needs one slot for each level of the tree.
    constructor (depth: nat)
      ensures Valid() && fresh(stack) && stack.Length == depth && Remaining() == []
    {
      stack := new Frame[depth](i => Frame(Nil, 0));
      stackptr := -1;
    }

    method Push(idx: nat, f: Frame)
      requires FrameOk(f) && Balanced(f.node) && idx + Depth(f.node) <= stack.Length
      requires StackOk(stack[..idx]) && Fits(stack[..idx], stack.Length)
      modifies stack
      ensures StackOk(stack[..idx + 1]) && Fits(stack[..idx + 1], stack.Length)
      ensures StackItems(stack[..idx + 1]) == FrameItems(f) + StackItems(old(stack[..idx]))
    {
      hide FrameItems, Items;
      PushItems(stack[..idx], f);
      ghost var below := stack[..idx];
      stack[idx] := f;
      assert stack[..idx + 1] == below + [f];
    }

    // Stack the leftmost path of t from slot idx on.
    method Descend(root: Tree, start: nat)
      requires start <= stack.Length && StackOk(stack[..start]) && Fits(stack[..start], stack.Length)
      requires Balanced(root) && start + Depth(root) <= stack.Length
      modifies this`stackptr, stack
      ensures Valid() && Remaining() == Items(root) + StackItems(old(stack[..start]))
    {
      hide Items, Join, FrameItems, StackItems, FrameOk, StackOk;
      var t: Tree, idx: nat := root, start;
      ghost var goal := Items(root) + StackItems(stack[..start]);
      while t != Nil
        invariant start <= idx && idx + Depth(t) <= stack.Length && Balanced(t)
        invariant StackOk(stack[..idx]) && Fits(stack[..idx], stack.Length)
        invariant Items(t) + StackItems(stack[..idx]) == goal
        decreases t
      {
        FirstFrame(t);
        Regroup(Items(t.t0), FrameItems(Frame(t, 0)), StackItems(stack[..idx]));
        Push(idx, Frame(t, 0));
        idx := idx + 1;
        t := t.t0;
      }
      NilItems();
      stackptr := idx - 1;
    }

    method Init(t: Tree)
      requires Balanced(t) && Depth(t) <= stack.Length
      modifies this`stackptr, stack
      ensures Valid() && Remaining() == Items(t)
    {
      assert stack[..0] == [];
      Descend(t, 0);
    }

    // Start at the first key not below k.
    method InitGeq(root: Tree, k: Word, c: Compare)
      requires ValidTree(root, c) && TotalOrder(c) && Depth(root) <= stack.Length
      modifies this`stackptr, stack
      ensures Valid() && Remaining() == From(Items(root), k, c)
    {
      hide TotalOrder, From, Sorted, Items, Join, FrameItems, TurnAt, StackItems, StackOk, FrameOk;
      NothingStacked();
      var t: Tree, idx: nat := root, 0;
      assert stack[..0] == [];
      while t != Nil
        invariant idx + Depth(t) <= stack.Length && ValidTree(t, c)
        invariant StackOk(stack[..idx]) && Fits(stack[..idx], stack.Length)
        invariant From(Items(t), k, c) + StackItems(stack[..idx]) == From(Items(root), k, c)
        decreases t
      {
        TurnFinds(t, k, c);
        var u := TurnAt(t, k, c);
        if u.frame.Some? {
          if u.next.Some? {
            Regroup(From(Items(u.next.value), k, c), FrameItems(u.frame.value), StackItems(stack[..idx]));
          }
          Push(idx, u.frame.value);
          idx := idx + 1;
        }
        if u.next.None? {
          stackptr := idx - 1;
          return;
        }
        t := u.next.value;
      }
      FromNothing(k, c);
      stackptr := idx - 1;
    }

    // The binding the iterator stands on.
    method Get() returns (e: Option<Entry>)
      requires Valid()
      ensures e == if Remaining() == [] then None else Some(Remaining()[0])
    {
      var idx := stackptr;
      if idx < 0 {
        return None;
      }
      assert stack[..idx + 1][idx] == stack[idx];
      e := Some(Current(stack[idx]));
    }

    // Step to the next binding.
    method Next()
      requires Valid()
      modifies this`stackptr, stack
      ensures Valid()
      ensures old(Remaining()) == [] ==> Remaining() == []
      ensures old(Remaining()) != [] ==> Remaining() == old(Remaining())[1..]
    {
      hide Items, FrameItems, Cons, Tail;
      var idx := stackptr;
      if idx < 0 {
        return;
      }
      var f := stack[idx];
      ghost var below := stack[..idx];
      assert stack[..idx + 1] == below + [f];
      PushItems(below, f);
      ChildDepth(f);
      NextFrame(f);
      DropFirst(f, StackItems(below));
      if IsLast(f) {
        Descend(Child(f), idx);
      } else {
        var g := Frame(f.node, f.offset + 1);
        PushItems(below, g);
        Regroup(Items(Child(f)), FrameItems(g), StackItems(below));
        stack[idx] := g;
        assert stack[..idx + 1] == below + [g];
        Descend(Child(f), idx + 1);
      }
    }
  }

  lemma DropFirst(f: Frame, s: seq<Entry>)
    requires FrameOk(f)
    ensures FrameItems(f) + s != [] && (FrameItems(f) + s)[0] == Current(f)
    ensures (FrameItems(f) + s)[1..] == Tail(f) + s
  {
  }

  lemma NothingStacked()
    ensures StackOk([]) && StackItems([]) == []
    ensures forall s: seq<Entry> :: s + [] == s
  {
  }

  lemma NilItems()
    ensures forall s: seq<Entry> :: Items(Nil) + s == s
  {
  }

  lemma ChildDepth(f: Frame)
    requires FrameOk(f) && Balanced(f.node)
    ensures Balanced(Child(f)) && Depth(Child(f)) + 1 == Depth(f.node)
  {
  }

  lemma FromNothing(k: Word, c: Compare)
    ensures From(Items(Nil), k, c) == []
  {
  }
}
