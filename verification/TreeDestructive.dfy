// The destructive operations on 2-3-4 trees (tree.c): nodes are updated in
// place, replaced nodes are freed.  Each one leaves exactly the tree that its
// persistent counterpart builds.
module TreeDestructive {
  import opened Wrappers
  import opened TreeOrder
  import opened Tree
  import opened TreeSearch
  import P = Tree

  // A heap node of arity 2, 3 or 4; unused fields are null.
  class Node {
    var arity: nat
    var t0: Node?
    var k0: Word
    var v0: Word
    var t1: Node?
    var k1: Word
    var v1: Word
    var t2: Node?
    var k2: Word
    var v2: Word
    var t3: Node?
    var live: bool

    // The tree below this node, and the nodes it is made of.
    ghost var model: Tree
    ghost var repr: set<Node>

    // Every node of the tree is live and is reached exactly once.
    ghost predicate Valid()
      reads this, repr
      decreases repr, 2
    {
      Shape()
    }

    ghost predicate Shape()
      reads this, repr
      decreases repr, 1
    {
      && live
      && Hangs(t0) && Hangs(t1) && Hangs(t2) && Hangs(t3)
      && Repr(t0) !! Repr(t1) !! Repr(t2) !! Repr(t3)
      && repr == {this} + Repr(t0) + Repr(t1) + Repr(t2) + Repr(t3)
      && ((arity == 2 && t2 == null && t3 == null && model == Two(Model(t0), k0, v0, Model(t1)))
          || (arity == 3 && t3 == null && model == Three(Model(t0), k0, v0, Model(t1), k1, v1, Model(t2)))
          || (arity == 4 && model == Four(Model(t0), k0, v0, Model(t1), k1, v1, Model(t2), k2, v2, Model(t3))))
    }

    ghost predicate Hangs(n: Node?)
      reads this, repr
      decreases repr, 0
    {
      this in repr && (n != null ==> n in repr && n in n.repr && n.repr <= repr - {this} && n.Valid())
    }

    // The subtrees are sound, apart from each other and from this node.
    ghost predicate Apart()
      reads this, t0, t1, t2, t3, Repr(t0), Repr(t1), Repr(t2), Repr(t3)
    {
      && live && Ok(t0) && Ok(t1) && Ok(t2) && Ok(t3)
      && Repr(t0) !! Repr(t1) !! Repr(t2) !! Repr(t3)
      && this !in Repr(t0) + Repr(t1) + Repr(t2) + Repr(t3)
      && (arity == 2 || arity == 3 || arity == 4)
      && (arity < 4 ==> t3 == null)
      && (arity < 3 ==> t2 == null)
    }

    function KidNode(i: nat): Node?
      reads this
    {
      if i == 0 then t0 else if i == 1 then t1 else if i == 2 then t2 else t3
    }

    // The nodes of all subtrees but one.
    ghost function Rest(i: nat): set<Node>
      reads this, t0, t1, t2, t3
    {
      (if i == 0 then {} else Repr(t0)) + (if i == 1 then {} else Repr(t1))
      + (if i == 2 then {} else Repr(t2)) + (if i == 3 then {} else Repr(t3))
    }

    // The subtrees but one are sound and apart.
    ghost predicate ApartBut(i: nat)
      reads this, t0, t1, t2, t3, Repr(t0), Repr(t1), Repr(t2), Repr(t3)
    {
      && live && i < arity
      && (i == 0 || Ok(t0)) && (i == 1 || Ok(t1)) && (i == 2 || Ok(t2)) && (i == 3 || Ok(t3))
      && (if i == 0 then {} else Repr(t0)) !! (if i == 1 then {} else Repr(t1))
         !! (if i == 2 then {} else Repr(t2)) !! (if i == 3 then {} else Repr(t3))
      && this !in Rest(i)
      && (arity == 2 || arity == 3 || arity == 4)
      && (arity < 4 ==> t3 == null)
      && (arity < 3 ==> t2 == null)
    }

    // The tree that the fields spell out.
    ghost function Spelled(): Tree
      reads this, t0, t1, t2, t3
    {
      if arity == 2 then Two(Model(t0), k0, v0, Model(t1))
      else if arity == 3 then Three(Model(t0), k0, v0, Model(t1), k1, v1, Model(t2))
      else Four(Model(t0), k0, v0, Model(t1), k1, v1, Model(t2), k2, v2, Model(t3))
    }

    // After the fields have changed, bring the ghost fields up to date.
    ghost method Renew()
      requires Apart()
      modifies this`repr, this`model
      ensures Ok(this) && repr == {this} + Repr(t0) + Repr(t1) + Repr(t2) + Repr(t3)
      ensures model == Spelled()
    {
      hide Valid;
      repr, model := {this} + Repr(t0) + Repr(t1) + Repr(t2) + Repr(t3), Spelled();
      Unfold(this);
    }

    constructor Node2(t0: Node?, k0: Word, v0: Word, t1: Node?)
      requires Ok(t0) && Ok(t1) && Repr(t0) !! Repr(t1)
      ensures Ok(this) && fresh(this) && repr == {this} + Repr(t0) + Repr(t1)
      ensures model == Two(Model(t0), k0, v0, Model(t1))
    {
      hide Valid;
      this.arity, this.live := 2, true;
      this.t0, this.k0, this.v0, this.t1 := t0, k0, v0, t1;
      this.t2, this.t3 := null, null;
      new;
      Renew();
    }

    constructor Node3(t0: Node?, k0: Word, v0: Word, t1: Node?, k1: Word, v1: Word, t2: Node?)
      requires Ok(t0) && Ok(t1) && Ok(t2) && Repr(t0) !! Repr(t1) !! Repr(t2)
      ensures Ok(this) && fresh(this) && repr == {this} + Repr(t0) + Repr(t1) + Repr(t2)
      ensures model == Three(Model(t0), k0, v0, Model(t1), k1, v1, Model(t2))
    {
      hide Valid;
      this.arity, this.live := 3, true;
      this.t0, this.k0, this.v0, this.t1, this.k1, this.v1, this.t2 := t0, k0, v0, t1, k1, v1, t2;
      this.t3 := null;
      new;
      Renew();
    }

    constructor Node4(t0: Node?, k0: Word, v0: Word, t1: Node?, k1: Word, v1: Word, t2: Node?, k2: Word, v2: Word,
                      t3: Node?)
      requires Ok(t0) && Ok(t1) && Ok(t2) && Ok(t3) && Repr(t0) !! Repr(t1) !! Repr(t2) !! Repr(t3)
      ensures Ok(this) && fresh(this) && repr == {this} + Repr(t0) + Repr(t1) + Repr(t2) + Repr(t3)
      ensures model == Four(Model(t0), k0, v0, Model(t1), k1, v1, Model(t2), k2, v2, Model(t3))
    {
      hide Valid;
      this.arity, this.live := 4, true;
      this.t0, this.k0, this.v0, this.t1, this.k1, this.v1, this.t2, this.k2, this.v2, this.t3 :=
        t0, k0, v0, t1, k1, v1, t2, k2, v2, t3;
      new;
      Renew();
    }

    method Free()
      modifies this`live
      ensures !live
    {
      live := false;
    }
  }

  lemma Unfold(n: Node)
    ensures n.Valid() <==> n.Shape()
  {
  }

  // A sound node seen one level deep.
  lemma Open(n: Node)
    requires Ok(n)
    ensures n.Apart() && n.model == n.Spelled()
    ensures n.repr == {n} + Repr(n.t0) + Repr(n.t1) + Repr(n.t2) + Repr(n.t3)
  {
    hide Node.Valid;
    Unfold(n);
  }

  // A missing subtree is an empty one.
  lemma NullIsNil(n: Node?)
    requires Ok(n)
    ensures n == null <==> Model(n) == Nil
  {
    hide Node.Valid;
    if n != null {
      Open(n);
    }
  }

  ghost function Model(n: Node?): Tree
    reads n
  {
    if n == null then Nil else n.model
  }

  ghost function Repr(n: Node?): set<Node>
    reads n
  {
    if n == null then {} else n.repr
  }

  ghost predicate Ok(n: Node?)
    reads n, Repr(n)
  {
    n != null ==> n in n.repr && n.Valid()
  }

  // ----- insertion -----

  datatype GrownNode = Whole(node: Node) | Split(left: Node, key: Word, val: Word, right: Node)

  ghost predicate GrownFrom(g: GrownNode, g': Grown)
    reads if g.Whole? then {g.node} + g.node.repr else {g.left, g.right} + g.left.repr + g.right.repr
  {
    match g
    case Whole(n) => Ok(n) && g' == Grown.Whole(n.model)
    case Split(l, k, v, r) =>
      Ok(l) && Ok(r) && l.repr !! r.repr && g' == Grown.Split(l.model, k, v, r.model)
  }

  ghost function GrownRepr(g: GrownNode): set<Node>
    reads if g.Whole? then {g.node} else {g.left, g.right}
  {
    if g.Whole? then g.node.repr else g.left.repr + g.right.repr
  }

  method Insert2(t: Node, k: Word, v: Word, c: Compare) returns (r: Node)
    requires Ok(t) && t.model.Two? && Balanced(t.model) && TotalOrder(c)
    modifies t.repr
    ensures Ok(r) && fresh(r.repr - old(t.repr))
    ensures r.model == P.Insert2(old(t.model), k, v, c)
    decreases Size(t.model), 0
  {
    hide Node.Valid, Node.Shape, TotalOrder, P.InsertChild, P.Insert3, Depth;
    Open(t);
    NullIsNil(t.t0);
    NullIsNil(t.t1);
    DepthZero(t.model);
    var cmp := c(k, t.k0);
    if t.t0 == null {
      var k0, v0 := t.k0, t.v0;
      t.Free();
      if cmp < 0 {
        r := new Node.Node3(null, k, v, null, k0, v0, null);
      } else if cmp > 0 {
        r := new Node.Node3(null, k0, v0, null, k, v, null);
      } else {
        r := new Node.Node2(null, k, v, null);
      }
    } else if cmp < 0 {
      var g := InsertChild(t.t0, k, v, c);
      if g.Whole? {
        t.t0 := g.node;
        t.Renew();
        r := t;
      } else {
        r := new Node.Node3(g.left, g.key, g.val, g.right, t.k0, t.v0, t.t1);
      }
    } else if cmp > 0 {
      var g := InsertChild(t.t1, k, v, c);
      if g.Whole? {
        t.t1 := g.node;
        t.Renew();
        r := t;
      } else {
        r := new Node.Node3(t.t0, t.k0, t.v0, g.left, g.key, g.val, g.right);
      }
    } else {
      Flip(k, t.k0, c);
      t.v0 := v;
      t.Renew();
      r := t;
    }
  }

  method Insert3(t: Node, k: Word, v: Word, c: Compare) returns (r: Node)
    requires Ok(t) && t.model.Three? && Balanced(t.model) && TotalOrder(c)
    modifies t.repr
    ensures Ok(r) && fresh(r.repr - old(t.repr))
    ensures r.model == P.Insert3(old(t.model), k, v, c)
    decreases Size(t.model), 1
  {
    hide Node.Valid, Node.Shape, TotalOrder, P.InsertChild, P.Insert2, Depth, Size;
    Open(t);
    NullIsNil(t.t0);
    NullIsNil(t.t1);
    NullIsNil(t.t2);
    DepthZero(t.model);
    if t.t0 == null {
      r := Insert3Leaf(t, k, v, c);
    } else if c(k, t.k0) < 0 {
      r := Insert3At0(t, k, v, c);
    } else if c(k, t.k0) > 0 {
      if c(k, t.k1) < 0 {
        r := Insert3At1(t, k, v, c);
      } else if c(k, t.k1) > 0 {
        r := Insert3At2(t, k, v, c);
      } else {
        Flip(k, t.k1, c);
        t.v1 := v;
        t.Renew();
        r := t;
      }
    } else {
      Flip(k, t.k0, c);
      t.v0 := v;
      t.Renew();
      r := t;
    }
  }

  // In a balanced node either all children are missing or none is.
  lemma DepthZero(t: Tree)
    requires Balanced(t) && t != Nil
    ensures t.t0 == Nil <==> t.t1 == Nil
    ensures !t.Two? ==> (t.t0 == Nil <==> t.t2 == Nil)
    ensures t.Four? ==> (t.t0 == Nil <==> t.t3 == Nil)
  {
  }

  method Insert3Leaf(t: Node, k: Word, v: Word, c: Compare) returns (r: Node)
    requires Ok(t) && t.model.Three? && t.t0 == null && Balanced(t.model)
    modifies t.repr
    ensures Ok(r) && fresh(r.repr - old(t.repr))
    ensures r.model == P.Insert3(old(t.model), k, v, c)
  {
    hide Node.Valid, Node.Shape, P.InsertChild, P.Insert2;
    Open(t);
    var k0, v0, k1, v1 := t.k0, t.v0, t.k1, t.v1;
    t.Free();
    if c(k, k0) < 0 {
      r := new Node.Node4(null, k, v, null, k0, v0, null, k1, v1, null);
    } else if c(k, k0) > 0 {
      if c(k, k1) < 0 {
        r := new Node.Node4(null, k0, v0, null, k, v, null, k1, v1, null);
      } else if c(k, k1) > 0 {
        r := new Node.Node4(null, k0, v0, null, k1, v1, null, k, v, null);
      } else {
        r := new Node.Node3(null, k0, v0, null, k, v, null);
      }
    } else {
      r := new Node.Node3(null, k, v, null, k1, v1, null);
    }
  }

  method Insert3At0(t: Node, k: Word, v: Word, c: Compare) returns (r: Node)
    requires Ok(t) && t.model.Three? && t.model.t0 != Nil && Balanced(t.model) && TotalOrder(c)
    modifies t.repr
    ensures Ok(r) && fresh(r.repr - old(t.repr))
    ensures var m := old(t.model);
      r.model == match P.InsertChild(m.t0, k, v, c)
        case Whole(nt) => Three(nt, m.k0, m.v0, m.t1, m.k1, m.v1, m.t2)
        case Split(lt, ks, vs, rt) => Four(lt, ks, vs, rt, m.k0, m.v0, m.t1, m.k1, m.v1, m.t2)
    decreases Size(t.model), 0
  {
    hide Node.Valid, Node.Shape, TotalOrder, P.InsertChild, P.Insert2, P.Insert3, Depth;
    Open(t);
    NullIsNil(t.t0);
    var g := InsertChild(t.t0, k, v, c);
    if g.Whole? {
      t.t0 := g.node;
      t.Renew();
      r := t;
    } else {
      r := new Node.Node4(g.left, g.key, g.val, g.right, t.k0, t.v0, t.t1, t.k1, t.v1, t.t2);
    }
  }

  method Insert3At1(t: Node, k: Word, v: Word, c: Compare) returns (r: Node)
    requires Ok(t) && t.model.Three? && t.model.t1 != Nil && Balanced(t.model) && TotalOrder(c)
    modifies t.repr
    ensures Ok(r) && fresh(r.repr - old(t.repr))
    ensures var m := old(t.model);
      r.model == match P.InsertChild(m.t1, k, v, c)
        case Whole(nt) => Three(m.t0, m.k0, m.v0, nt, m.k1, m.v1, m.t2)
        case Split(lt, ks, vs, rt) => Four(m.t0, m.k0, m.v0, lt, ks, vs, rt, m.k1, m.v1, m.t2)
    decreases Size(t.model), 0
  {
    hide Node.Valid, Node.Shape, TotalOrder, P.InsertChild, P.Insert2, P.Insert3, Depth;
    Open(t);
    NullIsNil(t.t1);
    var g := InsertChild(t.t1, k, v, c);
    if g.Whole? {
      t.t1 := g.node;
      t.Renew();
      r := t;
    } else {
      r := new Node.Node4(t.t0, t.k0, t.v0, g.left, g.key, g.val, g.right, t.k1, t.v1, t.t2);
    }
  }

  method Insert3At2(t: Node, k: Word, v: Word, c: Compare) returns (r: Node)
    requires Ok(t) && t.model.Three? && t.model.t2 != Nil && Balanced(t.model) && TotalOrder(c)
    modifies t.repr
    ensures Ok(r) && fresh(r.repr - old(t.repr))
    ensures var m := old(t.model);
      r.model == match P.InsertChild(m.t2, k, v, c)
        case Whole(nt) => Three(m.t0, m.k0, m.v0, m.t1, m.k1, m.v1, nt)
        case Split(lt, ks, vs, rt) => Four(m.t0, m.k0, m.v0, m.t1, m.k1, m.v1, lt, ks, vs, rt)
    decreases Size(t.model), 0
  {
    hide Node.Valid, Node.Shape, TotalOrder, P.InsertChild, P.Insert2, P.Insert3, Depth;
    Open(t);
    NullIsNil(t.t2);
    var g := InsertChild(t.t2, k, v, c);
    if g.Whole? {
      t.t2 := g.node;
      t.Renew();
      r := t;
    } else {
      r := new Node.Node4(t.t0, t.k0, t.v0, t.t1, t.k1, t.v1, g.left, g.key, g.val, g.right);
    }
  }

  // Free a full node after splitting it in two around its middle binding.
  method SplitFull(t: Node) returns (lt: Node, rt: Node)
    requires Ok(t) && t.model.Four?
    modifies t`live
    ensures Ok(lt) && Ok(rt) && lt.repr !! rt.repr && fresh(lt.repr + rt.repr - old(t.repr))
    ensures var m := old(t.model);
      && lt.model == Two(m.t0, m.k0, m.v0, m.t1)
      && rt.model == Two(m.t2, m.k2, m.v2, m.t3)
  {
    hide Node.Valid, Node.Shape;
    Open(t);
    lt := new Node.Node2(t.t0, t.k0, t.v0, t.t1);
    rt := new Node.Node2(t.t2, t.k2, t.v2, t.t3);
    t.Free();
  }

  method InsertChild(t: Node, k: Word, v: Word, c: Compare) returns (g: GrownNode)
    requires Ok(t) && t.model != Nil && Balanced(t.model) && TotalOrder(c)
    modifies t.repr
    ensures fresh(GrownRepr(g) - old(t.repr))
    ensures GrownFrom(g, P.InsertChild(old(t.model), k, v, c))
    decreases Size(t.model), 2
  {
    hide Node.Valid, Node.Shape, TotalOrder, P.Insert2, P.Insert3, Depth;
    Arity(t);
    if t.arity == 2 {
      var n := Insert2(t, k, v, c);
      g := GrownNode.Whole(n);
    } else if t.arity == 3 {
      var n := Insert3(t, k, v, c);
      g := GrownNode.Whole(n);
    } else {
      var k1, v1 := t.k1, t.v1;
      var lt, rt := SplitFull(t);
      if c(k, k1) < 0 {
        var n := Insert2(lt, k, v, c);
        g := GrownNode.Split(n, k1, v1, rt);
      } else if c(k, k1) > 0 {
        var n := Insert2(rt, k, v, c);
        g := GrownNode.Split(lt, k1, v1, n);
      } else {
        g := GrownNode.Split(lt, k, v, rt);
      }
    }
  }

  // The arity of a node tells the form of its tree.
  lemma Arity(n: Node)
    requires Ok(n)
    ensures n.arity == 2 <==> n.model.Two?
    ensures n.arity == 3 <==> n.model.Three?
    ensures n.model.Four? ==> n.k1 == n.model.k1 && n.v1 == n.model.v1
    ensures n.model != Nil && n.arity == Kids(n.model)
  {
    hide Node.Valid, Node.Shape;
    Open(n);
  }

  lemma RootSplit(t: Tree)
    requires t.Four? && Balanced(t)
    ensures Balanced(Two(Two(t.t0, t.k0, t.v0, t.t1), t.k1, t.v1, Two(t.t2, t.k2, t.v2, t.t3)))
  {
    assert Balanced(Two(t.t0, t.k0, t.v0, t.t1)) && Balanced(Two(t.t2, t.k2, t.v2, t.t3));
  }

  method DestructiveInsert(t: Node?, k: Word, v: Word, c: Compare) returns (r: Node)
    requires Ok(t) && Balanced(Model(t)) && TotalOrder(c)
    modifies Repr(t)
    ensures Ok(r) && fresh(r.repr - old(Repr(t)))
    ensures r.model == P.Insert(old(Model(t)), k, v, c)
  {
    hide Node.Valid, Node.Shape, TotalOrder, P.Insert2, P.Insert3, Depth;
    if t == null {
      r := new Node.Node2(null, k, v, null);
    } else {
      Arity(t);
      if t.arity == 2 {
        r := Insert2(t, k, v, c);
      } else if t.arity == 3 {
        r := Insert3(t, k, v, c);
      } else {
        var k1, v1 := t.k1, t.v1;
        var lt, rt := SplitFull(t);
        var nt := new Node.Node2(lt, k1, v1, rt);
        RootSplit(old(t.model));
        r := Insert2(nt, k, v, c);
      }
    }
  }

  // ----- rebalancing -----

  datatype JoinedNode = Fused(node: Node) | Shared(left: Node, key: Word, val: Word, right: Node)

  ghost predicate JoinedFrom(j: JoinedNode, j': Joined)
    reads if j.Fused? then {j.node} + j.node.repr else {j.left, j.right} + j.left.repr + j.right.repr
  {
    match j
    case Fused(n) => Ok(n) && j' == Joined.Fused(n.model)
    case Shared(l, k, v, r) =>
      Ok(l) && Ok(r) && l.repr !! r.repr && j' == Joined.Shared(l.model, k, v, r.model)
  }

  ghost function JoinedRepr(j: JoinedNode): set<Node>
    reads if j.Fused? then {j.node} else {j.left, j.right}
  {
    if j.Fused? then j.node.repr else j.left.repr + j.right.repr
  }

  // A node without its first subtree and binding.
  method ShedFirst(t: Node) returns (rest: Node)
    requires Ok(t) && !t.model.Two?
    ensures Ok(rest) && fresh(rest.repr - t.repr) && t !in rest.repr && Repr(t.t0) !! rest.repr
    ensures rest.model == match t.model
      case Three(_, _, _, t1, k1, v1, t2) => Two(t1, k1, v1, t2)
      case Four(_, _, _, t1, k1, v1, t2, k2, v2, t3) => Three(t1, k1, v1, t2, k2, v2, t3)
      case _ => Nil
  {
    hide Node.Valid, Node.Shape;
    Open(t);
    if t.arity == 3 {
      rest := new Node.Node2(t.t1, t.k1, t.v1, t.t2);
    } else {
      rest := new Node.Node3(t.t1, t.k1, t.v1, t.t2, t.k2, t.v2, t.t3);
    }
  }

  // A node without its last subtree and binding.
  method ShedLast(t: Node) returns (rest: Node)
    requires Ok(t) && !t.model.Two?
    ensures Ok(rest) && fresh(rest.repr - t.repr) && t !in rest.repr
    ensures rest.repr !! Repr(if t.arity == 3 then t.t2 else t.t3)
    ensures rest.model == match t.model
      case Three(t0, k0, v0, t1, _, _, _) => Two(t0, k0, v0, t1)
      case Four(t0, k0, v0, t1, k1, v1, t2, _, _, _) => Three(t0, k0, v0, t1, k1, v1, t2)
      case _ => Nil
  {
    hide Node.Valid, Node.Shape;
    Open(t);
    if t.arity == 3 {
      rest := new Node.Node2(t.t0, t.k0, t.v0, t.t1);
    } else {
      rest := new Node.Node3(t.t0, t.k0, t.v0, t.t1, t.k1, t.v1, t.t2);
    }
  }

  method TakeRight(t0: Node?, k: Word, v: Word, t1: Node) returns (j: JoinedNode)
    requires Ok(t0) && Ok(t1) && Repr(t0) !! t1.repr
    modifies t1`live
    ensures fresh(JoinedRepr(j) - old(Repr(t0) + t1.repr)) && t1 !in JoinedRepr(j)
    ensures t1.model == old(t1.model) != Nil && JoinedFrom(j, P.TakeRight(old(Model(t0)), k, v, t1.model))
  {
    hide Node.Valid, Node.Shape;
    Arity(t1);
    if t1.arity == 2 {
      Open(t1);
      var n := new Node.Node3(t0, k, v, t1.t0, t1.k0, t1.v0, t1.t1);
      j := JoinedNode.Fused(n);
    } else {
      j := ShareRight(t0, k, v, t1);
    }
    t1.Free();
  }

  method ShareRight(t0: Node?, k: Word, v: Word, t1: Node) returns (j: JoinedNode)
    requires Ok(t0) && Ok(t1) && Repr(t0) !! t1.repr && t1.arity > 2
    ensures fresh(JoinedRepr(j) - (Repr(t0) + t1.repr)) && t1 !in JoinedRepr(j) && t1.model != Nil
    ensures JoinedFrom(j, P.TakeRight(Model(t0), k, v, t1.model))
  {
    hide Node.Valid, Node.Shape;
    Open(t1);
    var r := ShedFirst(t1);
    var l := new Node.Node2(t0, k, v, t1.t0);
    j := JoinedNode.Shared(l, t1.k0, t1.v0, r);
  }

  method TakeLeft(t0: Node, k: Word, v: Word, t1: Node?) returns (j: JoinedNode)
    requires Ok(t0) && Ok(t1) && t0.repr !! Repr(t1)
    modifies t0`live
    ensures fresh(JoinedRepr(j) - old(t0.repr + Repr(t1))) && t0 !in JoinedRepr(j)
    ensures t0.model == old(t0.model) != Nil && JoinedFrom(j, P.TakeLeft(t0.model, k, v, old(Model(t1))))
  {
    hide Node.Valid, Node.Shape;
    Arity(t0);
    if t0.arity == 2 {
      Open(t0);
      var n := new Node.Node3(t0.t0, t0.k0, t0.v0, t0.t1, k, v, t1);
      j := JoinedNode.Fused(n);
    } else {
      j := ShareLeft(t0, k, v, t1);
    }
    t0.Free();
  }

  method ShareLeft(t0: Node, k: Word, v: Word, t1: Node?) returns (j: JoinedNode)
    requires Ok(t0) && Ok(t1) && t0.repr !! Repr(t1) && t0.arity > 2
    ensures fresh(JoinedRepr(j) - (t0.repr + Repr(t1))) && t0 !in JoinedRepr(j) && t0.model != Nil
    ensures JoinedFrom(j, P.TakeLeft(t0.model, k, v, Model(t1)))
  {
    hide Node.Valid, Node.Shape;
    Open(t0);
    var l := ShedLast(t0);
    var last := if t0.arity == 3 then t0.t2 else t0.t3;
    var r := new Node.Node2(last, k, v, t1);
    j := JoinedNode.Shared(l, if t0.arity == 3 then t0.k1 else t0.k2, if t0.arity == 3 then t0.v1 else t0.v2, r);
  }

  // The subtrees of a tree by index.
  function Kids(t: Tree): nat {
    match t
    case Nil => 0
    case Two(_, _, _, _) => 2
    case Three(_, _, _, _, _, _, _) => 3
    case Four(_, _, _, _, _, _, _, _, _, _) => 4
  }

  function Kid(t: Tree, i: nat): Tree
    requires i < Kids(t)
  {
    if i == 0 then t.t0 else if i == 1 then t.t1 else if i == 2 then t.t2 else t.t3
  }

  function WithKid(t: Tree, i: nat, n: Tree): Tree
    requires i < Kids(t)
  {
    if i == 0 then t.(t0 := n) else if i == 1 then t.(t1 := n) else if i == 2 then t.(t2 := n) else t.(t3 := n)
  }

  // All subtrees are level, but for subtree i if it was reduced.
  ghost predicate Lopsided(t: Tree, i: nat, reduced: bool)
    requires i < Kids(t)
  {
    var d := Depth(if i == 0 then t.t1 else t.t0);
    forall j :: 0 <= j < Kids(t) ==> Level(Kid(t, j), reduced && i == j, d)
  }

  // The persistent rebuilding step for subtree i.
  function FixAt(t: Tree, i: nat, reduced: bool): Fixed
    requires i < Kids(t) && Lopsided(t, i, reduced)
  {
    assert Level(Kid(t, 0), reduced && i == 0, Depth(if i == 0 then t.t1 else t.t0));
    assert Level(Kid(t, 1), reduced && i == 1, Depth(if i == 0 then t.t1 else t.t0));
    assert !t.Two? ==> Level(Kid(t, 2), reduced && i == 2, Depth(if i == 0 then t.t1 else t.t0));
    assert t.Four? ==> Level(Kid(t, 3), reduced && i == 3, Depth(if i == 0 then t.t1 else t.t0));
    match t
    case Two(t0, k0, v0, t1) =>
      if i == 0 then P.Fix2t0(t0, k0, v0, t1, reduced) else P.Fix2t1(t0, k0, v0, t1, reduced)
    case Three(t0, k0, v0, t1, k1, v1, t2) =>
      if i == 0 then P.Fix3t0(t0, k0, v0, t1, k1, v1, t2, reduced)
      else if i == 1 then P.Fix3t1(t0, k0, v0, t1, k1, v1, t2, reduced)
      else P.Fix3t2(t0, k0, v0, t1, k1, v1, t2, reduced)
    case Four(t0, k0, v0, t1, k1, v1, t2, k2, v2, t3) =>
      if i == 0 then P.Fix4t0(t0, k0, v0, t1, k1, v1, t2, k2, v2, t3, reduced)
      else if i == 1 then P.Fix4t1(t0, k0, v0, t1, k1, v1, t2, k2, v2, t3, reduced)
      else if i == 2 then P.Fix4t2(t0, k0, v0, t1, k1, v1, t2, k2, v2, t3, reduced)
      else P.Fix4t3(t0, k0, v0, t1, k1, v1, t2, k2, v2, t3, reduced)
  }

  // Whether a short subtree i takes from the one after it.
  predicate FromRight(t: Tree, i: nat)
    requires i < Kids(t)
  {
    i == 0 || (t.Four? && i < 3)
  }

  // The node after a short subtree i has been joined with its neighbour.
  function Rejoined(t: Tree, i: nat): Fixed
    requires i < Kids(t)
    requires if FromRight(t, i) then Kid(t, i + 1) != Nil else Kid(t, i - 1) != Nil
  {
    match t
    case Two(t0, k0, v0, t1) =>
      (match if i == 0 then P.TakeRight(t0, k0, v0, t1) else P.TakeLeft(t0, k0, v0, t1)
       case Fused(n) => Fixed(n, true)
       case Shared(l, k, v, r) => Fixed(Two(l, k, v, r), false))
    case Three(t0, k0, v0, t1, k1, v1, t2) =>
      if i == 2 then
        match P.TakeLeft(t1, k1, v1, t2)
        case Fused(n) => Fixed(Two(t0, k0, v0, n), false)
        case Shared(l, k, v, r) => Fixed(Three(t0, k0, v0, l, k, v, r), false)
      else
        (match if i == 0 then P.TakeRight(t0, k0, v0, t1) else P.TakeLeft(t0, k0, v0, t1)
         case Fused(n) => Fixed(Two(n, k1, v1, t2), false)
         case Shared(l, k, v, r) => Fixed(Three(l, k, v, r, k1, v1, t2), false))
    case Four(t0, k0, v0, t1, k1, v1, t2, k2, v2, t3) =>
      if i == 0 then
        match P.TakeRight(t0, k0, v0, t1)
        case Fused(n) => Fixed(Three(n, k1, v1, t2, k2, v2, t3), false)
        case Shared(l, k, v, r) => Fixed(Four(l, k, v, r, k1, v1, t2, k2, v2, t3), false)
      else if i == 1 then
        match P.TakeRight(t1, k1, v1, t2)
        case Fused(n) => Fixed(Three(t0, k0, v0, n, k2, v2, t3), false)
        case Shared(l, k, v, r) => Fixed(Four(t0, k0, v0, l, k, v, r, k2, v2, t3), false)
      else
        (match if i == 2 then P.TakeRight(t2, k2, v2, t3) else P.TakeLeft(t2, k2, v2, t3)
         case Fused(n) => Fixed(Three(t0, k0, v0, t1, k1, v1, n), false)
         case Shared(l, k, v, r) => Fixed(Four(t0, k0, v0, t1, k1, v1, l, k, v, r), false))
  }

  method Fix2(t: Node, i: nat, reduced: bool) returns (r: Node, reduced': bool)
    requires Ok(t) && t.model.Two? && i < 2 && Lopsided(t.model, i, reduced)
    modifies t.repr
    ensures Ok(r) && fresh(r.repr - old(t.repr))
    ensures Fixed(r.model, reduced') == FixAt(old(t.model), i, reduced)
  {
    hide Node.Valid, Node.Shape, FixAt, Lopsided, P.TakeRight, P.TakeLeft;
    FixIsRejoined(t.model, i, reduced);
    if !reduced {
      return t, false;
    }
    Open(t);
    NullIsNil(t.t0);
    NullIsNil(t.t1);
    var t0, k0, v0, t1 := t.t0, t.k0, t.v0, t.t1;
    t.Free();
    var j: JoinedNode;
    if i == 0 {
      j := TakeRight(t0, k0, v0, t1);
    } else {
      j := TakeLeft(t0, k0, v0, t1);
    }
    if j.Fused? {
      return j.node, true;
    }
    r := new Node.Node2(j.left, j.key, j.val, j.right);
    reduced' := false;
  }

  method Fix3(t: Node, i: nat, reduced: bool) returns (r: Node)
    requires Ok(t) && t.model.Three? && i < 3 && Lopsided(t.model, i, reduced)
    modifies t.repr
    ensures Ok(r) && fresh(r.repr - old(t.repr))
    ensures Fixed(r.model, false) == FixAt(old(t.model), i, reduced)
  {
    hide Node.Valid, Node.Shape, FixAt, Lopsided, P.TakeRight, P.TakeLeft;
    FixIsRejoined(t.model, i, reduced);
    if !reduced {
      return t;
    }
    if i == 2 {
      r := Fix3t2(t);
    } else {
      r := Fix3Low(t, i);
    }
  }

  method Fix3Low(t: Node, i: nat) returns (r: Node)
    requires Ok(t) && t.model.Three? && i < 2 && Lopsided(t.model, i, true)
    modifies t.repr
    ensures Ok(r) && fresh(r.repr - old(t.repr))
    ensures Fixed(r.model, false) == FixAt(old(t.model), i, true)
  {
    hide Node.Valid, Node.Shape, FixAt, Lopsided, P.TakeRight, P.TakeLeft;
    FixIsRejoined(t.model, i, true);
    Open(t);
    NullIsNil(t.t0);
    NullIsNil(t.t1);
    var t0, k0, v0, t1, k1, v1, t2 := t.t0, t.k0, t.v0, t.t1, t.k1, t.v1, t.t2;
    t.Free();
    var j: JoinedNode;
    if i == 0 {
      j := TakeRight(t0, k0, v0, t1);
    } else {
      j := TakeLeft(t0, k0, v0, t1);
    }
    if j.Fused? {
      r := new Node.Node2(j.node, k1, v1, t2);
    } else {
      r := new Node.Node3(j.left, j.key, j.val, j.right, k1, v1, t2);
    }
  }

  method Fix3t2(t: Node) returns (r: Node)
    requires Ok(t) && t.model.Three? && Lopsided(t.model, 2, true)
    modifies t.repr
    ensures Ok(r) && fresh(r.repr - old(t.repr))
    ensures Fixed(r.model, false) == FixAt(old(t.model), 2, true)
  {
    hide Node.Valid, Node.Shape, FixAt, Lopsided, P.TakeRight, P.TakeLeft;
    FixIsRejoined(t.model, 2, true);
    Open(t);
    NullIsNil(t.t1);
    var t0, k0, v0, t1, k1, v1, t2 := t.t0, t.k0, t.v0, t.t1, t.k1, t.v1, t.t2;
    t.Free();
    var j := TakeLeft(t1, k1, v1, t2);
    if j.Fused? {
      r := new Node.Node2(t0, k0, v0, j.node);
    } else {
      r := new Node.Node3(t0, k0, v0, j.left, j.key, j.val, j.right);
    }
  }

  method Fix4(t: Node, i: nat, reduced: bool) returns (r: Node)
    requires Ok(t) && t.model.Four? && i < 4 && Lopsided(t.model, i, reduced)
    modifies t.repr
    ensures Ok(r) && fresh(r.repr - old(t.repr))
    ensures Fixed(r.model, false) == FixAt(old(t.model), i, reduced)
  {
    hide Node.Valid, Node.Shape, FixAt, Lopsided, P.TakeRight, P.TakeLeft;
    FixIsRejoined(t.model, i, reduced);
    if !reduced {
      return t;
    }
    if i == 0 {
      r := Fix4t0(t);
    } else if i == 1 {
      r := Fix4t1(t);
    } else if i == 2 {
      r := Fix4t2(t);
    } else {
      r := Fix4t3(t);
    }
  }

  method Fix4t0(t: Node) returns (r: Node)
    requires Ok(t) && t.model.Four? && Lopsided(t.model, 0, true)
    modifies t.repr
    ensures Ok(r) && fresh(r.repr - old(t.repr))
    ensures Fixed(r.model, false) == FixAt(old(t.model), 0, true)
  {
    hide Node.Valid, Node.Shape, FixAt, Lopsided, P.TakeRight, P.TakeLeft;
    FixIsRejoined(t.model, 0, true);
    Open(t);
    NullIsNil(t.t1);
    var t0, k0, v0, t1, k1, v1 := t.t0, t.k0, t.v0, t.t1, t.k1, t.v1;
    var t2, k2, v2, t3 := t.t2, t.k2, t.v2, t.t3;
    t.Free();
    var j := TakeRight(t0, k0, v0, t1);
    if j.Fused? {
      r := new Node.Node3(j.node, k1, v1, t2, k2, v2, t3);
    } else {
      r := new Node.Node4(j.left, j.key, j.val, j.right, k1, v1, t2, k2, v2, t3);
    }
  }

  method Fix4t1(t: Node) returns (r: Node)
    requires Ok(t) && t.model.Four? && Lopsided(t.model, 1, true)
    modifies t.repr
    ensures Ok(r) && fresh(r.repr - old(t.repr))
    ensures Fixed(r.model, false) == FixAt(old(t.model), 1, true)
  {
    hide Node.Valid, Node.Shape, FixAt, Lopsided, P.TakeRight, P.TakeLeft;
    FixIsRejoined(t.model, 1, true);
    Open(t);
    NullIsNil(t.t2);
    var t0, k0, v0, t1, k1, v1 := t.t0, t.k0, t.v0, t.t1, t.k1, t.v1;
    var t2, k2, v2, t3 := t.t2, t.k2, t.v2, t.t3;
    t.Free();
    var j := TakeRight(t1, k1, v1, t2);
    if j.Fused? {
      r := new Node.Node3(t0, k0, v0, j.node, k2, v2, t3);
    } else {
      r := new Node.Node4(t0, k0, v0, j.left, j.key, j.val, j.right, k2, v2, t3);
    }
  }

  method Fix4t2(t: Node) returns (r: Node)
    requires Ok(t) && t.model.Four? && Lopsided(t.model, 2, true)
    modifies t.repr
    ensures Ok(r) && fresh(r.repr - old(t.repr))
    ensures Fixed(r.model, false) == FixAt(old(t.model), 2, true)
  {
    hide Node.Valid, Node.Shape, FixAt, Lopsided, P.TakeRight, P.TakeLeft;
    FixIsRejoined(t.model, 2, true);
    Open(t);
    NullIsNil(t.t3);
    var t0, k0, v0, t1, k1, v1 := t.t0, t.k0, t.v0, t.t1, t.k1, t.v1;
    var t2, k2, v2, t3 := t.t2, t.k2, t.v2, t.t3;
    t.Free();
    var j := TakeRight(t2, k2, v2, t3);
    if j.Fused? {
      r := new Node.Node3(t0, k0, v0, t1, k1, v1, j.node);
    } else {
      r := new Node.Node4(t0, k0, v0, t1, k1, v1, j.left, j.key, j.val, j.right);
    }
  }

  // Here the replaced node is not freed.
  method Fix4t3(t: Node) returns (r: Node)
    requires Ok(t) && t.model.Four? && Lopsided(t.model, 3, true)
    modifies t.repr
    ensures Ok(r) && fresh(r.repr - old(t.repr))
    ensures Fixed(r.model, false) == FixAt(old(t.model), 3, true)
  {
    hide Node.Valid, Node.Shape, FixAt, Lopsided, P.TakeRight, P.TakeLeft;
    FixIsRejoined(t.model, 3, true);
    Open(t);
    NullIsNil(t.t2);
    var t0, k0, v0, t1, k1, v1 := t.t0, t.k0, t.v0, t.t1, t.k1, t.v1;
    var t2, k2, v2, t3 := t.t2, t.k2, t.v2, t.t3;
    var j := TakeLeft(t2, k2, v2, t3);
    if j.Fused? {
      r := new Node.Node3(t0, k0, v0, t1, k1, v1, j.node);
    } else {
      r := new Node.Node4(t0, k0, v0, t1, k1, v1, j.left, j.key, j.val, j.right);
    }
  }

  method Fix(t: Node, i: nat, reduced: bool) returns (r: Node, reduced': bool)
    requires Ok(t) && i < Kids(t.model) && Lopsided(t.model, i, reduced)
    modifies t.repr
    ensures Ok(r) && fresh(r.repr - old(t.repr))
    ensures Fixed(r.model, reduced') == FixAt(old(t.model), i, reduced)
  {
    hide Node.Valid, Node.Shape, FixAt, Lopsided;
    Arity(t);
    reduced' := false;
    if t.arity == 2 {
      r, reduced' := Fix2(t, i, reduced);
    } else if t.arity == 3 {
      r := Fix3(t, i, reduced);
    } else {
      r := Fix4(t, i, reduced);
    }
  }

  // A reduced subtree has a sibling to take from, and what they are joined to
  // takes their place.
  lemma FixIsRejoined(t: Tree, i: nat, reduced: bool)
    requires i < Kids(t) && Lopsided(t, i, reduced)
    ensures !reduced ==> FixAt(t, i, reduced) == Fixed(t, false)
    ensures reduced ==> (if FromRight(t, i) then Kid(t, i + 1) != Nil else Kid(t, i - 1) != Nil)
    ensures reduced ==> FixAt(t, i, reduced) == Rejoined(t, i)
  {
    var d := Depth(if i == 0 then t.t1 else t.t0);
    assert Level(Kid(t, i), reduced, d);
    assert Level(Kid(t, 0), reduced && i == 0, d);
    assert Level(Kid(t, 1), reduced && i == 1, d);
    assert !t.Two? ==> Level(Kid(t, 2), reduced && i == 2, d);
    assert t.Four? ==> Level(Kid(t, 3), reduced && i == 3, d);
  }

  // ----- replacing a subtree -----

  // A sound node seen from one of its subtrees.
  lemma OpenAt(t: Node, i: nat)
    requires Ok(t) && i < t.arity
    ensures t.ApartBut(i) && Ok(t.KidNode(i))
    ensures Repr(t.KidNode(i)) !! t.Rest(i) && t !in Repr(t.KidNode(i))
    ensures t.repr == {t} + t.Rest(i) + Repr(t.KidNode(i))
    ensures Kids(t.model) == t.arity && Kid(t.model, i) == Model(t.KidNode(i))
    ensures t.model == t.Spelled()
  {
    hide Node.Valid;
    Open(t);
  }

  // Hang n below t in place of subtree i.
  method SetKid(t: Node, i: nat, n: Node?)
    requires t.ApartBut(i) && Ok(n) && Repr(n) !! t.Rest(i) && t !in Repr(n)
    modifies t
    ensures Ok(t) && t.repr == {t} + old(t.Rest(i)) + Repr(n)
    ensures Kids(old(t.Spelled())) == t.arity
    ensures t.model == WithKid(old(t.Spelled()), i, Model(n))
  {
    hide Node.Valid, Node.Shape;
    if i == 0 {
      SetKid0(t, n);
    } else if i == 1 {
      SetKid1(t, n);
    } else if i == 2 {
      SetKid2(t, n);
    } else {
      SetKid3(t, n);
    }
  }

  method SetKid0(t: Node, n: Node?)
    requires t.ApartBut(0) && Ok(n) && Repr(n) !! t.Rest(0) && t !in Repr(n)
    modifies t
    ensures Ok(t) && t.repr == {t} + old(t.Rest(0)) + Repr(n)
    ensures t.arity == old(t.arity) == Kids(old(t.Spelled()))
    ensures t.model == WithKid(old(t.Spelled()), 0, Model(n))
  {
    hide Node.Valid, Node.Shape;
    t.t0 := n;
    t.Renew();
  }

  method SetKid1(t: Node, n: Node?)
    requires t.ApartBut(1) && Ok(n) && Repr(n) !! t.Rest(1) && t !in Repr(n)
    modifies t
    ensures Ok(t) && t.repr == {t} + old(t.Rest(1)) + Repr(n)
    ensures t.arity == old(t.arity) == Kids(old(t.Spelled()))
    ensures t.model == WithKid(old(t.Spelled()), 1, Model(n))
  {
    hide Node.Valid, Node.Shape;
    t.t1 := n;
    t.Renew();
  }

  method SetKid2(t: Node, n: Node?)
    requires t.ApartBut(2) && Ok(n) && Repr(n) !! t.Rest(2) && t !in Repr(n)
    modifies t
    ensures Ok(t) && t.repr == {t} + old(t.Rest(2)) + Repr(n)
    ensures t.arity == old(t.arity) == Kids(old(t.Spelled()))
    ensures t.model == WithKid(old(t.Spelled()), 2, Model(n))
  {
    hide Node.Valid, Node.Shape;
    t.t2 := n;
    t.Renew();
  }

  method SetKid3(t: Node, n: Node?)
    requires t.ApartBut(3) && Ok(n) && Repr(n) !! t.Rest(3) && t !in Repr(n)
    modifies t
    ensures Ok(t) && t.repr == {t} + old(t.Rest(3)) + Repr(n)
    ensures t.arity == old(t.arity) == Kids(old(t.Spelled()))
    ensures t.model == WithKid(old(t.Spelled()), 3, Model(n))
  {
    hide Node.Valid, Node.Shape;
    t.t3 := n;
    t.Renew();
  }

  // ----- deletion -----

  // Deleting in subtree i, then rebuilding: the three ways it is done.
  ghost function DeleteIn(t: Tree, i: nat, k: Word, c: Compare): Deleted
    requires Balanced(t) && i < Kids(t)
  {
    var d := P.Delete2(Kid(t, i), k, c);
    StaysLopsided(t, i, d.tree, d.reduced);
    var f := FixAt(WithKid(t, i, d.tree), i, d.reduced);
    Deleted(f.tree, d.out, f.reduced)
  }

  ghost function MinIn(t: Tree): Deleted
    requires Balanced(t) && t != Nil
  {
    var d := P.DeleteMin2(t.t0);
    StaysLopsided(t, 0, d.tree, d.reduced);
    var f := FixAt(WithKid(t, 0, d.tree), 0, d.reduced);
    Deleted(f.tree, d.out, f.reduced)
  }

  function WithKey(t: Tree, i: nat, e: Entry): Tree
    requires i + 1 < Kids(t)
  {
    if i == 0 then t.(k0 := e.0, v0 := e.1) else if i == 1 then t.(k1 := e.0, v1 := e.1) else t.(k2 := e.0, v2 := e.1)
  }

  // The key at i gives way to the smallest one after it.
  ghost function SuccessorIn(t: Tree, i: nat): Fixed
    requires Balanced(t) && i + 1 < Kids(t) && t.t0 != Nil
  {
    DepthZero(t);
    var d := P.DeleteMin2(Kid(t, i + 1));
    StaysLopsided(WithKey(t, i, d.out.value), i + 1, d.tree, d.reduced);
    FixAt(WithKid(WithKey(t, i, d.out.value), i + 1, d.tree), i + 1, d.reduced)
  }

  lemma StaysLopsided(t: Tree, i: nat, n: Tree, reduced: bool)
    requires i < Kids(t) && Balanced(t) && Level(n, reduced, Depth(Kid(t, i)))
    ensures Kids(WithKid(t, i, n)) == Kids(t) && Lopsided(WithKid(t, i, n), i, reduced)
  {
  }

  lemma SmallerKid(t: Tree, i: nat)
    requires i < Kids(t)
    ensures Size(Kid(t, i)) < Size(t)
    ensures Balanced(t) ==> Balanced(Kid(t, i))
  {
  }

  method DestructiveDeleteMin2(n: Node?) returns (r: Node?, out: Option<Entry>, reduced: bool)
    requires Ok(n) && Balanced(Model(n))
    modifies Repr(n)
    ensures Ok(r) && fresh(Repr(r) - old(Repr(n)))
    ensures Deleted(Model(r), out, reduced) == P.DeleteMin2(old(Model(n)))
    decreases Size(Model(n)), 1
  {
    hide Node.Valid, Node.Shape, FixAt, Lopsided, Size;
    if n == null {
      return null, None, false;
    }
    Open(n);
    NullIsNil(n.t0);
    if n.t0 != null {
      r, out, reduced := DeleteMinBelow(n);
      MinUnfolds(old(n.model));
    } else {
      out := Some((n.k0, n.v0));
      reduced := n.arity == 2;
      r := RemoveFromLeaf(n, 0);
    }
  }

  lemma MinUnfolds(t: Tree)
    requires Balanced(t) && t != Nil && t.t0 != Nil
    ensures P.DeleteMin2(t) == MinIn(t)
  {
  }

  method DeleteMinBelow(n: Node) returns (r: Node, out: Option<Entry>, reduced: bool)
    requires Ok(n) && Balanced(n.model)
    modifies n.repr
    ensures Ok(r) && fresh(r.repr - old(n.repr)) && old(n.model) != Nil
    ensures Deleted(r.model, out, reduced) == MinIn(old(n.model))
    decreases Size(n.model), 0
  {
    hide Node.Valid, Node.Shape, FixAt, Lopsided, Size, P.DeleteMin2, Balanced;
    Arity(n);
    OpenAt(n, 0);
    SmallerKid(n.model, 0);
    var nt, e, red := DestructiveDeleteMin2(n.t0);
    StaysLopsided(old(n.model), 0, Model(nt), red);
    SetKid(n, 0, nt);
    r, reduced := Fix(n, 0, red);
    out := e;
  }

  method DeleteBelow(n: Node, i: nat, k: Word, c: Compare) returns (r: Node, out: Option<Entry>, reduced: bool)
    requires Ok(n) && Balanced(n.model) && i < Kids(n.model)
    modifies n.repr
    ensures Ok(r) && fresh(r.repr - old(n.repr))
    ensures Deleted(r.model, out, reduced) == DeleteIn(old(n.model), i, k, c)
    decreases Size(n.model), 1
  {
    hide Node.Valid, Node.Shape, FixAt, Lopsided, Size, P.Delete2, Balanced, Depth, WithKid, SameBut,
      Node.ApartBut, Node.Rest, Node.Spelled;
    var nt, e, red := DetachDelete(n, i, k, c);
    StaysLopsided(old(n.model), i, Model(nt), red);
    SameThere(n.Spelled(), old(n.model), i, Model(nt));
    SetKid(n, i, nt);
    r, reduced := Fix(n, i, red);
    out := e;
  }

  // Delete in subtree i, leaving the node open there.
  method DetachDelete(t: Node, i: nat, k: Word, c: Compare) returns (n: Node?, out: Option<Entry>, reduced: bool)
    requires Ok(t) && Balanced(t.model) && i < Kids(t.model)
    modifies t.repr - {t}
    ensures t.ApartBut(i) && t.Rest(i) == old(t.Rest(i)) <= old(t.repr)
    ensures Ok(n) && Repr(n) !! t.Rest(i) && t !in Repr(n) && fresh(Repr(n) - old(t.repr))
    ensures SameBut(t.Spelled(), old(t.model), i)
    ensures Deleted(Model(n), out, reduced) == P.Delete2(old(Kid(t.model, i)), k, c)
    decreases Size(t.model), 0
  {
    hide Node.Valid, Node.Shape, Size, P.Delete2, Balanced;
    Arity(t);
    OpenAt(t, i);
    SmallerKid(t.model, i);
    n, out, reduced := DestructiveDelete2(t.KidNode(i), k, c);
  }

  // Overwrite key i while the subtree after it is being replaced.
  method SetKey(t: Node, i: nat, e: Entry)
    requires t.ApartBut(i + 1)
    modifies t`k0, t`v0, t`k1, t`v1, t`k2, t`v2
    ensures t.ApartBut(i + 1) && t.Rest(i + 1) == old(t.Rest(i + 1))
    ensures Kids(old(t.Spelled())) == t.arity && t.Spelled() == WithKey(old(t.Spelled()), i, e)
  {
    hide Node.Valid, Node.Shape;
    if i == 0 {
      t.k0, t.v0 := e.0, e.1;
    } else if i == 1 {
      t.k1, t.v1 := e.0, e.1;
    } else {
      t.k2, t.v2 := e.0, e.1;
    }
  }

  // Two trees that differ at most in subtree i.
  ghost predicate SameBut(a: Tree, b: Tree, i: nat) {
    Kids(a) == Kids(b) && i < Kids(a) && WithKid(a, i, Nil) == WithKid(b, i, Nil)
  }

  lemma SameThere(a: Tree, b: Tree, i: nat, n: Tree)
    requires SameBut(a, b, i)
    ensures WithKid(a, i, n) == WithKid(b, i, n)
  {
  }

  lemma SameThen(a: Tree, b: Tree, i: nat, e: Entry, n: Tree)
    requires SameBut(a, b, i + 1)
    ensures Kids(WithKey(a, i, e)) == Kids(WithKey(b, i, e)) == Kids(b)
    ensures WithKid(WithKey(a, i, e), i + 1, n) == WithKid(WithKey(b, i, e), i + 1, n)
  {
  }

  // Take the smallest binding out of subtree i, leaving the node open there.
  method DetachMin(t: Node, i: nat) returns (n: Node?, e: Entry, reduced: bool)
    requires Ok(t) && Balanced(t.model) && i < Kids(t.model) && Kid(t.model, i) != Nil
    modifies t.repr - {t}
    ensures t.ApartBut(i) && t.Rest(i) == old(t.Rest(i)) <= old(t.repr)
    ensures Ok(n) && Repr(n) !! t.Rest(i) && t !in Repr(n) && fresh(Repr(n) - old(t.repr))
    ensures SameBut(t.Spelled(), old(t.model), i)
    ensures Deleted(Model(n), Some(e), reduced) == P.DeleteMin2(old(Kid(t.model, i)))
    decreases Size(t.model), 0
  {
    hide Node.Valid, Node.Shape, Size, P.DeleteMin2, Balanced;
    Arity(t);
    OpenAt(t, i);
    SmallerKid(t.model, i);
    MinThere(Kid(t.model, i));
    var out;
    n, out, reduced := DestructiveDeleteMin2(t.KidNode(i));
    e := out.value;
  }

  lemma MinThere(t: Tree)
    requires Balanced(t) && t != Nil
    ensures P.DeleteMin2(t).out.Some?
  {
  }

  // Replace key i by its successor.
  method ReplaceBySuccessor(n: Node, i: nat) returns (r: Node, reduced: bool)
    requires Ok(n) && Balanced(n.model) && i + 1 < Kids(n.model) && n.model.t0 != Nil
    modifies n.repr
    ensures Ok(r) && fresh(r.repr - old(n.repr))
    ensures Fixed(r.model, reduced) == SuccessorIn(old(n.model), i)
  {
    hide Node.Valid, Node.Shape, FixAt, Lopsided, Size, P.DeleteMin2, Balanced, Depth, WithKid, WithKey, SameBut,
      Node.ApartBut, Node.Rest, Node.Spelled;
    Arity(n);
    NonNilKid(n.model, i + 1);
    var nt, e, red := DetachMin(n, i + 1);
    SuccessorLopsided(old(n.model), i, Model(nt), red, e);
    SameThen(n.Spelled(), old(n.model), i, e, Model(nt));
    SetKey(n, i, e);
    SetKid(n, i + 1, nt);
    r, reduced := Fix(n, i + 1, red);
  }

  lemma NonNilKid(t: Tree, i: nat)
    requires Balanced(t) && i < Kids(t) && t.t0 != Nil
    ensures Kid(t, i) != Nil
  {
  }

  lemma SuccessorLopsided(t: Tree, i: nat, n: Tree, reduced: bool, e: Entry)
    requires i + 1 < Kids(t) && Balanced(t) && Level(n, reduced, Depth(Kid(t, i + 1)))
    ensures Kids(WithKid(WithKey(t, i, e), i + 1, n)) == Kids(t)
    ensures Lopsided(WithKid(WithKey(t, i, e), i + 1, n), i + 1, reduced)
  {
    StaysLopsided(WithKey(t, i, e), i + 1, n, reduced);
  }

  // Remove key i of a leaf.
  method RemoveFromLeaf(n: Node, i: nat) returns (r: Node?)
    requires Ok(n) && i + 1 < Kids(n.model) && Balanced(n.model) && n.model.t0 == Nil
    modifies n`live
    ensures Ok(r) && fresh(Repr(r) - old(n.repr))
    ensures Model(r) == match old(n.model)
      case Three(_, k0, v0, _, k1, v1, _) => if i == 0 then Two(Nil, k1, v1, Nil) else Two(Nil, k0, v0, Nil)
      case Four(_, k0, v0, _, k1, v1, _, k2, v2, _) =>
        if i == 0 then Three(Nil, k1, v1, Nil, k2, v2, Nil)
        else if i == 1 then Three(Nil, k0, v0, Nil, k2, v2, Nil)
        else Three(Nil, k0, v0, Nil, k1, v1, Nil)
      case _ => Nil
  {
    hide Node.Valid, Node.Shape;
    Open(n);
    var arity, k0, v0, k1, v1, k2, v2 := n.arity, n.k0, n.v0, n.k1, n.v1, n.k2, n.v2;
    n.Free();
    if arity == 2 {
      r := null;
    } else if arity == 3 {
      if i == 0 {
        r := new Node.Node2(null, k1, v1, null);
      } else {
        r := new Node.Node2(null, k0, v0, null);
      }
    } else if i == 0 {
      r := new Node.Node3(null, k1, v1, null, k2, v2, null);
    } else if i == 1 {
      r := new Node.Node3(null, k0, v0, null, k2, v2, null);
    } else {
      r := new Node.Node3(null, k0, v0, null, k1, v1, null);
    }
  }

  // Key i of a node.
  function KeyAt(t: Tree, i: nat): Entry
    requires i + 1 < Kids(t)
  {
    if i == 0 then (t.k0, t.v0) else if i == 1 then (t.k1, t.v1) else (t.k2, t.v2)
  }

  // Removing key i, which k has hit.
  ghost function RemoveIn(t: Tree, i: nat): Deleted
    requires Balanced(t) && i + 1 < Kids(t)
  {
    if t.t0 == Nil then
      match t
      case Two(_, _, _, _) => Deleted(Nil, Some(KeyAt(t, i)), true)
      case Three(_, k0, v0, _, k1, v1, _) =>
        Deleted(if i == 0 then Two(Nil, k1, v1, Nil) else Two(Nil, k0, v0, Nil), Some(KeyAt(t, i)), false)
      case Four(_, k0, v0, _, k1, v1, _, k2, v2, _) =>
        Deleted(if i == 0 then Three(Nil, k1, v1, Nil, k2, v2, Nil)
                else if i == 1 then Three(Nil, k0, v0, Nil, k2, v2, Nil)
                else Three(Nil, k0, v0, Nil, k1, v1, Nil), Some(KeyAt(t, i)), false)
    else
      var f := SuccessorIn(t, i);
      Deleted(f.tree, Some(KeyAt(t, i)), f.reduced)
  }

  method RemoveKey(n: Node, i: nat) returns (r: Node?, out: Option<Entry>, reduced: bool)
    requires Ok(n) && Balanced(n.model) && i + 1 < Kids(n.model)
    modifies n.repr
    ensures Ok(r) && fresh(Repr(r) - old(n.repr))
    ensures Deleted(Model(r), out, reduced) == RemoveIn(old(n.model), i)
    decreases Size(n.model), 0
  {
    hide Node.Valid, Node.Shape, SuccessorIn, Size;
    Open(n);
    NullIsNil(n.t0);
    NullIsNil(n.KidNode(i + 1));
    DepthZero(n.model);
    out := Some(if i == 0 then (n.k0, n.v0) else if i == 1 then (n.k1, n.v1) else (n.k2, n.v2));
    if n.KidNode(i + 1) == null {
      reduced := n.arity == 2;
      r := RemoveFromLeaf(n, i);
    } else {
      r, reduced := ReplaceBySuccessor(n, i);
    }
  }

  // Where k goes in a node: into a subtree, or onto a key.
  datatype Way = Down(i: nat) | Hit(i: nat)

  function WayOf(t: Tree, k: Word, c: Compare): (w: Way)
    requires t != Nil
    ensures w.Down? ==> w.i < Kids(t)
    ensures w.Hit? ==> w.i + 1 < Kids(t)
  {
    match t
    case Two(_, k0, _, _) => if c(k, k0) < 0 then Down(0) else if c(k, k0) > 0 then Down(1) else Hit(0)
    case Three(_, k0, _, _, k1, _, _) =>
      if c(k, k0) < 0 then Down(0)
      else if c(k, k0) > 0 then if c(k, k1) < 0 then Down(1) else if c(k, k1) > 0 then Down(2) else Hit(1)
      else Hit(0)
    case Four(_, k0, _, _, k1, _, _, k2, _, _) =>
      if c(k, k1) < 0 then if c(k, k0) < 0 then Down(0) else if c(k, k0) > 0 then Down(1) else Hit(0)
      else if c(k, k1) > 0 then if c(k, k2) < 0 then Down(2) else if c(k, k2) > 0 then Down(3) else Hit(2)
      else Hit(1)
  }

  // The persistent deletion, by the way it takes.
  ghost predicate Unfolds(t: Tree, k: Word, c: Compare)
    requires t != Nil && Balanced(t)
  {
    var w := WayOf(t, k, c);
    P.Delete2(t, k, c) == if w.Down? then DeleteIn(t, w.i, k, c) else RemoveIn(t, w.i)
  }

  lemma DeleteUnfolds(t: Tree, k: Word, c: Compare)
    requires t != Nil && Balanced(t)
    ensures Unfolds(t, k, c)
  {
    hide *;
    match t
    case Two(_, _, _, _) => DeleteUnfolds2(t, k, c);
    case Three(_, _, _, _, _, _, _) => DeleteUnfolds3(t, k, c);
    case Four(_, _, _, _, _, _, _, _, _, _) => DeleteUnfolds4(t, k, c);
  }

  lemma DeleteUnfolds2(t: Tree, k: Word, c: Compare)
    requires t.Two? && Balanced(t)
    ensures Unfolds(t, k, c)
  {
    DepthZero(t);
  }

  lemma DeleteUnfolds3(t: Tree, k: Word, c: Compare)
    requires t.Three? && Balanced(t)
    ensures Unfolds(t, k, c)
  {
    hide *;
    if WayOf(t, k, c).Down? {
      DescentUnfolds3(t, k, c);
    } else {
      HitUnfolds3(t, k, c);
    }
  }

  lemma DescentUnfolds3(t: Tree, k: Word, c: Compare)
    requires t.Three? && Balanced(t) && WayOf(t, k, c).Down?
    ensures Unfolds(t, k, c)
  {
  }

  lemma HitUnfolds3(t: Tree, k: Word, c: Compare)
    requires t.Three? && Balanced(t) && WayOf(t, k, c).Hit?
    ensures Unfolds(t, k, c)
  {
    DepthZero(t);
  }

  lemma DeleteUnfolds4(t: Tree, k: Word, c: Compare)
    requires t.Four? && Balanced(t)
    ensures Unfolds(t, k, c)
  {
    hide *;
    if WayOf(t, k, c).Down? {
      DescentUnfolds4(t, k, c);
    } else {
      HitUnfolds4(t, k, c);
    }
  }

  lemma DescentUnfolds4(t: Tree, k: Word, c: Compare)
    requires t.Four? && Balanced(t) && WayOf(t, k, c).Down?
    ensures Unfolds(t, k, c)
  {
  }

  lemma HitUnfolds4(t: Tree, k: Word, c: Compare)
    requires t.Four? && Balanced(t) && WayOf(t, k, c).Hit?
    ensures Unfolds(t, k, c)
  {
    DepthZero(t);
  }

  method DestructiveDelete2(n: Node?, k: Word, c: Compare) returns (r: Node?, out: Option<Entry>, reduced: bool)
    requires Ok(n) && Balanced(Model(n))
    modifies Repr(n)
    ensures Ok(r) && fresh(Repr(r) - old(Repr(n)))
    ensures Deleted(Model(r), out, reduced) == P.Delete2(old(Model(n)), k, c)
    decreases Size(Model(n)), 2
  {
    hide Node.Valid, Node.Shape, FixAt, Lopsided, Size, WayOf, DeleteIn, RemoveIn;
    if n == null {
      return null, None, false;
    }
    Arity(n);
    DeleteUnfolds(n.model, k, c);
    var w := Turn(n, k, c);
    if w.Down? {
      r, out, reduced := DeleteBelow(n, w.i, k, c);
    } else {
      r, out, reduced := RemoveKey(n, w.i);
    }
  }

  // The comparisons made at a node.
  method Turn(n: Node, k: Word, c: Compare) returns (w: Way)
    requires Ok(n)
    ensures n.model != Nil && w == WayOf(n.model, k, c)
  {
    hide Node.Valid, Node.Shape;
    Open(n);
    var cmp;
    if n.arity == 2 {
      cmp := c(k, n.k0);
      return if cmp < 0 then Down(0) else if cmp > 0 then Down(1) else Hit(0);
    } else if n.arity == 3 {
      cmp := c(k, n.k0);
      if cmp > 0 {
        cmp := c(k, n.k1);
        return if cmp < 0 then Down(1) else if cmp > 0 then Down(2) else Hit(1);
      }
      return if cmp < 0 then Down(0) else Hit(0);
    } else {
      cmp := c(k, n.k1);
      if cmp < 0 {
        cmp := c(k, n.k0);
        return if cmp < 0 then Down(0) else if cmp > 0 then Down(1) else Hit(0);
      } else if cmp > 0 {
        cmp := c(k, n.k2);
        return if cmp < 0 then Down(2) else if cmp > 0 then Down(3) else Hit(2);
      }
      return Hit(1);
    }
  }

  // The destructive deletion returns what the persistent one does, and
  // leaves the tree that the persistent one builds.
  method DestructiveDelete(n: Node?, k: Word, c: Compare) returns (r: Node?, out: Option<Entry>)
    requires Ok(n) && ValidTree(Model(n), c) && TotalOrder(c)
    modifies Repr(n)
    ensures Ok(r) && fresh(Repr(r) - old(Repr(n)))
    ensures Model(r) == P.Delete(old(Model(n)), k, c).tree && out == P.Delete(old(Model(n)), k, c).out
    ensures MapOf(Items(Model(r))) == MapOf(Items(old(Model(n)))) - {k} && ValidTree(Model(r), c)
  {
    hide Node.Valid, Node.Shape, P.Delete2, TotalOrder, Sorted, MapOf, Items;
    DeleteIsRemoval(Model(n), k, c);
    var reduced;
    r, out, reduced := DestructiveDelete2(n, k, c);
  }

  // ----- mapping in place -----

  // Map over subtree i.
  method MapKid(t: Node, i: nat, f: Mapping)
    requires Ok(t) && i < Kids(t.model)
    modifies t.repr
    ensures Ok(t) && t.repr == old(t.repr)
    ensures t.model == WithKid(old(t.model), i, MapInPlace(Kid(old(t.model), i), f))
    decreases t.repr, 0
  {
    hide Node.Valid, Node.Shape, MapInPlace;
    Arity(t);
    OpenAt(t, i);
    DestructiveMap(t.KidNode(i), f);
    SetKid(t, i, t.KidNode(i));
  }

  // Apply f to the value of key i.
  method PutValue(t: Node, i: nat, f: Mapping)
    requires t.Apart() && i + 1 < Kids(t.Spelled())
    modifies t`v0, t`v1, t`v2
    ensures t.Apart()
    ensures var e := KeyAt(old(t.Spelled()), i); t.Spelled() == WithKey(old(t.Spelled()), i, (e.0, f(e.0, e.1)))
  {
    hide Node.Valid, Node.Shape;
    if i == 0 {
      t.v0 := f(t.k0, t.v0);
    } else if i == 1 {
      t.v1 := f(t.k1, t.v1);
    } else {
      t.v2 := f(t.k2, t.v2);
    }
  }

  method MapValue(t: Node, i: nat, f: Mapping)
    requires Ok(t) && i + 1 < Kids(t.model)
    modifies t
    ensures Ok(t) && t.repr == old(t.repr)
    ensures var e := KeyAt(old(t.model), i); t.model == WithKey(old(t.model), i, (e.0, f(e.0, e.1)))
  {
    hide Node.Valid, Node.Shape;
    Open(t);
    PutValue(t, i, f);
    t.Renew();
  }

  lemma MapUnfolds(t: Tree, f: Mapping)
    ensures MapInPlace(t, f) == match t
      case Nil => Nil
      case Two(t0, k0, v0, t1) => Two(MapInPlace(t0, f), k0, f(k0, v0), MapInPlace(t1, f))
      case Three(t0, k0, v0, t1, k1, v1, t2) =>
        Three(MapInPlace(t0, f), k0, f(k0, v0), MapInPlace(t1, f), k1, f(k1, v1), MapInPlace(t2, f))
      case Four(t0, k0, v0, t1, k1, v1, t2, k2, v2, t3) =>
        Four(MapInPlace(t0, f), k0, f(k0, v0), MapInPlace(t1, f), k1, f(k1, v1), MapInPlace(t2, f), k2, f(k2, v2), t3)
  {
  }

  // The last child of a full node is left alone.
  method DestructiveMap(t: Node?, f: Mapping)
    requires Ok(t)
    modifies Repr(t)
    ensures Ok(t) && Repr(t) == old(Repr(t))
    ensures Model(t) == MapInPlace(old(Model(t)), f)
    decreases Repr(t), 1
  {
    hide Node.Valid, Node.Shape, MapInPlace;
    if t == null {
      MapUnfolds(Nil, f);
      return;
    }
    Arity(t);
    MapUnfolds(t.model, f);
    MapKid(t, 0, f);
    MapValue(t, 0, f);
    MapKid(t, 1, f);
    Arity(t);
    if t.arity > 2 {
      MapValue(t, 1, f);
      MapKid(t, 2, f);
      Arity(t);
      if t.arity > 3 {
        MapValue(t, 2, f);
      }
    }
  }
}
