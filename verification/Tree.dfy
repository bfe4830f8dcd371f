// Persistent 2-3-4 trees (tree.c): search, insertion with splitting on the
// way down, and deletion with rebalancing on the way up.
module Tree {
  import opened Wrappers
  import opened TreeOrder

  datatype Tree =
    | Nil
    | Two(t0: Tree, k0: Word, v0: Word, t1: Tree)
    | Three(t0: Tree, k0: Word, v0: Word, t1: Tree, k1: Word, v1: Word, t2: Tree)
    | Four(t0: Tree, k0: Word, v0: Word, t1: Tree, k1: Word, v1: Word, t2: Tree, k2: Word, v2: Word, t3: Tree)

  // The bindings of a tree, left to right.
  function Items(t: Tree): seq<Entry> {
    match t
    case Nil => []
    case Two(t0, k0, v0, t1) => Join(Items(t0), (k0, v0), Items(t1))
    case Three(t0, k0, v0, t1, k1, v1, t2) =>
      Join(Join(Items(t0), (k0, v0), Items(t1)), (k1, v1), Items(t2))
    case Four(t0, k0, v0, t1, k1, v1, t2, k2, v2, t3) =>
      Join(Join(Items(t0), (k0, v0), Items(t1)), (k1, v1), Join(Items(t2), (k2, v2), Items(t3)))
  }

  function Depth(t: Tree): nat {
    if t.Nil? then 0 else 1 + Depth(t.t0)
  }

  function Size(t: Tree): nat {
    match t
    case Nil => 0
    case Two(t0, _, _, t1) => 1 + Size(t0) + Size(t1)
    case Three(t0, _, _, t1, _, _, t2) => 2 + Size(t0) + Size(t1) + Size(t2)
    case Four(t0, _, _, t1, _, _, t2, _, _, t3) => 3 + Size(t0) + Size(t1) + Size(t2) + Size(t3)
  }

  // All leaves are equally deep.
  ghost predicate Balanced(t: Tree) {
    match t
    case Nil => true
    case Two(t0, _, _, t1) => Balanced(t0) && Balanced(t1) && Depth(t0) == Depth(t1)
    case Three(t0, _, _, t1, _, _, t2) =>
      Balanced(t0) && Balanced(t1) && Balanced(t2) && Depth(t0) == Depth(t1) == Depth(t2)
    case Four(t0, _, _, t1, _, _, t2, _, _, t3) =>
      && Balanced(t0) && Balanced(t1) && Balanced(t2) && Balanced(t3)
      && Depth(t0) == Depth(t1) == Depth(t2) == Depth(t3)
  }

  // What every tree built by the library satisfies.
  ghost predicate ValidTree(t: Tree, c: Compare) {
    Balanced(t) && Sorted(Items(t), c)
  }

  lemma SizeIsLength(t: Tree)
    ensures Size(t) == |Items(t)|
  {
  }

  // ----- insertion -----

  // A child after an insertion: still one child, or split in two around a binding.
  datatype Grown = Whole(tree: Tree) | Split(left: Tree, key: Word, val: Word, right: Tree)

  function Insert(t: Tree, k: Word, v: Word, c: Compare): Tree
    requires Balanced(t)
  {
    match t
    case Nil => Two(Nil, k, v, Nil)
    case Two(_, _, _, _) => Insert2(t, k, v, c)
    case Three(_, _, _, _, _, _, _) => Insert3(t, k, v, c)
    case Four(t0, k0, v0, t1, k1, v1, t2, k2, v2, t3) =>
      var lt := Two(t0, k0, v0, t1);
      var rt := Two(t2, k2, v2, t3);
      assert Balanced(lt) && Balanced(rt) && Depth(lt) == Depth(rt);
      Insert2(Two(lt, k1, v1, rt), k, v, c)
  }

  function Insert2(t: Tree, k: Word, v: Word, c: Compare): Tree
    requires t.Two? && Balanced(t)
    decreases Size(t), 0
  {
    var cmp := c(k, t.k0);
    if t.t0 == Nil then
      if cmp < 0 then Three(Nil, k, v, Nil, t.k0, t.v0, Nil)
      else if cmp > 0 then Three(Nil, t.k0, t.v0, Nil, k, v, Nil)
      else Two(Nil, k, v, Nil)
    else if cmp < 0 then
      match InsertChild(t.t0, k, v, c)
      case Whole(nt) => Two(nt, t.k0, t.v0, t.t1)
      case Split(lt, ks, vs, rt) => Three(lt, ks, vs, rt, t.k0, t.v0, t.t1)
    else if cmp > 0 then
      match InsertChild(t.t1, k, v, c)
      case Whole(nt) => Two(t.t0, t.k0, t.v0, nt)
      case Split(lt, ks, vs, rt) => Three(t.t0, t.k0, t.v0, lt, ks, vs, rt)
    else
      Two(t.t0, k, v, t.t1)
  }

  function Insert3(t: Tree, k: Word, v: Word, c: Compare): Tree
    requires t.Three? && Balanced(t)
    decreases Size(t), 0
  {
    if t.t0 == Nil then
      if c(k, t.k0) < 0 then Four(Nil, k, v, Nil, t.k0, t.v0, Nil, t.k1, t.v1, Nil)
      else if c(k, t.k0) > 0 then
        if c(k, t.k1) < 0 then Four(Nil, t.k0, t.v0, Nil, k, v, Nil, t.k1, t.v1, Nil)
        else if c(k, t.k1) > 0 then Four(Nil, t.k0, t.v0, Nil, t.k1, t.v1, Nil, k, v, Nil)
        else Three(Nil, t.k0, t.v0, Nil, k, v, Nil)
      else Three(Nil, k, v, Nil, t.k1, t.v1, Nil)
    else if c(k, t.k0) < 0 then
      match InsertChild(t.t0, k, v, c)
      case Whole(nt) => Three(nt, t.k0, t.v0, t.t1, t.k1, t.v1, t.t2)
      case Split(lt, ks, vs, rt) => Four(lt, ks, vs, rt, t.k0, t.v0, t.t1, t.k1, t.v1, t.t2)
    else if c(k, t.k0) > 0 then
      if c(k, t.k1) < 0 then
        match InsertChild(t.t1, k, v, c)
        case Whole(nt) => Three(t.t0, t.k0, t.v0, nt, t.k1, t.v1, t.t2)
        case Split(lt, ks, vs, rt) => Four(t.t0, t.k0, t.v0, lt, ks, vs, rt, t.k1, t.v1, t.t2)
      else if c(k, t.k1) > 0 then
        match InsertChild(t.t2, k, v, c)
        case Whole(nt) => Three(t.t0, t.k0, t.v0, t.t1, t.k1, t.v1, nt)
        case Split(lt, ks, vs, rt) => Four(t.t0, t.k0, t.v0, t.t1, t.k1, t.v1, lt, ks, vs, rt)
      else Three(t.t0, t.k0, t.v0, t.t1, k, v, t.t2)
    else Three(t.t0, k, v, t.t1, t.k1, t.v1, t.t2)
  }

  // Insertion into a child; a child that is full is split first.
  function InsertChild(t: Tree, k: Word, v: Word, c: Compare): Grown
    requires t != Nil && Balanced(t)
    decreases Size(t), 1
  {
    match t
    case Two(_, _, _, _) => Whole(Insert2(t, k, v, c))
    case Three(_, _, _, _, _, _, _) => Whole(Insert3(t, k, v, c))
    case Four(t0, k0, v0, t1, k1, v1, t2, k2, v2, t3) =>
      var lt := Two(t0, k0, v0, t1);
      var rt := Two(t2, k2, v2, t3);
      if c(k, k1) < 0 then Split(Insert2(lt, k, v, c), k1, v1, rt)
      else if c(k, k1) > 0 then Split(lt, k1, v1, Insert2(rt, k, v, c))
      else Split(lt, k, v, rt)
  }

  // ----- rebalancing after a deletion -----

  // Two siblings, one of which lost a level, put together again.
  datatype Joined = Fused(tree: Tree) | Shared(left: Tree, key: Word, val: Word, right: Tree)

  // The left one is short: take from the right one.
  function TakeRight(t0: Tree, k: Word, v: Word, t1: Tree): Joined
    requires t1 != Nil
  {
    match t1
    case Two(a, ka, va, b) => Fused(Three(t0, k, v, a, ka, va, b))
    case Three(a, ka, va, b, kb, vb, d) => Shared(Two(t0, k, v, a), ka, va, Two(b, kb, vb, d))
    case Four(a, ka, va, b, kb, vb, d, kd, vd, e) =>
      Shared(Two(t0, k, v, a), ka, va, Three(b, kb, vb, d, kd, vd, e))
  }

  // The right one is short: take from the left one.
  function TakeLeft(t0: Tree, k: Word, v: Word, t1: Tree): Joined
    requires t0 != Nil
  {
    match t0
    case Two(a, ka, va, b) => Fused(Three(a, ka, va, b, k, v, t1))
    case Three(a, ka, va, b, kb, vb, d) => Shared(Two(a, ka, va, b), kb, vb, Two(d, k, v, t1))
    case Four(a, ka, va, b, kb, vb, d, kd, vd, e) =>
      Shared(Three(a, ka, va, b, kb, vb, d), kd, vd, Two(e, k, v, t1))
  }

  ghost function JoinedItems(j: Joined): seq<Entry> {
    match j
    case Fused(t) => Items(t)
    case Shared(l, k, v, r) => Join(Items(l), (k, v), Items(r))
  }

  // The pieces are level with each other and as deep as the taller sibling.
  ghost predicate JoinedLevel(j: Joined, d: nat) {
    match j
    case Fused(t) => Balanced(t) && Depth(t) == d
    case Shared(l, _, _, r) => Balanced(l) && Balanced(r) && Depth(l) == Depth(r) == d
  }

  lemma TakeRightKeeps(t0: Tree, k: Word, v: Word, t1: Tree)
    requires t1 != Nil && Balanced(t0) && Balanced(t1) && Depth(t0) + 1 == Depth(t1)
    ensures JoinedItems(TakeRight(t0, k, v, t1)) == Join(Items(t0), (k, v), Items(t1))
    ensures JoinedLevel(TakeRight(t0, k, v, t1), Depth(t1))
  {
    hide Join;
    match t1
    case Two(a, ka, va, b) =>
      JoinAssoc(Items(t0), (k, v), Items(a), (ka, va), Items(b));
    case Three(a, ka, va, b, kb, vb, d) =>
      JoinAssoc(Items(a), (ka, va), Items(b), (kb, vb), Items(d));
      JoinAssoc(Items(t0), (k, v), Items(a), (ka, va), Items(TakeRight(t0, k, v, t1).right));
    case Four(a, ka, va, b, kb, vb, d, kd, vd, e) =>
      JoinAssoc(Items(a), (ka, va), Items(b), (kb, vb), Join(Items(d), (kd, vd), Items(e)));
      JoinAssoc(Items(b), (kb, vb), Items(d), (kd, vd), Items(e));
      JoinAssoc(Items(t0), (k, v), Items(a), (ka, va), Items(TakeRight(t0, k, v, t1).right));
  }

  lemma TakeLeftKeeps(t0: Tree, k: Word, v: Word, t1: Tree)
    requires t0 != Nil && Balanced(t0) && Balanced(t1) && Depth(t1) + 1 == Depth(t0)
    ensures JoinedItems(TakeLeft(t0, k, v, t1)) == Join(Items(t0), (k, v), Items(t1))
    ensures JoinedLevel(TakeLeft(t0, k, v, t1), Depth(t0))
  {
    hide Join;
    match t0
    case Two(a, ka, va, b) =>
    case Three(a, ka, va, b, kb, vb, d) =>
      JoinAssoc(Join(Items(a), (ka, va), Items(b)), (kb, vb), Items(d), (k, v), Items(t1));
    case Four(a, ka, va, b, kb, vb, d, kd, vd, e) =>
      JoinAssoc(Join(Items(a), (ka, va), Items(b)), (kb, vb), Items(d), (kd, vd), Items(e));
      JoinAssoc(Items(TakeLeft(t0, k, v, t1).left), (kd, vd), Items(e), (k, v), Items(t1));
  }

  // A node rebuilt around a child that may have lost a level.
  datatype Fixed = Fixed(tree: Tree, reduced: bool)

  // The node before rebuilding, seen as bindings and as a depth.
  ghost predicate Rebuilt(f: Fixed, items: seq<Entry>, depth: nat) {
    && Items(f.tree) == items
    && Balanced(f.tree)
    && Depth(f.tree) + (if f.reduced then 1 else 0) == depth
  }

  // t is balanced and has depth d, less one if it was reduced.
  ghost predicate Level(t: Tree, reduced: bool, d: nat) {
    Balanced(t) && Depth(t) + (if reduced then 1 else 0) == d
  }

  function Fix2t0(t0: Tree, k0: Word, v0: Word, t1: Tree, reduced: bool): (f: Fixed)
    requires Balanced(t1) && Level(t0, reduced, Depth(t1))
    ensures Rebuilt(f, Join(Items(t0), (k0, v0), Items(t1)), 1 + Depth(t1))
  {
    if !reduced then Fixed(Two(t0, k0, v0, t1), false)
    else
      TakeRightKeeps(t0, k0, v0, t1);
      match TakeRight(t0, k0, v0, t1)
      case Fused(n) => Fixed(n, true)
      case Shared(l, k, v, r) => Fixed(Two(l, k, v, r), false)
  }

  function Fix2t1(t0: Tree, k0: Word, v0: Word, t1: Tree, reduced: bool): (f: Fixed)
    requires Balanced(t0) && Level(t1, reduced, Depth(t0))
    ensures Rebuilt(f, Join(Items(t0), (k0, v0), Items(t1)), 1 + Depth(t0))
  {
    if !reduced then Fixed(Two(t0, k0, v0, t1), false)
    else
      TakeLeftKeeps(t0, k0, v0, t1);
      match TakeLeft(t0, k0, v0, t1)
      case Fused(n) => Fixed(n, true)
      case Shared(l, k, v, r) => Fixed(Two(l, k, v, r), false)
  }

  function Fix3t0(t0: Tree, k0: Word, v0: Word, t1: Tree, k1: Word, v1: Word, t2: Tree, reduced: bool): (f: Fixed)
    requires Balanced(t1) && Balanced(t2) && Depth(t1) == Depth(t2) && Level(t0, reduced, Depth(t1))
    ensures Rebuilt(f, Join(Join(Items(t0), (k0, v0), Items(t1)), (k1, v1), Items(t2)), 1 + Depth(t2))
    ensures !f.reduced
  {
    if !reduced then Fixed(Three(t0, k0, v0, t1, k1, v1, t2), false)
    else
      TakeRightKeeps(t0, k0, v0, t1);
      match TakeRight(t0, k0, v0, t1)
      case Fused(n) => Fixed(Two(n, k1, v1, t2), false)
      case Shared(l, k, v, r) => Fixed(Three(l, k, v, r, k1, v1, t2), false)
  }

  function Fix3t1(t0: Tree, k0: Word, v0: Word, t1: Tree, k1: Word, v1: Word, t2: Tree, reduced: bool): (f: Fixed)
    requires Balanced(t0) && Balanced(t2) && Depth(t0) == Depth(t2) && Level(t1, reduced, Depth(t0))
    ensures Rebuilt(f, Join(Join(Items(t0), (k0, v0), Items(t1)), (k1, v1), Items(t2)), 1 + Depth(t0))
    ensures !f.reduced
  {
    if !reduced then Fixed(Three(t0, k0, v0, t1, k1, v1, t2), false)
    else
      TakeLeftKeeps(t0, k0, v0, t1);
      match TakeLeft(t0, k0, v0, t1)
      case Fused(n) => Fixed(Two(n, k1, v1, t2), false)
      case Shared(l, k, v, r) => Fixed(Three(l, k, v, r, k1, v1, t2), false)
  }

  function Fix3t2(t0: Tree, k0: Word, v0: Word, t1: Tree, k1: Word, v1: Word, t2: Tree, reduced: bool): (f: Fixed)
    requires Balanced(t0) && Balanced(t1) && Depth(t0) == Depth(t1) && Level(t2, reduced, Depth(t0))
    ensures Rebuilt(f, Join(Join(Items(t0), (k0, v0), Items(t1)), (k1, v1), Items(t2)), 1 + Depth(t0))
    ensures !f.reduced
  {
    JoinAssoc(Items(t0), (k0, v0), Items(t1), (k1, v1), Items(t2));
    if !reduced then Fixed(Three(t0, k0, v0, t1, k1, v1, t2), false)
    else
      TakeLeftKeeps(t1, k1, v1, t2);
      match TakeLeft(t1, k1, v1, t2)
      case Fused(n) => Fixed(Two(t0, k0, v0, n), false)
      case Shared(l, k, v, r) =>
        JoinAssoc(Items(t0), (k0, v0), Items(l), (k, v), Items(r));
        Fixed(Three(t0, k0, v0, l, k, v, r), false)
  }

  // The bindings of a node with four children.
  ghost function Items4(t0: Tree, k0: Word, v0: Word, t1: Tree, k1: Word, v1: Word,
                        t2: Tree, k2: Word, v2: Word, t3: Tree): seq<Entry> {
    Join(Join(Items(t0), (k0, v0), Items(t1)), (k1, v1), Join(Items(t2), (k2, v2), Items(t3)))
  }

  function Fix4t0(t0: Tree, k0: Word, v0: Word, t1: Tree, k1: Word, v1: Word,
                  t2: Tree, k2: Word, v2: Word, t3: Tree, reduced: bool): (f: Fixed)
    requires Balanced(t1) && Balanced(t2) && Balanced(t3) && Depth(t1) == Depth(t2) == Depth(t3)
    requires Level(t0, reduced, Depth(t1))
    ensures Rebuilt(f, Items4(t0, k0, v0, t1, k1, v1, t2, k2, v2, t3), 1 + Depth(t1))
    ensures !f.reduced
  {
    if !reduced then Fixed(Four(t0, k0, v0, t1, k1, v1, t2, k2, v2, t3), false)
    else
      TakeRightKeeps(t0, k0, v0, t1);
      match TakeRight(t0, k0, v0, t1)
      case Fused(n) =>
        JoinAssoc(Items(n), (k1, v1), Items(t2), (k2, v2), Items(t3));
        Fixed(Three(n, k1, v1, t2, k2, v2, t3), false)
      case Shared(l, k, v, r) => Fixed(Four(l, k, v, r, k1, v1, t2, k2, v2, t3), false)
  }

  function Fix4t1(t0: Tree, k0: Word, v0: Word, t1: Tree, k1: Word, v1: Word,
                  t2: Tree, k2: Word, v2: Word, t3: Tree, reduced: bool): (f: Fixed)
    requires Balanced(t0) && Balanced(t2) && Balanced(t3) && Depth(t0) == Depth(t2) == Depth(t3)
    requires Level(t1, reduced, Depth(t0))
    ensures Rebuilt(f, Items4(t0, k0, v0, t1, k1, v1, t2, k2, v2, t3), 1 + Depth(t0))
    ensures !f.reduced
  {
    if !reduced then Fixed(Four(t0, k0, v0, t1, k1, v1, t2, k2, v2, t3), false)
    else
      TakeRightKeeps(t1, k1, v1, t2);
      MiddleFour(Items(t0), (k0, v0), Items(t1), (k1, v1), Items(t2), (k2, v2), Items(t3));
      match TakeRight(t1, k1, v1, t2)
      case Fused(n) => Fixed(Three(t0, k0, v0, n, k2, v2, t3), false)
      case Shared(l, k, v, r) =>
        MiddleFour(Items(t0), (k0, v0), Items(l), (k, v), Items(r), (k2, v2), Items(t3));
        Fixed(Four(t0, k0, v0, l, k, v, r, k2, v2, t3), false)
  }

  function Fix4t2(t0: Tree, k0: Word, v0: Word, t1: Tree, k1: Word, v1: Word,
                  t2: Tree, k2: Word, v2: Word, t3: Tree, reduced: bool): (f: Fixed)
    requires Balanced(t0) && Balanced(t1) && Balanced(t3) && Depth(t0) == Depth(t1) == Depth(t3)
    requires Level(t2, reduced, Depth(t0))
    ensures Rebuilt(f, Items4(t0, k0, v0, t1, k1, v1, t2, k2, v2, t3), 1 + Depth(t0))
    ensures !f.reduced
  {
    if !reduced then Fixed(Four(t0, k0, v0, t1, k1, v1, t2, k2, v2, t3), false)
    else
      TakeRightKeeps(t2, k2, v2, t3);
      match TakeRight(t2, k2, v2, t3)
      case Fused(n) => Fixed(Three(t0, k0, v0, t1, k1, v1, n), false)
      case Shared(l, k, v, r) => Fixed(Four(t0, k0, v0, t1, k1, v1, l, k, v, r), false)
  }

  function Fix4t3(t0: Tree, k0: Word, v0: Word, t1: Tree, k1: Word, v1: Word,
                  t2: Tree, k2: Word, v2: Word, t3: Tree, reduced: bool): (f: Fixed)
    requires Balanced(t0) && Balanced(t1) && Balanced(t2) && Depth(t0) == Depth(t1) == Depth(t2)
    requires Level(t3, reduced, Depth(t0))
    ensures Rebuilt(f, Items4(t0, k0, v0, t1, k1, v1, t2, k2, v2, t3), 1 + Depth(t0))
    ensures !f.reduced
  {
    if !reduced then Fixed(Four(t0, k0, v0, t1, k1, v1, t2, k2, v2, t3), false)
    else
      TakeLeftKeeps(t2, k2, v2, t3);
      match TakeLeft(t2, k2, v2, t3)
      case Fused(n) => Fixed(Three(t0, k0, v0, t1, k1, v1, n), false)
      case Shared(l, k, v, r) => Fixed(Four(t0, k0, v0, t1, k1, v1, l, k, v, r), false)
  }

  // Four lists around three bindings, with the middle two grouped.
  lemma MiddleFour(a: seq<Entry>, x: Entry, b: seq<Entry>, y: Entry, d: seq<Entry>, z: Entry, e: seq<Entry>)
    ensures Join(Join(a, x, b), y, Join(d, z, e)) == Join(Join(a, x, Join(b, y, d)), z, e)
  {
    hide Join;
    JoinAssoc(Join(a, x, b), y, d, z, e);
    JoinAssoc(a, x, b, y, d);
  }

  // ----- deletion -----

  // What a deletion returns: the tree, the binding removed if any, and
  // whether the tree lost a level.
  datatype Deleted = Deleted(tree: Tree, out: Option<Entry>, reduced: bool)

  function Delete(t: Tree, k: Word, c: Compare): Deleted
    requires Balanced(t)
  {
    Delete2(t, k, c)
  }

  // The flag that the original passes by reference is false on entry; a leaf
  // that stays a leaf leaves it so.
  function DeleteMin2(t: Tree): (d: Deleted)
    requires Balanced(t)
    ensures Level(d.tree, d.reduced, Depth(t))
    ensures t != Nil ==> d.out.Some? && [d.out.value] + Items(d.tree) == Items(t)
    ensures t == Nil ==> d == Deleted(Nil, None, false)
  {
    match t
    case Nil => Deleted(Nil, None, false)
    case Two(t0, k0, v0, t1) =>
      if t0 == Nil then Deleted(Nil, Some((k0, v0)), true)
      else
        var d := DeleteMin2(t0);
        var f := Fix2t0(d.tree, k0, v0, t1, d.reduced);
        JoinPrefix([d.out.value], Items(d.tree), (k0, v0), Items(t1));
        Deleted(f.tree, d.out, f.reduced)
    case Three(t0, k0, v0, t1, k1, v1, t2) =>
      if t0 == Nil then Deleted(Two(Nil, k1, v1, Nil), Some((k0, v0)), false)
      else
        var d := DeleteMin2(t0);
        var f := Fix3t0(d.tree, k0, v0, t1, k1, v1, t2, d.reduced);
        PrefixThree([d.out.value], Items(d.tree), (k0, v0), Items(t1), (k1, v1), Items(t2));
        Deleted(f.tree, d.out, f.reduced)
    case Four(t0, k0, v0, t1, k1, v1, t2, k2, v2, t3) =>
      if t0 == Nil then Deleted(Three(Nil, k1, v1, Nil, k2, v2, Nil), Some((k0, v0)), false)
      else
        var d := DeleteMin2(t0);
        var f := Fix4t0(d.tree, k0, v0, t1, k1, v1, t2, k2, v2, t3, d.reduced);
        PrefixThree([d.out.value], Items(d.tree), (k0, v0), Items(t1), (k1, v1), Join(Items(t2), (k2, v2), Items(t3)));
        Deleted(f.tree, d.out, f.reduced)
  }

  lemma PrefixThree(p: seq<Entry>, a: seq<Entry>, x: Entry, b: seq<Entry>, y: Entry, d: seq<Entry>)
    ensures p + Join(Join(a, x, b), y, d) == Join(Join(p + a, x, b), y, d)
  {
    hide Join;
    JoinPrefix(p, Join(a, x, b), y, d);
    JoinPrefix(p, a, x, b);
  }

  function DeleteMax2(t: Tree): (d: Deleted)
    requires Balanced(t)
    ensures Level(d.tree, d.reduced, Depth(t))
    ensures t != Nil ==> d.out.Some? && Items(d.tree) + [d.out.value] == Items(t)
    ensures t == Nil ==> d == Deleted(Nil, None, false)
  {
    match t
    case Nil => Deleted(Nil, None, false)
    case Two(t0, k0, v0, t1) =>
      if t1 == Nil then Deleted(Nil, Some((k0, v0)), true)
      else
        var d := DeleteMax2(t1);
        var f := Fix2t1(t0, k0, v0, d.tree, d.reduced);
        JoinSuffix(Items(t0), (k0, v0), Items(d.tree), [d.out.value]);
        Deleted(f.tree, d.out, f.reduced)
    case Three(t0, k0, v0, t1, k1, v1, t2) =>
      if t2 == Nil then Deleted(Two(Nil, k0, v0, Nil), Some((k1, v1)), false)
      else
        var d := DeleteMax2(t2);
        var f := Fix3t2(t0, k0, v0, t1, k1, v1, d.tree, d.reduced);
        JoinSuffix(Join(Items(t0), (k0, v0), Items(t1)), (k1, v1), Items(d.tree), [d.out.value]);
        Deleted(f.tree, d.out, f.reduced)
    case Four(t0, k0, v0, t1, k1, v1, t2, k2, v2, t3) =>
      if t3 == Nil then Deleted(Three(Nil, k0, v0, Nil, k1, v1, Nil), Some((k2, v2)), false)
      else
        var d := DeleteMax2(t3);
        var f := Fix4t3(t0, k0, v0, t1, k1, v1, t2, k2, v2, d.tree, d.reduced);
        JoinSuffix(Join(Items(t0), (k0, v0), Items(t1)), (k1, v1), Join(Items(t2), (k2, v2), Items(d.tree)),
                   [d.out.value]);
        JoinSuffix(Items(t2), (k2, v2), Items(d.tree), [d.out.value]);
        Deleted(f.tree, d.out, f.reduced)
  }

  function Delete2(t: Tree, k: Word, c: Compare): (d: Deleted)
    requires Balanced(t)
    ensures Level(d.tree, d.reduced, Depth(t))
    ensures d.reduced ==> t != Nil
    decreases t, 1
  {
    match t
    case Nil => Deleted(Nil, None, false)
    case Two(t0, k0, v0, t1) =>
      var cmp := c(k, k0);
      if cmp < 0 then
        var d := Delete2(t0, k, c);
        var f := Fix2t0(d.tree, k0, v0, t1, d.reduced);
        Deleted(f.tree, d.out, f.reduced)
      else if cmp > 0 then
        var d := Delete2(t1, k, c);
        var f := Fix2t1(t0, k0, v0, d.tree, d.reduced);
        Deleted(f.tree, d.out, f.reduced)
      else if t1 == Nil then Deleted(Nil, Some((k0, v0)), true)
      else
        var d := DeleteMin2(t1);
        var f := Fix2t1(t0, d.out.value.0, d.out.value.1, d.tree, d.reduced);
        Deleted(f.tree, Some((k0, v0)), f.reduced)
    case Three(t0, k0, v0, t1, k1, v1, t2) => Delete3(t, k, c)
    case Four(t0, k0, v0, t1, k1, v1, t2, k2, v2, t3) => Delete4(t, k, c)
  }

  function Delete3(t: Tree, k: Word, c: Compare): (d: Deleted)
    requires t.Three? && Balanced(t)
    ensures Level(d.tree, d.reduced, Depth(t))
    decreases t, 0
  {
    var Three(t0, k0, v0, t1, k1, v1, t2) := t;
    if c(k, k0) < 0 then
      var d := Delete2(t0, k, c);
      var f := Fix3t0(d.tree, k0, v0, t1, k1, v1, t2, d.reduced);
      Deleted(f.tree, d.out, f.reduced)
    else if c(k, k0) > 0 then
      if c(k, k1) < 0 then
        var d := Delete2(t1, k, c);
        var f := Fix3t1(t0, k0, v0, d.tree, k1, v1, t2, d.reduced);
        Deleted(f.tree, d.out, f.reduced)
      else if c(k, k1) > 0 then
        var d := Delete2(t2, k, c);
        var f := Fix3t2(t0, k0, v0, t1, k1, v1, d.tree, d.reduced);
        Deleted(f.tree, d.out, f.reduced)
      else if t2 == Nil then Deleted(Two(Nil, k0, v0, Nil), Some((k1, v1)), false)
      else
        var d := DeleteMin2(t2);
        var f := Fix3t2(t0, k0, v0, t1, d.out.value.0, d.out.value.1, d.tree, d.reduced);
        Deleted(f.tree, Some((k1, v1)), f.reduced)
    else if t1 == Nil then Deleted(Two(Nil, k1, v1, Nil), Some((k0, v0)), false)
    else
      var d := DeleteMin2(t1);
      var f := Fix3t1(t0, d.out.value.0, d.out.value.1, d.tree, k1, v1, t2, d.reduced);
      Deleted(f.tree, Some((k0, v0)), f.reduced)
  }

  function Delete4(t: Tree, k: Word, c: Compare): (d: Deleted)
    requires t.Four? && Balanced(t)
    ensures Level(d.tree, d.reduced, Depth(t))
    decreases t, 0
  {
    var Four(t0, k0, v0, t1, k1, v1, t2, k2, v2, t3) := t;
    if c(k, k1) < 0 then
      if c(k, k0) < 0 then
        var d := Delete2(t0, k, c);
        var f := Fix4t0(d.tree, k0, v0, t1, k1, v1, t2, k2, v2, t3, d.reduced);
        Deleted(f.tree, d.out, f.reduced)
      else if c(k, k0) > 0 then
        var d := Delete2(t1, k, c);
        var f := Fix4t1(t0, k0, v0, d.tree, k1, v1, t2, k2, v2, t3, d.reduced);
        Deleted(f.tree, d.out, f.reduced)
      else if t1 == Nil then Deleted(Three(Nil, k1, v1, Nil, k2, v2, Nil), Some((k0, v0)), false)
      else
        var d := DeleteMin2(t1);
        var f := Fix4t1(t0, d.out.value.0, d.out.value.1, d.tree, k1, v1, t2, k2, v2, t3, d.reduced);
        Deleted(f.tree, Some((k0, v0)), f.reduced)
    else if c(k, k1) > 0 then
      if c(k, k2) < 0 then
        var d := Delete2(t2, k, c);
        var f := Fix4t2(t0, k0, v0, t1, k1, v1, d.tree, k2, v2, t3, d.reduced);
        Deleted(f.tree, d.out, f.reduced)
      else if c(k, k2) > 0 then
        var d := Delete2(t3, k, c);
        var f := Fix4t3(t0, k0, v0, t1, k1, v1, t2, k2, v2, d.tree, d.reduced);
        Deleted(f.tree, d.out, f.reduced)
      else if t3 == Nil then Deleted(Three(Nil, k0, v0, Nil, k1, v1, Nil), Some((k2, v2)), false)
      else
        var d := DeleteMin2(t3);
        var f := Fix4t3(t0, k0, v0, t1, k1, v1, t2, d.out.value.0, d.out.value.1, d.tree, d.reduced);
        Deleted(f.tree, Some((k2, v2)), f.reduced)
    else if t2 == Nil then Deleted(Three(Nil, k0, v0, Nil, k2, v2, Nil), Some((k1, v1)), false)
    else
      var d := DeleteMin2(t2);
      var f := Fix4t2(t0, k0, v0, t1, d.out.value.0, d.out.value.1, d.tree, k2, v2, t3, d.reduced);
      Deleted(f.tree, Some((k1, v1)), f.reduced)
  }

  // ----- insertion is map update -----

  ghost function GrownItems(g: Grown): seq<Entry> {
    match g
    case Whole(t) => Items(t)
    case Split(l, k, v, r) => Join(Items(l), (k, v), Items(r))
  }

  ghost predicate GrownLevel(g: Grown, d: nat) {
    match g
    case Whole(t) => Balanced(t) && Depth(t) == d
    case Split(l, _, _, r) => Balanced(l) && Balanced(r) && Depth(l) == Depth(r) == d
  }

  lemma {:induction false} Insert2Puts(t: Tree, k: Word, v: Word, c: Compare)
    requires t.Two? && ValidTree(t, c) && TotalOrder(c)
    ensures Items(Insert2(t, k, v, c)) == Put(Items(t), k, v, c)
    ensures Balanced(Insert2(t, k, v, c)) && Depth(Insert2(t, k, v, c)) == Depth(t)
    decreases Size(t), 0
  {
    hide TotalOrder, Join, Put, Sorted;
    var Two(t0, k0, v0, t1) := t;
    PutInto(Items(t0), (k0, v0), Items(t1), k, v, c);
    if t0 == Nil {
      PutEmpty(k, v, c);
      JoinAssoc([], (k0, v0), [], (k, v), []);
    } else if c(k, k0) < 0 {
      InsertChildPuts(t0, k, v, c);
    } else if c(k, k0) > 0 {
      InsertChildPuts(t1, k, v, c);
      if InsertChild(t1, k, v, c).Split? {
        var Split(lt, ks, vs, rt) := InsertChild(t1, k, v, c);
        JoinAssoc(Items(t0), (k0, v0), Items(lt), (ks, vs), Items(rt));
      }
    }
  }

  lemma {:induction false} InsertChildPuts(t: Tree, k: Word, v: Word, c: Compare)
    requires t != Nil && ValidTree(t, c) && TotalOrder(c)
    ensures GrownItems(InsertChild(t, k, v, c)) == Put(Items(t), k, v, c)
    ensures GrownLevel(InsertChild(t, k, v, c), Depth(t))
    decreases Size(t), 1
  {
    hide TotalOrder, Join, Put, Sorted;
    match t
    case Two(_, _, _, _) => Insert2Puts(t, k, v, c);
    case Three(_, _, _, _, _, _, _) => Insert3Puts(t, k, v, c);
    case Four(t0, k0, v0, t1, k1, v1, t2, k2, v2, t3) =>
      var lt, rt := Two(t0, k0, v0, t1), Two(t2, k2, v2, t3);
      PutInto(Items(lt), (k1, v1), Items(rt), k, v, c);
      if c(k, k1) < 0 {
        Insert2Puts(lt, k, v, c);
      } else if c(k, k1) > 0 {
        Insert2Puts(rt, k, v, c);
      }
  }

  // Put goes to one side of a binding or replaces it.
  lemma PutInto(a: seq<Entry>, x: Entry, b: seq<Entry>, k: Word, v: Word, c: Compare)
    requires TotalOrder(c) && Sorted(Join(a, x, b), c)
    ensures Sorted(a, c) && Sorted(b, c)
    ensures Put(Join(a, x, b), k, v, c) ==
      if c(k, x.0) < 0 then Join(Put(a, k, v, c), x, b)
      else if c(k, x.0) > 0 then Join(a, x, Put(b, k, v, c))
      else Join(a, (k, v), b)
  {
    hide *;
    JoinSorted(a, x, b, c);
    if c(k, x.0) < 0 {
      SplitBelow(a, x, b, k, v, c);
    } else if c(k, x.0) > 0 {
      SplitAbove(a, x, b, k, v, c);
    } else {
      SplitAt(a, x, b, k, v, c);
    }
  }

  lemma PutEmpty(k: Word, v: Word, c: Compare)
    ensures Put([], k, v, c) == Join([], (k, v), [])
  {
  }

  lemma {:induction false} Insert3Puts(t: Tree, k: Word, v: Word, c: Compare)
    requires t.Three? && ValidTree(t, c) && TotalOrder(c)
    ensures Items(Insert3(t, k, v, c)) == Put(Items(t), k, v, c)
    ensures Balanced(Insert3(t, k, v, c)) && Depth(Insert3(t, k, v, c)) == Depth(t)
    decreases Size(t), 0
  {
    hide TotalOrder, Join, Put, Sorted;
    var Three(t0, k0, v0, t1, k1, v1, t2) := t;
    var i0, i1, i2 := Items(t0), Items(t1), Items(t2);
    PutInto(Join(i0, (k0, v0), i1), (k1, v1), i2, k, v, c);
    PutInto(i0, (k0, v0), i1, k, v, c);
    KeysApart(i0, (k0, v0), i1, (k1, v1), i2, k, c);
    if t0 == Nil {
      PutEmpty(k, v, c);
      JoinAssoc(Join([], (k0, v0), []), (k1, v1), [], (k, v), []);
      JoinAssoc([], (k, v), [], (k0, v0), []);
      JoinAssoc([], (k0, v0), [], (k, v), []);
      JoinAssoc(Join([], (k, v), []), (k0, v0), [], (k1, v1), []);
      JoinAssoc(Join([], (k0, v0), []), (k, v), [], (k1, v1), []);
    } else if c(k, k0) < 0 {
      InsertChildPuts(t0, k, v, c);
      var g := InsertChild(t0, k, v, c);
      if g.Split? {
        JoinAssoc(Join(Items(g.left), (g.key, g.val), Items(g.right)), (k0, v0), i1, (k1, v1), i2);
      }
    } else if c(k, k0) > 0 && c(k, k1) < 0 {
      InsertChildPuts(t1, k, v, c);
      var g := InsertChild(t1, k, v, c);
      if g.Split? {
        MiddleFour(i0, (k0, v0), Items(g.left), (g.key, g.val), Items(g.right), (k1, v1), i2);
      }
    } else if c(k, k0) > 0 && c(k, k1) > 0 {
      InsertChildPuts(t2, k, v, c);
    }
  }

  // A key at or below the first of two bindings is below the second.
  lemma KeysApart(a: seq<Entry>, x: Entry, b: seq<Entry>, y: Entry, d: seq<Entry>, k: Word, c: Compare)
    requires TotalOrder(c) && Sorted(Join(Join(a, x, b), y, d), c)
    ensures c(k, x.0) <= 0 ==> c(k, y.0) < 0
  {
    hide TotalOrder;
    JoinSorted(Join(a, x, b), y, d, c);
    assert Join(a, x, b)[|a|] == x;
    if c(k, x.0) <= 0 {
      Transitive(k, x.0, y.0, c);
    }
  }

  // Insertion is map update: it keeps the tree valid, and the tree grows a
  // level exactly when its root was full or absent.
  lemma InsertIsUpdate(t: Tree, k: Word, v: Word, c: Compare)
    requires ValidTree(t, c) && TotalOrder(c)
    ensures Items(Insert(t, k, v, c)) == Put(Items(t), k, v, c)
    ensures MapOf(Items(Insert(t, k, v, c))) == MapOf(Items(t))[k := v]
    ensures ValidTree(Insert(t, k, v, c), c)
    ensures Depth(Insert(t, k, v, c)) == Depth(t) + if t.Nil? || t.Four? then 1 else 0
  {
    hide TotalOrder, Join, Put, Sorted, MapOf;
    PutIsUpdate(Items(t), k, v, c);
    match t
    case Nil => PutEmpty(k, v, c);
    case Two(_, _, _, _) => Insert2Puts(t, k, v, c);
    case Three(_, _, _, _, _, _, _) => Insert3Puts(t, k, v, c);
    case Four(t0, k0, v0, t1, k1, v1, t2, k2, v2, t3) =>
      var lt, rt := Two(t0, k0, v0, t1), Two(t2, k2, v2, t3);
      assert Balanced(lt) && Balanced(rt) && Depth(lt) == Depth(rt);
      Insert2Puts(Two(lt, k1, v1, rt), k, v, c);
  }

  // ----- deletion is map removal -----

  // Drop goes to one side of a binding or removes it; Get likewise.
  lemma DropFrom(a: seq<Entry>, x: Entry, b: seq<Entry>, k: Word, c: Compare)
    requires TotalOrder(c) && Sorted(Join(a, x, b), c)
    ensures Sorted(a, c) && Sorted(b, c)
    ensures Drop(Join(a, x, b), k, c) ==
      if c(k, x.0) < 0 then Join(Drop(a, k, c), x, b)
      else if c(k, x.0) > 0 then Join(a, x, Drop(b, k, c))
      else a + b
    ensures Get(Join(a, x, b), k, c) ==
      if c(k, x.0) < 0 then Get(a, k, c)
      else if c(k, x.0) > 0 then Get(b, k, c)
      else Some(x.1)
    ensures c(k, x.0) == 0 ==> k == x.0
  {
    hide *;
    JoinSorted(a, x, b, c);
    Flip(k, x.0, c);
    if c(k, x.0) < 0 {
      SplitBelow(a, x, b, k, 0, c);
    } else if c(k, x.0) > 0 {
      SplitAbove(a, x, b, k, 0, c);
    } else {
      SplitAt(a, x, b, k, 0, c);
    }
  }

  lemma DropEmpty(k: Word, c: Compare)
    ensures Drop([], k, c) == [] && Get([], k, c) == None
  {
  }

  // The removed binding is the one that k had.
  ghost predicate Removed(d: Deleted, s: seq<Entry>, k: Word, c: Compare) {
    && Items(d.tree) == Drop(s, k, c)
    && (match Get(s, k, c) case None => d.out == None case Some(v) => d.out == Some((k, v)))
  }

  // Replacing a removed binding by the first of those after it.
  lemma Successor(a: seq<Entry>, m: Entry, b: seq<Entry>)
    ensures a + ([m] + b) == Join(a, m, b)
    ensures a + [] == a && [] + a == a
  {
  }

  // A deletion removes the key and its binding is what it returns.
  lemma {:induction false} Delete2Drops(t: Tree, k: Word, c: Compare)
    requires ValidTree(t, c) && TotalOrder(c)
    ensures Removed(Delete2(t, k, c), Items(t), k, c)
    decreases t, 1
  {
    hide TotalOrder, Join, Drop, Get, Sorted;
    match t
    case Nil => DropEmpty(k, c);
    case Three(_, _, _, _, _, _, _) => Delete3Drops(t, k, c);
    case Four(_, _, _, _, _, _, _, _, _, _) => Delete4Drops(t, k, c);
    case Two(t0, k0, v0, t1) =>
      DropFrom(Items(t0), (k0, v0), Items(t1), k, c);
      Successor(Items(t0), (k0, v0), []);
      if c(k, k0) < 0 {
        Delete2Drops(t0, k, c);
      } else if c(k, k0) > 0 {
        Delete2Drops(t1, k, c);
      } else if t1 != Nil {
        var d := DeleteMin2(t1);
        Successor(Items(t0), d.out.value, Items(d.tree));
      }
  }

  lemma {:induction false} Delete3Drops(t: Tree, k: Word, c: Compare)
    requires t.Three? && ValidTree(t, c) && TotalOrder(c)
    ensures Removed(Delete3(t, k, c), Items(t), k, c)
    decreases t, 0
  {
    hide TotalOrder, Join, Drop, Get, Sorted;
    var Three(t0, k0, v0, t1, k1, v1, t2) := t;
    var i0, i1, i2 := Items(t0), Items(t1), Items(t2);
    DropFrom(Join(i0, (k0, v0), i1), (k1, v1), i2, k, c);
    DropFrom(i0, (k0, v0), i1, k, c);
    KeysApart(i0, (k0, v0), i1, (k1, v1), i2, k, c);
    Successor(i0, (k0, v0), []);
    Successor(Join(i0, (k0, v0), i1), (k1, v1), []);
    if c(k, k0) < 0 {
      Delete2Drops(t0, k, c);
    } else if c(k, k0) > 0 {
      if c(k, k1) < 0 {
        Delete2Drops(t1, k, c);
      } else if c(k, k1) > 0 {
        Delete2Drops(t2, k, c);
      } else if t2 != Nil {
        var d := DeleteMin2(t2);
        Successor(Join(i0, (k0, v0), i1), d.out.value, Items(d.tree));
      }
    } else if t1 != Nil {
      var d := DeleteMin2(t1);
      Successor(i0, d.out.value, Items(d.tree));
    }
  }

  lemma {:induction false} Delete4Drops(t: Tree, k: Word, c: Compare)
    requires t.Four? && ValidTree(t, c) && TotalOrder(c)
    ensures Removed(Delete4(t, k, c), Items(t), k, c)
    decreases t, 0
  {
    hide TotalOrder, Join, Drop, Get, Sorted;
    var Four(t0, k0, v0, t1, k1, v1, t2, k2, v2, t3) := t;
    var i0, i1, i2, i3 := Items(t0), Items(t1), Items(t2), Items(t3);
    var l, r := Join(i0, (k0, v0), i1), Join(i2, (k2, v2), i3);
    DropFrom(l, (k1, v1), r, k, c);
    DropFrom(i0, (k0, v0), i1, k, c);
    DropFrom(i2, (k2, v2), i3, k, c);
    if c(k, k1) < 0 {
      Successor(i0, (k0, v0), []);
      if c(k, k0) < 0 {
        Delete2Drops(t0, k, c);
      } else if c(k, k0) > 0 {
        Delete2Drops(t1, k, c);
      } else if t1 != Nil {
        var d := DeleteMin2(t1);
        Successor(i0, d.out.value, Items(d.tree));
      } else {
        JoinAssoc([], (k1, v1), [], (k2, v2), []);
      }
    } else if c(k, k1) > 0 {
      Successor(i2, (k2, v2), []);
      if c(k, k2) < 0 {
        Delete2Drops(t2, k, c);
      } else if c(k, k2) > 0 {
        Delete2Drops(t3, k, c);
      } else if t3 != Nil {
        var d := DeleteMin2(t3);
        Successor(i2, d.out.value, Items(d.tree));
      }
    } else {
      Successor(l, (k1, v1), []);
      if t2 != Nil {
        var d := DeleteMin2(t2);
        JoinPrefix([d.out.value], Items(d.tree), (k2, v2), i3);
        Successor(l, d.out.value, Join(Items(d.tree), (k2, v2), i3));
      } else {
        JoinPrefix(l, [], (k2, v2), []);
      }
    }
  }

  // Deletion is map removal: it keeps the tree valid, and the flag tells
  // exactly whether a level was lost.
  lemma DeleteIsRemoval(t: Tree, k: Word, c: Compare)
    requires ValidTree(t, c) && TotalOrder(c)
    ensures var d := Delete(t, k, c);
      && MapOf(Items(d.tree)) == MapOf(Items(t)) - {k}
      && ValidTree(d.tree, c)
      && (d.out.Some? <==> k in MapOf(Items(t)))
      && (d.out.Some? ==> d.out.value == (k, MapOf(Items(t))[k]))
      && (d.reduced <==> Depth(d.tree) + 1 == Depth(t))
      && (!d.reduced <==> Depth(d.tree) == Depth(t))
  {
    hide TotalOrder, Join, Drop, Get, Sorted, MapOf;
    Delete2Drops(t, k, c);
    DropIsRemoval(Items(t), k, c);
    GetIsLookup(Items(t), k, c);
  }
}
