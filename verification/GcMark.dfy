// The marking phase of the collector (gc.c): mark bits, the explicit mark
// stack, and the scan that follows every word that may be a pointer.
module GcMark {
  import opened Wrappers
  import opened GcBits
  import opened GcMasks

  // ----- memory and objects -----

  // A region hands out objects of one size, from start up to free.
  datatype Region = Region(start: nat, size: nat, free: nat)

  // The collector's address range: equally wide regions from base on.
  datatype Layout = Layout(base: nat, span: nat, regions: seq<Region>)

  datatype Obj = Obj(region: nat, index: nat)

  // The words to scan: word addresses from lo up to hi.
  datatype Frame = Frame(lo: nat, hi: nat)

  type Memory = nat -> nat

  function Count(r: Region): nat
    requires r.size > 0 && r.start <= r.free
  {
    (r.free - r.start) / r.size
  }

  ghost predicate LayoutOk(l: Layout) {
    && l.span > 0
    && forall i :: 0 <= i < |l.regions| ==> RegionOk(l.regions[i])
  }

  ghost predicate RegionOk(r: Region) {
    r.size > 0 && r.start <= r.free && (r.free - r.start) % r.size == 0
  }

  // The object that a word points to, or into, if it looks like a pointer.
  function Target(l: Layout, v: nat): Option<Obj>
    requires LayoutOk(l)
  {
    if v < l.base || v >= l.base + |l.regions| * l.span then None
    else
      var i := RegionIndex(l, v);
      var r := l.regions[i];
      if v >= r.free || v < r.start then None
      else
        Some(Obj(i, (v - r.start) / r.size))
  }

  function RegionIndex(l: Layout, v: nat): (i: nat)
    requires LayoutOk(l) && l.base <= v < l.base + |l.regions| * l.span
    ensures i < |l.regions|
  {
    DivBelow(v - l.base, |l.regions|, l.span);
    (v - l.base) / l.span
  }

  lemma DivBelow(x: nat, n: nat, d: nat)
    requires d > 0 && x < n * d
    ensures x / d < n
  {
  }

  ghost predicate IsObj(l: Layout, o: Obj)
    requires LayoutOk(l)
  {
    o.region < |l.regions| && RegionOk(l.regions[o.region]) && o.index < Count(l.regions[o.region])
  }

  lemma TargetIsObj(l: Layout, v: nat)
    requires LayoutOk(l) && Target(l, v).Some?
    ensures IsObj(l, Target(l, v).value)
  {
    var o := Target(l, v).value;
    var r := l.regions[o.region];
    assert RegionOk(r);
    WholeObjects(r.free - r.start, r.size);
    DivBelow(v - r.start, Count(r), r.size);
  }

  lemma WholeObjects(n: nat, d: nat)
    requires d > 0 && n % d == 0
    ensures n / d * d == n
  {
  }

  // The words of an object.
  function Words(l: Layout, o: Obj): Frame
    requires o.region < |l.regions|
  {
    var r := l.regions[o.region];
    var p := r.start + o.index * r.size;
    Frame(p / 8, (p + r.size) / 8)
  }

  // Each region lies in its own part of the address range, and objects are
  // whole numbers of words, aligned to words.
  ghost predicate Placed(l: Layout) {
    forall i :: 0 <= i < |l.regions| ==> PlacedAt(l.regions[i], l.base + i * l.span, l.base + (i + 1) * l.span)
  }

  ghost predicate PlacedAt(r: Region, lo: int, hi: int) {
    r.start % 8 == 0 && r.size % 8 == 0 && lo <= r.start && r.free <= hi
  }

  lemma QuotientIs(x: int, d: int, q: int)
    requires d > 0
    ensures x / d == q <==> q * d <= x < (q + 1) * d
  {
    var p, r := x / d, x % d;
    assert x == p * d + r && (p + 1) * d == p * d + d;
    if q < p {
      Scaled(q + 1, p, d);
    }
    if p < q {
      Scaled(p + 1, q, d);
    }
  }

  lemma Scaled(a: int, b: int, d: int)
    requires a <= b && d >= 0
    ensures a * d <= b * d
  {
  }

  // The address of one of the bytes of object k.
  ghost predicate InBytes(r: Region, k: nat, v: nat) {
    r.start + k * r.size <= v < r.start + (k + 1) * r.size
  }

  // An address belongs to object k of region i exactly when it is that of one
  // of the bytes of the object.
  lemma TargetExact(l: Layout, v: nat, i: nat, k: nat)
    requires LayoutOk(l) && Placed(l)
    ensures Target(l, v) == Some(Obj(i, k)) <==> IsObj(l, Obj(i, k)) && InBytes(l.regions[i], k, v)
  {
    if Target(l, v) == Some(Obj(i, k)) {
      TargetIsObj(l, v);
      QuotientIs(v - l.regions[i].start, l.regions[i].size, k);
    } else if i < |l.regions| && k < Count(l.regions[i]) {
      var r := l.regions[i];
      if r.start + k * r.size <= v < r.start + (k + 1) * r.size {
        assert RegionOk(r) && PlacedAt(r, l.base + i * l.span, l.base + (i + 1) * l.span);
        WholeObjects(r.free - r.start, r.size);
        Scaled(k + 1, Count(r), r.size);
        Scaled(i + 1, |l.regions|, l.span);
        Scaled(0, i, l.span);
        Scaled(0, k, r.size);
        QuotientIs(v - l.base, l.span, i);
        QuotientIs(v - r.start, r.size, k);
      }
    }
  }

  // The words of an object are exactly the words whose address belongs to it.
  lemma WordsExact(l: Layout, o: Obj, a: nat)
    requires LayoutOk(l) && Placed(l) && IsObj(l, o)
    ensures Words(l, o).lo <= a < Words(l, o).hi <==> Target(l, 8 * a) == Some(o)
  {
    hide Target, InBytes, Words;
    var r := l.regions[o.region];
    assert PlacedAt(r, l.base + o.region * l.span, l.base + (o.region + 1) * l.span);
    TargetExact(l, 8 * a, o.region, o.index);
    WordsAreBytes(l, o, a);
  }

  lemma WordsAreBytes(l: Layout, o: Obj, a: nat)
    requires o.region < |l.regions| && l.regions[o.region].start % 8 == 0 && l.regions[o.region].size % 8 == 0
    ensures Words(l, o).lo <= a < Words(l, o).hi <==> InBytes(l.regions[o.region], o.index, 8 * a)
  {
    var r := l.regions[o.region];
    var p := r.start + o.index * r.size;
    var q := p + r.size;
    EightTimes(o.index, r.size);
    EightsAdd(r.start, o.index * r.size);
    EightsAdd(p, r.size);
    WordsBetween(p, q, a);
    assert InBytes(r, o.index, 8 * a) <==> p <= 8 * a < q by { NextProduct(o.index, r.size); }
  }

  lemma EightsAdd(x: nat, y: nat)
    requires x % 8 == 0 && y % 8 == 0
    ensures (x + y) % 8 == 0
  {
  }

  lemma NextProduct(k: nat, size: nat)
    ensures (k + 1) * size == k * size + size
  {
  }

  lemma EightTimes(k: nat, size: nat)
    requires size % 8 == 0
    ensures k * size % 8 == 0
  {
    var n := size / 8;
    assert k * size == 8 * (k * n);
  }

  lemma WordsBetween(lo: nat, hi: nat, a: nat)
    requires lo % 8 == 0 && hi % 8 == 0
    ensures lo / 8 <= a < hi / 8 <==> lo <= 8 * a < hi
  {
  }

  // Some word of the frame points to o.
  ghost predicate PointsTo(l: Layout, mem: Memory, f: Frame, o: Obj)
    requires LayoutOk(l)
  {
    exists a: nat :: f.lo <= a < f.hi && Target(l, mem(a)) == Some(o)
  }

  // A chain of pointers that starts in a root.
  ghost predicate IsPath(l: Layout, mem: Memory, roots: seq<Frame>, path: seq<Obj>)
    requires LayoutOk(l)
  {
    && |path| > 0
    && (forall i :: 0 <= i < |path| ==> IsObj(l, path[i]))
    && (exists i :: 0 <= i < |roots| && PointsTo(l, mem, roots[i], path[0]))
    && forall i :: 0 <= i < |path| - 1 ==> PointsTo(l, mem, Words(l, path[i]), path[i + 1])
  }

  ghost predicate Reachable(l: Layout, mem: Memory, roots: seq<Frame>, o: Obj)
    requires LayoutOk(l)
  {
    exists path :: IsPath(l, mem, roots, path) && path[|path| - 1] == o
  }

  lemma RootReaches(l: Layout, mem: Memory, roots: seq<Frame>, i: nat, o: Obj)
    requires LayoutOk(l) && i < |roots| && PointsTo(l, mem, roots[i], o)
    ensures IsObj(l, o) && Reachable(l, mem, roots, o)
  {
    var a: nat :| roots[i].lo <= a < roots[i].hi && Target(l, mem(a)) == Some(o);
    TargetIsObj(l, mem(a));
    assert IsPath(l, mem, roots, [o]);
    assert [o][|[o]| - 1] == o;
  }

  lemma StepReaches(l: Layout, mem: Memory, roots: seq<Frame>, o: Obj, o': Obj)
    requires LayoutOk(l) && IsObj(l, o) && Reachable(l, mem, roots, o) && PointsTo(l, mem, Words(l, o), o')
    ensures IsObj(l, o') && Reachable(l, mem, roots, o')
  {
    var a: nat :| Words(l, o).lo <= a < Words(l, o).hi && Target(l, mem(a)) == Some(o');
    TargetIsObj(l, mem(a));
    var path :| IsPath(l, mem, roots, path) && path[|path| - 1] == o;
    var path' := path + [o'];
    assert path'[0] == path[0];
    forall i | 0 <= i < |path'| - 1 ensures PointsTo(l, mem, Words(l, path'[i]), path'[i + 1]) {
      if i < |path| - 1 {
        assert path'[i] == path[i] && path'[i + 1] == path[i + 1];
      }
    }
    assert IsPath(l, mem, roots, path') && path'[|path'| - 1] == o';
  }

  // ----- the state of the scan -----

  type Marks = seq<Bits>

  predicate Marked(m: Marks, o: Obj) {
    o.region < |m| && Bit(m[o.region], o.index)
  }

  // There is a mark bit for every object.
  ghost predicate MarksFit(l: Layout, m: Marks)
    requires LayoutOk(l)
  {
    |m| == |l.regions| && forall o :: IsObj(l, o) ==> o.index / 64 < |m[o.region]|
  }

  // Words still to be scanned: on the stack, or from here on in the current frame.
  ghost predicate Waiting(stack: seq<Frame>, a: nat) {
    exists f :: f in stack && f.lo <= a < f.hi
  }

  // A word that points nowhere, to a marked object, or is still waiting.
  ghost predicate Settled(l: Layout, mem: Memory, m: Marks, stack: seq<Frame>, a: nat)
    requires LayoutOk(l)
  {
    Target(l, mem(a)).Some? ==> Marked(m, Target(l, mem(a)).value) || Waiting(stack, a)
  }

  // All words of a frame are settled; those of a root not taken yet need not be.
  ghost predicate FrameSettled(l: Layout, mem: Memory, m: Marks, stack: seq<Frame>, f: Frame)
    requires LayoutOk(l)
  {
    forall a: nat :: f.lo <= a < f.hi ==> Settled(l, mem, m, stack, a)
  }

  // Whatever a frame points to is reachable.
  ghost predicate FrameSound(l: Layout, mem: Memory, roots: seq<Frame>, f: Frame)
    requires LayoutOk(l)
  {
    forall o :: PointsTo(l, mem, f, o) ==> Reachable(l, mem, roots, o)
  }

  ghost predicate Scanning(l: Layout, mem: Memory, roots: seq<Frame>, taken: nat, m: Marks, stack: seq<Frame>)
    requires LayoutOk(l)
  {
    && taken <= |roots| && MarksFit(l, m)
    && (forall o :: IsObj(l, o) && Marked(m, o) ==> Reachable(l, mem, roots, o))
    && (forall f :: f in stack ==> FrameSound(l, mem, roots, f))
    && (forall i :: 0 <= i < taken ==> FrameSettled(l, mem, m, stack, roots[i]))
    && (forall o :: IsObj(l, o) && Marked(m, o) ==> FrameSettled(l, mem, m, stack, Words(l, o)))
  }

  // Once nothing is waiting, the marked objects are the reachable ones.
  lemma {:induction false} PathMarked(l: Layout, mem: Memory, roots: seq<Frame>, m: Marks, path: seq<Obj>)
    requires LayoutOk(l) && Scanning(l, mem, roots, |roots|, m, []) && IsPath(l, mem, roots, path)
    ensures Marked(m, path[|path| - 1])
    decreases |path|
  {
    var n := |path| - 1;
    var o := path[n];
    if n == 0 {
      var i :| 0 <= i < |roots| && PointsTo(l, mem, roots[i], path[0]);
      var a: nat :| roots[i].lo <= a < roots[i].hi && Target(l, mem(a)) == Some(o);
      assert FrameSettled(l, mem, m, [], roots[i]);
      assert Settled(l, mem, m, [], a);
    } else {
      var p := path[..n];
      assert p[0] == path[0];
      forall i | 0 <= i < |p| - 1 ensures PointsTo(l, mem, Words(l, p[i]), p[i + 1]) {
        assert PointsTo(l, mem, Words(l, path[i]), path[i + 1]);
      }
      PathMarked(l, mem, roots, m, p);
      var f := Words(l, path[n - 1]);
      assert PointsTo(l, mem, Words(l, path[n - 1]), path[n - 1 + 1]);
      var a: nat :| f.lo <= a < f.hi && Target(l, mem(a)) == Some(o);
      assert IsObj(l, path[n - 1]) && Marked(m, path[n - 1]);
      assert FrameSettled(l, mem, m, [], f);
      assert Settled(l, mem, m, [], a);
    }
  }

  lemma ScanDone(l: Layout, mem: Memory, roots: seq<Frame>, m: Marks)
    requires LayoutOk(l) && Scanning(l, mem, roots, |roots|, m, [])
    ensures forall o :: IsObj(l, o) ==> (Marked(m, o) <==> Reachable(l, mem, roots, o))
  {
    forall o | IsObj(l, o) && Reachable(l, mem, roots, o) ensures Marked(m, o) {
      var path :| IsPath(l, mem, roots, path) && path[|path| - 1] == o;
      PathMarked(l, mem, roots, m, path);
    }
  }

  // ----- the steps of the scan -----

  // Settled words stay settled when marks are added and whatever no longer
  // waits points to a marked object.
  ghost predicate Progress(l: Layout, mem: Memory, m: Marks, stack: seq<Frame>, m': Marks, stack': seq<Frame>)
    requires LayoutOk(l)
  {
    && (forall o :: Marked(m, o) ==> Marked(m', o))
    && forall a: nat :: Waiting(stack, a) ==> Settled(l, mem, m', stack', a)
  }

  lemma StaysSettled(l: Layout, mem: Memory, m: Marks, stack: seq<Frame>, m': Marks, stack': seq<Frame>, f: Frame)
    requires LayoutOk(l) && FrameSettled(l, mem, m, stack, f) && Progress(l, mem, m, stack, m', stack')
    ensures FrameSettled(l, mem, m', stack', f)
  {
    hide Target, Marked, Waiting;
    forall a: nat | f.lo <= a < f.hi ensures Settled(l, mem, m', stack', a) {
      assert Settled(l, mem, m, stack, a);
    }
  }

  // The stack may change as long as the same words wait.
  lemma SameWaiting(l: Layout, mem: Memory, roots: seq<Frame>, taken: nat, m: Marks, stack: seq<Frame>,
                    stack': seq<Frame>)
    requires LayoutOk(l) && Scanning(l, mem, roots, taken, m, stack)
    requires forall f :: f in stack' ==> f in stack
    requires forall a: nat :: Waiting(stack, a) ==> Waiting(stack', a)
    ensures Scanning(l, mem, roots, taken, m, stack')
  {
    hide Target, Marked, Words, FrameSettled, FrameSound, Waiting, Reachable;
    assert Progress(l, mem, m, stack, m, stack');
    forall i | 0 <= i < taken ensures FrameSettled(l, mem, m, stack', roots[i]) {
      StaysSettled(l, mem, m, stack, m, stack', roots[i]);
    }
    forall o | IsObj(l, o) && Marked(m, o) ensures FrameSettled(l, mem, m, stack', Words(l, o)) {
      StaysSettled(l, mem, m, stack, m, stack', Words(l, o));
    }
  }

  // A word that leads to no new object is passed over.
  lemma PassWord(l: Layout, mem: Memory, roots: seq<Frame>, taken: nat, m: Marks, stack: seq<Frame>, p: nat, hi: nat)
    requires LayoutOk(l) && p < hi && Scanning(l, mem, roots, taken, m, stack + [Frame(p, hi)])
    requires Target(l, mem(p)).Some? ==> Marked(m, Target(l, mem(p)).value)
    ensures Scanning(l, mem, roots, taken, m, stack + [Frame(p + 1, hi)])
  {
    hide Target, Marked, FrameSettled, Words;
    var s, s' := stack + [Frame(p, hi)], stack + [Frame(p + 1, hi)];
    forall a: nat | Waiting(s, a) ensures Settled(l, mem, m, s', a) {
      PassWaiting(stack, p, hi, a);
    }
    assert Frame(p, hi) in s;
    assert FrameSound(l, mem, roots, Frame(p, hi));
    forall f | f in s' ensures FrameSound(l, mem, roots, f) {
      if f == Frame(p + 1, hi) {
        forall o | PointsTo(l, mem, f, o) ensures PointsTo(l, mem, Frame(p, hi), o) {
        }
      } else {
        assert f in s;
      }
    }
    forall i | 0 <= i < taken ensures FrameSettled(l, mem, m, s', roots[i]) {
      StaysSettled(l, mem, m, s, m, s', roots[i]);
    }
    forall o | IsObj(l, o) && Marked(m, o) ensures FrameSettled(l, mem, m, s', Words(l, o)) {
      StaysSettled(l, mem, m, s, m, s', Words(l, o));
    }
  }

  lemma PassWaiting(stack: seq<Frame>, p: nat, hi: nat, a: nat)
    requires Waiting(stack + [Frame(p, hi)], a)
    ensures a == p || Waiting(stack + [Frame(p + 1, hi)], a)
  {
    var f :| f in stack + [Frame(p, hi)] && f.lo <= a < f.hi;
    if f in stack {
      assert f in stack + [Frame(p + 1, hi)];
    } else if a != p {
      assert Frame(p + 1, hi) in stack + [Frame(p + 1, hi)];
    }
  }

  // A finished frame is dropped.
  lemma DropFrame(l: Layout, mem: Memory, roots: seq<Frame>, taken: nat, m: Marks, stack: seq<Frame>, p: nat, hi: nat)
    requires LayoutOk(l) && p >= hi && Scanning(l, mem, roots, taken, m, stack + [Frame(p, hi)])
    ensures Scanning(l, mem, roots, taken, m, stack)
  {
    forall a: nat | Waiting(stack + [Frame(p, hi)], a) ensures Waiting(stack, a) {
      var f :| f in stack + [Frame(p, hi)] && f.lo <= a < f.hi;
      assert f in stack;
    }
    SameWaiting(l, mem, roots, taken, m, stack + [Frame(p, hi)], stack);
  }

  // A root is taken when nothing else waits.
  lemma TakeRoot(l: Layout, mem: Memory, roots: seq<Frame>, taken: nat, m: Marks)
    requires LayoutOk(l) && taken < |roots| && Scanning(l, mem, roots, taken, m, [])
    ensures Scanning(l, mem, roots, taken + 1, m, [] + [roots[taken]])
  {
    hide Target, Marked, Words;
    var s' := [] + [roots[taken]];
    forall o | PointsTo(l, mem, roots[taken], o) ensures Reachable(l, mem, roots, o) {
      RootReaches(l, mem, roots, taken, o);
    }
    forall a: nat | roots[taken].lo <= a < roots[taken].hi ensures Waiting(s', a) {
      assert roots[taken] in s';
    }
    forall i | 0 <= i < taken + 1 ensures FrameSettled(l, mem, m, s', roots[i]) {
      if i < taken {
        StaysSettled(l, mem, m, [], m, s', roots[i]);
      }
    }
    forall o | IsObj(l, o) && Marked(m, o) ensures FrameSettled(l, mem, m, s', Words(l, o)) {
      StaysSettled(l, mem, m, [], m, s', Words(l, o));
    }
  }

  function SetMark(m: Marks, o: Obj): Marks
    requires o.region < |m| && o.index / 64 < |m[o.region]|
  {
    m[o.region := SetBit(m[o.region], o.index)]
  }

  lemma SetMarkSets(m: Marks, o: Obj, o': Obj)
    requires o.region < |m| && o.index / 64 < |m[o.region]|
    ensures Marked(SetMark(m, o), o') <==> o' == o || Marked(m, o')
    ensures |SetMark(m, o)| == |m| && forall i :: 0 <= i < |m| ==> |SetMark(m, o)[i]| == |m[i]|
  {
    SetBitSets(m[o.region], o.index, o'.index);
  }

  // A word leads to an unmarked object: mark it and let its words wait.
  lemma MarkObject(l: Layout, mem: Memory, roots: seq<Frame>, taken: nat, m: Marks, stack: seq<Frame>, p: nat, hi: nat,
                   o: Obj)
    requires LayoutOk(l) && p < hi && Scanning(l, mem, roots, taken, m, stack + [Frame(p, hi)])
    requires Target(l, mem(p)) == Some(o)
    ensures IsObj(l, o) && o.region < |m| && o.index / 64 < |m[o.region]|
    ensures Scanning(l, mem, roots, taken, SetMark(m, o), stack + [Words(l, o)] + [Frame(p + 1, hi)])
  {
    hide Target, Marked, Words, SetMark, Reachable;
    TargetIsObj(l, mem(p));
    var s, s', m' := stack + [Frame(p, hi)], stack + [Words(l, o)] + [Frame(p + 1, hi)], SetMark(m, o);
    MarkFits(l, m, o);
    forall o' ensures Marked(m', o') <==> o' == o || Marked(m, o') {
      SetMarkSets(m, o, o');
    }
    assert Frame(p, hi) in s;
    assert FrameSound(l, mem, roots, Frame(p, hi));
    assert PointsTo(l, mem, Frame(p, hi), o);
    MarkProgress(l, mem, m, stack, p, hi, o);
    forall f | f in s' ensures FrameSound(l, mem, roots, f) {
      MarkSound(l, mem, roots, stack, p, hi, o, f);
    }
    forall i | 0 <= i < taken ensures FrameSettled(l, mem, m', s', roots[i]) {
      StaysSettled(l, mem, m, s, m', s', roots[i]);
    }
    forall q | IsObj(l, q) && Marked(m', q) ensures FrameSettled(l, mem, m', s', Words(l, q)) {
      if q == o {
        NewWait(l, mem, m', stack, p, hi, o);
      } else {
        StaysSettled(l, mem, m, s, m', s', Words(l, q));
      }
    }
  }

  lemma MarkFits(l: Layout, m: Marks, o: Obj)
    requires LayoutOk(l) && MarksFit(l, m) && IsObj(l, o)
    ensures o.region < |m| && o.index / 64 < |m[o.region]| && MarksFit(l, SetMark(m, o))
  {
    SetMarkSets(m, o, o);
  }

  lemma NewWait(l: Layout, mem: Memory, m: Marks, stack: seq<Frame>, p: nat, hi: nat, o: Obj)
    requires LayoutOk(l) && o.region < |l.regions|
    ensures FrameSettled(l, mem, m, stack + [Words(l, o)] + [Frame(p + 1, hi)], Words(l, o))
  {
    assert Words(l, o) in stack + [Words(l, o)] + [Frame(p + 1, hi)];
  }

  lemma MarkProgress(l: Layout, mem: Memory, m: Marks, stack: seq<Frame>, p: nat, hi: nat, o: Obj)
    requires LayoutOk(l) && p < hi && Target(l, mem(p)) == Some(o) && MarksFit(l, m) && IsObj(l, o)
    requires o.region < |m| && o.index / 64 < |m[o.region]|
    ensures Progress(l, mem, m, stack + [Frame(p, hi)], SetMark(m, o), stack + [Words(l, o)] + [Frame(p + 1, hi)])
  {
    hide Target, Marked, Words, SetMark;
    var s, s', m' := stack + [Frame(p, hi)], stack + [Words(l, o)] + [Frame(p + 1, hi)], SetMark(m, o);
    forall o' ensures Marked(m', o') <==> o' == o || Marked(m, o') {
      SetMarkSets(m, o, o');
    }
    forall a: nat | Waiting(s, a) ensures Settled(l, mem, m', s', a) {
      PassWaiting(stack, p, hi, a);
      if f :| f in stack + [Frame(p + 1, hi)] && f.lo <= a < f.hi {
        assert f in s';
      }
    }
  }

  lemma MarkSound(l: Layout, mem: Memory, roots: seq<Frame>, stack: seq<Frame>, p: nat, hi: nat, o: Obj, f: Frame)
    requires LayoutOk(l) && IsObj(l, o)
    requires forall g :: g in stack + [Frame(p, hi)] ==> FrameSound(l, mem, roots, g)
    requires PointsTo(l, mem, Frame(p, hi), o)
    requires f in stack + [Words(l, o)] + [Frame(p + 1, hi)]
    ensures FrameSound(l, mem, roots, f)
  {
    hide Target, Words, Reachable;
    assert Frame(p, hi) in stack + [Frame(p, hi)];
    if f == Words(l, o) {
      forall q | PointsTo(l, mem, f, q) ensures Reachable(l, mem, roots, q) {
        StepReaches(l, mem, roots, o, q);
      }
    } else if f == Frame(p + 1, hi) {
      forall q | PointsTo(l, mem, f, q) ensures PointsTo(l, mem, Frame(p, hi), q) {
      }
    } else {
      assert f in stack + [Frame(p, hi)];
    }
  }

  // ----- the marking loop -----

  ghost function Unmarked(l: Layout, m: Marks): set<Obj>
    requires LayoutOk(l)
  {
    set i, j | 0 <= i < |l.regions| && 0 <= j < CountAt(l, i) && !Marked(m, Obj(i, j)) :: Obj(i, j)
  }

  ghost function CountAt(l: Layout, i: nat): nat
    requires LayoutOk(l) && i < |l.regions|
  {
    assert RegionOk(l.regions[i]);
    Count(l.regions[i])
  }

  lemma FewerUnmarked(l: Layout, m: Marks, o: Obj)
    requires LayoutOk(l) && MarksFit(l, m) && IsObj(l, o) && !Marked(m, o)
    ensures o.region < |m| && o.index / 64 < |m[o.region]|
    ensures Unmarked(l, SetMark(m, o)) < Unmarked(l, m)
  {
    hide Marked, SetMark;
    MarkFits(l, m, o);
    forall o' ensures Marked(SetMark(m, o), o') <==> o' == o || Marked(m, o') {
      SetMarkSets(m, o, o');
    }
    assert o in Unmarked(l, m) && o !in Unmarked(l, SetMark(m, o));
  }

  // How much is waiting, counting each frame once more.
  function Load(stack: seq<Frame>): nat {
    if stack == [] then 0
    else
      var f := stack[|stack| - 1];
      Load(stack[..|stack| - 1]) + 1 + if f.lo < f.hi then f.hi - f.lo else 0
  }

  // Nothing but objects is marked.
  ghost predicate OnlyObjects(l: Layout, m: Marks)
    requires LayoutOk(l)
  {
    forall o :: Marked(m, o) ==> IsObj(l, o)
  }

  lemma MarkOnlyObjects(l: Layout, m: Marks, o: Obj)
    requires LayoutOk(l) && OnlyObjects(l, m) && IsObj(l, o) && o.region < |m| && o.index / 64 < |m[o.region]|
    ensures OnlyObjects(l, SetMark(m, o))
  {
    hide Marked, SetMark, IsObj;
    forall o' | Marked(SetMark(m, o), o') ensures IsObj(l, o') {
      SetMarkSets(m, o, o');
    }
  }

  const MAX_PUSH := 1024

  class Marker {
    const layout: Layout
    const mem: Memory
    var marks: Marks

    constructor (layout: Layout, mem: Memory)
      requires LayoutOk(layout)
      ensures this.layout == layout && this.mem == mem && MarksFit(layout, marks)
      ensures forall o :: !Marked(marks, o)
    {
      this.layout, this.mem := layout, mem;
      marks := ClearMarks(layout);
      ClearFit(layout);
    }

    // Set the mark of an object; false if it was set already.
    method MarkIndex(o: Obj) returns (fresh': bool)
      requires o.region < |marks| && o.index / 64 < |marks[o.region]|
      modifies this`marks
      ensures fresh' == !old(Marked(marks, o))
      ensures marks == if fresh' then SetMark(old(marks), o) else old(marks)
    {
      hide Has, With, Mask;
      var u := marks[o.region][o.index / 64];
      var mask := Mask(o.index % 64);
      if Has(u, mask) {
        return false;
      }
      marks := marks[o.region := marks[o.region][o.index / 64 := With(u, mask)]];
      return true;
    }

    // Scan the words from p to hi, pushing the objects found for the first
    // time.  When many were pushed, the oldest of them changes places with
    // the rest of this scan.
    method Scan(roots: seq<Frame>, ghost taken: nat, stack: seq<Frame>, from: Frame) returns (stack': seq<Frame>)
      requires LayoutOk(layout) && Scanning(layout, mem, roots, taken, marks, stack + [from])
      modifies this`marks
      ensures Scanning(layout, mem, roots, taken, marks, stack')
      ensures old(OnlyObjects(layout, marks)) ==> OnlyObjects(layout, marks)
      ensures Unmarked(layout, marks) <= old(Unmarked(layout, marks))
      ensures Unmarked(layout, marks) == old(Unmarked(layout, marks)) ==> stack' == stack
    {
      hide Scanning, LayoutOk, Unmarked, Marked, Words, SetMark, OnlyObjects;
      stack' := stack;
      var p, hi, pushed: nat := from.lo, from.hi, 0;
      assert from == Frame(p, hi);
      while p < hi
        invariant Scanning(layout, mem, roots, taken, marks, stack' + [Frame(p, hi)])
        invariant pushed <= |stack'| && (old(OnlyObjects(layout, marks)) ==> OnlyObjects(layout, marks))
        invariant Unmarked(layout, marks) <= old(Unmarked(layout, marks))
        invariant Unmarked(layout, marks) == old(Unmarked(layout, marks)) ==> stack' == stack
        decreases Unmarked(layout, marks), if p < hi then hi - p else 0
      {
        var target := Target(layout, mem(p));
        ghost var m := marks;
        if target.None? {
          PassWord(layout, mem, roots, taken, marks, stack', p, hi);
          p := p + 1;
          continue;
        }
        var o := target.value;
        ObjectHere(layout, mem, roots, taken, marks, stack', p, hi, o);
        var fresh' := MarkIndex(o);
        if !fresh' {
          PassWord(layout, mem, roots, taken, marks, stack', p, hi);
          p := p + 1;
          continue;
        }
        if OnlyObjects(layout, m) { MarkOnlyObjects(layout, m, o); }
        MarkObject(layout, mem, roots, taken, m, stack', p, hi, o);
        FewerUnmarked(layout, m, o);
        stack' := stack' + [Words(layout, o)];
        p := p + 1;
        if pushed > MAX_PUSH {
          var at := |stack'| - 1 - pushed;
          var other := stack'[at];
          ghost var before := stack' + [Frame(p, hi)];
          stack' := stack'[at := Frame(p, hi)];
          p, hi, pushed := other.lo, other.hi, 0;
          Swapped(before, at);
          assert stack' + [Frame(p, hi)] == Swap(before, at);
          SameFrames(layout, mem, roots, taken, marks, before, Swap(before, at));
        }
        pushed := pushed + 1;
      }
      DropFrame(layout, mem, roots, taken, marks, stack', p, hi);
    }

    // Mark what can be reached from the roots.
    method Mark(roots: seq<Frame>)
      requires LayoutOk(layout) && MarksFit(layout, marks) && forall o :: !Marked(marks, o)
      modifies this`marks
      ensures MarksFit(layout, marks)
      ensures forall o :: Marked(marks, o) <==> IsObj(layout, o) && Reachable(layout, mem, roots, o)
    {
      hide LayoutOk, Unmarked, Marked, Words, SetMark;
      var stack: seq<Frame> := [];
      var taken: nat := 0;
      while |stack| > 0 || taken < |roots|
        invariant Scanning(layout, mem, roots, taken, marks, stack) && OnlyObjects(layout, marks)
        decreases Unmarked(layout, marks), |roots| - taken, Load(stack)
      {
        if |stack| == 0 {
          TakeRoot(layout, mem, roots, taken, marks);
          stack := Scan(roots, taken + 1, [], roots[taken]);
          taken := taken + 1;
        } else {
          var n := |stack| - 1;
          assert stack[..n] + [stack[n]] == stack;
          stack := Scan(roots, taken, stack[..n], stack[n]);
        }
      }
      ScanDone(layout, mem, roots, marks);
    }
  }

  ghost function Swap(s: seq<Frame>, i: nat): seq<Frame>
    requires i < |s|
  {
    s[i := s[|s| - 1]][|s| - 1 := s[i]]
  }

  lemma Swapped(s: seq<Frame>, i: nat)
    requires i < |s|
    ensures forall f :: f in s <==> f in Swap(s, i)
  {
    var t := Swap(s, i);
    forall f | f in s ensures f in t {
      var j :| 0 <= j < |s| && s[j] == f;
      assert t[if j == i then |s| - 1 else if j == |s| - 1 then i else j] == f;
    }
    forall f | f in t ensures f in s {
      var j :| 0 <= j < |t| && t[j] == f;
      assert s[if j == i then |s| - 1 else if j == |s| - 1 then i else j] == f;
    }
  }

  lemma SameFrames(l: Layout, mem: Memory, roots: seq<Frame>, taken: nat, m: Marks, stack: seq<Frame>,
                   stack': seq<Frame>)
    requires LayoutOk(l) && Scanning(l, mem, roots, taken, m, stack)
    requires forall f :: f in stack <==> f in stack'
    ensures Scanning(l, mem, roots, taken, m, stack')
  {
    hide Scanning;
    SameWaiting(l, mem, roots, taken, m, stack, stack');
  }

  lemma ObjectHere(l: Layout, mem: Memory, roots: seq<Frame>, taken: nat, m: Marks, stack: seq<Frame>, p: nat, hi: nat,
                   o: Obj)
    requires LayoutOk(l) && p < hi && Scanning(l, mem, roots, taken, m, stack + [Frame(p, hi)])
    requires Target(l, mem(p)) == Some(o)
    ensures IsObj(l, o) && MarksFit(l, m) && o.region < |m| && o.index / 64 < |m[o.region]|
  {
    TargetIsObj(l, mem(p));
    MarkFits(l, m, o);
  }

  function ClearMarks(l: Layout): Marks {
    seq(|l.regions|, i requires 0 <= i < |l.regions| =>
      var r := l.regions[i];
      seq(if r.size > 0 && r.start <= r.free then Count(r) / 64 + 1 else 0, _ => 0 as bv64))
  }

  lemma ClearFit(l: Layout)
    requires LayoutOk(l)
    ensures MarksFit(l, ClearMarks(l)) && forall o :: !Marked(ClearMarks(l), o)
  {
    var m := ClearMarks(l);
    forall o | IsObj(l, o) ensures o.index / 64 < |m[o.region]| {
      assert RegionOk(l.regions[o.region]);
    }
    forall o ensures !Marked(m, o) {
      if o.region < |m| && o.index / 64 < |m[o.region]| {
        NoBits(Mask(o.index % 64));
      }
    }
  }

  lemma NoBits(m: bv64)
    ensures !Has(0, m)
  {
  }
}
