// Boolean expressions in normal form (expr.c): conjunctions and disjunctions
// are maps from operands to signs, and negation is pushed down as they are built.
module ExprForm {
  import opened Wrappers

  // args[k] tells whether operand k is negated.  A negation is a conjunction
  // with one operand.  Prim stands for an atomic constraint.
  datatype Expr =
    | Bool(b: bool)
    | Var(x: nat)
    | Prim(p: nat)
    | Iff(l: Expr, r: Expr)
    | And(args: map<Expr, bool>)
    | Or(args: map<Expr, bool>)

  type Args = map<Expr, bool>

  // Truth values of the variables and of the atomic constraints.
  datatype Env = Env(vars: nat -> bool, prims: nat -> bool)

  ghost predicate Eval(e: Expr, env: Env) {
    match e
    case Bool(b) => b
    case Var(x) => env.vars(x)
    case Prim(p) => env.prims(p)
    case Iff(l, r) => Eval(l, env) == Eval(r, env)
    case And(m) => forall k :: k in m ==> Eval(k, env) != m[k]
    case Or(m) => exists k :: k in m && Eval(k, env) != m[k]
  }

  // ----- the normal form -----

  predicate Negated(e: Expr) {
    e.And? && |e.args| == 1
  }

  predicate Leaf(e: Expr) {
    e.Var? || e.Prim? || e.Iff?
  }

  // No constant inside, no conjunction directly inside a conjunction, no
  // disjunction or negation directly inside a disjunction, and negation on
  // leaves only.
  ghost predicate Normal(e: Expr) {
    match e
    case Bool(_) => true
    case Var(_) => true
    case Prim(_) => true
    case Iff(l, r) => Normal(l) && Normal(r) && !l.Bool? && !r.Bool? && l != r
    case And(m) =>
      && |m| > 0 && (|m| == 1 ==> forall k :: k in m ==> m[k])
      && forall k :: k in m ==> Normal(k) && (Leaf(k) || (k.Or? && !m[k]))
    case Or(m) =>
      && |m| > 1
      && forall k :: k in m ==> Normal(k) && (Leaf(k) || (k.And? && |k.args| > 1 && !m[k]))
  }

  // ----- operands -----

  // Add an operand of a conjunction; None is the contradiction.
  function AndUpdate(m: Option<Args>, k: Expr, v: bool): Option<Args> {
    if m.None? then None
    else if k in m.value then if m.value[k] != v then None else m
    else Some(m.value[k := v])
  }

  function AndToExpr(m: Option<Args>): Expr {
    if m.None? then Bool(false)
    else if |m.value| == 0 then Bool(true)
    else if |m.value| == 1 && !m.value[Only(m.value)] then Only(m.value)
    else And(m.value)
  }

  // The operand of a singleton.
  function Only(m: Args): (k: Expr)
    requires |m| == 1
    ensures k in m
  {
    OneKey(m);
    var k :| k in m;
    k
  }

  lemma OneKey(m: Args)
    requires |m| == 1
    ensures exists k :: k in m
    ensures forall k, k' :: k in m && k' in m ==> k == k'
  {
    assert |m.Keys| == 1;
    var k :| k in m.Keys;
    var rest := m.Keys - {k};
    assert |rest| == 0;
    forall j | j in m ensures j == k {
      assert j !in rest;
    }
  }

  // A negation is split into its operand and its sign.
  function NotFactor(e: Expr): (Expr, bool) {
    if Negated(e) then (AndToExpr(Some(map[Only(e.args) := false])), true) else (e, false)
  }

  function OrUpdate(m: Option<Args>, k: Expr, v: bool): Option<Args> {
    var (f, s) := NotFactor(k);
    AndUpdate(m, f, if s then !v else v)
  }

  function OrToExpr(m: Option<Args>): Expr {
    if m.None? then Bool(true)
    else if |m.value| == 0 then Bool(false)
    else if |m.value| == 1 then
      if !m.value[Only(m.value)] then Only(m.value) else And(m.value)
    else Or(m.value)
  }

  // Two sets of operands put together; None when they clash.
  ghost function Merge(m: Args, n: Args): Option<Args> {
    if forall k :: k in m && k in n ==> m[k] == n[k] then Some(n + m) else None
  }

  // The loop that puts two conjunctions, or two disjunctions, together: the
  // smaller one (by tree depth, here passed in) is added to the other.
  method MergeArgs(a: Args, b: Args, swap: bool) returns (r: Option<Args>)
    ensures r == Merge(a, b)
  {
    hide Merge, AndUpdate;
    var from, into := if swap then b else a, if swap then a else b;
    r := Some(into);
    var left := from.Keys;
    ghost var done: Args := map[];
    MergeNothing(into);
    MergeSwap(a, b);
    while left != {} && r.Some?
      invariant left <= from.Keys && done.Keys == from.Keys - left
      invariant forall k :: k in done ==> done[k] == from[k]
      invariant r == Merge(done, into)
      decreases |left|
    {
      var k :| k in left;
      MergeStep(done, into, k, from[k]);
      r := AndUpdate(r, k, from[k]);
      done := done[k := from[k]];
      left := left - {k};
    }
    if r.Some? {
      assert done == from;
    } else {
      MergeClash(done, from, into);
    }
  }

  lemma MergeNothing(n: Args)
    ensures Merge(map[], n) == Some(n)
  {
    assert n + map[] == n;
  }

  lemma MergeStep(m: Args, n: Args, k: Expr, v: bool)
    requires k !in m && Merge(m, n).Some?
    ensures Merge(m[k := v], n) == AndUpdate(Merge(m, n), k, v)
  {
    if k in n {
      if n[k] == v {
        assert n + m[k := v] == n + m;
      } else {
        assert m[k := v][k] != n[k];
      }
    } else {
      assert n + m[k := v] == (n + m)[k := v];
    }
  }

  lemma MergeClash(d: Args, m: Args, n: Args)
    requires Merge(d, n).None? && forall k :: k in d ==> k in m && m[k] == d[k]
    ensures Merge(m, n).None?
  {
    var k :| k in d && k in n && d[k] != n[k];
    assert m[k] != n[k];
  }

  lemma MergeSwap(m: Args, n: Args)
    ensures Merge(m, n) == Merge(n, m)
  {
    if Merge(m, n).Some? {
      assert m + n == n + m;
    }
  }

  // ----- constructors -----

  ghost function AndExpr(a: Expr, b: Expr): Expr {
    if a.And? && b.And? then AndToExpr(Merge(a.args, b.args))
    else if a.Bool? then if a.b then b else a
    else if b.Bool? then if b.b then a else b
    else if a.And? then AndToExpr(AndUpdate(Some(a.args), b, false))
    else if b.And? then AndToExpr(AndUpdate(Some(b.args), a, false))
    else AndToExpr(AndUpdate(Some(map[a := false]), b, false))
  }

  ghost function OrExpr(a: Expr, b: Expr): Expr {
    if a.Or? && b.Or? then OrToExpr(Merge(a.args, b.args))
    else if a.Bool? then if a.b then a else b
    else if b.Bool? then if b.b then b else a
    else if a.Or? then OrToExpr(OrUpdate(Some(a.args), b, false))
    else if b.Or? then OrToExpr(OrUpdate(Some(b.args), a, false))
    else OrToExpr(OrUpdate(OrUpdate(Some(map[]), a, false), b, false))
  }

  // Negation, as far as it can be pushed down, and whether a sign is left over.
  function NotPropagate(e: Expr): (Expr, bool)
    decreases e, 1
  {
    match e
    case And(_) => (OrToExpr(Some(NotArgs(e))), false)
    case Or(_) => (AndToExpr(Some(NotArgs(e))), false)
    case Bool(b) => (Bool(!b), false)
    case _ => (e, true)
  }

  // The operand that negating operand k of e leads to.
  function NotKey(e: Expr, k: Expr): Expr
    requires (e.And? || e.Or?) && k in e.args
    decreases e, 0, 0
  {
    if !e.args[k] && (e.And? || k.And?) then NotPropagate(k).0 else k
  }

  function NotKeys(e: Expr, s: set<Expr>): set<Expr>
    requires (e.And? || e.Or?) && s <= e.args.Keys
    decreases e, 0, 1
  {
    set k | k in s :: NotKey(e, k)
  }

  // The operands of the negation of e: a sign is flipped unless the operand
  // itself took up the negation.
  function NotArgs(e: Expr): Args
    requires e.And? || e.Or?
    decreases e, 0, 2
  {
    map q | q in NotKeys(e, e.args.Keys) :: q in e.args && !e.args[q]
  }

  function NotExpr(e: Expr): Expr {
    var (a, s) := NotPropagate(e);
    if s then And(map[a := true]) else a
  }

  // The two sides are kept in a fixed order.
  function IffExpr(a: Expr, b: Expr, less: (Expr, Expr) -> bool): Expr {
    if a.Bool? then if a.b then b else NotExpr(b)
    else if b.Bool? then if b.b then a else NotExpr(a)
    else if a == b then Bool(true)
    else if less(a, b) then Iff(a, b)
    else Iff(b, a)
  }

  // ----- negation: meaning, form, and double negation -----

  // What the proof by recursion over an operand needs to know of its negation.
  ghost predicate Mirrored(e: Expr) {
    && Normal(NotExpr(e))
    && NotExpr(NotExpr(e)) == e
    && (Leaf(e) <==> NotPropagate(e).1)
    && (e.Or? ==> NotExpr(e).And? && |NotExpr(e).args| > 1)
    && (e.And? && |e.args| > 1 ==> NotExpr(e).Or?)
  }

  ghost predicate OperandsMirrored(e: Expr)
    requires e.And? || e.Or?
  {
    forall j :: j in e.args && Normal(j) ==> Mirrored(j)
  }

  // Operand k of e, and the operand it becomes.
  lemma OperandKinds(e: Expr, k: Expr)
    requires Normal(e) && (e.And? || e.Or?) && k in e.args
    ensures Normal(k) && k < e
    ensures Leaf(k) ==> NotKey(e, k) == k
    ensures !Leaf(k) ==> !e.args[k] && NotKey(e, k) == NotExpr(k)
    ensures !Leaf(k) ==> (e.And? && k.Or?) || (e.Or? && k.And? && |k.args| > 1)
  {
  }

  // Two operands of a normal expression do not become one, and none of the
  // new operands is an old one under another name.
  lemma KeysStayApart(e: Expr, k: Expr, k': Expr)
    requires Normal(e) && (e.And? || e.Or?) && k in e.args && k' in e.args
    requires OperandsMirrored(e)
    ensures NotKey(e, k) == NotKey(e, k') ==> k == k'
    ensures NotKey(e, k) == k' ==> k == k' && Leaf(k)
  {
    hide Normal, NotPropagate, NotKey, NotExpr;
    OperandKinds(e, k);
    OperandKinds(e, k');
    assert Mirrored(k) && Mirrored(k');
  }

  lemma NotArgsDef(e: Expr)
    requires e.And? || e.Or?
    ensures forall q :: q in NotArgs(e) <==> exists k :: k in e.args && NotKey(e, k) == q
    ensures forall q :: q in NotArgs(e) ==> NotArgs(e)[q] == (q in e.args && !e.args[q])
    ensures NotArgs(e).Keys == NotKeys(e, e.args.Keys)
  {
    hide NotKey, NotPropagate, NotExpr;
  }

  // The operand that k becomes, and its sign.
  lemma NotArgsAt(e: Expr, k: Expr)
    requires Normal(e) && (e.And? || e.Or?) && k in e.args
    requires OperandsMirrored(e)
    ensures NotKey(e, k) in NotArgs(e)
    ensures NotArgs(e)[NotKey(e, k)] == (Leaf(k) && !e.args[k])
  {
    hide Normal, NotPropagate, NotKey, NotExpr, NotArgs, Mirrored, OperandsMirrored, Leaf;
    NotArgsDef(e);
    OperandKinds(e, k);
    var q := NotKey(e, k);
    assert q in NotArgs(e);
    if q in e.args {
      KeysStayApart(e, k, q);
    }
  }

  lemma NotArgsSize(e: Expr)
    requires Normal(e) && (e.And? || e.Or?)
    requires OperandsMirrored(e)
    ensures |NotArgs(e)| == |e.args|
  {
    hide Normal, NotPropagate, NotKey, NotExpr, NotArgs, Mirrored;
    NotArgsDef(e);
    forall k, k' | k in e.args && k' in e.args && NotKey(e, k) == NotKey(e, k') ensures k == k' {
      KeysStayApart(e, k, k');
    }
    NotKeysSize(e, e.args.Keys);
  }

  lemma {:induction false} NotKeysSize(e: Expr, s: set<Expr>)
    requires (e.And? || e.Or?) && s <= e.args.Keys
    requires forall k, k' :: k in e.args && k' in e.args && NotKey(e, k) == NotKey(e, k') ==> k == k'
    ensures |NotKeys(e, s)| == |s|
    decreases |s|
  {
    hide NotKey;
    if s == {} {
      assert NotKeys(e, s) == {};
    } else {
      var k :| k in s;
      NotKeysSize(e, s - {k});
      assert NotKeys(e, s) == NotKeys(e, s - {k}) + {NotKey(e, k)};
      assert NotKey(e, k) !in NotKeys(e, s - {k});
    }
  }

  lemma {:induction false} NotIsMirror(e: Expr)
    requires Normal(e)
    ensures Mirrored(e)
  {
    if e.And? || e.Or? {
      forall j | j in e.args && Normal(j) ensures Mirrored(j) {
        NotIsMirror(j);
      }
      if |e.args| == 1 {
        NotOfNegation(e);
      } else {
        NotOfMany(e);
      }
    } else if Leaf(e) {
      var n := NotExpr(e);
      assert Normal(n);
      NotOfNegation(n);
    }
  }

  lemma NotOfNegation(e: Expr)
    requires e.And? && |e.args| == 1 && Normal(e)
    ensures NotExpr(e) == Only(e.args) && Leaf(Only(e.args))
    ensures NotPropagate(e) == (Only(e.args), false)
    ensures e == And(map[Only(e.args) := true])
  {
    var k := Only(e.args);
    OneKey(e.args);
    assert e.args[k] && Leaf(k);
    assert e.args == map[k := true];
    assert NotKey(e, k) == k;
    assert NotKeys(e, e.args.Keys) == {k};
    assert NotArgs(e) == map[k := false];
  }

  // The operands of a negation are normal in their place.
  lemma NotArgsNormal(e: Expr, q: Expr)
    requires Normal(e) && (e.And? || e.Or?) && |e.args| > 1
    requires OperandsMirrored(e) && q in NotArgs(e)
    ensures Normal(q)
    ensures Leaf(q) || (!NotArgs(e)[q] && if e.Or? then q.Or? else q.And? && |q.args| > 1)
  {
    hide Normal, NotPropagate, NotKey, NotArgs, NotExpr;
    NotArgsDef(e);
    var k :| k in e.args && NotKey(e, k) == q;
    OperandKinds(e, k);
    NotArgsAt(e, k);
    assert Mirrored(k);
  }

  ghost function Dual(e: Expr): Expr
    requires e.And? || e.Or?
  {
    if e.And? then Or(NotArgs(e)) else And(NotArgs(e))
  }

  lemma DualIsNormal(e: Expr)
    requires Normal(e) && (e.And? || e.Or?) && |e.args| > 1
    requires OperandsMirrored(e)
    ensures Normal(Dual(e)) && |Dual(e).args| > 1
    ensures NotPropagate(e) == (Dual(e), false)
  {
    hide NotKey, NotArgs, NotExpr, Mirrored;
    NotArgsSize(e);
    forall q | q in NotArgs(e)
      ensures Normal(q) && (Leaf(q) || (!NotArgs(e)[q] && if e.Or? then q.Or? else q.And? && |q.args| > 1))
    {
      NotArgsNormal(e, q);
    }
  }

  lemma NotOfMany(e: Expr)
    requires Normal(e) && (e.And? || e.Or?) && |e.args| > 1
    requires OperandsMirrored(e)
    ensures Mirrored(e)
  {
    hide NotKey, NotArgs, Normal;
    DualIsNormal(e);
    NotBack(e);
    DualBack(Dual(e));
  }

  lemma DualBack(n: Expr)
    requires (n.And? || n.Or?) && |n.args| > 1 && |NotArgs(n)| > 1
    ensures NotPropagate(n) == (Dual(n), false)
  {
  }

  // Negating the negated operands gives the operands back.
  lemma NotBackAt(e: Expr, k: Expr)
    requires Normal(e) && (e.And? || e.Or?) && |e.args| > 1 && k in e.args
    requires OperandsMirrored(e) && Normal(Dual(e))
    ensures NotKey(e, k) in Dual(e).args && NotKey(Dual(e), NotKey(e, k)) == k
    ensures k in NotArgs(Dual(e)) && NotArgs(Dual(e))[k] == e.args[k]
  {
    hide Normal, NotPropagate, NotKey, NotArgs, NotExpr;
    var n := Dual(e);
    OperandKinds(e, k);
    assert Mirrored(k);
    NotArgsAt(e, k);
    OperandKinds(n, NotKey(e, k));
    NotArgsDef(n);
    NotArgsDef(e);
    if k in n.args {
      var k' :| k' in e.args && NotKey(e, k') == k;
      KeysStayApart(e, k', k);
    }
  }

  lemma NotBackOnly(e: Expr, j: Expr)
    requires Normal(e) && (e.And? || e.Or?) && |e.args| > 1
    requires OperandsMirrored(e) && Normal(Dual(e)) && j in NotArgs(Dual(e))
    ensures j in e.args
  {
    hide Normal, NotPropagate, NotKey, NotArgs, NotExpr, Mirrored, OperandsMirrored;
    NotArgsDef(Dual(e));
    NotArgsDef(e);
    var q :| q in Dual(e).args && NotKey(Dual(e), q) == j;
    var k :| k in e.args && NotKey(e, k) == q;
    NotBackAt(e, k);
  }

  lemma NotBack(e: Expr)
    requires Normal(e) && (e.And? || e.Or?) && |e.args| > 1
    requires OperandsMirrored(e) && Normal(Dual(e))
    ensures NotArgs(Dual(e)) == e.args
  {
    hide Normal, NotPropagate, NotKey, NotArgs, NotExpr, Mirrored, OperandsMirrored;
    var n := Dual(e);
    forall k | k in e.args ensures k in NotArgs(n) && NotArgs(n)[k] == e.args[k] {
      NotBackAt(e, k);
    }
    forall j | j in NotArgs(n) ensures j in e.args {
      NotBackOnly(e, j);
    }
  }

  // Double negation gives back the same expression.
  lemma NotNot(e: Expr)
    requires Normal(e)
    ensures Normal(NotExpr(e)) && NotExpr(NotExpr(e)) == e
  {
    NotIsMirror(e);
  }

  // The negated operands, as far as the loop below has come.
  ghost predicate NegatedSoFar(e: Expr, done: set<Expr>, m: Args)
    requires e.And? || e.Or?
  {
    && done <= e.args.Keys
    && m.Keys == NotKeys(e, done)
    && forall q :: q in m ==> q in NotArgs(e) && m[q] == NotArgs(e)[q]
  }

  lemma NegateNone(e: Expr)
    requires e.And? || e.Or?
    ensures NegatedSoFar(e, {}, map[])
  {
  }

  lemma NegateMore(e: Expr, done: set<Expr>, m: Args, k: Expr, q: Expr, s: bool)
    requires (e.And? || e.Or?) && NegatedSoFar(e, done, m) && k in e.args
    requires q == NotKey(e, k) && q in NotArgs(e) && s == NotArgs(e)[q]
    ensures NegatedSoFar(e, done + {k}, m[q := s])
  {
    hide NotPropagate, NotArgs, NotExpr, NotKey;
  }

  lemma NegateAll(e: Expr, m: Args)
    requires (e.And? || e.Or?) && NegatedSoFar(e, e.args.Keys, m)
    ensures m == NotArgs(e)
  {
    hide NotPropagate, NotArgs, NotExpr, NotKey, NotKeys;
    NotArgsDef(e);
  }

  // The loop that negates the operands of a conjunction or a disjunction.
  method NegateArgs(e: Expr) returns (m: Args)
    requires Normal(e) && (e.And? || e.Or?)
    ensures m == NotArgs(e)
  {
    hide *;
    m := map[];
    NegateNone(e);
    var left := e.args.Keys;
    ghost var done: set<Expr> := {};
    while left != {}
      invariant done + left == e.args.Keys && done !! left
      invariant NegatedSoFar(e, done, m)
      decreases |left|
    {
      var k :| k in left;
      var q, s := NegateOperand(e, k);
      NegateMore(e, done, m, k, q, s);
      m := m[q := s];
      left := left - {k};
      done := done + {k};
    }
    assert done == e.args.Keys;
    NegateAll(e, m);
  }

  method NegateOperand(e: Expr, k: Expr) returns (q: Expr, s: bool)
    requires Normal(e) && (e.And? || e.Or?) && k in e.args
    ensures q == NotKey(e, k) && q in NotArgs(e) && s == NotArgs(e)[q]
  {
    hide Normal, Mirrored, NotPropagate, NotArgs;
    AllMirrored(e);
    NotArgsAt(e, k);
    SignLeft(e, k);
    if !e.args[k] && (e.And? || k.And?) {
      var p := NotPropagate(k);
      q, s := p.0, p.1;
    } else {
      q, s := k, !e.args[k];
    }
  }

  lemma AllMirrored(e: Expr)
    requires Normal(e) && (e.And? || e.Or?)
    ensures OperandsMirrored(e)
  {
    hide Normal, Mirrored;
    forall j | j in e.args && Normal(j) ensures Mirrored(j) {
      NotIsMirror(j);
    }
  }

  // The sign that the negated operand gets.
  lemma SignLeft(e: Expr, k: Expr)
    requires Normal(e) && (e.And? || e.Or?) && k in e.args
    ensures NotPropagate(k).1 <==> Leaf(k)
    ensures e.args[k] ==> Leaf(k)
    ensures e.Or? && !e.args[k] && !k.And? ==> Leaf(k)
  {
    NotIsMirror(k);
  }

  // Conjunction and disjunction, with the loop that puts operands together.
  method MakeAnd(a: Expr, b: Expr, swap: bool) returns (e: Expr)
    ensures e == AndExpr(a, b)
  {
    if a.And? && b.And? {
      var m := MergeArgs(a.args, b.args, swap);
      e := AndToExpr(m);
    } else if a.Bool? {
      e := if a.b then b else a;
    } else if b.Bool? {
      e := if b.b then a else b;
    } else if a.And? {
      e := AndToExpr(AndUpdate(Some(a.args), b, false));
    } else if b.And? {
      e := AndToExpr(AndUpdate(Some(b.args), a, false));
    } else {
      e := AndToExpr(AndUpdate(Some(map[a := false]), b, false));
    }
  }

  method MakeOr(a: Expr, b: Expr, swap: bool) returns (e: Expr)
    ensures e == OrExpr(a, b)
  {
    if a.Or? && b.Or? {
      var m := MergeArgs(a.args, b.args, swap);
      e := OrToExpr(m);
    } else if a.Bool? {
      e := if a.b then a else b;
    } else if b.Bool? {
      e := if b.b then b else a;
    } else if a.Or? {
      e := OrToExpr(OrUpdate(Some(a.args), b, false));
    } else if b.Or? {
      e := OrToExpr(OrUpdate(Some(b.args), a, false));
    } else {
      e := OrToExpr(OrUpdate(OrUpdate(Some(map[]), a, false), b, false));
    }
  }

  // ----- the constructors keep the meaning and the form -----

  // All operands of a conjunction hold; some operand of a disjunction holds.
  ghost predicate AllHold(m: Args, env: Env) {
    forall k :: k in m ==> Eval(k, env) != m[k]
  }

  ghost predicate SomeHolds(m: Args, env: Env) {
    exists k :: k in m && Eval(k, env) != m[k]
  }

  lemma AndToExprMeans(m: Option<Args>, env: Env)
    ensures Eval(AndToExpr(m), env) == (m.Some? && AllHold(m.value, env))
  {
    if m.Some? && |m.value| == 1 {
      OneKey(m.value);
    }
  }

  lemma OrToExprMeans(m: Option<Args>, env: Env)
    ensures Eval(OrToExpr(m), env) == (m.None? || SomeHolds(m.value, env))
  {
    if m.Some? && |m.value| == 1 {
      OneKey(m.value);
      assert Only(m.value) in m.value;
    }
  }

  lemma UpdateMeans(m: Args, k: Expr, v: bool, env: Env)
    ensures var r := AndUpdate(Some(m), k, v);
      && (r.Some? && AllHold(r.value, env) <==> AllHold(m, env) && Eval(k, env) != v)
      && (r.None? || SomeHolds(r.value, env) <==> SomeHolds(m, env) || Eval(k, env) != v)
  {
    var r := AndUpdate(Some(m), k, v);
    if k !in m {
      assert forall j :: j in m ==> j in r.value && r.value[j] == m[j];
      assert r.value[k] == v;
    }
  }

  lemma MergeMeans(m: Args, n: Args, env: Env)
    ensures var r := Merge(m, n);
      && (r.Some? && AllHold(r.value, env) <==> AllHold(m, env) && AllHold(n, env))
      && (r.None? || SomeHolds(r.value, env) <==> SomeHolds(m, env) || SomeHolds(n, env))
  {
    var r := Merge(m, n);
    if r.Some? {
      assert forall j :: j in m ==> j in r.value && r.value[j] == m[j];
      assert forall j :: j in n ==> j in r.value && r.value[j] == n[j];
    } else {
      var k :| k in m && k in n && m[k] != n[k];
      assert Eval(k, env) != m[k] || Eval(k, env) != n[k];
    }
  }

  lemma NotFactorMeans(e: Expr, env: Env)
    requires Normal(e)
    ensures Eval(NotFactor(e).0, env) == (Eval(e, env) != NotFactor(e).1)
  {
    if Negated(e) {
      var k := Only(e.args);
      OneKey(e.args);
      assert Only(map[k := false]) == k;
    }
  }

  lemma AndMeans(a: Expr, b: Expr, env: Env)
    ensures Eval(AndExpr(a, b), env) == (Eval(a, env) && Eval(b, env))
  {
    hide AndToExpr, Merge, AndUpdate;
    if a.And? && b.And? {
      MergeMeans(a.args, b.args, env);
      AndToExprMeans(Merge(a.args, b.args), env);
    } else if a.And? {
      UpdateMeans(a.args, b, false, env);
      AndToExprMeans(AndUpdate(Some(a.args), b, false), env);
    } else if b.And? {
      UpdateMeans(b.args, a, false, env);
      AndToExprMeans(AndUpdate(Some(b.args), a, false), env);
    } else {
      UpdateMeans(map[a := false], b, false, env);
      AndToExprMeans(AndUpdate(Some(map[a := false]), b, false), env);
    }
  }

  lemma OrUpdateMeans(m: Args, k: Expr, v: bool, env: Env)
    requires Normal(k)
    ensures var r := OrUpdate(Some(m), k, v);
      r.None? || SomeHolds(r.value, env) <==> SomeHolds(m, env) || Eval(k, env) != v
  {
    hide NotFactor, AndUpdate;
    var (f, s) := NotFactor(k);
    NotFactorMeans(k, env);
    UpdateMeans(m, f, if s then !v else v, env);
  }

  lemma OrMeans(a: Expr, b: Expr, env: Env)
    requires Normal(a) && Normal(b)
    ensures Eval(OrExpr(a, b), env) == (Eval(a, env) || Eval(b, env))
  {
    hide OrToExpr, Merge, OrUpdate, Normal;
    if a.Or? && b.Or? {
      MergeMeans(a.args, b.args, env);
      OrToExprMeans(Merge(a.args, b.args), env);
    } else if a.Or? {
      OrUpdateMeans(a.args, b, false, env);
      OrToExprMeans(OrUpdate(Some(a.args), b, false), env);
    } else if b.Or? {
      OrUpdateMeans(b.args, a, false, env);
      OrToExprMeans(OrUpdate(Some(b.args), a, false), env);
    } else {
      OrBoth(a, b, env);
    }
  }

  lemma OrBoth(a: Expr, b: Expr, env: Env)
    requires Normal(a) && Normal(b)
    ensures Eval(OrToExpr(OrUpdate(OrUpdate(Some(map[]), a, false), b, false)), env) == (Eval(a, env) || Eval(b, env))
  {
    hide OrToExpr, Normal, NotFactor;
    OrUpdateMeans(map[], a, false, env);
    var m := OrUpdate(Some(map[]), a, false);
    OrUpdateMeans(m.value, b, false, env);
    OrToExprMeans(OrUpdate(m, b, false), env);
  }

  lemma {:induction false} NotMeans(e: Expr, env: Env)
    requires Normal(e)
    ensures Eval(NotExpr(e), env) == !Eval(e, env)
  {
    if e.And? || e.Or? {
      forall k | k in e.args ensures Eval(NotExpr(k), env) == !Eval(k, env) {
        NotMeans(k, env);
      }
      NotArgsMean(e, env);
      if e.And? {
        OrToExprMeans(Some(NotArgs(e)), env);
      } else {
        AndToExprMeans(Some(NotArgs(e)), env);
      }
    }
  }

  lemma NotArgsMean(e: Expr, env: Env)
    requires Normal(e) && (e.And? || e.Or?)
    requires forall k :: k in e.args ==> Eval(NotExpr(k), env) == !Eval(k, env)
    ensures SomeHolds(NotArgs(e), env) <==> !AllHold(e.args, env)
    ensures AllHold(NotArgs(e), env) <==> !SomeHolds(e.args, env)
  {
    hide Normal, NotPropagate, NotArgs, NotExpr, NotKeys, NotKey, Eval, OperandsMirrored, Leaf, Mirrored;
    AllMirrored(e);
    NotArgsDef(e);
    forall k | k in e.args
      ensures NotKey(e, k) in NotArgs(e)
      ensures (Eval(NotKey(e, k), env) != NotArgs(e)[NotKey(e, k)]) == !(Eval(k, env) != e.args[k])
    {
      OperandKinds(e, k);
      NotArgsAt(e, k);
    }
    forall q | q in NotArgs(e) ensures exists k :: k in e.args && NotKey(e, k) == q {
    }
  }

  // The operands that a conjunction, or a disjunction, may have.
  ghost predicate AndArgsOk(m: Args) {
    forall k :: k in m ==> Normal(k) && (Leaf(k) || (k.Or? && !m[k]))
  }

  ghost predicate OrArgsOk(m: Args) {
    forall k :: k in m ==> Normal(k) && (Leaf(k) || (k.And? && |k.args| > 1 && !m[k]))
  }

  lemma AndToExprNormal(m: Option<Args>)
    requires m.Some? ==> AndArgsOk(m.value)
    ensures Normal(AndToExpr(m))
  {
    if m.Some? && |m.value| == 1 {
      OneKey(m.value);
    }
  }

  lemma OrToExprNormal(m: Option<Args>)
    requires m.Some? ==> OrArgsOk(m.value)
    ensures Normal(OrToExpr(m))
  {
    if m.Some? && |m.value| == 1 {
      OneKey(m.value);
    }
  }

  lemma AndNormal(a: Expr, b: Expr)
    requires Normal(a) && Normal(b)
    ensures Normal(AndExpr(a, b))
  {
    hide AndToExpr;
    if a.And? && b.And? {
      AndToExprNormal(Merge(a.args, b.args));
    } else if !a.Bool? && !b.Bool? {
      if a.And? {
        AndToExprNormal(AndUpdate(Some(a.args), b, false));
      } else if b.And? {
        AndToExprNormal(AndUpdate(Some(b.args), a, false));
      } else {
        AndToExprNormal(AndUpdate(Some(map[a := false]), b, false));
      }
    }
  }

  lemma OrUpdateOk(m: Args, k: Expr)
    requires OrArgsOk(m) && Normal(k) && !k.Bool? && !k.Or?
    ensures OrUpdate(Some(m), k, false).Some? ==> OrArgsOk(OrUpdate(Some(m), k, false).value)
  {
    if Negated(k) {
      OneKey(k.args);
      var j := Only(k.args);
      assert Only(map[j := false]) == j;
      assert Normal(j) && Leaf(j);
    }
  }

  lemma OrNormal(a: Expr, b: Expr)
    requires Normal(a) && Normal(b)
    ensures Normal(OrExpr(a, b))
  {
    hide OrToExpr, OrUpdate;
    if a.Or? && b.Or? {
      OrToExprNormal(Merge(a.args, b.args));
    } else if !a.Bool? && !b.Bool? {
      if a.Or? {
        OrUpdateOk(a.args, b);
        OrToExprNormal(OrUpdate(Some(a.args), b, false));
      } else if b.Or? {
        OrUpdateOk(b.args, a);
        OrToExprNormal(OrUpdate(Some(b.args), a, false));
      } else {
        var m := OrUpdate(Some(map[]), a, false);
        OrUpdateOk(map[], a);
        FirstOperand(a);
        OrUpdateOk(m.value, b);
        OrToExprNormal(OrUpdate(m, b, false));
      }
    }
  }

  lemma FirstOperand(a: Expr)
    ensures OrUpdate(Some(map[]), a, false).Some?
  {
  }

  // An equivalence keeps the meaning and the form.
  lemma IffKeeps(a: Expr, b: Expr, less: (Expr, Expr) -> bool, env: Env)
    requires Normal(a) && Normal(b)
    ensures Normal(IffExpr(a, b, less))
    ensures Eval(IffExpr(a, b, less), env) == (Eval(a, env) == Eval(b, env))
  {
    hide NotExpr;
    NotNot(a);
    NotNot(b);
    NotMeans(a, env);
    NotMeans(b, env);
  }

  // An equivalence does not depend on which side is named first.
  lemma IffSymmetric(a: Expr, b: Expr, less: (Expr, Expr) -> bool)
    requires a != b ==> less(a, b) != less(b, a)
    ensures IffExpr(a, b, less) == IffExpr(b, a, less)
  {
  }
}
