// Elimination of equivalences (pass_cnf.c): the negation normal form.
module IffElim {
  import opened Wrappers
  import opened ExprForm

  // No equivalence at the Boolean level.
  ghost predicate IffFree(e: Expr) {
    match e
    case Bool(_) => true
    case Var(_) => true
    case Prim(_) => true
    case Iff(_, _) => false
    case And(m) => forall k :: k in m ==> IffFree(k)
    case Or(m) => forall k :: k in m ==> IffFree(k)
  }

  ghost predicate FreeArgs(m: Args) {
    forall k :: k in m ==> IffFree(k)
  }

  lemma ToExprFree(m: Option<Args>)
    requires m.Some? ==> FreeArgs(m.value)
    ensures IffFree(AndToExpr(m)) && IffFree(OrToExpr(m))
  {
  }

  lemma AndFree(a: Expr, b: Expr)
    requires IffFree(a) && IffFree(b)
    ensures IffFree(AndExpr(a, b))
  {
    hide AndToExpr;
    if a.And? && b.And? {
      ToExprFree(Merge(a.args, b.args));
    } else if !a.Bool? && !b.Bool? {
      if a.And? {
        ToExprFree(AndUpdate(Some(a.args), b, false));
      } else if b.And? {
        ToExprFree(AndUpdate(Some(b.args), a, false));
      } else {
        ToExprFree(AndUpdate(Some(map[a := false]), b, false));
      }
    }
  }

  lemma OrUpdateFree(m: Option<Args>, k: Expr)
    requires m.Some? ==> FreeArgs(m.value)
    requires IffFree(k)
    ensures OrUpdate(m, k, false).Some? ==> FreeArgs(OrUpdate(m, k, false).value)
  {
    if Negated(k) {
      OneKey(k.args);
      assert Only(map[Only(k.args) := false]) == Only(k.args);
    }
  }

  lemma OrFree(a: Expr, b: Expr)
    requires IffFree(a) && IffFree(b)
    ensures IffFree(OrExpr(a, b))
  {
    hide OrToExpr, OrUpdate;
    if a.Or? && b.Or? {
      ToExprFree(Merge(a.args, b.args));
    } else if !a.Bool? && !b.Bool? {
      if a.Or? {
        OrUpdateFree(Some(a.args), b);
        ToExprFree(OrUpdate(Some(a.args), b, false));
      } else if b.Or? {
        OrUpdateFree(Some(b.args), a);
        ToExprFree(OrUpdate(Some(b.args), a, false));
      } else {
        var m := OrUpdate(Some(map[]), a, false);
        OrUpdateFree(Some(map[]), a);
        OrUpdateFree(m, b);
        ToExprFree(OrUpdate(m, b, false));
      }
    }
  }

  lemma {:induction false} NotFree(e: Expr)
    requires IffFree(e)
    ensures IffFree(NotExpr(e)) && IffFree(NotPropagate(e).0)
  {
    if e.And? || e.Or? {
      NotArgsDef(e);
      forall q | q in NotArgs(e) ensures IffFree(q) {
        var k :| k in e.args && NotKey(e, k) == q;
        NotFree(k);
      }
      ToExprFree(Some(NotArgs(e)));
    }
  }

  // What the elimination of equivalences promises of its result.
  ghost predicate Eliminated(e: Expr, r: Expr) {
    Normal(r) && IffFree(r) && forall env :: Eval(r, env) == Eval(e, env)
  }

  // The operands seen so far, put together.
  ghost predicate Gathered(e: Expr, done: set<Expr>, acc: Expr)
    requires e.And? || e.Or?
  {
    && Normal(acc) && IffFree(acc)
    && (forall env :: Eval(acc, env) == PartHolds(e, done, env))
  }

  // The operands among `done` hold: one of them, or all of them.
  ghost predicate PartHolds(e: Expr, done: set<Expr>, env: Env)
    requires e.And? || e.Or?
  {
    if e.Or? then exists k :: k in done && k in e.args && Eval(k, env) != e.args[k]
    else forall k :: k in done && k in e.args ==> Eval(k, env) != e.args[k]
  }

  lemma GatherMore(e: Expr, done: set<Expr>, acc: Expr, k: Expr, r: Expr)
    requires (e.And? || e.Or?) && Gathered(e, done, acc) && k in e.args
    requires Normal(r) && IffFree(r) && forall env :: Eval(r, env) == (Eval(k, env) != e.args[k])
    ensures Gathered(e, done + {k}, if e.Or? then OrExpr(acc, r) else AndExpr(acc, r))
  {
    hide Normal, IffFree, OrExpr, AndExpr, Eval;
    if e.Or? {
      OrNormal(acc, r);
      OrFree(acc, r);
      forall env
        ensures Eval(OrExpr(acc, r), env) == (exists j :: j in done + {k} && j in e.args && Eval(j, env) != e.args[j])
      {
        OrMeans(acc, r, env);
        assert k in done + {k};
        assert forall j :: j in done ==> j in done + {k};
      }
    } else {
      AndNormal(acc, r);
      AndFree(acc, r);
      forall env
        ensures Eval(AndExpr(acc, r), env) == (forall j :: j in done + {k} && j in e.args ==> Eval(j, env) != e.args[j])
      {
        AndMeans(acc, r, env);
        assert forall j :: j in done ==> j in done + {k};
      }
    }
  }

  lemma GatherAll(e: Expr, acc: Expr)
    requires (e.And? || e.Or?) && Gathered(e, e.args.Keys, acc)
    ensures Eliminated(e, acc)
  {
  }

  lemma NegatedOperand(k: Expr, r: Expr, v: bool)
    requires Eliminated(k, r)
    ensures var q := if v then NotExpr(r) else r;
      Normal(q) && IffFree(q) && forall env :: Eval(q, env) == (Eval(k, env) != v)
  {
    hide Eval, NotExpr, Normal, IffFree;
    NotNot(r);
    NotFree(r);
    forall env ensures Eval(NotExpr(r), env) == !Eval(k, env) {
      NotMeans(r, env);
    }
  }

  // Both ways of spelling out an equivalence: two clauses, or two cases.
  method SpellOut(x: Expr, y: Expr, clauses: bool) returns (r: Expr)
    requires Normal(x) && Normal(y) && IffFree(x) && IffFree(y)
    ensures Normal(r) && IffFree(r) && forall env :: Eval(r, env) == (Eval(x, env) == Eval(y, env))
  {
    hide Normal, IffFree, OrExpr, AndExpr, NotExpr, Eval;
    NotNot(x);
    NotNot(y);
    NotFree(x);
    NotFree(y);
    var nx, ny := NotExpr(x), NotExpr(y);
    var swap := *;
    if clauses {
      var c1 := MakeOr(nx, y, swap);
      var c2 := MakeOr(x, ny, swap);
      OrNormal(nx, y);
      OrNormal(x, ny);
      OrFree(nx, y);
      OrFree(x, ny);
      r := MakeAnd(c1, c2, swap);
      AndNormal(c1, c2);
      AndFree(c1, c2);
      forall env ensures Eval(r, env) == (Eval(x, env) == Eval(y, env)) {
        NotMeans(x, env);
        NotMeans(y, env);
        OrMeans(nx, y, env);
        OrMeans(x, ny, env);
        AndMeans(c1, c2, env);
      }
    } else {
      var c1 := MakeAnd(x, y, swap);
      var c2 := MakeAnd(nx, ny, swap);
      AndNormal(x, y);
      AndNormal(nx, ny);
      AndFree(x, y);
      AndFree(nx, ny);
      r := MakeOr(c1, c2, swap);
      OrNormal(c1, c2);
      OrFree(c1, c2);
      forall env ensures Eval(r, env) == (Eval(x, env) == Eval(y, env)) {
        NotMeans(x, env);
        NotMeans(y, env);
        AndMeans(x, y, env);
        AndMeans(nx, ny, env);
        OrMeans(c1, c2, env);
      }
    }
  }

  method Eliminate(e: Expr, c: bool) returns (r: Expr)
    requires Normal(e)
    ensures Eliminated(e, r)
    decreases e, 1
  {
    if e.Iff? {
      var x := Eliminate(e.l, c);
      var y := Eliminate(e.r, c);
      r := SpellOut(x, y, c);
    } else if e.And? || e.Or? {
      r := EliminateArgs(e);
    } else {
      r := e;
    }
  }

  method EliminateArgs(e: Expr) returns (acc: Expr)
    requires Normal(e) && (e.And? || e.Or?)
    ensures Eliminated(e, acc)
    decreases e, 0
  {
    hide Normal, IffFree, OrExpr, AndExpr, NotExpr, Eval, Gathered, Eliminated;
    acc := Bool(!e.Or?);
    NoneGathered(e);
    var left := e.args.Keys;
    ghost var done: set<Expr> := {};
    while left != {}
      invariant done + left == e.args.Keys && done !! left
      invariant Gathered(e, done, acc)
      decreases |left|
    {
      var k :| k in left;
      var v := e.args[k];
      NormalOperand(e, k);
      var r := Eliminate(k, if v then e.Or? else !e.Or?);
      NegatedOperand(k, r, v);
      if v {
        r := NotExpr(r);
      }
      GatherMore(e, done, acc, k, r);
      var swap := *;
      if e.Or? {
        acc := MakeOr(acc, r, swap);
      } else {
        acc := MakeAnd(acc, r, swap);
      }
      left := left - {k};
      done := done + {k};
    }
    assert done == e.args.Keys;
    GatherAll(e, acc);
  }

  lemma NormalOperand(e: Expr, k: Expr)
    requires Normal(e) && (e.And? || e.Or?) && k in e.args
    ensures Normal(k) && k < e
  {
  }

  lemma NoneGathered(e: Expr)
    requires e.And? || e.Or?
    ensures Gathered(e, {}, Bool(!e.Or?))
  {
  }
}
