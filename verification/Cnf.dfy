// Conversion to conjunctive normal form with fresh variables (pass_cnf.c).
module Cnf {
  import opened ExprForm
  import opened CnfContext

  // Variable x stands for e.
  ghost predicate Names(s: Ctx, x: nat, e: Expr) {
    forall env :: Sat(s, env) ==> env.vars(x) == Eval(e, env)
  }

  ghost predicate ClauseOk(c: Expr, n: nat) {
    IsClause(c) && Normal(c) && Under(c, n)
  }

  // The operands seen so far, once named: the signed variable b implies each
  // of them, and the clause says that one of them fails.  For a disjunction
  // (flip) all signs are reversed.
  ghost predicate SoFar(s: Ctx, b: nat, m: Args, flip: bool, done: set<Expr>, clause: Expr) {
    forall env :: Sat(s, env) ==>
      && (env.vars(b) != flip ==> AllBut(m, flip, done, env))
      && (Eval(clause, env) <==> !AllBut(m, flip, done, env))
  }

  // The operands in done hold, with reversed signs for a disjunction.
  ghost predicate AllBut(m: Args, flip: bool, done: set<Expr>, env: Env) {
    forall j :: j in done && j in m ==> Eval(j, env) != (m[j] != flip)
  }

  lemma NodeMeans(e: Expr, env: Env)
    requires e.And? || e.Or?
    ensures Eval(e, env) != e.Or? <==> AllBut(e.args, e.Or?, e.args.Keys, env)
  {
  }

  lemma AllButMore(m: Args, flip: bool, done: set<Expr>, j: Expr, env: Env)
    requires j in m
    ensures AllBut(m, flip, done + {j}, env) <==> AllBut(m, flip, done, env) && Eval(j, env) != (m[j] != flip)
  {
  }

  // The clause added for operand j, named x.
  ghost function OperandClause(b: nat, flip: bool, x: nat, v: bool): Expr {
    OrExpr(Signed(x, v != flip), Signed(b, !flip))
  }

  lemma OperandClauseOk(b: nat, flip: bool, x: nat, v: bool, n: nat, env: Env)
    requires b < n && x < n
    ensures ClauseOk(OperandClause(b, flip, x, v), n)
    ensures Eval(OperandClause(b, flip, x, v), env) == (env.vars(x) != (v != flip) || env.vars(b) == flip)
  {
    hide Normal, IsClause, IsLit, Under, OrExpr, Eval, Signed;
    SignedIs(x, v != flip, n, env);
    SignedIs(b, !flip, n, env);
    LitIsClause(Signed(b, !flip));
    ClauseOr(Signed(x, v != flip), Signed(b, !flip), n);
    OrMeans(Signed(x, v != flip), Signed(b, !flip), env);
  }

  lemma LitIsClause(e: Expr)
    requires IsLit(e)
    ensures IsClause(e)
  {
  }

  lemma LongerClause(clause: Expr, x: nat, neg: bool, n: nat, env: Env)
    requires ClauseOk(clause, n) && x < n
    ensures ClauseOk(OrExpr(Signed(x, neg), clause), n)
    ensures Eval(OrExpr(Signed(x, neg), clause), env) == (env.vars(x) != neg || Eval(clause, env))
  {
    hide Normal, IsClause, IsLit, Under, OrExpr, Eval, Signed;
    SignedIs(x, neg, n, env);
    ClauseOr(Signed(x, neg), clause, n);
    OrMeans(Signed(x, neg), clause, env);
  }

  // b was opened to stand for e, an expression over the original variables.
  ghost predicate OpenFor(s: Ctx, base: nat, b: nat, e: Expr) {
    && (e.And? || e.Or?)
    && Under(e, base) && b in s.mean && s.mean[b] == e
  }

  // Operand j of e got the name x; its clause is valid.
  lemma OperandValid(t: Ctx, base: nat, b: nat, e: Expr, j: Expr, x: nat, env: Env)
    requires Good(t, base) && OpenFor(t, base, b, e) && j in e.args && Names(t, x, j) && x < t.next
    ensures b < t.next
    ensures Eval(OperandClause(b, e.Or?, x, e.args[j]), Canon(env, t.mean))
  {
    hide Normal, IsCnf, IsClause, Under, DefOk, Sat, OrExpr, Signed, OperandClause, ClauseOk;
    var c := Canon(env, t.mean);
    OperandClauseOk(b, e.Or?, x, e.args[j], t.next, c);
    NodeMeans(e, c);
    CanonSame(e, env, t, base);
    assert c.vars(b) == Eval(e, env);
    assert c.vars(x) == Eval(j, c);
  }

  lemma OperandAdded(s: Ctx, t: Ctx, base: nat, b: nat, e: Expr, done: set<Expr>, clause: Expr, j: Expr, x: nat)
    requires Good(t, base) && OpenFor(t, base, b, e) && j in e.args && Names(t, x, j) && x < t.next
    requires Extends(s, t, {}) && SoFar(s, b, e.args, e.Or?, done, clause) && ClauseOk(clause, s.next)
    ensures var u := WithClause(t, OperandClause(b, e.Or?, x, e.args[j]));
      && Good(u, base) && OpenFor(u, base, b, e) && Extends(s, u, {})
      && SoFar(u, b, e.args, e.Or?, done + {j}, OrExpr(Signed(x, e.args[j] == e.Or?), clause))
      && ClauseOk(OrExpr(Signed(x, e.args[j] == e.Or?), clause), u.next)
  {
    hide Normal, IsCnf, IsClause, Under, DefOk, Sat, OrExpr, Signed, OperandClause, AllBut, Eval, Canon, Extends, Good;
    var c := OperandClause(b, e.Or?, x, e.args[j]);
    var u := WithClause(t, c);
    OperandFits(s, t, base, b, e, j, x, clause);
    AddClauseKeeps(t, base, c);
    ExtendsMore(s, t, u, {});
    var clause' := OrExpr(Signed(x, e.args[j] == e.Or?), clause);
    forall env | Sat(u, env)
      ensures env.vars(b) != e.Or? ==> AllBut(e.args, e.Or?, done + {j}, env)
      ensures Eval(clause', env) <==> !AllBut(e.args, e.Or?, done + {j}, env)
    {
      StillSat(s, t, u, env);
      OperandClauseOk(b, e.Or?, x, e.args[j], t.next, env);
      AllButMore(e.args, e.Or?, done, j, env);
      LongerClause(clause, x, e.args[j] == e.Or?, t.next, env);
    }
    LongerClause(clause, x, e.args[j] == e.Or?, t.next, Canon(Env(_ => true, _ => true), map[]));
  }

  lemma StillSat(s: Ctx, t: Ctx, u: Ctx, env: Env)
    requires Extends(s, t, {}) && Extends(t, u, {}) && Sat(u, env)
    ensures Sat(t, env) && Sat(s, env)
  {
  }

  lemma OperandFits(s: Ctx, t: Ctx, base: nat, b: nat, e: Expr, j: Expr, x: nat, clause: Expr)
    requires Good(t, base) && OpenFor(t, base, b, e) && j in e.args && Names(t, x, j) && x < t.next
    requires Extends(s, t, {}) && ClauseOk(clause, s.next)
    ensures b < t.next && ClauseOk(OperandClause(b, e.Or?, x, e.args[j]), t.next)
    ensures forall env :: Eval(OperandClause(b, e.Or?, x, e.args[j]), Canon(env, t.mean))
    ensures ClauseOk(clause, t.next)
  {
    hide Normal, IsCnf, IsClause, Under, DefOk, Sat, OrExpr, Signed, OperandClause, Eval, Canon, Names;
    forall env ensures Eval(OperandClause(b, e.Or?, x, e.args[j]), Canon(env, t.mean)) && b < t.next {
      OperandValid(t, base, b, e, j, x, env);
    }
    OperandValid(t, base, b, e, j, x, Env(_ => true, _ => true));
    OperandClauseOk(b, e.Or?, x, e.args[j], t.next, Env(_ => true, _ => true));
    UnderMore(clause, s.next, t.next);
  }

  // The last clause closes b.
  lemma NodeClosed(s: Ctx, base: nat, b: nat, e: Expr, clause: Expr)
    requires Good(s, base) && OpenFor(s, base, b, e)
    requires SoFar(s, b, e.args, e.Or?, e.args.Keys, clause) && ClauseOk(clause, s.next)
    ensures var u := WithClause(s, OrExpr(Signed(b, e.Or?), clause));
      && Good(u, base) && Extends(s, u, {}) && Names(u, b, e)
  {
    hide Normal, IsCnf, IsClause, Under, DefOk, OrExpr, Signed, AllBut, Eval, Extends, Sat;
    var c := OrExpr(Signed(b, e.Or?), clause);
    forall env ensures Eval(c, Canon(env, s.mean)) && ClauseOk(c, s.next) {
      LastValid(s, base, b, e, clause, env);
    }
    LastValid(s, base, b, e, clause, Env(_ => true, _ => true));
    AddClauseKeeps(s, base, c);
    var u := WithClause(s, c);
    forall env | Sat(u, env) ensures env.vars(b) == Eval(e, env) {
      StillSat(s, s, u, env) by { ExtendsSelf(s); }
      LongerClause(clause, b, e.Or?, s.next, env);
      NodeMeans(e, env);
    }
  }

  lemma LastValid(s: Ctx, base: nat, b: nat, e: Expr, clause: Expr, env: Env)
    requires Good(s, base) && OpenFor(s, base, b, e)
    requires SoFar(s, b, e.args, e.Or?, e.args.Keys, clause) && ClauseOk(clause, s.next)
    ensures ClauseOk(OrExpr(Signed(b, e.Or?), clause), s.next)
    ensures Eval(OrExpr(Signed(b, e.Or?), clause), Canon(env, s.mean))
  {
    hide Normal, IsCnf, IsClause, Under, DefOk, OrExpr, Signed, AllBut, Sat;
    var c := Canon(env, s.mean);
    CanonSame(e, env, s, base);
    LongerClause(clause, b, e.Or?, s.next, c);
    NodeMeans(e, c);
    assert c.vars(b) == Eval(e, env);
  }

  // Closing the one name that was open.
  lemma NowClosed(s: Ctx, t: Ctx, u: Ctx, b: nat)
    requires Extends(s, t, {b}) && Extends(t, u, {}) && b in t.mean && Names(u, b, t.mean[b])
    ensures Extends(s, u, {})
  {
    hide Sat;
    ExtendsMore(s, t, u, {b});
  }

  lemma NoneSoFar(s: Ctx, b: nat, m: Args, flip: bool)
    ensures SoFar(s, b, m, flip, {}, Bool(false))
    ensures forall n :: ClauseOk(Bool(false), n)
  {
  }

  // The clause says that some operand seen so far holds.
  ghost predicate SaysSome(s: Ctx, m: Args, done: set<Expr>, clause: Expr) {
    forall env :: Sat(s, env) ==> (Eval(clause, env) <==> !AllBut(m, true, done, env))
  }

  lemma SaysMore(s: Ctx, t: Ctx, m: Args, done: set<Expr>, clause: Expr, j: Expr, x: nat)
    requires SaysSome(s, m, done, clause) && ClauseOk(clause, s.next) && j in m
    requires Extends(s, t, {}) && Names(t, x, j) && x < t.next
    ensures SaysSome(t, m, done + {j}, OrExpr(Signed(x, m[j]), clause))
    ensures ClauseOk(OrExpr(Signed(x, m[j]), clause), t.next)
  {
    hide Normal, IsClause, Under, OrExpr, Signed, AllBut, Eval, Sat;
    UnderMore(clause, s.next, t.next);
    forall env | Sat(t, env)
      ensures Eval(OrExpr(Signed(x, m[j]), clause), env) <==> !AllBut(m, true, done + {j}, env)
    {
      AllButMore(m, true, done, j, env);
      LongerClause(clause, x, m[j], t.next, env);
    }
    LongerClause(clause, x, m[j], t.next, Env(_ => true, _ => true));
  }

  // e has become c.
  ghost predicate Same(s: Ctx, c: Expr, e: Expr) {
    forall env :: Sat(s, env) ==> Eval(c, env) == Eval(e, env)
  }

  lemma SomeIsAll(s: Ctx, e: Expr, c: Expr)
    requires (e.Or? || (e.And? && |e.args| == 1)) && SaysSome(s, e.args, e.args.Keys, c)
    ensures Same(s, c, e)
  {
    if e.And? {
      OneKey(e.args);
    }
  }

  // The conjunction says that all operands seen so far hold.
  ghost predicate SaysAll(s: Ctx, m: Args, done: set<Expr>, c: Expr) {
    && IsCnf(c) && Normal(c) && Under(c, s.next)
    && forall env :: Sat(s, env) ==> (Eval(c, env) <==> AllBut(m, false, done, env))
  }

  lemma SaysAllMore(s: Ctx, t: Ctx, m: Args, done: set<Expr>, c: Expr, j: Expr, d: Expr)
    requires SaysAll(s, m, done, c) && Extends(s, t, {}) && j in m
    requires ClauseOk(d, t.next) && forall env :: Sat(t, env) ==> Eval(d, env) == (Eval(j, env) != m[j])
    ensures SaysAll(t, m, done + {j}, AndExpr(d, c))
  {
    hide Normal, IsClause, Under, AndExpr, AllBut, Eval, Sat;
    UnderMore(c, s.next, t.next);
    CnfAnd(d, c, t.next);
    forall env | Sat(t, env) ensures Eval(AndExpr(d, c), env) <==> AllBut(m, false, done + {j}, env) {
      AllButMore(m, false, done, j, env);
      AndMeans(d, c, env);
    }
  }

  lemma AllIsSame(s: Ctx, e: Expr, c: Expr)
    requires e.And? && SaysAll(s, e.args, e.args.Keys, c)
    ensures Same(s, c, e)
  {
    forall env | Sat(s, env) ensures Eval(c, env) == Eval(e, env) {
      NodeMeans(e, env);
    }
  }

  // The negation of a name.
  lemma NegatedName(s: Ctx, x: nat, j: Expr)
    requires x < s.next && Names(s, x, j)
    ensures ClauseOk(NotExpr(Var(x)), s.next)
    ensures forall env :: Sat(s, env) ==> Eval(NotExpr(Var(x)), env) == !Eval(j, env)
  {
    hide Sat, NotExpr, OrExpr, Normal, IsLit, Under;
    forall env ensures Sat(s, env) ==> Eval(NotExpr(Var(x)), env) == !Eval(j, env) {
      SignedIs(x, true, s.next, env);
      LitIsClause(Signed(x, true));
    }
    SignedIs(x, true, s.next, Env(_ => true, _ => true));
    LitIsClause(Signed(x, true));
  }

  // The operands of a normal expression over the original variables.
  lemma OperandReady(e: Expr, j: Expr, base: nat)
    requires Normal(e) && Under(e, base) && (e.And? || e.Or?) && j in e.args
    ensures Normal(j) && Under(j, base) && !j.Bool? && j < e
    ensures e.And? && e.args[j] ==> Leaf(j)
  {
  }

  lemma SkipVar(s: Ctx, base: nat)
    requires Good(s, base)
    ensures Good(s.(next := s.next + 1), base) && Extends(s, s.(next := s.next + 1), {})
  {
    hide Normal, IsCnf, DefOk, Eval, Under;
    var t := s.(next := s.next + 1);
    UnderMore(s.clauses, s.next, t.next);
    forall env ensures Sat(t, env) == Sat(s, env) {
    }
  }

  // The conversion of one formula.
  class Converter {
    var defs: map<Expr, nat>
    var clauses: Expr
    var next: nat
    ghost var mean: map<nat, Expr>
    const less: (Expr, Expr) -> bool

    ghost function St(): Ctx
      reads this
    {
      Ctx(defs, clauses, next, mean)
    }

    constructor (base: nat, less: (Expr, Expr) -> bool)
      ensures St() == Ctx(map[], Bool(true), base, map[]) && Good(St(), base)
    {
      this.defs, this.clauses, this.next, this.mean, this.less := map[], Bool(true), base, map[], less;
    }

    method NewVar() returns (b: nat)
      modifies this`next
      ensures b == old(next) && next == b + 1
    {
      b := next;
      next := next + 1;
    }

    method Disjoin(a: Expr, b: Expr) returns (c: Expr)
      ensures c == OrExpr(a, b)
    {
      var swap := *;
      c := MakeOr(a, b, swap);
    }

    method InsertClause(c: Expr)
      modifies this`clauses
      ensures St() == WithClause(old(St()), c)
    {
      var swap := *;
      clauses := MakeAnd(clauses, c, swap);
    }

    // Look up, or make, the variable that names a constraint.
    method InsertIff(e: Expr, base: nat) returns (v: Expr)
      requires Good(St(), base) && DefOk(e) && Under(e, base)
      modifies this
      ensures Good(St(), base) && Extends(old(St()), St(), {})
      ensures v.Var? && v.x < next && Names(St(), v.x, e)
    {
      hide Normal, IsCnf, DefOk, Eval, Under;
      if e in defs {
        ExtendsSelf(St());
        return Var(defs[e]);
      }
      AddDefKeeps(St(), base, e);
      var x := NewVar();
      defs := defs[e := x];
      mean := mean[x := e];
      v := Var(x);
    }

    // A variable that stands for a Boolean operand.
    method Arg(e: Expr, base: nat) returns (k: Expr)
      requires Good(St(), base) && Normal(e) && Under(e, base) && !e.Bool?
      modifies this
      ensures Good(St(), base) && Extends(old(St()), St(), {})
      ensures k.Var? && k.x < next && Names(St(), k.x, e)
      decreases e, 1
    {
      hide Normal, IsCnf, DefOk, Sat, Extends;
      ExtendsSelf(St());
      if e.Var? {
        return e;
      }
      if e.And? || e.Or? {
        var b := Node(e, base);
        return Var(b);
      }
      ghost var s := St();
      SkipVar(s, base);
      var unused := NewVar();
      ghost var t := St();
      IsDef(e);
      k := InsertIff(e, base);
      ExtendsMore(s, t, St(), {});
    }

    // A fresh variable for a conjunction or a disjunction: one clause for
    // each operand and one for all of them.
    method Node(e: Expr, base: nat) returns (b: nat)
      requires Good(St(), base) && Normal(e) && Under(e, base) && (e.And? || e.Or?)
      modifies this
      ensures Good(St(), base) && Extends(old(St()), St(), {})
      ensures b < next && Names(St(), b, e)
      decreases e, 0
    {
      hide Normal, IsCnf, IsClause, IsLit, Under, DefOk, Sat, OrExpr, Signed, OperandClause, AllBut, Eval, Canon,
        Extends, Good, OpenFor, SoFar, ClauseOk, Names, WithClause, WithVar;
      ghost var s := St();
      AddVarKeeps(s, base, e);
      b := NewVar();
      mean := mean[b := e];
      ghost var t := St();
      WithVarIs(s, t, b, base, e);
      var clause, left := Bool(false), e.args.Keys;
      ghost var done: set<Expr> := {};
      NoneSoFar(St(), b, e.args, e.Or?);
      ExtendsSelf(t);
      while left != {}
        invariant done + left == e.args.Keys && done !! left
        invariant Good(St(), base) && OpenFor(St(), base, b, e) && Extends(t, St(), {})
        invariant SoFar(St(), b, e.args, e.Or?, done, clause) && ClauseOk(clause, next)
        decreases |left|
      {
        var j :| j in left;
        ghost var u := St();
        clause := Operand(e, j, b, base, clause, done);
        ExtendsMore(t, u, St(), {});
        left := left - {j};
        done := done + {j};
      }
      assert done == e.args.Keys;
      NodeClosed(St(), base, b, e, clause);
      ghost var u := St();
      clause := Disjoin(Signed(b, e.Or?), clause);
      InsertClause(clause);
      NextGrows(u, OrExpr(Signed(b, e.Or?), clause));
      ExtendsMore(t, u, St(), {});
      NowClosed(s, t, St(), b);
      NextKept(t, St());
    }

    // One operand: name it, add its clause, lengthen the other clause.
    method Operand(e: Expr, j: Expr, b: nat, base: nat, clause: Expr, ghost done: set<Expr>) returns (clause': Expr)
      requires Normal(e) && Under(e, base) && (e.And? || e.Or?) && j in e.args
      requires Good(St(), base) && OpenFor(St(), base, b, e)
      requires SoFar(St(), b, e.args, e.Or?, done, clause) && ClauseOk(clause, next)
      modifies this
      ensures Good(St(), base) && OpenFor(St(), base, b, e) && Extends(old(St()), St(), {})
      ensures SoFar(St(), b, e.args, e.Or?, done + {j}, clause') && ClauseOk(clause', next)
      decreases e, 0, 0
    {
      hide Normal, IsCnf, IsClause, IsLit, Under, DefOk, Sat, OrExpr, Signed, OperandClause, AllBut, Eval, Canon,
        Extends, Good, OpenFor, SoFar, ClauseOk, Names, WithClause, WithVar;
      ghost var s := St();
      OperandReady(e, j, base);
      var k := Arg(j, base);
      ghost var t := St();
      OpenKept(s, t, base, b, e);
      OperandAdded(s, t, base, b, e, done, clause, j, k.x);
      var pos, neg := Signed(k.x, e.args[j] != e.Or?), Signed(k.x, e.args[j] == e.Or?);
      clause' := Disjoin(neg, clause);
      var c := Disjoin(pos, Signed(b, !e.Or?));
      OperandClauseIs(b, e.Or?, k.x, e.args[j]);
      InsertClause(c);
    }

    // One level down: a disjunction of signed variables, or a variable.
    method NextLevel(e: Expr, base: nat) returns (c: Expr)
      requires Good(St(), base) && Normal(e) && Under(e, base) && !e.Bool?
      modifies this
      ensures Good(St(), base) && Extends(old(St()), St(), {})
      ensures ClauseOk(c, next) && Same(St(), c, e)
      ensures Leaf(e) ==> c.Var? && c.x < next && Names(St(), c.x, e)
    {
      hide Normal, IsCnf, IsClause, IsLit, Under, DefOk, Sat, OrExpr, Signed, AllBut, Eval, Canon,
        Extends, Good, SaysSome, ClauseOk, Names, Same;
      if e.Or? || Negated(e) {
        c := Literals(e, base);
        SomeIsAll(St(), e, c);
      } else {
        c := Arg(e, base);
        VarIsSame(St(), c, e);
      }
    }

    method Literals(e: Expr, base: nat) returns (c: Expr)
      requires Good(St(), base) && Normal(e) && Under(e, base) && (e.And? || e.Or?)
      modifies this
      ensures Good(St(), base) && Extends(old(St()), St(), {})
      ensures ClauseOk(c, next) && SaysSome(St(), e.args, e.args.Keys, c)
    {
      hide Normal, IsCnf, IsClause, IsLit, Under, DefOk, Sat, OrExpr, Signed, AllBut, Eval, Canon,
        Extends, Good, SaysSome, ClauseOk, Names, Same;
      ghost var s := St();
      ExtendsSelf(s);
      NoneSays(s, e.args);
      c := Bool(false);
      var left := e.args.Keys;
      ghost var done: set<Expr> := {};
      while left != {}
        invariant done + left == e.args.Keys && done !! left
        invariant Good(St(), base) && Extends(s, St(), {})
        invariant SaysSome(St(), e.args, done, c) && ClauseOk(c, next)
        decreases |left|
      {
        var j :| j in left;
        ghost var u := St();
        OperandReady(e, j, base);
        var k := Arg(j, base);
        ExtendsMore(s, u, St(), {});
        SaysMore(u, St(), e.args, done, c, j, k.x);
        c := Disjoin(Signed(k.x, e.args[j]), c);
        left := left - {j};
        done := done + {j};
      }
      assert done == e.args.Keys;
    }

    // The top-level conjunction, operand by operand.
    method TopLevel(e: Expr, base: nat) returns (c: Expr)
      requires Good(St(), base) && Normal(e) && Under(e, base) && e.And?
      modifies this
      ensures Good(St(), base) && Extends(old(St()), St(), {})
      ensures SaysAll(St(), e.args, e.args.Keys, c)
    {
      hide Normal, IsCnf, IsClause, IsLit, Under, DefOk, Sat, AndExpr, AllBut, Eval, Canon,
        Extends, Good, SaysAll, ClauseOk, Names, Same, NotExpr;
      ghost var s := St();
      ExtendsSelf(s);
      NoneSaysAll(s, e.args);
      c := Bool(true);
      var left := e.args.Keys;
      ghost var done: set<Expr> := {};
      while left != {}
        invariant done + left == e.args.Keys && done !! left
        invariant Good(St(), base) && Extends(s, St(), {})
        invariant SaysAll(St(), e.args, done, c)
        decreases |left|
      {
        var j :| j in left;
        ghost var u := St();
        OperandReady(e, j, base);
        var k := NextLevel(j, base);
        ExtendsMore(s, u, St(), {});
        if e.args[j] {
          NegatedName(St(), k.x, j);
          k := NotExpr(k);
        }
        SignedSame(St(), k, j, e.args[j]);
        SaysAllMore(u, St(), e.args, done, c, j, k);
        var swap := *;
        c := MakeAnd(k, c, swap);
        left := left - {j};
        done := done + {j};
      }
      assert done == e.args.Keys;
    }

    // The definitions as a conjunction of equivalences.
    method ToIffs(base: nat) returns (d: Expr)
      requires Good(St(), base)
      ensures forall env :: Eval(d, env) <==> forall e :: e in defs ==> env.vars(defs[e]) == Eval(e, env)
    {
      hide Normal, IsCnf, Under, AndExpr, IffExpr, Eval, Sat;
      d := Bool(true);
      var left := defs.Keys;
      TrueHolds();
      while left != {}
        invariant left <= defs.Keys
        invariant forall env :: Eval(d, env) <==> forall e :: e in defs && e !in left ==>
              env.vars(defs[e]) == Eval(e, env)
        decreases |left|
      {
        var e :| e in left;
        ghost var d0 := d;
        assert DefOk(e);
        var f := IffExpr(Var(defs[e]), e, less);
        var swap := *;
        d := MakeAnd(f, d, swap);
        forall env ensures Eval(d, env) <==> Eval(d0, env) && env.vars(defs[e]) == Eval(e, env) {
          DefSays(defs[e], e, less, env);
          AndMeans(f, d0, env);
        }
        left := left - {e};
      }
    }
  }

  lemma TrueHolds()
    ensures forall env :: Eval(Bool(true), env)
  {
  }

  lemma DefSays(x: nat, e: Expr, less: (Expr, Expr) -> bool, env: Env)
    requires Normal(e)
    ensures Eval(IffExpr(Var(x), e, less), env) <==> env.vars(x) == Eval(e, env)
  {
    hide IffExpr;
    IffKeeps(Var(x), e, less, env);
  }

  lemma NoneSays(s: Ctx, m: Args)
    ensures SaysSome(s, m, {}, Bool(false)) && ClauseOk(Bool(false), s.next)
  {
  }

  lemma NoneSaysAll(s: Ctx, m: Args)
    ensures SaysAll(s, m, {}, Bool(true))
  {
  }

  lemma VarIsSame(s: Ctx, c: Expr, e: Expr)
    requires c.Var? && c.x < s.next && Names(s, c.x, e)
    ensures ClauseOk(c, s.next) && Same(s, c, e)
  {
  }

  lemma SignedSame(s: Ctx, k: Expr, j: Expr, v: bool)
    requires !v ==> Same(s, k, j)
    requires v ==> forall env :: Sat(s, env) ==> Eval(k, env) == !Eval(j, env)
    ensures forall env :: Sat(s, env) ==> Eval(k, env) == (Eval(j, env) != v)
  {
    hide Sat, Eval;
  }

  // The two outputs of the conversion: every assignment that satisfies both
  // satisfies e, and every assignment that satisfies e can be changed on the
  // fresh variables so that it satisfies both.
  ghost predicate Converted(e: Expr, base: nat, b: Expr, d: Expr) {
    && (forall env :: Eval(b, env) && Eval(d, env) ==> Eval(e, env))
    && (forall env :: Eval(e, env) ==> exists env' :: Agree(env, env', base) && Eval(b, env') && Eval(d, env'))
  }

  method PassCnf(e: Expr, base: nat, less: (Expr, Expr) -> bool) returns (b: Expr, d: Expr)
    requires Normal(e) && Under(e, base)
    ensures IsCnf(b) && Converted(e, base, b, d)
  {
    hide Normal, IsClause, IsLit, Under, DefOk, Sat, AndExpr, AllBut, Eval, Canon,
      Extends, Good, SaysAll, ClauseOk, Names, Same, Converted;
    if e.Var? || e.Bool? {
      PlainConverted(e, base);
      return e, Bool(true);
    }
    var cv := new Converter(base, less);
    var c: Expr;
    if e.And? {
      c := cv.TopLevel(e, base);
      AllIsSame(cv.St(), e, c);
      TopShape(cv.St(), e.args, c);
    } else {
      c := cv.NextLevel(e, base);
      NextShape(cv.St(), c);
    }
    var swap := *;
    b := MakeAnd(c, cv.clauses, swap);
    d := cv.ToIffs(base);
    BothConverted(cv.St(), base, e, c, b, d);
  }

  lemma PlainConverted(e: Expr, base: nat)
    requires e.Var? || e.Bool?
    ensures IsCnf(e) && Converted(e, base, e, Bool(true))
  {
    forall env | Eval(e, env) ensures Agree(env, env, base) && Eval(e, env) && Eval(Bool(true), env) {
    }
  }

  lemma TopShape(s: Ctx, m: Args, c: Expr)
    requires SaysAll(s, m, m.Keys, c)
    ensures IsCnf(c) && Normal(c) && Under(c, s.next)
  {
  }

  lemma NextShape(s: Ctx, c: Expr)
    requires ClauseOk(c, s.next)
    ensures IsCnf(c) && Normal(c) && Under(c, s.next)
  {
  }

  lemma BothConverted(s: Ctx, base: nat, e: Expr, c: Expr, b: Expr, d: Expr)
    requires Good(s, base) && Under(e, base) && Same(s, c, e)
    requires IsCnf(c) && Normal(c) && Under(c, s.next)
    requires b == AndExpr(c, s.clauses)
    requires forall env :: Eval(d, env) <==> forall k :: k in s.defs ==> env.vars(s.defs[k]) == Eval(k, env)
    ensures IsCnf(b) && Converted(e, base, b, d)
  {
    hide Normal, IsCnf, Under, DefOk, AndExpr, Eval;
    CnfAnd(c, s.clauses, s.next);
    forall env ensures Eval(b, env) && Eval(d, env) <==> Eval(c, env) && Sat(s, env) {
      AndMeans(c, s.clauses, env);
    }
    forall env | Eval(e, env) ensures exists env' :: Agree(env, env', base) && Eval(b, env') && Eval(d, env') {
      var env' := Canon(env, s.mean);
      CanonSame(e, env, s, base);
      assert Sat(s, env');
      assert Agree(env, env', base);
    }
  }

  lemma OperandClauseIs(b: nat, flip: bool, x: nat, v: bool)
    ensures OperandClause(b, flip, x, v) == OrExpr(Signed(x, v != flip), Signed(b, !flip))
  {
  }

  lemma OpenKept(s: Ctx, t: Ctx, base: nat, b: nat, e: Expr)
    requires OpenFor(s, base, b, e) && Extends(s, t, {})
    ensures OpenFor(t, base, b, e)
  {
  }

  lemma WithVarIs(s: Ctx, t: Ctx, b: nat, base: nat, e: Expr)
    requires b == s.next && t == s.(next := b + 1, mean := s.mean[b := e])
    requires Under(e, base) && (e.And? || e.Or?)
    ensures t == WithVar(s, e) && OpenFor(t, base, b, e) && t.mean[b] == e
  {
  }

  lemma NextGrows(u: Ctx, c: Expr)
    ensures WithClause(u, c).next == u.next && WithClause(u, c).mean == u.mean
  {
  }

  lemma NextKept(t: Ctx, u: Ctx)
    requires Extends(t, u, {})
    ensures t.next <= u.next
  {
  }

  lemma IsDef(e: Expr)
    requires Normal(e) && !e.Bool? && !e.Var? && !e.And? && !e.Or?
    ensures DefOk(e)
  {
  }
}
