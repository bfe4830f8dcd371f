// The state of the conversion to conjunctive normal form (pass_cnf.c): the
// clauses and definitions made so far, and what each fresh variable stands for.
module CnfContext {
  import opened Wrappers
  import opened ExprForm

  // ----- the shapes that the conversion produces -----

  // A variable, signed or not.
  predicate IsLit(e: Expr) {
    e.Var? || (e.And? && |e.args| == 1 && forall k :: k in e.args ==> k.Var?)
  }

  // A disjunction of signed variables.
  predicate IsClause(e: Expr) {
    e.Bool? || IsLit(e) || (e.Or? && forall k :: k in e.args ==> k.Var?)
  }

  // A conjunction of disjunctions of signed variables.
  predicate IsCnf(e: Expr) {
    IsClause(e) || (e.And? && forall k :: k in e.args ==> k.Var? || (!e.args[k] && IsClause(k)))
  }

  // Only variables below n occur.
  ghost predicate Under(e: Expr, n: nat) {
    match e
    case Bool(_) => true
    case Prim(_) => true
    case Var(x) => x < n
    case Iff(l, r) => Under(l, n) && Under(r, n)
    case And(m) => forall k :: k in m ==> Under(k, n)
    case Or(m) => forall k :: k in m ==> Under(k, n)
  }

  // defs maps a constraint to the variable that names it; mean maps a fresh
  // variable to the original expression it stands for.
  datatype Ctx = Ctx(defs: map<Expr, nat>, clauses: Expr, next: nat, mean: map<nat, Expr>)

  ghost predicate Sat(s: Ctx, env: Env) {
    Eval(s.clauses, env) && forall e :: e in s.defs ==> env.vars(s.defs[e]) == Eval(e, env)
  }

  // The assignment that gives every fresh variable its meaning.
  ghost function Canon(env: Env, mean: map<nat, Expr>): Env {
    Env((x: nat) => if x in mean then Eval(mean[x], env) else env.vars(x), env.prims)
  }

  ghost predicate Agree(env: Env, env': Env, n: nat) {
    env.prims == env'.prims && forall x: nat :: x < n ==> env.vars(x) == env'.vars(x)
  }

  // The names are fresh, the clauses are clauses, and every assignment of the
  // original variables extends to the fresh ones.
  ghost predicate Good(s: Ctx, base: nat) {
    && base <= s.next
    && IsCnf(s.clauses) && Normal(s.clauses) && Under(s.clauses, s.next)
    && (forall x :: x in s.mean ==> base <= x < s.next && Under(s.mean[x], base))
    && (forall e :: e in s.defs ==> DefOk(e) && Under(e, base) && s.defs[e] in s.mean && s.mean[s.defs[e]] == e)
    && forall env :: Sat(s, Canon(env, s.mean))
  }

  // What may be given a name.
  ghost predicate DefOk(e: Expr) {
    Normal(e) && (e.Prim? || e.Iff?)
  }

  // Fresh variable x is forced to have its meaning.
  ghost predicate Closed(s: Ctx, x: nat)
    requires x in s.mean
  {
    forall env :: Sat(s, env) ==> env.vars(x) == Eval(s.mean[x], env)
  }

  // s' only adds to s, and new names, but those still open, are closed.
  ghost predicate Extends(s: Ctx, s': Ctx, open: set<nat>) {
    && s.next <= s'.next
    && (forall x :: x in s.mean ==> x in s'.mean && s'.mean[x] == s.mean[x])
    && (forall env :: Sat(s', env) ==> Sat(s, env))
    && (forall x :: x in s'.mean && x !in s.mean ==> x >= s.next && (x in open || Closed(s', x)))
  }

  lemma ExtendsSelf(s: Ctx)
    ensures Extends(s, s, {})
  {
  }

  lemma ExtendsMore(s: Ctx, t: Ctx, u: Ctx, open: set<nat>)
    requires Extends(s, t, open) && Extends(t, u, {})
    ensures Extends(s, u, open)
  {
    hide Sat;
    forall x | x in u.mean && x !in s.mean ensures x >= s.next && (x in open || Closed(u, x)) {
      if x in t.mean && x !in open {
        assert Closed(t, x);
        forall env | Sat(u, env) ensures env.vars(x) == Eval(u.mean[x], env) {
          assert Sat(t, env);
        }
      }
    }
  }

  // Only the variables that occur matter.
  lemma {:induction false} EvalAgrees(e: Expr, env: Env, env': Env, n: nat)
    requires Under(e, n) && Agree(env, env', n)
    ensures Eval(e, env) == Eval(e, env')
  {
    match e
    case Bool(_) =>
    case Prim(_) =>
    case Var(_) =>
    case Iff(l, r) =>
      EvalAgrees(l, env, env', n);
      EvalAgrees(r, env, env', n);
    case And(m) =>
      forall k | k in m ensures Eval(k, env) == Eval(k, env') {
        EvalAgrees(k, env, env', n);
      }
    case Or(m) =>
      forall k | k in m ensures Eval(k, env) == Eval(k, env') {
        EvalAgrees(k, env, env', n);
      }
  }

  lemma {:induction false} UnderMore(e: Expr, n: nat, n': nat)
    requires Under(e, n) && n <= n'
    ensures Under(e, n')
  {
    match e
    case Bool(_) =>
    case Prim(_) =>
    case Var(_) =>
    case Iff(l, r) =>
      UnderMore(l, n, n');
      UnderMore(r, n, n');
    case And(m) =>
      forall k | k in m ensures Under(k, n') {
        UnderMore(k, n, n');
      }
    case Or(m) =>
      forall k | k in m ensures Under(k, n') {
        UnderMore(k, n, n');
      }
  }

  lemma CanonSame(e: Expr, env: Env, s: Ctx, base: nat)
    requires Good(s, base) && Under(e, base)
    ensures Eval(e, Canon(env, s.mean)) == Eval(e, env)
  {
    EvalAgrees(e, env, Canon(env, s.mean), base);
  }

  // ----- the three ways the state grows -----

  function WithVar(s: Ctx, e: Expr): Ctx {
    s.(next := s.next + 1, mean := s.mean[s.next := e])
  }

  ghost function WithClause(s: Ctx, c: Expr): Ctx {
    s.(clauses := AndExpr(s.clauses, c))
  }

  function WithDef(s: Ctx, e: Expr): Ctx {
    s.(defs := s.defs[e := s.next], next := s.next + 1, mean := s.mean[s.next := e])
  }

  // A state is satisfied or not by what it mentions.
  lemma SatAgrees(s: Ctx, base: nat, env: Env, env': Env)
    requires Good(s, base) && Agree(env, env', s.next)
    ensures Sat(s, env) == Sat(s, env')
  {
    hide Normal, IsCnf;
    EvalAgrees(s.clauses, env, env', s.next);
    forall e | e in s.defs
      ensures env.vars(s.defs[e]) == env'.vars(s.defs[e]) && Eval(e, env) == Eval(e, env')
    {
      EvalAgrees(e, env, env', base);
    }
  }

  lemma AddVarKeeps(s: Ctx, base: nat, e: Expr)
    requires Good(s, base) && Under(e, base)
    ensures Good(WithVar(s, e), base) && Extends(s, WithVar(s, e), {s.next})
  {
    hide Good, Extends;
    VarKeepsGood(s, base, e);
    VarExtends(s, base, e);
  }

  lemma VarKeepsGood(s: Ctx, base: nat, e: Expr)
    requires Good(s, base) && Under(e, base)
    ensures Good(WithVar(s, e), base)
  {
    hide Normal, IsCnf, Under, DefOk, Eval, Canon, Sat;
    var t := WithVar(s, e);
    UnderMore(s.clauses, s.next, t.next);
    forall env ensures Sat(t, Canon(env, t.mean)) {
      VarSat(s, base, e, env);
    }
  }

  lemma VarExtends(s: Ctx, base: nat, e: Expr)
    requires Good(s, base)
    ensures Extends(s, WithVar(s, e), {s.next})
  {
    hide Normal, IsCnf, Under, DefOk, Sat, Closed;
    forall env ensures Sat(WithVar(s, e), env) == Sat(s, env) {
      SameSat(s, e, env);
    }
  }

  lemma SameSat(s: Ctx, e: Expr, env: Env)
    ensures Sat(WithVar(s, e), env) == Sat(s, env)
  {
    hide Eval;
  }

  lemma VarSat(s: Ctx, base: nat, e: Expr, env: Env)
    requires Good(s, base)
    ensures Sat(WithVar(s, e), Canon(env, WithVar(s, e).mean))
  {
    hide Normal, IsCnf, Under, DefOk;
    var t := WithVar(s, e);
    SatAgrees(s, base, Canon(env, s.mean), Canon(env, t.mean));
  }

  lemma AddClauseKeeps(s: Ctx, base: nat, c: Expr)
    requires Good(s, base) && IsClause(c) && Normal(c) && Under(c, s.next)
    requires forall env :: Eval(c, Canon(env, s.mean))
    ensures Good(WithClause(s, c), base) && Extends(s, WithClause(s, c), {})
    ensures forall env :: Sat(WithClause(s, c), env) ==> Eval(c, env)
  {
    hide Normal, IsClause, Under, DefOk, AndExpr, Eval, Canon;
    var t := WithClause(s, c);
    CnfAnd(s.clauses, c, s.next);
    forall env ensures Sat(t, env) == (Sat(s, env) && Eval(c, env)) {
      AndMeans(s.clauses, c, env);
    }
  }

  lemma AddDefKeeps(s: Ctx, base: nat, e: Expr)
    requires Good(s, base) && DefOk(e) && Under(e, base) && e !in s.defs
    ensures Good(WithDef(s, e), base) && Extends(s, WithDef(s, e), {})
  {
    hide Normal, IsCnf, Under, DefOk, Good;
    AddVarKeeps(s, base, e);
    var t, v := WithDef(s, e), WithVar(s, e);
    DefIsVar(s, base, e);
    forall env | Sat(t, env) ensures Sat(s, env) && env.vars(s.next) == Eval(e, env) {
      assert forall d :: d in s.defs ==> t.defs[d] == s.defs[d];
      assert t.defs[e] == s.next;
    }
  }

  lemma DefIsVar(s: Ctx, base: nat, e: Expr)
    requires Good(s, base) && DefOk(e) && Under(e, base) && e !in s.defs
    ensures Good(WithDef(s, e), base)
  {
    hide Normal, IsCnf, Under, DefOk;
    AddVarKeeps(s, base, e);
    var t, v := WithDef(s, e), WithVar(s, e);
    forall env ensures Sat(t, Canon(env, t.mean)) {
      assert Sat(v, Canon(env, v.mean));
      EvalAgrees(e, env, Canon(env, t.mean), base);
    }
  }

  // ----- shapes under the constructors -----

  ghost predicate CnfArgs(m: Args) {
    forall k :: k in m ==> k.Var? || (!m[k] && IsClause(k))
  }

  ghost predicate UnderArgs(m: Args, n: nat) {
    forall k :: k in m ==> Under(k, n)
  }

  lemma CnfToExpr(m: Option<Args>)
    requires m.Some? ==> CnfArgs(m.value)
    ensures IsCnf(AndToExpr(m))
  {
    if m.Some? && |m.value| == 1 {
      OneKey(m.value);
    }
  }

  lemma CnfAnd(a: Expr, b: Expr, n: nat)
    requires IsCnf(a) && IsCnf(b) && Normal(a) && Normal(b) && Under(a, n) && Under(b, n)
    ensures IsCnf(AndExpr(a, b)) && Normal(AndExpr(a, b)) && Under(AndExpr(a, b), n)
  {
    hide AndToExpr, Normal, Under, IsClause;
    AndNormal(a, b);
    UnderAnd(a, b, n);
    CnfOperands(a);
    CnfOperands(b);
    if a.And? && b.And? {
      CnfToExpr(Merge(a.args, b.args));
    } else if !a.Bool? && !b.Bool? {
      if a.And? {
        CnfToExpr(AndUpdate(Some(a.args), b, false));
      } else if b.And? {
        CnfToExpr(AndUpdate(Some(b.args), a, false));
      } else {
        CnfToExpr(AndUpdate(Some(map[a := false]), b, false));
      }
    }
  }

  // What a conjunctive normal form is made of.
  lemma CnfOperands(a: Expr)
    requires IsCnf(a)
    ensures a.And? ==> CnfArgs(a.args)
    ensures !a.And? && !a.Bool? ==> a.Var? || IsClause(a)
    ensures IsClause(Bool(false)) && IsClause(Bool(true))
  {
  }

  lemma UnderAnd(a: Expr, b: Expr, n: nat)
    requires Under(a, n) && Under(b, n)
    ensures Under(AndExpr(a, b), n)
  {
    hide AndToExpr;
    if a.And? && b.And? {
      UnderAndTo(Merge(a.args, b.args), n);
    } else if !a.Bool? && !b.Bool? {
      if a.And? {
        UnderAndTo(AndUpdate(Some(a.args), b, false), n);
      } else if b.And? {
        UnderAndTo(AndUpdate(Some(b.args), a, false), n);
      } else {
        UnderAndTo(AndUpdate(Some(map[a := false]), b, false), n);
      }
    }
  }

  lemma UnderAndTo(m: Option<Args>, n: nat)
    requires m.Some? ==> UnderArgs(m.value, n)
    ensures Under(AndToExpr(m), n)
  {
  }

  ghost predicate VarArgs(m: Args) {
    forall k :: k in m ==> k.Var?
  }

  lemma ClauseToExpr(m: Option<Args>, n: nat)
    requires m.Some? ==> VarArgs(m.value) && UnderArgs(m.value, n)
    ensures IsClause(OrToExpr(m)) && Under(OrToExpr(m), n)
  {
    if m.Some? && |m.value| == 1 {
      OneKey(m.value);
    }
  }

  // Adding a signed variable to a disjunction of signed variables.
  lemma LitUpdate(m: Args, a: Expr, n: nat)
    requires VarArgs(m) && UnderArgs(m, n) && IsLit(a) && Under(a, n)
    ensures var r := OrUpdate(Some(m), a, false); r.Some? ==> VarArgs(r.value) && UnderArgs(r.value, n)
  {
    if Negated(a) {
      OneKey(a.args);
      assert Only(map[Only(a.args) := false]) == Only(a.args);
    }
  }

  lemma ClauseOr(a: Expr, b: Expr, n: nat)
    requires IsLit(a) && IsClause(b) && Normal(a) && Normal(b) && Under(a, n) && Under(b, n)
    ensures IsClause(OrExpr(a, b)) && Normal(OrExpr(a, b)) && Under(OrExpr(a, b), n)
  {
    hide OrToExpr, OrUpdate, Normal;
    OrNormal(a, b);
    if b.Or? {
      LitUpdate(b.args, a, n);
      ClauseToExpr(OrUpdate(Some(b.args), a, false), n);
    } else if !b.Bool? {
      var m := OrUpdate(Some(map[]), a, false);
      FirstOperand(a);
      LitUpdate(map[], a, n);
      LitUpdate(m.value, b, n);
      ClauseToExpr(OrUpdate(m, b, false), n);
    }
  }

  // Variable x, signed.
  function Signed(x: nat, neg: bool): Expr {
    if neg then And(map[Var(x) := true]) else Var(x)
  }

  lemma SignedIs(x: nat, neg: bool, n: nat, env: Env)
    requires x < n
    ensures IsLit(Signed(x, neg)) && Normal(Signed(x, neg)) && Under(Signed(x, neg), n)
    ensures Eval(Signed(x, neg), env) == (env.vars(x) != neg)
    ensures NotExpr(Var(x)) == Signed(x, true)
  {
    var m: Args := map[Var(x) := true];
    assert Var(x) in m;
  }
}
