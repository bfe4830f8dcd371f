// Running the code of a rule does what the rule means (solver_chr.c).
module ChrRun {
  import opened Wrappers
  import opened ChrRule
  import opened ChrCode
  import opened ChrMachine

  // ----- reading a specification -----

  lemma ReadIsPattern(args: seq<Term>, spec: seq<nat>, limit: nat, env: Env, regs: Regs)
    requires AllSpec(args, spec, limit, env, regs) && |spec| == |args|
    ensures Read(spec, regs) == PatternOf(args, env)
  {
    var a, b := Read(spec, regs), PatternOf(args, env);
    forall i | 0 <= i < |args| ensures a[i] == b[i] {
      assert SpecIs(args[i], spec[i], limit, env, regs);
    }
  }

  lemma ValuesAreArgs(args: seq<Term>, spec: seq<nat>, limit: nat, env: Env, regs: Regs)
    requires AllSpec(args, spec, limit, env, regs) && |spec| == |args| && 0 !in spec
    ensures Values(spec, regs) == ArgsOf(args, env)
  {
    var a, b := Values(spec, regs), ArgsOf(args, env);
    forall i | 0 <= i < |args| ensures a[i] == b[i] {
      assert SpecIs(args[i], spec[i], limit, env, regs);
      assert spec[i] in spec;
    }
  }

  // ----- fetching the other arguments -----

  // A variable bound to a fresh register.
  lemma KnowsBind(cxt: Cxt, env: Env, regs: Regs, x: nat, v: Value)
    requires Knows(cxt, env, regs) && cxt.reg > 0
    ensures Knows(Cxt(cxt.info[TVar(x) := cxt.reg], cxt.reg + 1), env[x := v], regs[cxt.reg := WVal(v)])
    ensures Same(regs, regs[cxt.reg := WVal(v)], cxt.reg)
  {
    var env' := env[x := v];
    forall t | t in cxt.info && t != TVar(x) ensures Eval(t, env') == Eval(t, env) {
      assert !t.TBin?;
    }
  }

  // After fetching, the context knows the variables of the first n arguments.
  ghost predicate FetchDone(h: Atom, spec: seq<nat>, n: nat, cons: nat, vals: seq<Value>, cxt: Cxt, env: Env,
                            m: Machine, m': Machine)
    requires n <= |h.args| == |spec| == |vals|
  {
    var f := FetchCode(h.args, spec, n, cons, cxt);
    && m' == Filled(m, |f.code|, m'.regs) && cxt.reg <= f.cxt.reg && Same(m.regs, m'.regs, cxt.reg)
    && Knows(f.cxt, Bind(h.args, vals, env, n), m'.regs)
  }

  // The unknown entries are the unbound variables.
  ghost predicate Unknown(args: seq<Term>, spec: seq<nat>, env: Env) {
    |spec| == |args| && forall i :: 0 <= i < |args| ==> (spec[i] == 0 <==> args[i].TVar? && args[i].name !in env)
  }

  lemma SpecUnknown(args: seq<Term>, spec: seq<nat>, limit: nat, env: Env, regs: Regs)
    requires AllSpec(args, spec, limit, env, regs) && |spec| == |args| && Flat(args)
    ensures Unknown(args, spec, env)
  {
    forall i | 0 <= i < |args| ensures spec[i] == 0 <==> args[i].TVar? && args[i].name !in env {
      assert SpecIs(args[i], spec[i], limit, env, regs);
    }
  }

  lemma GetRuns(w: World, code: Code, m: Machine, cons: nat, c: nat, idx: nat, reg: nat)
    requires m.status == Running && CodeAt(code, m.ip, [Get(cons, idx, reg)])
    requires cons in m.regs && m.regs[cons] == WCons(c) && idx < |w.args(c)|
    ensures Reaches(w, code, m, Filled(m, 1, m.regs[reg := WVal(w.args(c)[idx])]))
  {
    hide Reaches;
    CodeSplit(code, m.ip, [Get(cons, idx, reg)], []);
    OneStep(w, code, m);
  }

  lemma {:induction false} FetchRuns(w: World, code: Code, m: Machine, h: Atom, spec: seq<nat>, n: nat, cons: nat,
                                     c: nat, cxt: Cxt, env: Env)
    returns (m': Machine)
    requires m.status == Running && Knows(cxt, env, m.regs) && n <= |h.args| == |w.args(c)| && 0 < cxt.reg
    requires Unknown(h.args, spec, env) && CodeAt(code, m.ip, FetchCode(h.args, spec, n, cons, cxt).code)
    requires cons < cxt.reg && cons in m.regs && m.regs[cons] == WCons(c)
    ensures Reaches(w, code, m, m') && FetchDone(h, spec, n, cons, w.args(c), cxt, env, m, m')
  {
    hide Step, Reaches, CodeAt, Knows;
    if n == 0 {
      OneStep(w, code, m);
      m' := m;
    } else {
      var b := FetchCode(h.args, spec, n - 1, cons, cxt);
      if spec[n - 1] != 0 {
        m' := FetchRuns(w, code, m, h, spec, n - 1, cons, c, cxt, env);
      } else {
        CodeSplit(code, m.ip, b.code, [Get(cons, n - 1, b.cxt.reg)]);
        var m1 := FetchRuns(w, code, m, h, spec, n - 1, cons, c, cxt, env);
        var v := w.args(c)[n - 1];
        GetRuns(w, code, m1, cons, c, n - 1, b.cxt.reg);
        m' := Filled(m1, 1, m1.regs[b.cxt.reg := WVal(v)]);
        ReachTrans(w, code, m, m1, m');
        KnowsBind(b.cxt, Bind(h.args, w.args(c), env, n - 1), m1.regs, h.args[n - 1].name, v);
        SameTrans(m.regs, m1.regs, m'.regs, cxt.reg, b.cxt.reg);
      }
    }
  }

  // ----- the body -----

  lemma PropRuns(w: World, code: Code, m: Machine, b: Atom, spec: seq<nat>, limit: nat, env: Env) returns (m': Machine)
    requires m.status == Running && CodeAt(code, m.ip, [Prop(b.sign, b.sym, spec)])
    requires AllSpec(b.args, spec, limit, env, m.regs) && |spec| == |b.args| && 0 !in spec
    ensures Reaches(w, code, m, m')
    ensures m' == m.(ip := m.ip + 1, told := m.told + [Told(b.sign, b.sym, ArgsOf(b.args, env), m.reason)])
  {
    hide Reaches;
    CodeSplit(code, m.ip, [Prop(b.sign, b.sym, spec)], []);
    ValuesAreArgs(b.args, spec, limit, env, m.regs);
    OneStep(w, code, m);
    m' := Step(w, code, m);
  }

  lemma BodyAtomRuns(w: World, code: Code, m: Machine, b: Atom, cxt: Cxt, env: Env) returns (m': Machine)
    requires m.status == Running && Knows(cxt, env, m.regs) && Flat(b.args) && 0 < cxt.reg
    requires BodyCode(b, cxt).Some? && CodeAt(code, m.ip, BodyCode(b, cxt).value.code)
    ensures Reaches(w, code, m, m') && Same(m.regs, m'.regs, cxt.reg)
    ensures cxt.reg <= BodyCode(b, cxt).value.cxt.reg && Knows(BodyCode(b, cxt).value.cxt, env, m'.regs)
    ensures m' == m.(ip := m.ip + |BodyCode(b, cxt).value.code|, regs := m'.regs,
                     told := m.told + [Told(b.sign, b.sym, ArgsOf(b.args, env), m.reason)])
  {
    hide Step, Reaches, CodeAt, Knows, Same, AllSpec;
    var s := SpecCode(b.args, |b.args|, cxt);
    CodeSplit(code, m.ip, s.code, [Prop(b.sign, b.sym, s.spec)]);
    var m1 := SpecRuns(w, code, m, b.args, |b.args|, cxt, env);
    m' := PropRuns(w, code, m1, b, s.spec, s.cxt.reg, env);
    ReachTrans(w, code, m, m1, m');
  }

  lemma RetryRuns(w: World, code: Code, m: Machine, k: nat)
    requires Anchored(m) && CodeAt(code, m.ip, [Retry(1)])
    ensures Does(w, code, m, Outcome([], true), k)
  {
    hide Reaches;
    CodeSplit(code, m.ip, [Retry(1)], []);
    OneStep(w, code, m);
    if |m.choices| > 0 { assert m.choices[..|m.choices|] == m.choices; }
    BacktrackDoes(w, code, m, Step(w, code, m), k);
  }

  // Something told, and then the rest.
  lemma TellsThen(w: World, code: Code, m: Machine, m1: Machine, t: seq<Told>, o: Outcome, k: nat, k1: nat)
    requires Reaches(w, code, m, m1) && m1.told == m.told + t && k <= k1 && Same(m.regs, m1.regs, k)
    requires m1.choices == m.choices && m1.reason == m.reason && Does(w, code, m1, o, k1)
    ensures Does(w, code, m, Outcome(t + o.told, o.ok), k)
  {
    hide Reaches;
    assert m1.told + o.told == m.told + (t + o.told);
    if o.ok {
      var m' :| Reaches(w, code, m1, m') && m'.told == m1.told + o.told && Returned(m1, m', k1);
      ReachTrans(w, code, m, m1, m');
      SameTrans(m.regs, m1.regs, m'.regs, k, k1);
      assert Returned(m, m', k);
    } else {
      GiveUpLater(w, code, m, m1, m1.told + o.told);
    }
  }

  lemma {:induction false} BodyRuns(w: World, code: Code, m: Machine, r: Rule, i: nat, cxt: Cxt, env: Env)
    requires FlatRule(r) && Anchored(m) && Knows(cxt, env, m.regs) && i <= |r.body| && 0 < cxt.reg
    requires FromBody(r, i, cxt).Some? && CodeAt(code, m.ip, FromBody(r, i, cxt).value)
    ensures Does(w, code, m, Outcome(Body(r.body, env, m.reason)[i..], true), cxt.reg)
    decreases |r.body| - i
  {
    hide Step, Reaches, CodeAt, Knows, Same, Does;
    if i == |r.body| {
      RetryRuns(w, code, m, cxt.reg);
      assert Body(r.body, env, m.reason)[i..] == [];
    } else {
      var b := BodyCode(r.body[i], cxt).value;
      var rest := FromBody(r, i + 1, b.cxt).value;
      CodeSplit(code, m.ip, b.code, rest);
      var m1 := BodyAtomRuns(w, code, m, r.body[i], cxt, env);
      BodyRuns(w, code, m1, r, i + 1, b.cxt, env);
      var all := Body(r.body, env, m.reason);
      TellsThen(w, code, m, m1, [all[i]], Outcome(all[i + 1..], true), cxt.reg, b.cxt.reg);
      assert [all[i]] + all[i + 1..] == all[i..];
    }
  }
}
