// Running the compiled code of a propagation rule fires the body once for
// every tuple of partners, in nested-loop order (solver_chr.c).
module ChrTheorem {
  import opened Wrappers
  import opened ChrRule
  import opened ChrCode
  import opened ChrMachine
  import opened ChrRun

  // ----- guards -----

  lemma CmpStep(w: World, code: Code, m: Machine, cmp: Cmp, a: Value, b: Value)
    requires m.status == Running && CodeAt(code, m.ip, [EvalCmp(cmp)])
    ensures var m2 := m.(stack := m.stack + [a] + [b]);
      Reaches(w, code, m2, if Compares(cmp, w.compare(a, b)) then m.(ip := m.ip + 1) else Backtrack(m))
  {
    hide Reaches;
    CodeSplit(code, m.ip, [EvalCmp(cmp)], []);
    var m2 := m.(stack := m.stack + [a] + [b]);
    assert m2.stack[..|m2.stack| - 2] == m.stack;
    OneStep(w, code, m2);
  }

  // Two expressions one after the other.
  lemma PairRuns(w: World, code: Code, m: Machine, l: Term, r: Term, cxt: Cxt, env: Env)
    requires m.status == Running && Knows(cxt, env, m.regs) && ExprCode(l, cxt.info).Some?
             && ExprCode(r, cxt.info).Some?
    requires CodeAt(code, m.ip, ExprCode(l, cxt.info).value + ExprCode(r, cxt.info).value)
    ensures var a, b := Eval(l, env), Eval(r, env);
      if a.None? || b.None? then GaveUp(w, code, m, m.told)
      else Reaches(w, code, m, m.(ip := m.ip + |ExprCode(l, cxt.info).value| + |ExprCode(r, cxt.info).value|,
                                  stack := m.stack + [a.value] + [b.value]))
  {
    hide Step, Reaches, Knows, CodeAt, GaveUp, Eval, ExprCode;
    var a, b := ExprCode(l, cxt.info).value, ExprCode(r, cxt.info).value;
    CodeSplit(code, m.ip, a, b);
    ExprRuns(w, code, m, l, cxt, env);
    if Eval(l, env).Some? {
      var m1 := m.(ip := m.ip + |a|, stack := m.stack + [Eval(l, env).value]);
      ExprRuns(w, code, m1, r, cxt, env);
      if Eval(r, env).Some? {
        ReachTrans(w, code, m, m1, m1.(ip := m1.ip + |b|, stack := m1.stack + [Eval(r, env).value]));
      } else {
        GiveUpLater(w, code, m, m1, m.told);
      }
    }
  }

  // A comparison goes on, steps back, or gives the run up.
  lemma CompareRuns(w: World, code: Code, m: Machine, cmp: Cmp, l: Term, r: Term, cxt: Cxt, env: Env)
    requires m.status == Running && Knows(cxt, env, m.regs)
    requires CompareCode(cmp, l, r, cxt.info).Some? && CodeAt(code, m.ip, CompareCode(cmp, l, r, cxt.info).value)
    ensures var a, b := Eval(l, env), Eval(r, env); var m1 := m.(ip := m.ip + |CompareCode(cmp, l, r, cxt.info).value|);
      if a.None? || b.None? then GaveUp(w, code, m, m.told)
      else Reaches(w, code, m,
                   if Compares(cmp, w.compare(a.value, b.value)) then m1 else Backtrack(m1.(ip := m1.ip - 1)))
  {
    hide Step, Reaches, Knows, CodeAt, GaveUp, Eval, ExprCode;
    var a, b := ExprCode(l, cxt.info).value, ExprCode(r, cxt.info).value;
    CodeSplit(code, m.ip, a + b, [EvalCmp(cmp)]);
    PairRuns(w, code, m, l, r, cxt, env);
    if Eval(l, env).Some? && Eval(r, env).Some? {
      var x, y := Eval(l, env).value, Eval(r, env).value;
      var m0 := m.(ip := m.ip + |a| + |b|);
      CmpStep(w, code, m0, cmp, x, y);
      ReachTrans(w, code, m, m0.(stack := m0.stack + [x] + [y]),
                 if Compares(cmp, w.compare(x, y)) then m0.(ip := m0.ip + 1) else Backtrack(m0));
    }
  }

  // An assignment puts the value in a fresh register, or gives the run up.
  lemma SetRuns(w: World, code: Code, m: Machine, e: Term, cxt: Cxt, env: Env)
    requires m.status == Running && Knows(cxt, env, m.regs)
    requires ExprCode(e, cxt.info).Some? && CodeAt(code, m.ip, ExprCode(e, cxt.info).value + [Pop(cxt.reg)])
    ensures if Eval(e, env).None? then GaveUp(w, code, m, m.told)
            else Reaches(w, code, m,
                         Filled(m, |ExprCode(e, cxt.info).value| + 1, m.regs[cxt.reg := WVal(Eval(e, env).value)]))
  {
    hide Step, Reaches, Knows, CodeAt, GaveUp;
    var a := ExprCode(e, cxt.info).value;
    CodeSplit(code, m.ip, a, [Pop(cxt.reg)]);
    ExprRuns(w, code, m, e, cxt, env);
    if Eval(e, env).Some? {
      PopStep(w, code, m.(ip := m.ip + |a|), cxt.reg, Eval(e, env).value);
      ReachTrans(w, code, m, m.(ip := m.ip + |a|, stack := m.stack + [Eval(e, env).value]),
                 Filled(m, |a| + 1, m.regs[cxt.reg := WVal(Eval(e, env).value)]));
    }
  }

  lemma PopStep(w: World, code: Code, m: Machine, reg: nat, v: Value)
    requires m.status == Running && CodeAt(code, m.ip, [Pop(reg)])
    ensures Reaches(w, code, m.(stack := m.stack + [v]), Filled(m, 1, m.regs[reg := WVal(v)]))
  {
    hide Reaches;
    CodeSplit(code, m.ip, [Pop(reg)], []);
    var m2 := m.(stack := m.stack + [v]);
    assert m2.stack[..|m2.stack| - 1] == m.stack;
    OneStep(w, code, m2);
  }

  // Stepping back from further on.
  lemma StepBackDoes(w: World, code: Code, m: Machine, m1: Machine, k: nat)
    requires Anchored(m) && Reaches(w, code, m, Backtrack(m1)) && m1.choices == m.choices && m1.told == m.told
    requires m1.status == Running && m1.stack == [] && m.reason <= m1.reason && m1.regs == m.regs
    ensures Does(w, code, m, Outcome([], true), k)
  {
    hide Reaches;
    var m2 := Backtrack(m1);
    assert m2.told == m.told + [];
    assert Returned(m, m2, k);
  }

  lemma {:induction false} GuardsRun(w: World, code: Code, m: Machine, r: Rule, g: nat, cxt: Cxt, env: Env)
    requires FlatRule(r) && Anchored(m) && Knows(cxt, env, m.regs) && g <= |r.guards| && 0 < cxt.reg
    requires FromGuard(r, g, cxt).Some? && CodeAt(code, m.ip, FromGuard(r, g, cxt).value)
    ensures Does(w, code, m, Guarded(w, r, g, env, m.reason), cxt.reg)
    decreases |r.guards| - g, 1
  {
    hide Step, Reaches, CodeAt, Knows, Same, Does, Eval, ExprCode;
    if g == |r.guards| {
      BodyRuns(w, code, m, r, 0, cxt, env);
      var all := Body(r.body, env, m.reason);
      assert all[0..] == all;
    } else {
      var b := GuardCode(r.guards[g], cxt).value;
      CodeSplit(code, m.ip, b.code, FromGuard(r, g + 1, b.cxt).value);
      match r.guards[g]
      case Test(cmp, l, t) =>
        TestRuns(w, code, m, r, g, cmp, l, t, cxt, env);
      case Set(x, e) =>
        KnownVar(cxt, env, m.regs, x);
        if TVar(x) in cxt.info {
          TestRuns(w, code, m, r, g, CmpEq, TVar(x), e, cxt, env);
        } else {
          SetRuns(w, code, m, e, cxt, env);
          if Eval(e, env).None? {
            GivesUp(w, code, m, cxt.reg);
          } else {
            var v := Eval(e, env).value;
            var m1 := Filled(m, |b.code|, m.regs[cxt.reg := WVal(v)]);
            KnowsBind(cxt, env, m.regs, x, v);
            GuardsRun(w, code, m1, r, g + 1, b.cxt, env[x := v]);
            DoesLater(w, code, m, m1, Guarded(w, r, g + 1, env[x := v], m.reason), cxt.reg, b.cxt.reg);
          }
        }
    }
  }

  lemma KnownVar(cxt: Cxt, env: Env, regs: Regs, x: nat)
    requires Knows(cxt, env, regs)
    ensures x in env <==> TVar(x) in cxt.info
    ensures x in env ==> Eval(TVar(x), env) == Some(env[x])
  {
  }

  lemma TestRuns(w: World, code: Code, m: Machine, r: Rule, g: nat, cmp: Cmp, l: Term, t: Term, cxt: Cxt, env: Env)
    requires FlatRule(r) && Anchored(m) && Knows(cxt, env, m.regs) && g < |r.guards| && 0 < cxt.reg
    requires CompareCode(cmp, l, t, cxt.info).Some?
    requires CodeAt(code, m.ip, CompareCode(cmp, l, t, cxt.info).value)
    requires FromGuard(r, g + 1, cxt).Some?
    requires CodeAt(code, m.ip + |CompareCode(cmp, l, t, cxt.info).value|, FromGuard(r, g + 1, cxt).value)
    ensures Does(w, code, m, Tested(w, r, g, cmp, Eval(l, env), Eval(t, env), env, m.reason), cxt.reg)
    decreases |r.guards| - g, 0
  {
    hide Step, Reaches, CodeAt, Knows, Same, Does, Eval, CompareCode;
    var a, b := Eval(l, env), Eval(t, env);
    CompareRuns(w, code, m, cmp, l, t, cxt, env);
    var m1 := m.(ip := m.ip + |CompareCode(cmp, l, t, cxt.info).value|);
    if a.None? || b.None? {
      GivesUp(w, code, m, cxt.reg);
    } else if Compares(cmp, w.compare(a.value, b.value)) {
      GuardsRun(w, code, m1, r, g + 1, cxt, env);
      SameSelf(m.regs, cxt.reg);
      DoesLater(w, code, m, m1, Guarded(w, r, g + 1, env, m.reason), cxt.reg, cxt.reg);
    } else {
      CompareLong(cmp, l, t, cxt.info);
      StepBackDoes(w, code, m, m1.(ip := m1.ip - 1), cxt.reg);
    }
  }

  lemma CompareLong(cmp: Cmp, l: Term, r: Term, info: map<Term, nat>)
    requires CompareCode(cmp, l, r, info).Some?
    ensures |CompareCode(cmp, l, r, info).value| > 0
  {
  }

  // ----- partners -----

  lemma {:induction false} SkipJoins(w: World, r: Rule, i: nat, env: Env, reason: seq<Lit>, cs: seq<nat>)
    requires WorldOk(w) && i < |r.partners|
    requires forall c :: c in cs ==> |w.args(c)| == |r.partners[i].args|
    ensures var sk := Skip(w, cs, r.partners[i].sign);
      && (forall c :: c in sk ==> c in cs) && |sk| <= |cs|
      && (sk != [] ==> w.live(sk[0], r.partners[i].sign))
      && JoinOver(w, r, i, env, reason, cs) == JoinOver(w, r, i, env, reason, sk)
  {
    if cs != [] && !w.live(cs[0], r.partners[i].sign) {
      SkipJoins(w, r, i, env, reason, cs[1..]);
    }
  }

  // At the iterator of partner i.
  ghost predicate AtNext(w: World, code: Code, m: Machine, r: Rule, i: nat, s: Specified, env: Env, cs: seq<nat>)
    requires i < |r.partners|
  {
    var h := r.partners[i];
    && Anchored(m) && Knows(s.cxt, env, m.regs) && 0 < s.cxt.reg
    && |s.spec| == |h.args| && AllSpec(h.args, s.spec, s.cxt.reg, env, m.regs)
    && CodeAt(code, m.ip, [Next(s.cxt.reg, s.cxt.reg + 1, h.sign, s.spec)])
    && s.cxt.reg in m.regs && m.regs[s.cxt.reg] == WList(cs)
    && (forall c :: c in cs ==> |w.args(c)| == |h.args|)
  }

  // After taking constraint c, with the rest still to come.
  function Took(w: World, m: Machine, h: Atom, env: Env, itr: nat, c: nat, rest: seq<nat>): Machine
    requires |w.args(c)| == |h.args|
  {
    m.(ip := m.ip + 1, choices := m.choices + [Choice(m.ip, |m.reason|)],
       reason := m.reason + PartnerLits(w, h, env, c), regs := m.regs[itr + 1 := WCons(c)][itr := WList(rest)])
  }

  lemma NextRuns(w: World, code: Code, m: Machine, r: Rule, i: nat, s: Specified, env: Env, cs: seq<nat>)
    requires i < |r.partners| && AtNext(w, code, m, r, i, s, env, cs)
    requires forall c :: c in Skip(w, cs, r.partners[i].sign) ==> c in cs
    ensures var sk := Skip(w, cs, r.partners[i].sign);
      if sk == [] then Reaches(w, code, m, Backtrack(m))
      else sk[0] in sk && Reaches(w, code, m, Took(w, m, r.partners[i], env, s.cxt.reg, sk[0], sk[1..]))
  {
    hide Reaches, Knows, Skip;
    var h := r.partners[i];
    CodeSplit(code, m.ip, [Next(s.cxt.reg, s.cxt.reg + 1, h.sign, s.spec)], []);
    ReadIsPattern(h.args, s.spec, s.cxt.reg, env, m.regs);
    OneStep(w, code, m);
  }

  // Taking a constraint leaves the registers below the iterator alone.
  lemma TookKnows(w: World, m: Machine, h: Atom, env: Env, s: Specified, c: nat, rest: seq<nat>)
    requires Anchored(m) && Knows(s.cxt, env, m.regs) && |w.args(c)| == |h.args|
    ensures var m1 := Took(w, m, h, env, s.cxt.reg, c, rest);
      Anchored(m1) && Knows(s.cxt.(reg := s.cxt.reg + 2), env, m1.regs) && Same(m.regs, m1.regs, s.cxt.reg)
  {
  }

  // Back at the iterator.
  lemma BackAtNext(w: World, code: Code, m: Machine, m1: Machine, m3: Machine, r: Rule, i: nat, s: Specified, env: Env,
                   cs: seq<nat>, rest: seq<nat>, c: nat, k: nat)
    requires i < |r.partners| && AtNext(w, code, m, r, i, s, env, cs) && |w.args(c)| == |r.partners[i].args|
    requires m1 == Took(w, m, r.partners[i], env, s.cxt.reg, c, rest) && Returned(m1, m3, k) && s.cxt.reg + 2 <= k
    requires forall d :: d in rest ==> d in cs
    ensures AtNext(w, code, m3, r, i, s, env, rest)
    ensures m3.choices == m.choices && m3.reason == m.reason && Same(m.regs, m3.regs, s.cxt.reg)
  {
    hide CodeAt, Knows, AllSpec;
    assert Same(m.regs, m3.regs, s.cxt.reg);
    KnowsSame(s.cxt, env, m.regs, m3.regs);
    SpecKept(r.partners[i].args, s.spec, s.cxt.reg, s.cxt.reg, env, m.regs, m3.regs);
    assert m1.reason[..|m.reason|] == m.reason;
    assert m1.choices[..|m.choices|] == m.choices;
    assert m3.regs[s.cxt.reg] == m1.regs[s.cxt.reg];
  }

  // An outcome, and then another.
  lemma ThenDoes(w: World, code: Code, m: Machine, m3: Machine, o1: Outcome, o2: Outcome, k: nat, k3: nat)
    requires Reaches(w, code, m, m3) && m3.told == m.told + o1.told && o1.ok && k <= k3 && Same(m.regs, m3.regs, k)
    requires m3.choices == m.choices && m3.reason == m.reason && Does(w, code, m3, o2, k3)
    ensures Does(w, code, m, Then(o1, o2), k)
  {
    hide Reaches, Does, Same;
    TellsThen(w, code, m, m3, o1.told, o2, k, k3);
  }

  lemma GivesUpLater(w: World, code: Code, m: Machine, m1: Machine, o1: Outcome, o2: Outcome, k: nat, k1: nat)
    requires Reaches(w, code, m, m1) && m1.told == m.told && !o1.ok && Does(w, code, m1, o1, k1)
    ensures Does(w, code, m, Then(o1, o2), k)
  {
    hide Reaches, GaveUp;
    GiveUpLater(w, code, m, m1, m.told + o1.told);
  }

  // The code after the iterator of partner i.
  ghost predicate LoopCode(code: Code, ip: nat, r: Rule, i: nat, s: Specified)
    requires i < |r.partners| && |s.spec| == |r.partners[i].args|
  {
    var f := FetchCode(r.partners[i].args, s.spec, |s.spec|, s.cxt.reg + 1, s.cxt.(reg := s.cxt.reg + 2));
    var rest := FromPartner(r, i + 1, f.cxt);
    rest.Some? && CodeAt(code, ip + 1, f.code + rest.value)
  }

  // Fetching after taking a partner.
  lemma TookFetches(w: World, code: Code, m1: Machine, r: Rule, i: nat, s: Specified, env: Env, c: nat)
    returns (m2: Machine)
    requires FlatRule(r) && i < |r.partners| && |w.args(c)| == |r.partners[i].args| == |s.spec|
    requires Anchored(m1) && Knows(s.cxt.(reg := s.cxt.reg + 2), env, m1.regs) && 0 < m1.ip
    requires Unknown(r.partners[i].args, s.spec, env) && LoopCode(code, m1.ip - 1, r, i, s)
    requires s.cxt.reg + 1 in m1.regs && m1.regs[s.cxt.reg + 1] == WCons(c)
    ensures var f := FetchCode(r.partners[i].args, s.spec, |s.spec|, s.cxt.reg + 1, s.cxt.(reg := s.cxt.reg + 2));
      && Reaches(w, code, m1, m2) && m2 == Filled(m1, |f.code|, m2.regs) && s.cxt.reg + 2 <= f.cxt.reg
      && Same(m1.regs, m2.regs, s.cxt.reg + 2)
      && Knows(f.cxt, Bind(r.partners[i].args, w.args(c), env, |s.spec|), m2.regs)
      && FromPartner(r, i + 1, f.cxt).Some? && CodeAt(code, m2.ip, FromPartner(r, i + 1, f.cxt).value)
  {
    hide Reaches, Knows, CodeAt, Same, Unknown;
    var cxt := s.cxt.(reg := s.cxt.reg + 2);
    var f := FetchCode(r.partners[i].args, s.spec, |s.spec|, s.cxt.reg + 1, cxt);
    CodeSplit(code, m1.ip, f.code, FromPartner(r, i + 1, f.cxt).value);
    m2 := FetchRuns(w, code, m1, r.partners[i], s.spec, |s.spec|, s.cxt.reg + 1, c, cxt, env);
  }

  lemma {:induction false} LoopRuns(w: World, code: Code, m: Machine, r: Rule, i: nat, s: Specified, env: Env,
                                    cs: seq<nat>)
    requires WorldOk(w) && FlatRule(r) && i < |r.partners| && AtNext(w, code, m, r, i, s, env, cs)
    requires Unknown(r.partners[i].args, s.spec, env) && LoopCode(code, m.ip, r, i, s)
    ensures Does(w, code, m, JoinOver(w, r, i, env, m.reason, cs), s.cxt.reg)
    decreases |r.partners| - i, 0, |cs|
  {
    hide Step, Reaches, CodeAt, Knows, Same, AllSpec, Unknown, Does, LoopCode, FetchCode, Skip, PartnerLits;
    var h := r.partners[i];
    SkipJoins(w, r, i, env, m.reason, cs);
    NextRuns(w, code, m, r, i, s, env, cs);
    var sk := Skip(w, cs, h.sign);
    if sk == [] {
      BacktrackDoes(w, code, m, Backtrack(m), s.cxt.reg);
    } else {
      var c := sk[0];
      var m1 := Took(w, m, h, env, s.cxt.reg, c, sk[1..]);
      TookKnows(w, m, h, env, s, c, sk[1..]);
      var m2 := TookFetches(w, code, m1, r, i, s, env, c);
      var f := FetchCode(h.args, s.spec, |s.spec|, s.cxt.reg + 1, s.cxt.(reg := s.cxt.reg + 2));
      var env2 := Bind(h.args, w.args(c), env, |h.args|);
      PartnersRun(w, code, m2, r, i + 1, f.cxt, env2);
      var o1 := Join(w, r, i + 1, env2, m1.reason);
      DoesLater(w, code, m1, m2, o1, s.cxt.reg + 2, f.cxt.reg);
      var o2 := JoinOver(w, r, i, env, m.reason, sk[1..]);
      if o1.ok {
        var m3 := DoneAt(w, code, m1, o1, s.cxt.reg + 2);
        ReachTrans(w, code, m, m1, m3);
        BackAtNext(w, code, m, m1, m3, r, i, s, env, cs, sk[1..], c, s.cxt.reg + 2);
        LoopRuns(w, code, m3, r, i, s, env, sk[1..]);
        ThenDoes(w, code, m, m3, o1, o2, s.cxt.reg, s.cxt.reg);
      } else {
        GivesUpLater(w, code, m, m1, o1, o2, s.cxt.reg, s.cxt.reg + 2);
      }
    }
  }

  lemma DoneAt(w: World, code: Code, m: Machine, o: Outcome, k: nat) returns (m': Machine)
    requires Does(w, code, m, o, k) && o.ok
    ensures Reaches(w, code, m, m') && m'.told == m.told + o.told && Returned(m, m', k)
  {
    m' :| Reaches(w, code, m, m') && m'.told == m.told + o.told && Returned(m, m', k);
  }

  lemma LookupRuns(w: World, code: Code, m: Machine, r: Rule, i: nat, s: Specified, env: Env) returns (cs: seq<nat>)
    requires WorldOk(w) && i < |r.partners| && Anchored(m) && Knows(s.cxt, env, m.regs) && 0 < s.cxt.reg
    requires |s.spec| == |r.partners[i].args| && AllSpec(r.partners[i].args, s.spec, s.cxt.reg, env, m.regs)
    requires var h := r.partners[i];
      CodeAt(code, m.ip, [Lookup(h.sym, s.spec, s.cxt.reg), Next(s.cxt.reg, s.cxt.reg + 1, h.sign, s.spec)])
    ensures cs == w.lookup(r.partners[i].sym, PatternOf(r.partners[i].args, env))
    ensures var m1 := Filled(m, 1, m.regs[s.cxt.reg := WList(cs)]);
      Reaches(w, code, m, m1) && AtNext(w, code, m1, r, i, s, env, cs) && Same(m.regs, m1.regs, s.cxt.reg)
  {
    hide Reaches, Knows, AllSpec;
    var h := r.partners[i];
    var next := Next(s.cxt.reg, s.cxt.reg + 1, h.sign, s.spec);
    assert [Lookup(h.sym, s.spec, s.cxt.reg), next] == [Lookup(h.sym, s.spec, s.cxt.reg)] + [next];
    CodeSplit(code, m.ip, [Lookup(h.sym, s.spec, s.cxt.reg)], [next]);
    ReadIsPattern(h.args, s.spec, s.cxt.reg, env, m.regs);
    OneStep(w, code, m);
    cs := w.lookup(h.sym, PatternOf(h.args, env));
    var m1 := Filled(m, 1, m.regs[s.cxt.reg := WList(cs)]);
    KnowsSame(s.cxt, env, m.regs, m1.regs);
    SpecKept(h.args, s.spec, s.cxt.reg, s.cxt.reg, env, m.regs, m1.regs);
  }

  // Where the parts of a partner's code are.
  lemma PartnerParts(code: Code, ip: nat, r: Rule, i: nat, cxt: Cxt)
    requires i < |r.partners| && FromPartner(r, i, cxt).Some? && CodeAt(code, ip, FromPartner(r, i, cxt).value)
    ensures var h := r.partners[i]; var s := SpecCode(h.args, |h.args|, cxt); var n := ip + |s.code|;
      && CodeAt(code, ip, s.code) && LoopCode(code, n + 1, r, i, s)
      && CodeAt(code, n, [Lookup(h.sym, s.spec, s.cxt.reg), Next(s.cxt.reg, s.cxt.reg + 1, h.sign, s.spec)])
  {
    hide CodeAt, SpecCode, FetchCode;
    var h := r.partners[i];
    var s := SpecCode(h.args, |h.args|, cxt);
    var f := FetchCode(h.args, s.spec, |h.args|, s.cxt.reg + 1, s.cxt.(reg := s.cxt.reg + 2));
    var two := [Lookup(h.sym, s.spec, s.cxt.reg), Next(s.cxt.reg, s.cxt.reg + 1, h.sign, s.spec)];
    var rest := FromPartner(r, i + 1, f.cxt).value;
    assert s.code + two + f.code + rest == s.code + (two + (f.code + rest));
    CodeSplit(code, ip, s.code, two + (f.code + rest));
    CodeSplit(code, ip + |s.code|, two, f.code + rest);
  }

  lemma {:induction false} PartnersRun(w: World, code: Code, m: Machine, r: Rule, i: nat, cxt: Cxt, env: Env)
    requires WorldOk(w) && FlatRule(r) && Anchored(m) && Knows(cxt, env, m.regs) && i <= |r.partners| && 0 < cxt.reg
    requires FromPartner(r, i, cxt).Some? && CodeAt(code, m.ip, FromPartner(r, i, cxt).value)
    ensures Does(w, code, m, Join(w, r, i, env, m.reason), cxt.reg)
    decreases |r.partners| - i, 1, 0
  {
    hide Step, Reaches, CodeAt, Knows, Same, AllSpec, Unknown, Does, LoopCode, SpecCode, AtNext;
    if i == |r.partners| {
      GuardsRun(w, code, m, r, 0, cxt, env);
    } else {
      var h := r.partners[i];
      var s := SpecCode(h.args, |h.args|, cxt);
      PartnerParts(code, m.ip, r, i, cxt);
      var m1 := SpecRuns(w, code, m, h.args, |h.args|, cxt, env);
      SpecUnknown(h.args, s.spec, s.cxt.reg, env, m1.regs);
      var cs := LookupRuns(w, code, m1, r, i, s, env);
      var m2 := Filled(m1, 1, m1.regs[s.cxt.reg := WList(cs)]);
      ReachTrans(w, code, m, m1, m2);
      LookupFits(w, h, env);
      LoopRuns(w, code, m2, r, i, s, env, cs);
      SameTrans(m.regs, m1.regs, m2.regs, cxt.reg, s.cxt.reg);
      DoesLater(w, code, m, m2, JoinOver(w, r, i, env, m.reason, cs), cxt.reg, s.cxt.reg);
    }
  }

  lemma LookupFits(w: World, h: Atom, env: Env)
    requires WorldOk(w)
    ensures forall c :: c in w.lookup(h.sym, PatternOf(h.args, env)) ==> |w.args(c)| == |h.args|
  {
    assert |PatternOf(h.args, env)| == |h.args|;
  }

  // ----- the active constraint -----

  // The registers at the start: the active constraint and its arguments.
  ghost predicate Holds(regs: Regs, r: nat, v: Value) {
    r in regs && regs[r] == WVal(v)
  }

  ghost predicate Loaded(regs: Regs, vals: seq<Value>) {
    forall j: nat :: j < |vals| ==> Holds(regs, j + 1, vals[j])
  }

  lemma AskStep(w: World, code: Code, m: Machine, i: Instr, why: Option<seq<Lit>>)
    requires m.status == Running && CodeAt(code, m.ip, [i])
    requires || (i.Equal? && why == w.ask(ValueIn(m.regs, i.r1), ValueIn(m.regs, i.r2)))
             || (i.EqualVal? && why == w.ask(ValueIn(m.regs, i.r1), i.val))
    ensures Reaches(w, code, m, Asked(m, why))
  {
    hide Reaches;
    CodeSplit(code, m.ip, [i], []);
    OneStep(w, code, m);
  }

  lemma KnowsVar(cxt: Cxt, env: Env, regs: Regs, x: nat, r: nat, v: Value)
    requires Knows(cxt, env, regs) && TVar(x) !in cxt.info && 0 < r < cxt.reg && r in regs && regs[r] == WVal(v)
    ensures Knows(cxt.(info := cxt.info[TVar(x) := r]), env[x := v], regs)
  {
    forall t | t in cxt.info ensures Eval(t, env[x := v]) == Eval(t, env) {
      assert !t.TBin?;
    }
  }

  lemma KnownReg(cxt: Cxt, env: Env, regs: Regs, t: Term)
    requires Knows(cxt, env, regs) && t in cxt.info
    ensures Eval(t, env) == Some(ValueIn(regs, cxt.info[t]))
  {
  }

  // The active constraint matched.
  ghost predicate ActiveDone(w: World, code: Code, m: Machine, b: Compiled, a: Matched, reg: nat)
    requires a.Match?
  {
    && b.cxt.reg == reg && Knows(b.cxt, a.env, m.regs)
    && Reaches(w, code, m, m.(ip := m.ip + |b.code|, reason := m.reason + a.lits))
  }

  lemma {:induction false} ActiveRuns(w: World, code: Code, m: Machine, args: seq<Term>, vals: seq<Value>, n: nat)
    requires Anchored(m) && Loaded(m.regs, vals) && n <= |args| == |vals| && Flat(args)
    requires CodeAt(code, m.ip, ActiveCode(args, n).code)
    ensures var b, a := ActiveCode(args, n), MatchActive(w, args, vals, n);
      if a.NoMatch? then Does(w, code, m, Outcome([], true), |args| + 1)
      else ActiveDone(w, code, m, b, a, |args| + 1)
  {
    hide Step, Reaches, CodeAt, Knows, Does, Same;
    if n == 0 {
      OneStep(w, code, m);
      NothingKnown(|args| + 1, m.regs);
      assert m.reason + [] == m.reason;
    } else {
      var b := ActiveCode(args, n - 1);
      var t, v := args[n - 1], vals[n - 1];
      assert ActiveCode(args, n).code == b.code || exists i: Instr :: ActiveCode(args, n).code == b.code + [i];
      if ActiveCode(args, n).code == b.code {
        ActiveRuns(w, code, m, args, vals, n - 1);
        var a := MatchActive(w, args, vals, n - 1);
        if a.Match? {
          KnownVar(b.cxt, a.env, m.regs, t.name);
          KnowsVar(b.cxt, a.env, m.regs, t.name, n, v);
        }
      } else {
        var i: Instr :| ActiveCode(args, n).code == b.code + [i];
        CodeSplit(code, m.ip, b.code, [i]);
        ActiveRuns(w, code, m, args, vals, n - 1);
        var a := MatchActive(w, args, vals, n - 1);
        if a.Match? {
          AskRuns(w, code, m, args, vals, n, i, a);
        }
      }
    }
  }

  lemma NothingKnown(reg: nat, regs: Regs)
    ensures Knows(Cxt(map[], reg), map[], regs)
  {
  }

  // One question about an argument of the active constraint.
  lemma AskRuns(w: World, code: Code, m: Machine, args: seq<Term>, vals: seq<Value>, n: nat, i: Instr, a: Matched)
    requires Anchored(m) && Loaded(m.regs, vals) && 0 < n <= |args| == |vals| && Flat(args) && a.Match?
    requires a == MatchActive(w, args, vals, n - 1)
    requires var b := ActiveCode(args, n - 1);
      && ActiveDone(w, code, m, b, a, |args| + 1) && ActiveCode(args, n).code == b.code + [i]
      && CodeAt(code, m.ip + |b.code|, [i])
    ensures var b, a' := ActiveCode(args, n), MatchActive(w, args, vals, n);
      if a'.NoMatch? then Does(w, code, m, Outcome([], true), |args| + 1)
      else ActiveDone(w, code, m, b, a', |args| + 1)
  {
    hide Step, Reaches, CodeAt, Knows, Does, Same;
    var b := ActiveCode(args, n - 1);
    var t, v := args[n - 1], vals[n - 1];
    assert (b.code + [i])[|b.code|] == i;
    if t.TVar? {
      KnownVar(b.cxt, a.env, m.regs, t.name);
      KnownReg(b.cxt, a.env, m.regs, t);
    }
    var m1 := m.(ip := m.ip + |b.code|, reason := m.reason + a.lits);
    var why := w.ask(v, Eval(t, a.env).value);
    AskStep(w, code, m1, i, why);
    ReachTrans(w, code, m, m1, Asked(m1, why));
    if why.None? {
      StepBackDoes(w, code, m, m1, |args| + 1);
    } else {
      assert m.reason + a.lits + why.value == m.reason + (a.lits + why.value);
    }
  }

  // ----- the whole rule -----

  function Load(active: nat, vals: seq<Value>, n: nat): Regs
    requires n <= |vals|
  {
    if n == 0 then map[0 := WCons(active)] else Load(active, vals, n - 1)[n := WVal(vals[n - 1])]
  }

  lemma {:induction false} LoadAt(active: nat, vals: seq<Value>, n: nat, j: nat)
    requires j < n <= |vals|
    ensures Holds(Load(active, vals, n), j + 1, vals[j])
  {
    if j < n - 1 {
      LoadAt(active, vals, n - 1, j);
    }
  }

  function Start(active: nat, vals: seq<Value>, reason: seq<Lit>): Machine {
    Machine(0, Load(active, vals, |vals|), [], reason, [], [], Running)
  }

  // From m the run stops after telling exactly what the outcome says, in
  // that order, each with its reason; or is given up there.
  ghost predicate Finishes(w: World, code: Code, m: Machine, o: Outcome) {
    exists m' :: Reaches(w, code, m, m') && m'.told == o.told && m'.status == if o.ok then Halted else Aborted
  }

  lemma DoesFinish(w: World, code: Code, m: Machine, m1: Machine, o: Outcome, k: nat)
    requires Reaches(w, code, m, m1) && m1.told == [] && m1.choices == [] && Does(w, code, m1, o, k)
    ensures Finishes(w, code, m, o)
  {
    hide Reaches;
    assert [] + o.told == o.told;
    if o.ok {
      var m' := DoneAt(w, code, m1, o, k);
      ReachTrans(w, code, m, m1, m');
    } else {
      GiveUpLater(w, code, m, m1, o.told);
    }
  }

  lemma RuleParts(r: Rule)
    requires RuleCode(r).Some? && FlatRule(r)
    ensures var a := ActiveCode(r.active.args, |r.active.args|);
      && FromPartner(r, 0, a.cxt).Some? && Flat(r.active.args)
      && RuleCode(r).value == a.code + FromPartner(r, 0, a.cxt).value
  {
    hide ActiveCode, FromPartner;
  }

  lemma StartOk(active: nat, vals: seq<Value>, reason: seq<Lit>)
    ensures var m := Start(active, vals, reason);
      && Anchored(m) && Loaded(m.regs, vals) && m.ip == 0 && m.told == [] && m.choices == [] && m.reason == reason
  {
    var regs := Load(active, vals, |vals|);
    forall j: nat | j < |vals| ensures Holds(regs, j + 1, vals[j]) {
      LoadAt(active, vals, |vals|, j);
    }
  }

  lemma RuleRuns(w: World, r: Rule, active: nat, vals: seq<Value>, reason: seq<Lit>)
    requires WorldOk(w) && FlatRule(r) && |vals| == |r.active.args| && RuleCode(r).Some?
    ensures Finishes(w, RuleCode(r).value, Start(active, vals, reason), Meaning(w, r, vals, reason))
  {
    hide *;
    var code, m := RuleCode(r).value, Start(active, vals, reason);
    var a := ActiveCode(r.active.args, |vals|);
    RuleParts(r);
    StartOk(active, vals, reason);
    WholeCode(code);
    CodeSplit(code, 0, a.code, FromPartner(r, 0, a.cxt).value);
    ActiveRuns(w, code, m, r.active.args, vals, |vals|);
    var mm := MatchActive(w, r.active.args, vals, |vals|);
    MeaningIs(w, r, vals, reason);
    if mm.NoMatch? {
      OneStep(w, code, m);
      DoesFinish(w, code, m, m, Outcome([], true), |vals| + 1);
    } else {
      ActiveGoesOn(w, code, m, a, mm, |vals| + 1);
      var m1 := m.(ip := |a.code|, reason := reason + mm.lits);
      PartnersRun(w, code, m1, r, 0, a.cxt, mm.env);
      DoesFinish(w, code, m, m1, Join(w, r, 0, mm.env, reason + mm.lits), a.cxt.reg);
    }
  }

  lemma MeaningIs(w: World, r: Rule, vals: seq<Value>, reason: seq<Lit>)
    requires WorldOk(w) && |vals| == |r.active.args|
    ensures var m := MatchActive(w, r.active.args, vals, |vals|);
      Meaning(w, r, vals, reason) == if m.NoMatch? then Outcome([], true) else Join(w, r, 0, m.env, reason + m.lits)
  {
    hide MatchActive, Join;
  }

  lemma ActiveGoesOn(w: World, code: Code, m: Machine, b: Compiled, a: Matched, reg: nat)
    requires a.Match? && ActiveDone(w, code, m, b, a, reg) && Anchored(m)
    ensures var m1 := m.(ip := m.ip + |b.code|, reason := m.reason + a.lits);
      Anchored(m1) && Knows(b.cxt, a.env, m1.regs) && b.cxt.reg == reg && Reaches(w, code, m, m1)
  {
    hide Reaches, Knows;
  }

  lemma WholeCode(code: Code)
    ensures CodeAt(code, 0, code)
  {
    assert code[0..0 + |code|] == code;
  }
}
