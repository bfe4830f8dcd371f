// The virtual machine that runs compiled rules (solver_chr.c), and the proof
// that the code of a rule does what the rule means.
module ChrMachine {
  import opened Wrappers
  import opened ChrRule
  import opened ChrCode

  datatype Status = Running | Halted | Aborted

  // A choicepoint: where to go on, and how much of the reason to keep.
  datatype Choice = Choice(ip: nat, sp: nat)

  datatype Machine = Machine(ip: nat, regs: Regs, choices: seq<Choice>, reason: seq<Lit>, stack: seq<Value>,
                             told: seq<Told>, status: Status)

  function Goto(m: Machine): Machine {
    m.(ip := m.ip + 1)
  }

  // Go back to the last choicepoint, or stop when there is none.
  function Backtrack(m: Machine): Machine {
    var n := |m.choices|;
    if n == 0 then m.(status := Halted)
    else
      var c := m.choices[n - 1];
      m.(ip := c.ip, choices := m.choices[..n - 1], reason := if c.sp <= |m.reason| then m.reason[..c.sp] else m.reason)
  }

  // Bail out; the evaluation stack is local to the run and is gone.
  function Abort(m: Machine): Machine {
    m.(stack := [], status := Aborted)
  }

  function ValueIn(regs: Regs, r: nat): Value {
    if r in regs && regs[r].WVal? then regs[r].v else Num(0)
  }

  function ConsIn(regs: Regs, r: nat): nat {
    if r in regs && regs[r].WCons? then regs[r].c else 0
  }

  function ListIn(regs: Regs, r: nat): seq<nat> {
    if r in regs && regs[r].WList? then regs[r].cs else []
  }

  // The pattern that a specification reads off the registers.
  function Read(spec: seq<nat>, regs: Regs): Pattern {
    seq(|spec|, i requires 0 <= i < |spec| => if spec[i] == 0 then None else Some(ValueIn(regs, spec[i])))
  }

  // Drop the constraints in front that are dead or decided otherwise.
  function Skip(w: World, cs: seq<nat>, sign: bool): seq<nat> {
    if cs == [] || w.live(cs[0], sign) then cs else Skip(w, cs[1..], sign)
  }

  // The literals for a partner that matches a specification.
  function MatchLits(w: World, spec: seq<nat>, regs: Regs, c: nat, sign: bool): seq<Lit> {
    var p := Read(spec, regs);
    (if |p| == |w.args(c)| then AgreeLits(w, p, w.args(c), |p|) else []) + [w.lit(c, sign)]
  }

  function Push1(m: Machine, v: Value): Machine {
    Goto(m.(stack := m.stack + [v]))
  }

  function Step(w: World, code: Code, m: Machine): Machine {
    if m.status != Running || m.ip >= |code| then m else Did(w, code[m.ip], m)
  }

  // What one instruction does.
  function Did(w: World, i: Instr, m: Machine): Machine {
    match i
    case Get(cons, idx, dest) =>
      var args := w.args(ConsIn(m.regs, cons));
      Goto(m.(regs := m.regs[dest := WVal(if idx < |args| then args[idx] else Num(0))]))
    case GetVal(dest, val) => Goto(m.(regs := m.regs[dest := WVal(val)]))
    case Lookup(sym, spec, dest) =>
      Goto(m.(regs := m.regs[dest := WList(w.lookup(sym, Read(spec, m.regs)))]))
    case Next(itr, dest, sign, spec) => Iterated(w, m, itr, dest, sign, spec)
    case Equal(r1, r2) => Asked(m, w.ask(ValueIn(m.regs, r1), ValueIn(m.regs, r2)))
    case EqualVal(r1, val) => Asked(m, w.ask(ValueIn(m.regs, r1), val))
    case Prop(sign, sym, spec) =>
      Goto(m.(told := m.told + [Told(sign, sym, Values(spec, m.regs), m.reason)]))
    case Retry(n) =>
      if |m.choices| < n then m.(status := Halted)
      else if n == 0 then m
      else Backtrack(m.(choices := m.choices[..|m.choices| - n + 1]))
    case Push(r1) => Push1(m, ValueIn(m.regs, r1))
    case PushVal(val) => Push1(m, val)
    case Pop(r1) =>
      if |m.stack| == 0 then Abort(m)
      else Goto(m.(regs := m.regs[r1 := WVal(m.stack[|m.stack| - 1])], stack := m.stack[..|m.stack| - 1]))
    case EvalCmp(cmp) => Compared(w, m, cmp)
    case EvalOp(op) => Operated(m, op)
  }

  // Take the next live constraint, remembering where to come back to.
  function Iterated(w: World, m: Machine, itr: nat, dest: nat, sign: bool, spec: seq<nat>): Machine {
    var cs := Skip(w, ListIn(m.regs, itr), sign);
    if cs == [] then Backtrack(m)
    else
      Goto(m.(choices := m.choices + [Choice(m.ip, |m.reason|)],
              reason := m.reason + MatchLits(w, spec, m.regs, cs[0], sign),
              regs := m.regs[dest := WCons(cs[0])][itr := WList(cs[1..])]))
  }

  function Compared(w: World, m: Machine, cmp: Cmp): Machine {
    if |m.stack| < 2 then Abort(m)
    else
      var n := |m.stack|;
      var m' := m.(stack := m.stack[..n - 2]);
      if Compares(cmp, w.compare(m.stack[n - 2], m.stack[n - 1])) then Goto(m') else Backtrack(m')
  }

  function Operated(m: Machine, op: Op): Machine {
    if |m.stack| < 2 then Abort(m)
    else
      var n := |m.stack|;
      var v := Apply(op, m.stack[n - 2], m.stack[n - 1]);
      if v.None? then Abort(m) else Goto(m.(stack := m.stack[..n - 2] + [v.value]))
  }

  function Asked(m: Machine, why: Option<seq<Lit>>): Machine {
    if why.None? then Backtrack(m) else Goto(m.(reason := m.reason + why.value))
  }

  function Values(spec: seq<nat>, regs: Regs): seq<Value> {
    seq(|spec|, i requires 0 <= i < |spec| => ValueIn(regs, spec[i]))
  }

  // ----- runs -----

  function Steps(w: World, code: Code, m: Machine, n: nat): Machine {
    if n == 0 then m else Step(w, code, Steps(w, code, m, n - 1))
  }

  ghost predicate Reaches(w: World, code: Code, a: Machine, b: Machine) {
    exists n: nat :: Steps(w, code, a, n) == b
  }

  lemma {:induction false} StepsAdd(w: World, code: Code, m: Machine, i: nat, j: nat)
    ensures Steps(w, code, Steps(w, code, m, i), j) == Steps(w, code, m, i + j)
  {
    hide Step;
    if j > 0 {
      StepsAdd(w, code, m, i, j - 1);
      assert i + j - 1 == i + (j - 1);
    }
  }

  lemma ReachTrans(w: World, code: Code, a: Machine, b: Machine, c: Machine)
    requires Reaches(w, code, a, b) && Reaches(w, code, b, c)
    ensures Reaches(w, code, a, c)
  {
    hide Step;
    var i: nat :| Steps(w, code, a, i) == b;
    var j: nat :| Steps(w, code, b, j) == c;
    StepsAdd(w, code, a, i, j);
    assert Steps(w, code, a, i + j) == c;
  }

  lemma OneStep(w: World, code: Code, m: Machine)
    ensures Reaches(w, code, m, Step(w, code, m)) && Reaches(w, code, m, m)
  {
    hide Step;
    assert Steps(w, code, m, 0) == m;
    assert Steps(w, code, m, 1) == Step(w, code, Steps(w, code, m, 0));
  }

  // The code at a position.
  ghost predicate CodeAt(code: Code, ip: nat, part: Code) {
    ip + |part| <= |code| && code[ip..ip + |part|] == part
  }

  lemma CodeSplit(code: Code, ip: nat, a: Code, b: Code)
    requires CodeAt(code, ip, a + b)
    ensures CodeAt(code, ip, a) && CodeAt(code, ip + |a|, b)
    ensures |a| > 0 ==> ip < |code| && code[ip] == a[0]
  {
    var part := code[ip..ip + |a + b|];
    assert part[..|a|] == a && part[|a|..] == b;
    assert code[ip..ip + |a|] == part[..|a|];
    assert code[ip + |a|..ip + |a| + |b|] == part[|a|..];
    assert |a| > 0 ==> code[ip..ip + |a|][0] == code[ip];
  }

  // ----- evaluating expressions -----

  // The run was given up after telling no more than `told`.
  ghost predicate GaveUp(w: World, code: Code, m: Machine, told: seq<Told>) {
    exists m' :: Reaches(w, code, m, m') && m'.status == Aborted && m'.told == told
  }

  lemma GiveUpLater(w: World, code: Code, a: Machine, b: Machine, told: seq<Told>)
    requires Reaches(w, code, a, b) && GaveUp(w, code, b, told)
    ensures GaveUp(w, code, a, told)
  {
    hide Reaches;
    var m' :| Reaches(w, code, b, m') && m'.status == Aborted && m'.told == told;
    ReachTrans(w, code, a, b, m');
  }

  lemma PushStep(w: World, code: Code, m: Machine, t: Term, cxt: Cxt, env: Env)
    requires m.status == Running && Knows(cxt, env, m.regs) && !t.TBin?
    requires ExprCode(t, cxt.info).Some? && CodeAt(code, m.ip, ExprCode(t, cxt.info).value)
    ensures Eval(t, env).Some?
    ensures Reaches(w, code, m, m.(ip := m.ip + |ExprCode(t, cxt.info).value|, stack := m.stack + [Eval(t, env).value]))
  {
    hide Reaches;
    CodeSplit(code, m.ip, ExprCode(t, cxt.info).value, []);
    OneStep(w, code, m);
  }

  lemma OpStep(w: World, code: Code, m: Machine, op: Op, a: Value, b: Value)
    requires m.status == Running && CodeAt(code, m.ip, [EvalOp(op)])
    ensures var m2 := m.(stack := m.stack + [a] + [b]);
      && (Apply(op, a, b).Some? ==>
            Reaches(w, code, m2, m.(ip := m.ip + 1, stack := m.stack + [Apply(op, a, b).value])))
      && (Apply(op, a, b).None? ==> GaveUp(w, code, m2, m.told))
  {
    hide Reaches;
    CodeSplit(code, m.ip, [EvalOp(op)], []);
    var m2 := m.(stack := m.stack + [a] + [b]);
    assert m2.stack[..|m2.stack| - 2] == m.stack;
    OneStep(w, code, m2);
  }

  // The stack code of an expression pushes its value, or the run is given up.
  lemma {:induction false} ExprRuns(w: World, code: Code, m: Machine, t: Term, cxt: Cxt, env: Env)
    requires m.status == Running && Knows(cxt, env, m.regs)
    requires ExprCode(t, cxt.info).Some? && CodeAt(code, m.ip, ExprCode(t, cxt.info).value)
    ensures Eval(t, env).Some? ==>
      Reaches(w, code, m, m.(ip := m.ip + |ExprCode(t, cxt.info).value|, stack := m.stack + [Eval(t, env).value]))
    ensures Eval(t, env).None? ==> GaveUp(w, code, m, m.told)
    decreases t
  {
    hide Step, Reaches, Knows, CodeAt, Apply, GaveUp;
    if !t.TBin? {
      PushStep(w, code, m, t, cxt, env);
    } else {
      var TBin(op, l, r) := t;
      var a, b := ExprCode(l, cxt.info).value, ExprCode(r, cxt.info).value;
      assert a + b + [EvalOp(op)] == a + (b + [EvalOp(op)]);
      CodeSplit(code, m.ip, a, b + [EvalOp(op)]);
      CodeSplit(code, m.ip + |a|, b, [EvalOp(op)]);
      ExprRuns(w, code, m, l, cxt, env);
      if Eval(l, env).Some? {
        var m1 := m.(ip := m.ip + |a|, stack := m.stack + [Eval(l, env).value]);
        ExprRuns(w, code, m1, r, cxt, env);
        if Eval(r, env).Some? {
          var m2 := m1.(ip := m1.ip + |b|, stack := m1.stack + [Eval(r, env).value]);
          ReachTrans(w, code, m, m1, m2);
          var m0 := m.(ip := m.ip + |a| + |b|);
          OpStep(w, code, m0, op, Eval(l, env).value, Eval(r, env).value);
          assert m2 == m0.(stack := m0.stack + [Eval(l, env).value] + [Eval(r, env).value]);
          if Eval(t, env).Some? {
            ReachTrans(w, code, m, m2, m.(ip := m.ip + |a| + |b| + 1, stack := m.stack + [Eval(t, env).value]));
          } else {
            GiveUpLater(w, code, m, m2, m.told);
          }
        } else {
          GiveUpLater(w, code, m, m1, m.told);
        }
      }
    }
  }

  // ----- what a stretch of code does -----

  // The last choicepoint keeps a part of the present reason.
  ghost predicate Anchored(m: Machine) {
    m.status == Running && m.stack == [] && (|m.choices| > 0 ==> m.choices[|m.choices| - 1].sp <= |m.reason|)
  }

  // The machine came back to the last choicepoint of m, or stopped if there
  // is none; registers below k are as they were.
  ghost predicate Returned(m: Machine, m': Machine, k: nat) {
    && Same(m.regs, m'.regs, k) && m'.stack == []
    && var n := |m.choices|;
    if n == 0 then m'.status == Halted
    else
      && m'.status == Running && m'.ip == m.choices[n - 1].ip && m'.choices == m.choices[..n - 1]
      && m.choices[n - 1].sp <= |m.reason| && m'.reason == m.reason[..m.choices[n - 1].sp]
  }

  // From m the machine tells what the outcome says, and returns or gives up.
  ghost predicate Does(w: World, code: Code, m: Machine, o: Outcome, k: nat) {
    if o.ok then exists m' :: Reaches(w, code, m, m') && m'.told == m.told + o.told && Returned(m, m', k)
    else GaveUp(w, code, m, m.told + o.told)
  }

  // Registers that were not in use, and the told list, do not matter.
  lemma DoesLater(w: World, code: Code, m: Machine, m1: Machine, o: Outcome, k: nat, k1: nat)
    requires Reaches(w, code, m, m1) && Does(w, code, m1, o, k1) && k <= k1
    requires m1.choices == m.choices && m1.reason == m.reason && Same(m.regs, m1.regs, k) && m1.told == m.told
    ensures Does(w, code, m, o, k)
  {
    hide Reaches;
    if o.ok {
      var m' :| Reaches(w, code, m1, m') && m'.told == m1.told + o.told && Returned(m1, m', k1);
      ReachTrans(w, code, m, m1, m');
      SameTrans(m.regs, m1.regs, m'.regs, k, k1);
      assert Returned(m, m', k);
    } else {
      GiveUpLater(w, code, m, m1, m.told + o.told);
    }
  }

  lemma GivesUp(w: World, code: Code, m: Machine, k: nat)
    requires GaveUp(w, code, m, m.told)
    ensures Does(w, code, m, Outcome([], false), k)
  {
    hide Reaches;
    assert m.told + [] == m.told;
  }

  // Stepping back without telling anything.
  lemma BacktrackDoes(w: World, code: Code, m: Machine, m1: Machine, k: nat)
    requires Anchored(m) && Reaches(w, code, m, m1) && m1 == Backtrack(m)
    ensures Does(w, code, m, Outcome([], true), k)
  {
    hide Reaches;
    assert m1.told == m.told + [];
    assert Returned(m, m1, k);
  }

  // ----- known arguments -----

  // One more term in one more register.
  lemma KnowsMore(cxt: Cxt, env: Env, regs: Regs, t: Term, v: Value)
    requires Knows(cxt, env, regs) && !t.TBin? && Eval(t, env) == Some(v) && cxt.reg > 0
    ensures Knows(Cxt(cxt.info[t := cxt.reg], cxt.reg + 1), env, regs[cxt.reg := WVal(v)])
  {
  }

  // Specification entry r for argument t.
  ghost predicate SpecIs(t: Term, r: nat, limit: nat, env: Env, regs: Regs) {
    if Eval(t, env).None? then r == 0
    else 0 < r < limit && r in regs && regs[r] == WVal(Eval(t, env).value)
  }

  ghost predicate AllSpec(args: seq<Term>, spec: seq<nat>, limit: nat, env: Env, regs: Regs) {
    |spec| <= |args| && forall i :: 0 <= i < |spec| ==> SpecIs(args[i], spec[i], limit, env, regs)
  }

  // Specification entries do not change when more registers come into use,
  // and one more can be added.
  lemma SpecMore(args: seq<Term>, spec: seq<nat>, r: nat, limit: nat, limit': nat, env: Env, regs: Regs, regs': Regs)
    requires AllSpec(args, spec, limit, env, regs) && |spec| < |args| && limit <= limit' && Same(regs, regs', limit)
    requires SpecIs(args[|spec|], r, limit', env, regs')
    ensures AllSpec(args, spec + [r], limit', env, regs')
  {
  }

  lemma SpecKept(args: seq<Term>, spec: seq<nat>, limit: nat, limit': nat, env: Env, regs: Regs, regs': Regs)
    requires AllSpec(args, spec, limit, env, regs) && limit <= limit' && Same(regs, regs', limit)
    ensures AllSpec(args, spec, limit', env, regs')
  {
  }

  // The machine after a stretch of code that only fills registers.
  function Filled(m: Machine, n: nat, regs: Regs): Machine {
    m.(ip := m.ip + n, regs := regs)
  }

  lemma KnownTerm(cxt: Cxt, env: Env, regs: Regs, t: Term)
    requires Knows(cxt, env, regs) && !t.TBin?
    ensures t in cxt.info ==> SpecIs(t, cxt.info[t], cxt.reg, env, regs)
    ensures t !in cxt.info && t.TVar? ==> SpecIs(t, 0, cxt.reg, env, regs)
  {
  }

  lemma GetValRuns(w: World, code: Code, m: Machine, cxt: Cxt, env: Env, t: Term) returns (m': Machine)
    requires m.status == Running && Knows(cxt, env, m.regs) && t.TVal? && cxt.reg > 0
    requires CodeAt(code, m.ip, [GetVal(cxt.reg, t.v)])
    ensures Reaches(w, code, m, m') && m' == Filled(m, 1, m.regs[cxt.reg := WVal(t.v)])
    ensures Same(m.regs, m'.regs, cxt.reg) && SpecIs(t, cxt.reg, cxt.reg + 1, env, m'.regs)
    ensures Knows(Cxt(cxt.info[t := cxt.reg], cxt.reg + 1), env, m'.regs)
  {
    hide Reaches, Knows;
    CodeSplit(code, m.ip, [GetVal(cxt.reg, t.v)], []);
    OneStep(w, code, m);
    KnowsMore(cxt, env, m.regs, t, t.v);
    m' := Filled(m, 1, m.regs[cxt.reg := WVal(t.v)]);
  }

  // After the code of a specification its entries describe the arguments.
  ghost predicate SpecDone(args: seq<Term>, n: nat, cxt: Cxt, env: Env, m: Machine, m': Machine)
    requires n <= |args|
  {
    var s := SpecCode(args, n, cxt);
    && m' == Filled(m, |s.code|, m'.regs) && cxt.reg <= s.cxt.reg && Same(m.regs, m'.regs, cxt.reg)
    && Knows(s.cxt, env, m'.regs) && AllSpec(args, s.spec, s.cxt.reg, env, m'.regs)
  }

  lemma SpecNone(args: seq<Term>, cxt: Cxt, env: Env, m: Machine)
    requires Knows(cxt, env, m.regs)
    ensures SpecDone(args, 0, cxt, env, m, m)
  {
  }

  lemma SpecKnown(args: seq<Term>, n: nat, cxt: Cxt, env: Env, m: Machine, m': Machine)
    requires 0 < n <= |args| && SpecDone(args, n - 1, cxt, env, m, m') && !args[n - 1].TBin?
    requires var b := SpecCode(args, n - 1, cxt); args[n - 1] in b.cxt.info || args[n - 1].TVar?
    ensures SpecDone(args, n, cxt, env, m, m')
  {
    hide Knows, AllSpec, SpecIs, Same;
    var b := SpecCode(args, n - 1, cxt);
    KnownTerm(b.cxt, env, m'.regs, args[n - 1]);
    SameSelf(m'.regs, b.cxt.reg);
    SpecMore(args, b.spec, if args[n - 1] in b.cxt.info then b.cxt.info[args[n - 1]] else 0, b.cxt.reg, b.cxt.reg, env,
             m'.regs, m'.regs);
  }

  lemma SpecValue(w: World, code: Code, args: seq<Term>, n: nat, cxt: Cxt, env: Env, m: Machine, m1: Machine)
      returns (m': Machine)
    requires 0 < n <= |args| && SpecDone(args, n - 1, cxt, env, m, m1) && args[n - 1].TVal? && cxt.reg > 0
    requires m1.status == Running && args[n - 1] !in SpecCode(args, n - 1, cxt).cxt.info
    requires CodeAt(code, m1.ip, [GetVal(SpecCode(args, n - 1, cxt).cxt.reg, args[n - 1].v)])
    ensures Reaches(w, code, m1, m') && SpecDone(args, n, cxt, env, m, m')
  {
    hide Step, Reaches, CodeAt, Knows, AllSpec, SpecIs, Same;
    var b := SpecCode(args, n - 1, cxt);
    m' := GetValRuns(w, code, m1, b.cxt, env, args[n - 1]);
    SameTrans(m.regs, m1.regs, m'.regs, cxt.reg, b.cxt.reg);
    SpecMore(args, b.spec, b.cxt.reg, b.cxt.reg, b.cxt.reg + 1, env, m1.regs, m'.regs);
  }

  lemma {:induction false} SpecRuns(w: World, code: Code, m: Machine, args: seq<Term>, n: nat, cxt: Cxt, env: Env)
      returns (m': Machine)
    requires m.status == Running && Knows(cxt, env, m.regs) && n <= |args| && Flat(args) && cxt.reg > 0
    requires CodeAt(code, m.ip, SpecCode(args, n, cxt).code)
    ensures Reaches(w, code, m, m') && SpecDone(args, n, cxt, env, m, m')
  {
    hide Step, Reaches, CodeAt, Knows, AllSpec, SpecIs, Same;
    if n == 0 {
      OneStep(w, code, m);
      m' := m;
      SpecNone(args, cxt, env, m);
    } else {
      var b := SpecCode(args, n - 1, cxt);
      var t := args[n - 1];
      if t !in b.cxt.info && t.TVal? {
        CodeSplit(code, m.ip, b.code, [GetVal(b.cxt.reg, t.v)]);
        var m1 := SpecRuns(w, code, m, args, n - 1, cxt, env);
        m' := SpecValue(w, code, args, n, cxt, env, m, m1);
        ReachTrans(w, code, m, m1, m');
      } else {
        m' := SpecRuns(w, code, m, args, n - 1, cxt, env);
        SpecKnown(args, n, cxt, env, m, m');
      }
    }
  }
}
