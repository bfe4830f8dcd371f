// The interpreter loop (solver_chr.c): registers, choicepoints, reason and
// evaluation stack are updated in place.
module ChrVm {
  import opened Wrappers
  import opened ChrRule
  import opened ChrCode
  import opened ChrMachine
  import opened ChrTheorem

  class Vm {
    var ip: nat
    var regs: Regs
    var choices: seq<Choice>
    var reason: seq<Lit>
    var stack: seq<Value>
    var told: seq<Told>
    var status: Status

    function Now(): Machine
      reads this
    {
      Machine(ip, regs, choices, reason, stack, told, status)
    }

    constructor (active: nat, vals: seq<Value>, why: seq<Lit>)
      ensures Now() == Start(active, vals, why)
    {
      var rs: Regs := map[0 := WCons(active)];
      var i := 0;
      while i < |vals|
        invariant 0 <= i <= |vals| && rs == Load(active, vals, i)
      {
        i := i + 1;
        rs := rs[i := WVal(vals[i - 1])];
      }
      ip, regs, choices, reason, stack, told, status := 0, rs, [], why, [], [], Running;
    }

    // Take the last n choicepoints off and go on from the lowest of them.
    method RetryJump(n: nat)
      requires n > 0
      modifies this
      ensures Now() == if |old(choices)| < n then old(Now()).(status := Halted)
                       else Backtrack(old(Now()).(choices := old(choices)[..|old(choices)| - n + 1]))
    {
      if |choices| < n {
        status := Halted;
      } else {
        var c := choices[|choices| - n];
        choices := choices[..|choices| - n];
        ip := c.ip;
        if c.sp <= |reason| {
          reason := reason[..c.sp];
        }
        assert old(choices)[..|choices| + 1][..|choices|] == choices;
      }
    }

    method Fail()
      modifies this
      ensures Now() == Backtrack(old(Now()))
    {
      assert choices[..|choices|] == choices;
      RetryJump(1);
    }

    // The literals that make the known arguments agree.
    method MatchArgs(w: World, spec: seq<nat>, c: nat) returns (lits: seq<Lit>)
      requires |w.args(c)| == |spec|
      ensures lits == AgreeLits(w, Read(spec, regs), w.args(c), |spec|)
      ensures forall x :: x in lits <==>
        exists i :: 0 <= i < |spec| && spec[i] != 0 && x in w.agree(ValueIn(regs, spec[i]), w.args(c)[i])
    {
      lits := [];
      var i := 0;
      while i < |spec|
        invariant 0 <= i <= |spec| && lits == AgreeLits(w, Read(spec, regs), w.args(c), i)
      {
        if spec[i] != 0 {
          lits := lits + w.agree(ValueIn(regs, spec[i]), w.args(c)[i]);
        }
        i := i + 1;
      }
      AgreeLitsAre(w, Read(spec, regs), w.args(c), |spec|);
    }

    method Iterate(w: World, itr: nat, dest: nat, sign: bool, spec: seq<nat>)
      modifies this
      ensures Now() == Iterated(w, old(Now()), itr, dest, sign, spec)
    {
      var cs := ListIn(regs, itr);
      while cs != [] && !w.live(cs[0], sign)
        invariant Skip(w, cs, sign) == Skip(w, ListIn(regs, itr), sign)
        decreases |cs|
      {
        cs := cs[1..];
      }
      if cs == [] {
        Fail();
      } else {
        choices := choices + [Choice(ip, |reason|)];
        var lits := [];
        if |w.args(cs[0])| == |spec| {
          lits := MatchArgs(w, spec, cs[0]);
        }
        reason := reason + (lits + [w.lit(cs[0], sign)]);
        regs := regs[dest := WCons(cs[0])][itr := WList(cs[1..])];
        ip := ip + 1;
      }
    }

    method Ask(why: Option<seq<Lit>>)
      modifies this
      ensures Now() == Asked(old(Now()), why)
    {
      if why.None? {
        Fail();
      } else {
        reason := reason + why.value;
        ip := ip + 1;
      }
    }

    method Bail()
      modifies this
      ensures Now() == Abort(old(Now()))
    {
      stack, status := [], Aborted;
    }

    method Pop2() returns (ok: bool, a: Value, b: Value)
      modifies this
      ensures ok <==> |old(stack)| >= 2
      ensures if ok then
          var n := |old(stack)|;
          a == old(stack)[n - 2] && b == old(stack)[n - 1] && Now() == old(Now()).(stack := old(stack)[..n - 2])
        else Now() == Abort(old(Now()))
    {
      ok, a, b := |stack| >= 2, Num(0), Num(0);
      if ok {
        a, b := stack[|stack| - 2], stack[|stack| - 1];
        stack := stack[..|stack| - 2];
      } else {
        Bail();
      }
    }

    method EvalCompare(w: World, cmp: Cmp)
      modifies this
      ensures Now() == Compared(w, old(Now()), cmp)
    {
      var ok, a, b := Pop2();
      if ok {
        if Compares(cmp, w.compare(a, b)) {
          ip := ip + 1;
        } else {
          Fail();
        }
      }
    }

    method EvalBinop(op: Op)
      modifies this
      ensures Now() == Operated(old(Now()), op)
    {
      var ok, a, b := Pop2();
      if ok {
        var v := Apply(op, a, b);
        if v.None? {
          Bail();
        } else {
          stack := stack + [v.value];
          ip := ip + 1;
        }
      }
    }

    method Put(dest: nat, v: Word)
      modifies this
      ensures Now() == Goto(old(Now()).(regs := old(regs)[dest := v]))
    {
      regs := regs[dest := v];
      ip := ip + 1;
    }

    method Fetch(w: World, cons: nat, idx: nat, dest: nat)
      modifies this
      ensures var args := w.args(ConsIn(old(regs), cons));
        Now() == Goto(old(Now()).(regs := old(regs)[dest := WVal(if idx < |args| then args[idx] else Num(0))]))
    {
      var args := w.args(ConsIn(regs, cons));
      Put(dest, WVal(if idx < |args| then args[idx] else Num(0)));
    }

    method Tell(sign: bool, sym: nat, spec: seq<nat>)
      modifies this
      ensures Now() == Goto(old(Now()).(told := old(told) + [Told(sign, sym, Values(spec, old(regs)), old(reason))]))
    {
      told := told + [Told(sign, sym, Values(spec, regs), reason)];
      ip := ip + 1;
    }

    method EvalPush(v: Value)
      modifies this
      ensures Now() == Push1(old(Now()), v)
    {
      stack := stack + [v];
      ip := ip + 1;
    }

    method EvalPop(dest: nat)
      modifies this
      ensures Now() == if |old(stack)| == 0 then Abort(old(Now()))
                       else Goto(old(Now()).(regs := old(regs)[dest := WVal(old(stack)[|old(stack)| - 1])],
                                             stack := old(stack)[..|old(stack)| - 1]))
    {
      if |stack| == 0 {
        Bail();
      } else {
        var v := stack[|stack| - 1];
        stack := stack[..|stack| - 1];
        Put(dest, WVal(v));
      }
    }

    // One instruction.
    method Dispatch(w: World, i: Instr)
      modifies this
      ensures Now() == Did(w, i, old(Now()))
    {
      match i
      case Get(cons, idx, dest) => Fetch(w, cons, idx, dest);
      case GetVal(dest, val) => Put(dest, WVal(val));
      case Lookup(sym, spec, dest) => Put(dest, WList(w.lookup(sym, Read(spec, regs))));
      case Next(itr, dest, sign, spec) => Iterate(w, itr, dest, sign, spec);
      case Equal(r1, r2) => Ask(w.ask(ValueIn(regs, r1), ValueIn(regs, r2)));
      case EqualVal(r1, val) => Ask(w.ask(ValueIn(regs, r1), val));
      case Prop(sign, sym, spec) => Tell(sign, sym, spec);
      case Retry(n) => if |choices| < n || n > 0 { RetryJump(n); }
      case Push(r1) => EvalPush(ValueIn(regs, r1));
      case PushVal(val) => EvalPush(val);
      case Pop(r1) => EvalPop(r1);
      case EvalCmp(cmp) => EvalCompare(w, cmp);
      case EvalOp(op) => EvalBinop(op);
    }

    // Run to the end. It comes to an end when the machine does.
    method Run(w: World, code: Code, ghost n: nat)
      requires Steps(w, code, Now(), n).status != Running
      modifies this
      ensures Now() == Steps(w, code, old(Now()), n)
    {
      ghost var k := 0;
      while status == Running && ip < |code|
        invariant k <= n && Now() == Steps(w, code, old(Now()), k)
        decreases n - k
      {
        if k == n { assert false; }
        Dispatch(w, code[ip]);
        k := k + 1;
      }
      StaysPut(w, code, old(Now()), k, n);
    }
  }

  // A machine that cannot go on stays where it is.
  lemma {:induction false} StaysPut(w: World, code: Code, m: Machine, k: nat, n: nat)
    requires k <= n
    requires var s := Steps(w, code, m, k); s.status != Running || s.ip >= |code|
    ensures Steps(w, code, m, n) == Steps(w, code, m, k)
  {
    hide Did;
    if k < n {
      StaysPut(w, code, m, k, n - 1);
    }
  }

  // Running the code of a rule tells what the rule means, in that order.
  method Execute(w: World, code: Code, ghost r: Rule, active: nat, vals: seq<Value>, why: seq<Lit>)
      returns (told: seq<Told>, ok: bool)
    requires WorldOk(w) && FlatRule(r) && |vals| == |r.active.args| && RuleCode(r) == Some(code)
    ensures Outcome(told, ok) == Meaning(w, r, vals, why)
  {
    RuleRuns(w, r, active, vals, why);
    ghost var n := Ends(w, code, Start(active, vals, why), Meaning(w, r, vals, why));
    var vm := new Vm(active, vals, why);
    vm.Run(w, code, n);
    told, ok := vm.told, vm.status == Halted;
  }

  lemma Ends(w: World, code: Code, m: Machine, o: Outcome) returns (n: nat)
    requires Finishes(w, code, m, o)
    ensures var s := Steps(w, code, m, n); s.told == o.told && s.status == if o.ok then Halted else Aborted
  {
    var m' :| Reaches(w, code, m, m') && m'.told == o.told && m'.status == if o.ok then Halted else Aborted;
    n :| Steps(w, code, m, n) == m';
  }
}
