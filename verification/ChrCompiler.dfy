// The compiler of one occurrence of a propagation rule, which appends to an
// instruction buffer and a context (solver_chr.c).
module ChrCompiler {
  import opened Wrappers
  import opened ChrRule
  import opened ChrCode

  const MAX_INSTRS: nat := 4096
  const MAX_REG: nat := 255

  // The words an instruction takes.
  function Words(i: Instr): (n: nat)
    ensures 2 <= n <= 5
  {
    match i
    case Retry(_) | Push(_) | PushVal(_) | Pop(_) | EvalCmp(_) | EvalOp(_) => 2
    case Equal(_, _) | EqualVal(_, _) | GetVal(_, _) => 3
    case Get(_, _, _) | Lookup(_, _, _) | Prop(_, _, _) => 4
    case Next(_, _, _, _) => 5
  }

  class Compiler {
    var instrs: Code
    var len: nat
    var info: map<Term, nat>
    var reg: nat

    constructor ()
      ensures instrs == [] && len == 0
    {
      instrs, len, info, reg := [], 0, map[], 0;
    }

    function Known(): Cxt
      reads this
    {
      Cxt(info, reg)
    }

    // No room for one more register, or not for every instruction.
    predicate Full()
      reads this
    {
      reg >= MAX_REG || len + 5 >= MAX_INSTRS
    }

    // The buffer has the code appended, and the context is this one.
    twostate predicate Wrote(code: Code, cxt: Cxt)
      reads this
    {
      instrs == old(instrs) + code && Known() == cxt
    }

    method PushInstr(i: Instr) returns (ok: bool)
      modifies this`instrs, this`len
      ensures ok <==> old(len) + Words(i) < MAX_INSTRS
      ensures if ok then Wrote([i], old(Known())) && len == old(len) + Words(i) else unchanged(this) && Full()
    {
      ok := len + Words(i) < MAX_INSTRS;
      if ok {
        instrs, len := instrs + [i], len + Words(i);
      }
    }

    method MakeReg() returns (ok: bool, r: nat)
      modifies this`reg
      ensures r == old(reg) && (ok <==> old(reg) < MAX_REG)
      ensures if ok then reg == old(reg) + 1 else unchanged(this) && Full()
    {
      ok, r := reg < MAX_REG, reg;
      if ok {
        reg := reg + 1;
      }
    }

    // A fresh register and the instruction that fills it; the term is then known.
    method Fresh(t: Term, i: Instr) returns (ok: bool)
      requires (i.GetVal? && i.dest == reg) || (i.Get? && i.dest == reg) || i == Pop(reg)
      modifies this
      ensures if ok then Wrote([i], Cxt(old(info)[t := old(reg)], old(reg) + 1)) else Full()
    {
      var r;
      ok, r := MakeReg();
      if ok {
        ok := PushInstr(i);
        if ok {
          info := info[t := r];
        }
      }
    }

    method CompileActive(args: seq<Term>) returns (ok: bool)
      requires Flat(args)
      modifies this
      ensures if ok then Wrote(ActiveCode(args, |args|).code, ActiveCode(args, |args|).cxt) else Full()
    {
      info, reg := map[], |args| + 1;
      var i := 0;
      ok := true;
      while i < |args|
        invariant 0 <= i <= |args| && Wrote(ActiveCode(args, i).code, ActiveCode(args, i).cxt)
      {
        var t := args[i];
        if t.TVal? {
          ok := PushInstr(EqualVal(i + 1, t.v));
        } else if t in info {
          ok := PushInstr(Equal(i + 1, info[t]));
        } else {
          info := info[t := i + 1];
        }
        if !ok { return; }
        i := i + 1;
      }
    }

    // The registers of the known arguments; 0 for the others.
    method CompileSpec(args: seq<Term>) returns (ok: bool, spec: seq<nat>)
      modifies this
      ensures if ok then
          var s := SpecCode(args, |args|, old(Known()));
          Wrote(s.code, s.cxt) && spec == s.spec
        else Full()
    {
      var i := 0;
      ok, spec := true, [];
      assert instrs == instrs + [];
      while i < |args|
        invariant 0 <= i <= |args|
        invariant var s := SpecCode(args, i, old(Known())); Wrote(s.code, s.cxt) && spec == s.spec
      {
        var t := args[i];
        ghost var s := SpecCode(args, i, old(Known()));
        if t in info {
          spec := spec + [info[t]];
        } else if t.TVal? {
          spec := spec + [reg];
          ok := Fresh(t, GetVal(reg, t.v));
          if !ok { return; }
          assert old(instrs) + s.code + [GetVal(s.cxt.reg, t.v)] == old(instrs) + (s.code + [GetVal(s.cxt.reg, t.v)]);
        } else {
          spec := spec + [0];
        }
        i := i + 1;
      }
    }

    method CompileFetch(args: seq<Term>, spec: seq<nat>, cons: nat) returns (ok: bool)
      requires |spec| == |args|
      modifies this
      ensures if ok then
          var f := FetchCode(args, spec, |args|, cons, old(Known()));
          Wrote(f.code, f.cxt)
        else Full()
    {
      var i := 0;
      ok := true;
      assert instrs == instrs + [];
      while i < |args|
        invariant 0 <= i <= |args|
        invariant var f := FetchCode(args, spec, i, cons, old(Known())); Wrote(f.code, f.cxt)
      {
        if spec[i] == 0 {
          ghost var f := FetchCode(args, spec, i, cons, old(Known()));
          ok := Fresh(args[i], Get(cons, i, reg));
          if !ok { return; }
          assert old(instrs) + f.code + [Get(cons, i, f.cxt.reg)] == old(instrs) + (f.code + [Get(cons, i, f.cxt.reg)]);
        }
        i := i + 1;
      }
    }

    method CompilePartner(h: Atom) returns (ok: bool)
      modifies this
      ensures if ok then Wrote(PartnerCode(h, old(Known())).code, PartnerCode(h, old(Known())).cxt) else Full()
    {
      hide SpecCode, FetchCode;
      var spec, itr, c;
      ok, spec := CompileSpec(h.args);
      if !ok { return; }
      ghost var s := SpecCode(h.args, |h.args|, old(Known()));
      ok, itr := MakeReg();
      if !ok { return; }
      ok := PushInstr(Lookup(h.sym, spec, itr));
      if !ok { return; }
      ok, c := MakeReg();
      if !ok { return; }
      ok := PushInstr(Next(itr, c, h.sign, spec));
      if !ok { return; }
      label Head:
      ok := CompileFetch(h.args, spec, c);
      if !ok { return; }
      ghost var f := FetchCode(h.args, spec, |h.args|, c, old@Head(Known()));
      ghost var two := [Lookup(h.sym, s.spec, itr), Next(itr, c, h.sign, s.spec)];
      assert old(instrs) + s.code + [two[0]] + [two[1]] + f.code == old(instrs) + (s.code + two + f.code);
    }

    method CompileExpr(t: Term) returns (ok: bool)
      modifies this`instrs, this`len
      ensures ok ==> ExprCode(t, info).Some? && instrs == old(instrs) + ExprCode(t, info).value
      ensures !ok ==> ExprCode(t, info).None? || Full()
      decreases t
    {
      if t.TVar? {
        ok := t in info;
        if ok {
          ok := PushInstr(Push(info[t]));
        }
      } else if t.TVal? {
        ok := PushInstr(PushVal(t.v));
      } else {
        ok := CompileExpr(t.l);
        if !ok { return; }
        ok := CompileExpr(t.r);
        if !ok { return; }
        ok := PushInstr(EvalOp(t.op));
        ghost var a, b := ExprCode(t.l, info).value, ExprCode(t.r, info).value;
        assert old(instrs) + a + b + [EvalOp(t.op)] == old(instrs) + (a + b + [EvalOp(t.op)]);
      }
    }

    method CompileCompare(cmp: Cmp, l: Term, r: Term) returns (ok: bool)
      modifies this`instrs, this`len
      ensures ok ==> CompareCode(cmp, l, r, info).Some? && instrs == old(instrs) + CompareCode(cmp, l, r, info).value
      ensures !ok ==> CompareCode(cmp, l, r, info).None? || Full()
    {
      ok := CompileExpr(l);
      if !ok { return; }
      ok := CompileExpr(r);
      if !ok { return; }
      ok := PushInstr(EvalCmp(cmp));
      ghost var a, b := ExprCode(l, info).value, ExprCode(r, info).value;
      assert old(instrs) + a + b + [EvalCmp(cmp)] == old(instrs) + (a + b + [EvalCmp(cmp)]);
    }

    method CompileGuard(g: Guard) returns (ok: bool)
      modifies this
      ensures ok ==> GuardCode(g, old(Known())).Some?
      ensures ok ==> Wrote(GuardCode(g, old(Known())).value.code, GuardCode(g, old(Known())).value.cxt)
      ensures !ok ==> GuardCode(g, old(Known())).None? || Full()
    {
      if g.Test? {
        ok := CompileCompare(g.cmp, g.l, g.r);
      } else if TVar(g.x) in info {
        ok := CompileCompare(CmpEq, TVar(g.x), g.e);
      } else {
        ok := CompileExpr(g.e);
        if !ok { return; }
        ghost var c := ExprCode(g.e, info).value;
        ok := Fresh(TVar(g.x), Pop(reg));
        if !ok { return; }
        assert old(instrs) + c + [Pop(old(reg))] == old(instrs) + (c + [Pop(old(reg))]);
      }
    }

    method CompileBody(b: Atom) returns (ok: bool)
      modifies this
      ensures ok ==> BodyCode(b, old(Known())).Some?
      ensures ok ==> Wrote(BodyCode(b, old(Known())).value.code, BodyCode(b, old(Known())).value.cxt)
      ensures !ok ==> BodyCode(b, old(Known())).None? || Full()
    {
      var spec;
      ok, spec := CompileSpec(b.args);
      if !ok { return; }
      ghost var s := SpecCode(b.args, |b.args|, old(Known()));
      ok := 0 !in spec;
      if !ok { return; }
      ok := PushInstr(Prop(b.sign, b.sym, spec));
      if !ok { return; }
      assert old(instrs) + s.code + [Prop(b.sign, b.sym, spec)] == old(instrs) + (s.code + [Prop(b.sign, b.sym, spec)]);
    }

    // The bodies, and the last instruction.
    method CompileBodies(r: Rule) returns (ok: bool)
      modifies this
      ensures ok ==> FromBody(r, 0, old(Known())).Some? && instrs == old(instrs) + FromBody(r, 0, old(Known())).value
      ensures !ok ==> FromBody(r, 0, old(Known())).None? || Full()
    {
      ghost var all := FromBody(r, 0, Known());
      var i := 0;
      ok := true;
      while i < |r.body|
        invariant 0 <= i <= |r.body| && Continues(all, old(instrs), instrs, FromBody(r, i, Known()))
      {
        ghost var now, cxt := instrs, Known();
        ok := CompileBody(r.body[i]);
        if !ok { return; }
        i := i + 1;
        ContinuesOn(all, old(instrs), now, FromBody(r, i - 1, cxt), BodyCode(r.body[i - 1], cxt).value.code,
                    FromBody(r, i, Known()));
      }
      ghost var now := instrs;
      ok := PushInstr(Retry(1));
      assert Some([Retry(1)]) == FromBody(r, i, Known());
    }

    // The guards, and all that follows.
    method CompileGuards(r: Rule) returns (ok: bool)
      modifies this
      ensures ok ==> FromGuard(r, 0, old(Known())).Some? && instrs == old(instrs) + FromGuard(r, 0, old(Known())).value
      ensures !ok ==> FromGuard(r, 0, old(Known())).None? || Full()
    {
      ghost var all := FromGuard(r, 0, Known());
      var i := 0;
      ok := true;
      while i < |r.guards|
        invariant 0 <= i <= |r.guards| && Continues(all, old(instrs), instrs, FromGuard(r, i, Known()))
      {
        ghost var now, cxt := instrs, Known();
        ok := CompileGuard(r.guards[i]);
        if !ok { return; }
        i := i + 1;
        ContinuesOn(all, old(instrs), now, FromGuard(r, i - 1, cxt), GuardCode(r.guards[i - 1], cxt).value.code,
                    FromGuard(r, i, Known()));
      }
      ok := CompileBodies(r);
    }

    // The partners, and all that follows.
    method CompilePartners(r: Rule) returns (ok: bool)
      modifies this
      ensures ok ==>
            FromPartner(r, 0, old(Known())).Some? && instrs == old(instrs) + FromPartner(r, 0, old(Known())).value
      ensures !ok ==> FromPartner(r, 0, old(Known())).None? || Full()
    {
      ghost var all := FromPartner(r, 0, Known());
      var i := 0;
      ok := true;
      while i < |r.partners|
        invariant 0 <= i <= |r.partners| && Continues(all, old(instrs), instrs, FromPartner(r, i, Known()))
      {
        ghost var now, cxt := instrs, Known();
        ok := CompilePartner(r.partners[i]);
        if !ok { return; }
        i := i + 1;
        ContinuesOn(all, old(instrs), now, FromPartner(r, i - 1, cxt), PartnerCode(r.partners[i - 1], cxt).code,
                    FromPartner(r, i, Known()));
      }
      ok := CompileGuards(r);
    }

    // One occurrence. It fails only when a variable is not bound where it is
    // needed, or when there are too many registers or instructions.
    method CompileOcc(r: Rule) returns (ok: bool)
      requires FlatRule(r) && instrs == []
      modifies this
      ensures ok ==> RuleCode(r) == Some(instrs)
      ensures !ok ==> RuleCode(r).None? || Full()
    {
      ok := CompileActive(r.active.args);
      if !ok { return; }
      assert instrs == ActiveCode(r.active.args, |r.active.args|).code;
      ok := CompilePartners(r);
    }
  }

  // Compiling `all` after `was` comes down to compiling `rest` after `now`.
  ghost predicate Continues(all: Option<Code>, was: Code, now: Code, rest: Option<Code>) {
    if rest.None? then all.None? else all.Some? && was + all.value == now + rest.value
  }

  lemma ContinuesOn(all: Option<Code>, was: Code, now: Code, rest: Option<Code>, part: Code, rest': Option<Code>)
    requires Continues(all, was, now, rest)
    requires rest == if rest'.None? then None else Some(part + rest'.value)
    ensures Continues(all, was, now + part, rest')
  {
    if rest'.Some? {
      assert now + part + rest'.value == now + (part + rest'.value);
    }
  }
}
