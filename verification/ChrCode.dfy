// The code compiled for one occurrence of a rule (solver_chr.c).
module ChrCode {
  import opened Wrappers
  import opened ChrRule

  // Register 0 holds the active constraint and the next ones its arguments;
  // in a specification, 0 stands for an argument that is not known.
  datatype Instr =
    | Get(cons: nat, idx: nat, dest: nat)
    | GetVal(dest: nat, val: Value)
    | Lookup(sym: nat, spec: seq<nat>, dest: nat)
    | Next(itr: nat, dest: nat, sign: bool, spec: seq<nat>)
    | Equal(r1: nat, r2: nat)
    | EqualVal(r1: nat, val: Value)
    | Prop(sign: bool, sym: nat, spec: seq<nat>)
    | Retry(n: nat)
    | Push(r1: nat)
    | PushVal(val: Value)
    | Pop(r1: nat)
    | EvalCmp(cmp: Cmp)
    | EvalOp(op: Op)

  type Code = seq<Instr>

  // Which register holds which term, and the next free register.
  datatype Cxt = Cxt(info: map<Term, nat>, reg: nat)

  // Head and body arguments are variables and values.
  predicate Flat(args: seq<Term>) {
    forall i :: 0 <= i < |args| ==> !args[i].TBin?
  }

  predicate FlatRule(r: Rule) {
    && Flat(r.active.args)
    && (forall i :: 0 <= i < |r.partners| ==> Flat(r.partners[i].args))
    && (forall i :: 0 <= i < |r.body| ==> Flat(r.body[i].args))
  }

  // ----- the active constraint -----

  datatype Compiled = Compiled(code: Code, cxt: Cxt)

  function ActiveCode(args: seq<Term>, n: nat): Compiled
    requires n <= |args|
  {
    if n == 0 then Compiled([], Cxt(map[], |args| + 1))
    else
      var b := ActiveCode(args, n - 1);
      var t := args[n - 1];
      if t.TVar? then
        if t in b.cxt.info then b.(code := b.code + [Equal(n, b.cxt.info[t])])
        else b.(cxt := b.cxt.(info := b.cxt.info[t := n]))
      else if t.TVal? then b.(code := b.code + [EqualVal(n, t.v)])
      else b
  }

  // ----- partners -----

  datatype Specified = Specified(code: Code, cxt: Cxt, spec: seq<nat>)

  // The registers of the known arguments; a value gets a register of its own.
  function SpecCode(args: seq<Term>, n: nat, cxt: Cxt): (s: Specified)
    requires n <= |args|
    ensures |s.spec| == n
  {
    if n == 0 then Specified([], cxt, [])
    else
      var b := SpecCode(args, n - 1, cxt);
      var t := args[n - 1];
      if t in b.cxt.info then b.(spec := b.spec + [b.cxt.info[t]])
      else if t.TVal? then
        var reg := b.cxt.reg;
        Specified(b.code + [GetVal(reg, t.v)], Cxt(b.cxt.info[t := reg], reg + 1), b.spec + [reg])
      else b.(spec := b.spec + [0])
  }

  // Fetch the arguments that were not known.
  function FetchCode(args: seq<Term>, spec: seq<nat>, n: nat, cons: nat, cxt: Cxt): Compiled
    requires n <= |args| == |spec|
  {
    if n == 0 then Compiled([], cxt)
    else
      var b := FetchCode(args, spec, n - 1, cons, cxt);
      if spec[n - 1] != 0 then b
      else
        var reg := b.cxt.reg;
        Compiled(b.code + [Get(cons, n - 1, reg)], Cxt(b.cxt.info[args[n - 1] := reg], reg + 1))
  }

  // Look up, iterate, fetch.
  function PartnerCode(h: Atom, cxt: Cxt): Compiled {
    var s := SpecCode(h.args, |h.args|, cxt);
    var itr := s.cxt.reg;
    var f := FetchCode(h.args, s.spec, |h.args|, itr + 1, s.cxt.(reg := itr + 2));
    Compiled(s.code + [Lookup(h.sym, s.spec, itr), Next(itr, itr + 1, h.sign, s.spec)] + f.code, f.cxt)
  }

  // ----- guards -----

  // Stack code for an expression; None when a variable is not bound.
  function ExprCode(t: Term, info: map<Term, nat>): Option<Code> {
    match t
    case TVar(_) => if t in info then Some([Push(info[t])]) else None
    case TVal(v) => Some([PushVal(v)])
    case TBin(op, l, r) =>
      var a := ExprCode(l, info);
      var b := ExprCode(r, info);
      if a.None? || b.None? then None else Some(a.value + b.value + [EvalOp(op)])
  }

  function CompareCode(cmp: Cmp, l: Term, r: Term, info: map<Term, nat>): Option<Code> {
    var a := ExprCode(l, info);
    var b := ExprCode(r, info);
    if a.None? || b.None? then None else Some(a.value + b.value + [EvalCmp(cmp)])
  }

  function GuardCode(g: Guard, cxt: Cxt): Option<Compiled> {
    match g
    case Test(cmp, l, r) =>
      var c := CompareCode(cmp, l, r, cxt.info);
      if c.None? then None else Some(Compiled(c.value, cxt))
    case Set(x, e) =>
      if TVar(x) in cxt.info then
        var c := CompareCode(CmpEq, TVar(x), e, cxt.info);
        if c.None? then None else Some(Compiled(c.value, cxt))
      else
        var c := ExprCode(e, cxt.info);
        if c.None? then None
        else Some(Compiled(c.value + [Pop(cxt.reg)], Cxt(cxt.info[TVar(x) := cxt.reg], cxt.reg + 1)))
  }

  // ----- the body -----

  // A body variable must be bound.
  function BodyCode(b: Atom, cxt: Cxt): Option<Compiled> {
    var s := SpecCode(b.args, |b.args|, cxt);
    if 0 in s.spec then None
    else Some(Compiled(s.code + [Prop(b.sign, b.sym, s.spec)], s.cxt))
  }

  // ----- the whole occurrence, from some point on -----

  function FromBody(r: Rule, i: nat, cxt: Cxt): Option<Code>
    requires i <= |r.body|
    decreases |r.body| - i
  {
    if i == |r.body| then Some([Retry(1)])
    else
      var b := BodyCode(r.body[i], cxt);
      if b.None? then None
      else
        var rest := FromBody(r, i + 1, b.value.cxt);
        if rest.None? then None else Some(b.value.code + rest.value)
  }

  function FromGuard(r: Rule, g: nat, cxt: Cxt): Option<Code>
    requires g <= |r.guards|
    decreases |r.guards| - g
  {
    if g == |r.guards| then FromBody(r, 0, cxt)
    else
      var b := GuardCode(r.guards[g], cxt);
      if b.None? then None
      else
        var rest := FromGuard(r, g + 1, b.value.cxt);
        if rest.None? then None else Some(b.value.code + rest.value)
  }

  function FromPartner(r: Rule, i: nat, cxt: Cxt): Option<Code>
    requires i <= |r.partners|
    decreases |r.partners| - i
  {
    if i == |r.partners| then FromGuard(r, 0, cxt)
    else
      var b := PartnerCode(r.partners[i], cxt);
      var rest := FromPartner(r, i + 1, b.cxt);
      if rest.None? then None else Some(b.code + rest.value)
  }

  function RuleCode(r: Rule): Option<Code> {
    var a := ActiveCode(r.active.args, |r.active.args|);
    var rest := FromPartner(r, 0, a.cxt);
    if rest.None? then None else Some(a.code + rest.value)
  }

  // ----- what the context knows -----

  datatype Word = WVal(v: Value) | WCons(c: nat) | WList(cs: seq<nat>)

  type Regs = map<nat, Word>

  // Every register in use holds the value of its term, and the bound
  // variables are the ones with a register.
  ghost predicate Knows(cxt: Cxt, env: Env, regs: Regs) {
    && (forall t :: t in cxt.info ==> !t.TBin? && 0 < cxt.info[t] < cxt.reg && cxt.info[t] in regs)
    && (forall t :: t in cxt.info ==> Eval(t, env).Some? && regs[cxt.info[t]] == WVal(Eval(t, env).value))
    && (forall x :: x in env ==> TVar(x) in cxt.info)
  }

  // The registers below n are the same.
  ghost predicate Same(a: Regs, b: Regs, n: nat) {
    forall r :: r in a && r < n ==> r in b && b[r] == a[r]
  }

  lemma KnowsSame(cxt: Cxt, env: Env, a: Regs, b: Regs)
    requires Knows(cxt, env, a) && Same(a, b, cxt.reg)
    ensures Knows(cxt, env, b)
  {
  }

  lemma SameSelf(a: Regs, n: nat)
    ensures Same(a, a, n)
  {
  }

  lemma SameTrans(a: Regs, b: Regs, c: Regs, m: nat, n: nat)
    requires Same(a, b, m) && Same(b, c, n) && m <= n
    ensures Same(a, c, m)
  {
  }
}
