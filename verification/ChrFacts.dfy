// Which rules compile, which tuples of partners fire a rule, and what is made
// of a variable that is repeated in one partner (solver_chr.c).
module ChrFacts {
  import opened Wrappers
  import opened ChrRule
  import opened ChrCode
  import opened ChrMachine
  import opened ChrTheorem

  // ----- a variable repeated in one head -----

  predicate Unbound(t: Term, env: Env) {
    t.TVar? && t.name !in env
  }

  // Every variable bound by the head stands for the argument at each of its
  // places.
  ghost predicate Fits(args: seq<Term>, vals: seq<Value>, env: Env)
    requires |args| == |vals|
  {
    forall i :: 0 <= i < |args| && Unbound(args[i], env) ==>
            Eval(args[i], Bind(args, vals, env, |args|)) == Some(vals[i])
  }

  // No unbound variable comes twice.
  predicate Linear(args: seq<Term>, env: Env) {
    forall i, j :: 0 <= i < j < |args| && Unbound(args[i], env) && Unbound(args[j], env) ==> args[i] != args[j]
  }

  // The last place of a variable counts.
  lemma {:induction false} BindTakesLast(args: seq<Term>, vals: seq<Value>, env: Env, n: nat, i: nat)
      returns (last: nat)
    requires i < n <= |args| == |vals| && Unbound(args[i], env)
    ensures i <= last < n && args[last] == args[i]
    ensures Eval(args[i], Bind(args, vals, env, n)) == Some(vals[last])
    ensures forall j :: last < j < n ==> args[j] != args[i]
  {
    if args[n - 1] == args[i] {
      last := n - 1;
    } else {
      last := BindTakesLast(args, vals, env, n - 1, i);
    }
  }

  // The places of an unbound variable agree.
  ghost predicate PlacesAgree(args: seq<Term>, vals: seq<Value>, env: Env)
    requires |args| == |vals|
  {
    forall i, j :: 0 <= i < j < |args| && Unbound(args[i], env) && args[i] == args[j] ==> vals[i] == vals[j]
  }

  // The places of an unbound variable are not compared with each other: the
  // match is right exactly when they happen to agree.
  lemma FitsWhenEqual(args: seq<Term>, vals: seq<Value>, env: Env)
    requires |args| == |vals|
    ensures Fits(args, vals, env) <==> PlacesAgree(args, vals, env)
  {
    hide Bind;
    if PlacesAgree(args, vals, env) {
      forall i | 0 <= i < |args| && Unbound(args[i], env)
        ensures Eval(args[i], Bind(args, vals, env, |args|)) == Some(vals[i])
      {
        var last := BindTakesLast(args, vals, env, |args|, i);
        assert last == i || vals[i] == vals[last];
      }
    }
    if Fits(args, vals, env) {
      forall i, j | 0 <= i < j < |args| && Unbound(args[i], env) && args[i] == args[j] ensures vals[i] == vals[j] {
        assert Eval(args[i], Bind(args, vals, env, |args|)) == Some(vals[i]);
      }
    }
  }

  // A head is matched rightly whatever the store holds if and only if no
  // unbound variable is repeated in it.
  lemma LinearIffFits(args: seq<Term>, env: Env)
    ensures Linear(args, env) <==> forall vals: seq<Value> :: |vals| == |args| ==> Fits(args, vals, env)
  {
    if Linear(args, env) {
      forall vals: seq<Value> | |vals| == |args| ensures Fits(args, vals, env) {
        FitsWhenEqual(args, vals, env);
      }
    } else {
      var i, j :| 0 <= i < j < |args| && Unbound(args[i], env) && Unbound(args[j], env) && args[i] == args[j];
      var vals := seq(|args|, k => Num(k));
      assert vals[i] != vals[j];
      FitsWhenEqual(args, vals, env);
    }
  }

  // p(X,X) takes p(1,2), with X standing for 2.
  lemma RepeatedVariable()
    ensures var args, vals := [TVar(0), TVar(0)], [Num(1), Num(2)];
      !Fits(args, vals, map[]) && Eval(TVar(0), Bind(args, vals, map[], 2)) == Some(Num(2))
  {
    var args, vals := [TVar(0), TVar(0)], [Num(1), Num(2)];
    var last := BindTakesLast(args, vals, map[], 2, 0);
    assert args[1] == args[0];
    assert last == 1;
    FitsWhenEqual(args, vals, map[]);
    assert args[0] == args[1] && vals[0] != vals[1];
  }

  // q, p(X,X) ==> r(X).
  function RepeatedRule(): Rule {
    Rule(Atom(0, false, []), [Atom(1, false, [TVar(0), TVar(0)])], [], [Atom(2, false, [TVar(0)])])
  }

  // A store whose only constraint for p is p(1,2).
  function OnePair(): World {
    World(
      (c: nat) => [Num(1), Num(2)],
      (sym: nat, p: Pattern) => if sym == 1 && p == [None, None] then [0] else [],
      (c: nat, sign: bool) => true,
      (c: nat, sign: bool) => 7,
      (a: Value, b: Value) => [],
      (a: Value, b: Value) => if a == b then Some([]) else None,
      (a: Value, b: Value) => 0)
  }

  // The compiled rule fires on that store and tells r(2), although no value of
  // X makes p(X,X) one of its constraints.
  lemma RepeatedFires(active: nat, reason: seq<Lit>)
    ensures var w, r := OnePair(), RepeatedRule();
      && WorldOk(w) && FlatRule(r) && RuleCode(r).Some?
      && Finishes(w, RuleCode(r).value, Start(active, [], reason),
                  Outcome([Told(false, 2, [Num(2)], reason + [7])], true))
      && forall x: Value, c: nat :: w.args(c) != [x, x]
  {
    var w, r := OnePair(), RepeatedRule();
    hide Finishes, RuleCode, Start, GuardsBound;
    RepeatedCompiles();
    RepeatedMeaning(reason);
    RuleRuns(w, r, active, [], reason);
  }

  lemma RepeatedCompiles()
    ensures FlatRule(RepeatedRule()) && RuleCode(RepeatedRule()).Some?
  {
    hide RuleCode;
    var r := RepeatedRule();
    assert TVar(0) in r.partners[0].args;
    assert PartnerNames(r, 0) == Names(r.partners[0].args) + PartnerNames(r, 1);
    RuleCompiles(r);
  }

  lemma RepeatedMeaning(reason: seq<Lit>)
    ensures WorldOk(OnePair())
    ensures Meaning(OnePair(), RepeatedRule(), [], reason) == Outcome([Told(false, 2, [Num(2)], reason + [7])], true)
  {
    var w, r := OnePair(), RepeatedRule();
    var h := r.partners[0];
    assert PatternOf(h.args, map[]) == [None, None];
    RepeatedVariable();
    var env := Bind(h.args, w.args(0), map[], 2);
    assert env == map[0 := Num(2)];
    assert PartnerLits(w, h, map[], 0) == [7];
    var reason1 := reason + [7];
    assert ArgsOf(r.body[0].args, env) == [Num(2)];
    assert Body(r.body, env, reason1) == [Told(false, 2, [Num(2)], reason1)];
    assert Guarded(w, r, 0, env, reason1) == Outcome(Body(r.body, env, reason1), true);
    assert Join(w, r, 1, env, reason1) == Guarded(w, r, 0, env, reason1);
    assert JoinOver(w, r, 0, map[], reason, [0][1..]) == Outcome([], true);
    assert JoinOver(w, r, 0, map[], reason, [0]) == Then(Join(w, r, 1, env, reason1), Outcome([], true));
    assert Join(w, r, 0, map[], reason) == JoinOver(w, r, 0, map[], reason, [0]);
    assert reason + [] == reason;
  }

  // ----- the tuples that fire -----

  // The partners cs match heads i and on, ending with these bindings and
  // this reason: the reason at the start, and for each partner the equalities
  // of its known arguments and its own literal.
  ghost predicate Tuple(w: World, r: Rule, i: nat, env: Env, reason: seq<Lit>, cs: seq<nat>, env': Env,
                        reason': seq<Lit>)
    requires WorldOk(w) && i <= |r.partners|
    decreases |r.partners| - i
  {
    if i == |r.partners| then cs == [] && env' == env && reason' == reason
    else
      var h := r.partners[i];
      && cs != [] && cs[0] in w.lookup(h.sym, PatternOf(h.args, env)) && w.live(cs[0], h.sign)
      && |w.args(cs[0])| == |h.args|
      && Tuple(w, r, i + 1, Bind(h.args, w.args(cs[0]), env, |h.args|), reason + PartnerLits(w, h, env, cs[0]),
               cs[1..], env', reason')
  }

  // The bindings with which head i + k meets its partner.
  ghost function EnvBefore(w: World, r: Rule, i: nat, env: Env, cs: seq<nat>, k: nat): Env
    requires i + k <= |r.partners| && k <= |cs|
    decreases k
  {
    if k == 0 then env
    else
      var args, vals := r.partners[i].args, w.args(cs[0]);
      EnvBefore(w, r, i + 1, if |args| == |vals| then Bind(args, vals, env, |args|) else env, cs[1..], k - 1)
  }

  // What partner c of a head explains: that it is there, and that each
  // argument of the head that is known equals its own.
  ghost predicate Explains(w: World, h: Atom, env: Env, c: nat, x: Lit) {
    x == w.lit(c, h.sign) || exists j :: 0 <= j < |h.args| && ExplainsArg(w, h, env, c, j, x)
  }

  ghost predicate ExplainsArg(w: World, h: Atom, env: Env, c: nat, j: nat, x: Lit)
    requires j < |h.args|
  {
    var known := Eval(h.args[j], env);
    known.Some? && j < |w.args(c)| && x in w.agree(known.value, w.args(c)[j])
  }

  // Some partner of the tuple explains x.
  ghost predicate Explained(w: World, r: Rule, i: nat, env: Env, cs: seq<nat>, x: Lit)
    requires i <= |r.partners|
  {
    exists k :: 0 <= k < |cs| && ExplainedBy(w, r, i, env, cs, k, x)
  }

  ghost predicate ExplainedBy(w: World, r: Rule, i: nat, env: Env, cs: seq<nat>, k: nat, x: Lit)
    requires i <= |r.partners| && k < |cs|
  {
    i + k < |r.partners| && Explains(w, r.partners[i + k], EnvBefore(w, r, i, env, cs, k), cs[k], x)
  }

  lemma PartnerExplains(w: World, h: Atom, env: Env, c: nat, x: Lit)
    requires |w.args(c)| == |h.args|
    ensures x in PartnerLits(w, h, env, c) <==> Explains(w, h, env, c, x)
  {
    var p, vals := PatternOf(h.args, env), w.args(c);
    AgreeLitsAre(w, p, vals, |h.args|);
    if i :| 0 <= i < |h.args| && p[i].Some? && x in w.agree(p[i].value, vals[i]) {
      assert ExplainsArg(w, h, env, c, i, x);
    }
    if j :| 0 <= j < |h.args| && ExplainsArg(w, h, env, c, j, x) {
      assert p[j].Some? && x in w.agree(p[j].value, vals[j]);
    }
  }

  lemma ExplainedNext(w: World, r: Rule, i: nat, env: Env, cs: seq<nat>, x: Lit)
    requires i < |r.partners| && cs != [] && |w.args(cs[0])| == |r.partners[i].args|
    ensures var h := r.partners[i];
      Explained(w, r, i, env, cs, x) <==>
      Explains(w, h, env, cs[0], x) || Explained(w, r, i + 1, Bind(h.args, w.args(cs[0]), env, |h.args|), cs[1..], x)
  {
    hide Explains, Bind;
    var h := r.partners[i];
    var env1 := Bind(h.args, w.args(cs[0]), env, |h.args|);
    assert ExplainedBy(w, r, i, env, cs, 0, x) <==> Explains(w, h, env, cs[0], x);
    var n, rest := i + 1, cs[1..];
    if k :| 0 <= k < |rest| && ExplainedBy(w, r, n, env1, rest, k, x) {
      assert r.partners[i + (k + 1)] == r.partners[n + k];
      assert ExplainedBy(w, r, i, env, cs, k + 1, x);
    }
    if k :| 0 <= k < |cs| && ExplainedBy(w, r, i, env, cs, k, x) {
      if k > 0 {
        assert r.partners[n + (k - 1)] == r.partners[i + k];
        assert ExplainedBy(w, r, n, env1, rest, k - 1, x);
      }
    }
  }

  // The reason of a tuple starts with the one it was entered with, and holds
  // besides exactly what the partners explain.
  lemma {:induction false} TupleReason(w: World, r: Rule, i: nat, env: Env, reason: seq<Lit>, cs: seq<nat>, env': Env,
                                       reason': seq<Lit>, x: Lit)
    requires WorldOk(w) && i <= |r.partners| && Tuple(w, r, i, env, reason, cs, env', reason')
    ensures |cs| == |r.partners| - i && reason <= reason'
    ensures x in reason' <==> x in reason || Explained(w, r, i, env, cs, x)
    decreases |r.partners| - i
  {
    hide Explains, EnvBefore, PartnerLits, Explained;
    if i == |r.partners| {
      NoneExplains(w, r, i, env, cs, x);
    } else {
      var h := r.partners[i];
      PartnerExplains(w, h, env, cs[0], x);
      ExplainedNext(w, r, i, env, cs, x);
      TupleReason(w, r, i + 1, Bind(h.args, w.args(cs[0]), env, |h.args|), reason + PartnerLits(w, h, env, cs[0]),
                  cs[1..], env', reason', x);
    }
  }

  lemma NoneExplains(w: World, r: Rule, i: nat, env: Env, cs: seq<nat>, x: Lit)
    requires i <= |r.partners| && cs == []
    ensures !Explained(w, r, i, env, cs, x)
  {
  }

  // What is asked for while the active constraint is matched: that an
  // argument equals what its place in the head is known to be.
  ghost predicate AskedFor(w: World, args: seq<Term>, vals: seq<Value>, j: nat, x: Lit)
    requires j < |args| == |vals|
  {
    var m := MatchActive(w, args, vals, j);
    m.Match? && !Unbound(args[j], m.env) && Eval(args[j], m.env).Some? &&
    w.ask(vals[j], Eval(args[j], m.env).value).Some? && x in w.ask(vals[j], Eval(args[j], m.env).value).value
  }

  lemma {:induction false} ActiveReason(w: World, args: seq<Term>, vals: seq<Value>, n: nat, x: Lit)
    requires n <= |args| == |vals| && MatchActive(w, args, vals, n).Match?
    ensures x in MatchActive(w, args, vals, n).lits <==> exists j :: 0 <= j < n && AskedFor(w, args, vals, j, x)
  {
    if n > 0 {
      ActiveReason(w, args, vals, n - 1, x);
      var m, m' := MatchActive(w, args, vals, n - 1), MatchActive(w, args, vals, n);
      assert x in m'.lits <==> x in m.lits || AskedFor(w, args, vals, n - 1, x);
    }
  }

  // The literals of the reason under which t is told for the partners cs:
  // those at the start, those asked for the active constraint, and what the
  // partners explain.
  ghost predicate RightReason(w: World, r: Rule, vals: seq<Value>, reason: seq<Lit>, cs: seq<nat>, t: Told)
    requires |vals| == |r.active.args| && MatchActive(w, r.active.args, vals, |vals|).Match?
  {
    && reason <= t.reason && |cs| == |r.partners|
    && forall x :: x in t.reason <==>
      || x in reason
      || (exists j :: 0 <= j < |vals| && AskedFor(w, r.active.args, vals, j, x))
      || Explained(w, r, 0, MatchActive(w, r.active.args, vals, |vals|).env, cs, x)
  }

  lemma FiresReason(w: World, r: Rule, vals: seq<Value>, reason: seq<Lit>, cs: seq<nat>, t: Told)
    requires WorldOk(w) && |vals| == |r.active.args| && MatchActive(w, r.active.args, vals, |vals|).Match?
    requires var m := MatchActive(w, r.active.args, vals, |vals|); Fires(w, r, 0, m.env, reason + m.lits, cs, t)
    ensures RightReason(w, r, vals, reason, cs, t)
  {
    hide Guarded, Tuple, Explained, AskedFor, MatchActive;
    var m := MatchActive(w, r.active.args, vals, |vals|);
    var env', reason' :| Tuple(w, r, 0, m.env, reason + m.lits, cs, env', reason') &&
      t in Guarded(w, r, 0, env', reason').told;
    ToldReason(w, r, 0, env', reason', t);
    TupleReason(w, r, 0, m.env, reason + m.lits, cs, env', reason', 0);
    forall x
      ensures x in t.reason <==>
        || x in reason
        || (exists j :: 0 <= j < |vals| && AskedFor(w, r.active.args, vals, j, x))
        || Explained(w, r, 0, m.env, cs, x)
    {
      TupleReason(w, r, 0, m.env, reason + m.lits, cs, env', reason', x);
      ActiveReason(w, r.active.args, vals, |vals|, x);
    }
  }

  // Tells t: some tuple passes the guards and t is in the body for it.
  ghost predicate Fires(w: World, r: Rule, i: nat, env: Env, reason: seq<Lit>, cs: seq<nat>, t: Told)
    requires WorldOk(w) && i <= |r.partners|
  {
    exists env', reason' :: Tuple(w, r, i, env, reason, cs, env', reason') && t in Guarded(w, r, 0, env', reason').told
  }

  lemma FiresMore(w: World, r: Rule, i: nat, env: Env, reason: seq<Lit>, cs: seq<nat>, c: nat, t: Told)
    requires WorldOk(w) && i < |r.partners| && c in w.lookup(r.partners[i].sym, PatternOf(r.partners[i].args, env))
    requires w.live(c, r.partners[i].sign) && |w.args(c)| == |r.partners[i].args|
    ensures var h := r.partners[i];
      Fires(w, r, i, env, reason, [c] + cs, t) <==>
      Fires(w, r, i + 1, Bind(h.args, w.args(c), env, |h.args|), reason + PartnerLits(w, h, env, c), cs, t)
  {
    hide Guarded;
    var h := r.partners[i];
    var env1, reason1 := Bind(h.args, w.args(c), env, |h.args|), reason + PartnerLits(w, h, env, c);
    assert ([c] + cs)[0] == c && ([c] + cs)[1..] == cs;
    forall env', reason'
      ensures Tuple(w, r, i, env, reason, [c] + cs, env', reason')
              == Tuple(w, r, i + 1, env1, reason1, cs, env', reason')
    {
    }
  }

  // Everything told is told for a tuple of partners that matches and passes.
  lemma {:induction false} JoinTellsTuples(w: World, r: Rule, i: nat, env: Env, reason: seq<Lit>, t: Told)
    returns (cs: seq<nat>)
    requires WorldOk(w) && i <= |r.partners| && t in Join(w, r, i, env, reason).told
    ensures Fires(w, r, i, env, reason, cs, t)
    decreases |r.partners| - i, 1, 0
  {
    hide Guarded;
    if i == |r.partners| {
      cs := [];
      assert Tuple(w, r, i, env, reason, cs, env, reason);
    } else {
      var h := r.partners[i];
      assert |PatternOf(h.args, env)| == |h.args|;
      cs := OverTellsTuples(w, r, i, env, reason, w.lookup(h.sym, PatternOf(h.args, env)), t);
    }
  }

  lemma {:induction false} OverTellsTuples(w: World, r: Rule, i: nat, env: Env, reason: seq<Lit>, ds: seq<nat>, t: Told)
      returns (cs: seq<nat>)
    requires WorldOk(w) && i < |r.partners|
    requires forall c :: c in ds ==> |w.args(c)| == |r.partners[i].args|
    requires forall c :: c in ds ==> c in w.lookup(r.partners[i].sym, PatternOf(r.partners[i].args, env))
    requires t in JoinOver(w, r, i, env, reason, ds).told
    ensures Fires(w, r, i, env, reason, cs, t)
    decreases |r.partners| - i, 0, |ds|
  {
    hide Guarded, Fires;
    var h, c := r.partners[i], ds[0];
    var env1, reason1 := Bind(h.args, w.args(c), env, |h.args|), reason + PartnerLits(w, h, env, c);
    if w.live(c, h.sign) && t in Join(w, r, i + 1, env1, reason1).told {
      var cs1 := JoinTellsTuples(w, r, i + 1, env1, reason1, t);
      FiresMore(w, r, i, env, reason, cs1, c, t);
      cs := [c] + cs1;
    } else {
      cs := OverTellsTuples(w, r, i, env, reason, ds[1..], t);
    }
  }

  // A run that is not given up tells it all.
  lemma {:induction false} TuplesAreTold(w: World, r: Rule, i: nat, env: Env, reason: seq<Lit>, cs: seq<nat>, t: Told)
    requires WorldOk(w) && i <= |r.partners| && Join(w, r, i, env, reason).ok && Fires(w, r, i, env, reason, cs, t)
    ensures t in Join(w, r, i, env, reason).told
    decreases |r.partners| - i, 1, 0
  {
    hide Guarded;
    if i < |r.partners| {
      var h := r.partners[i];
      assert |PatternOf(h.args, env)| == |h.args|;
      OverTellsAll(w, r, i, env, reason, w.lookup(h.sym, PatternOf(h.args, env)), cs, t);
    }
  }

  lemma {:induction false} OverTellsAll(w: World, r: Rule, i: nat, env: Env, reason: seq<Lit>, ds: seq<nat>,
                                        cs: seq<nat>, t: Told)
    requires WorldOk(w) && i < |r.partners|
    requires forall c :: c in ds ==> |w.args(c)| == |r.partners[i].args|
    requires JoinOver(w, r, i, env, reason, ds).ok && Fires(w, r, i, env, reason, cs, t)
    requires cs != [] ==> cs[0] in ds
    ensures t in JoinOver(w, r, i, env, reason, ds).told
    decreases |r.partners| - i, 0, |ds|
  {
    hide Guarded;
    var h := r.partners[i];
    var c := cs[0];
    if ds[0] == c {
      assert [c] + cs[1..] == cs;
      FiresMore(w, r, i, env, reason, cs[1..], c, t);
      TuplesAreTold(w, r, i + 1, Bind(h.args, w.args(c), env, |h.args|), reason + PartnerLits(w, h, env, c), cs[1..],
                    t);
    } else {
      OverTellsAll(w, r, i, env, reason, ds[1..], cs, t);
    }
  }

  // What a run that is not given up tells: the bodies of the tuples of
  // partners that match and pass the guards, and nothing else.
  lemma RunTellsTuples(w: World, r: Rule, vals: seq<Value>, reason: seq<Lit>, t: Told)
    requires WorldOk(w) && |vals| == |r.active.args| && Meaning(w, r, vals, reason).ok
    ensures var m := MatchActive(w, r.active.args, vals, |vals|);
      t in Meaning(w, r, vals, reason).told <==>
      m.Match? && exists cs :: Fires(w, r, 0, m.env, reason + m.lits, cs, t) && RightReason(w, r, vals, reason, cs, t)
  {
    hide Join, Guarded, Fires, MatchActive, RightReason;
    var m := MatchActive(w, r.active.args, vals, |vals|);
    if m.Match? {
      if t in Join(w, r, 0, m.env, reason + m.lits).told {
        var cs := JoinTellsTuples(w, r, 0, m.env, reason + m.lits, t);
        FiresReason(w, r, vals, reason, cs, t);
      }
      forall cs | Fires(w, r, 0, m.env, reason + m.lits, cs, t)
        ensures t in Join(w, r, 0, m.env, reason + m.lits).told
      {
        TuplesAreTold(w, r, 0, m.env, reason + m.lits, cs, t);
      }
    }
  }

  // The body is told under the reason the guards were reached with.
  lemma {:induction false} ToldReason(w: World, r: Rule, g: nat, env: Env, reason: seq<Lit>, t: Told)
    requires g <= |r.guards| && t in Guarded(w, r, g, env, reason).told
    ensures t.reason == reason
    decreases |r.guards| - g
  {
    if g < |r.guards| {
      match r.guards[g]
      case Test(cmp, l, e) => ToldReason(w, r, g + 1, env, reason, t);
      case Set(x, e) =>
        if x in env { ToldReason(w, r, g + 1, env, reason, t); }
        else { ToldReason(w, r, g + 1, env[x := Eval(e, env).value], reason, t); }
    }
  }

  // ----- which rules compile -----

  function Names(args: seq<Term>): set<nat> {
    set t | t in args && t.TVar? :: t.name
  }

  function NamesIn(t: Term): set<nat> {
    match t
    case TVar(x) => {x}
    case TVal(_) => {}
    case TBin(_, l, r) => NamesIn(l) + NamesIn(r)
  }

  // Every variable of a guard is bound when it is reached, and every variable
  // of the body is bound at the end.
  predicate GuardsBound(r: Rule, g: nat, bound: set<nat>)
    requires g <= |r.guards|
    decreases |r.guards| - g
  {
    if g == |r.guards| then forall i :: 0 <= i < |r.body| ==> Names(r.body[i].args) <= bound
    else match r.guards[g]
      case Test(_, l, t) => NamesIn(l) + NamesIn(t) <= bound && GuardsBound(r, g + 1, bound)
      case Set(x, e) => NamesIn(e) <= bound && GuardsBound(r, g + 1, bound + {x})
  }

  function PartnerNames(r: Rule, i: nat): set<nat>
    requires i <= |r.partners|
    decreases |r.partners| - i
  {
    if i == |r.partners| then {} else Names(r.partners[i].args) + PartnerNames(r, i + 1)
  }

  // The variables with a register are these.
  ghost predicate Scope(cxt: Cxt, bound: set<nat>) {
    && cxt.reg > 0 && (forall t :: t in cxt.info ==> !t.TBin? && cxt.info[t] > 0)
    && (forall x :: x in bound <==> TVar(x) in cxt.info)
  }

  lemma {:induction false} ActiveScope(args: seq<Term>, n: nat)
    requires Flat(args) && n <= |args|
    ensures Scope(ActiveCode(args, n).cxt, Names(args[..n]))
  {
    if n > 0 {
      ActiveScope(args, n - 1);
      assert args[..n] == args[..n - 1] + [args[n - 1]];
    }
  }

  lemma {:induction false} SpecScope(args: seq<Term>, n: nat, cxt: Cxt, bound: set<nat>)
    requires Flat(args) && n <= |args| && Scope(cxt, bound)
    ensures var s := SpecCode(args, n, cxt);
      Scope(s.cxt, bound) && forall i :: 0 <= i < n ==> (s.spec[i] == 0 <==> args[i].TVar? && args[i].name !in bound)
  {
    if n > 0 {
      SpecScope(args, n - 1, cxt, bound);
    }
  }

  lemma {:induction false} FetchScope(args: seq<Term>, spec: seq<nat>, n: nat, cons: nat, cxt: Cxt, bound: set<nat>)
    requires Flat(args) && n <= |args| == |spec| && Scope(cxt, bound)
    requires forall i :: 0 <= i < |args| ==> (spec[i] == 0 <==> args[i].TVar? && args[i].name !in bound)
    ensures Scope(FetchCode(args, spec, n, cons, cxt).cxt, bound + Names(args[..n]))
  {
    if n > 0 {
      FetchScope(args, spec, n - 1, cons, cxt, bound);
      assert args[..n] == args[..n - 1] + [args[n - 1]];
    }
  }

  lemma PartnerScope(h: Atom, cxt: Cxt, bound: set<nat>)
    requires Flat(h.args) && Scope(cxt, bound)
    ensures Scope(PartnerCode(h, cxt).cxt, bound + Names(h.args))
  {
    hide Scope, SpecCode, FetchCode;
    var s := SpecCode(h.args, |h.args|, cxt);
    SpecScope(h.args, |h.args|, cxt, bound);
    ScopeReg(s.cxt, bound, s.cxt.reg + 2);
    FetchScope(h.args, s.spec, |h.args|, s.cxt.reg + 1, s.cxt.(reg := s.cxt.reg + 2), bound);
    assert h.args[..|h.args|] == h.args;
  }

  lemma ScopeReg(cxt: Cxt, bound: set<nat>, reg: nat)
    requires Scope(cxt, bound) && reg > 0
    ensures Scope(cxt.(reg := reg), bound)
  {
  }

  lemma {:induction false} ExprBound(t: Term, cxt: Cxt, bound: set<nat>)
    requires Scope(cxt, bound)
    ensures ExprCode(t, cxt.info).Some? <==> NamesIn(t) <= bound
  {
    if t.TBin? {
      ExprBound(t.l, cxt, bound);
      ExprBound(t.r, cxt, bound);
    }
  }

  lemma BodyBound(b: Atom, cxt: Cxt, bound: set<nat>)
    requires Flat(b.args) && Scope(cxt, bound)
    ensures BodyCode(b, cxt).Some? <==> Names(b.args) <= bound
    ensures BodyCode(b, cxt).Some? ==> Scope(BodyCode(b, cxt).value.cxt, bound)
  {
    SpecScope(b.args, |b.args|, cxt, bound);
    var s := SpecCode(b.args, |b.args|, cxt);
    if 0 in s.spec {
      var i :| 0 <= i < |s.spec| && s.spec[i] == 0;
      assert b.args[i].name in Names(b.args);
    } else {
      forall x | x in Names(b.args) ensures x in bound {
        var i :| 0 <= i < |b.args| && b.args[i] == TVar(x);
        assert s.spec[i] in s.spec;
      }
    }
  }

  lemma {:induction false} BodiesCompile(r: Rule, i: nat, cxt: Cxt, bound: set<nat>)
    requires FlatRule(r) && i <= |r.body| && Scope(cxt, bound)
    ensures FromBody(r, i, cxt).Some? <==> forall j :: i <= j < |r.body| ==> Names(r.body[j].args) <= bound
    decreases |r.body| - i
  {
    hide Scope, BodyCode, Names;
    if i < |r.body| {
      BodyBound(r.body[i], cxt, bound);
      if BodyCode(r.body[i], cxt).Some? {
        BodiesCompile(r, i + 1, BodyCode(r.body[i], cxt).value.cxt, bound);
      }
    }
  }

  lemma GuardScope(cxt: Cxt, bound: set<nat>, x: nat)
    requires Scope(cxt, bound)
    ensures x in bound <==> TVar(x) in cxt.info
    ensures Scope(Cxt(cxt.info[TVar(x) := cxt.reg], cxt.reg + 1), bound + {x})
    ensures ExprCode(TVar(x), cxt.info).Some? <==> x in bound
  {
  }

  lemma {:induction false} GuardsCompile(r: Rule, g: nat, cxt: Cxt, bound: set<nat>)
    requires FlatRule(r) && g <= |r.guards| && Scope(cxt, bound)
    ensures FromGuard(r, g, cxt).Some? <==> GuardsBound(r, g, bound)
    decreases |r.guards| - g
  {
    hide Scope, ExprCode, FromBody, Names;
    if g == |r.guards| {
      BodiesCompile(r, 0, cxt, bound);
    } else {
      match r.guards[g]
      case Test(cmp, l, t) =>
        ExprBound(l, cxt, bound);
        ExprBound(t, cxt, bound);
        GuardsCompile(r, g + 1, cxt, bound);
      case Set(x, e) =>
        ExprBound(e, cxt, bound);
        GuardScope(cxt, bound, x);
        if x in bound {
          assert bound + {x} == bound;
          GuardsCompile(r, g + 1, cxt, bound);
        } else {
          GuardsCompile(r, g + 1, Cxt(cxt.info[TVar(x) := cxt.reg], cxt.reg + 1), bound + {x});
        }
    }
  }

  lemma {:induction false} PartnersCompile(r: Rule, i: nat, cxt: Cxt, bound: set<nat>)
    requires FlatRule(r) && i <= |r.partners| && Scope(cxt, bound)
    ensures FromPartner(r, i, cxt).Some? <==> GuardsBound(r, 0, bound + PartnerNames(r, i))
    decreases |r.partners| - i
  {
    hide Scope, PartnerCode, FromGuard, Names, GuardsBound;
    if i == |r.partners| {
      assert bound + PartnerNames(r, i) == bound;
      GuardsCompile(r, 0, cxt, bound);
    } else {
      PartnerScope(r.partners[i], cxt, bound);
      PartnersCompile(r, i + 1, PartnerCode(r.partners[i], cxt).cxt, bound + Names(r.partners[i].args));
      assert bound + Names(r.partners[i].args) + PartnerNames(r, i + 1) == bound + PartnerNames(r, i);
    }
  }

  // A rule compiles if and only if every variable of its guards and body is
  // bound by the head or an earlier assignment.
  lemma RuleCompiles(r: Rule)
    requires FlatRule(r)
    ensures RuleCode(r).Some? <==> GuardsBound(r, 0, Names(r.active.args) + PartnerNames(r, 0))
  {
    hide Scope, FromPartner, Names, GuardsBound, ActiveCode;
    ActiveScope(r.active.args, |r.active.args|);
    assert r.active.args[..|r.active.args|] == r.active.args;
    PartnersCompile(r, 0, ActiveCode(r.active.args, |r.active.args|).cxt, Names(r.active.args));
  }
}
