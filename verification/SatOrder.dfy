/**
 The variable order of the SAT engine: an array of variables kept sorted by activity, its
 inverse, and the scan position `sat_next_var`.
 */
module SatOrder {

  /** `order` and `rank` are inverse permutations and activity never rises along `order`. */
  ghost predicate Ordered(activity: seq<nat>, rank: seq<nat>, order: seq<nat>) {
    && |activity| == |rank| == |order|
    && (forall v :: 0 <= v < |rank| ==> rank[v] < |order| && order[rank[v]] == v)
    && (forall i :: 0 <= i < |order| ==> order[i] < |rank| && rank[order[i]] == i)
    && (forall i, j :: 0 <= i < j < |order| ==> activity[order[j]] <= activity[order[i]])
  }

  class VarOrder {
    var activity: seq<nat>
    var rank: seq<nat>
    var order: seq<nat>
    var nextVar: nat

    ghost predicate Valid()
      reads this
    {
      Ordered(activity, rank, order)
    }

    constructor ()
      ensures Valid() && activity == [] && nextVar == 0
    {
      activity, rank, order, nextVar := [], [], [], 0;
    }

    /** Append a variable with no activity. */
    method AddVar()
      requires Valid()
      modifies this
      ensures Valid()
      ensures activity == old(activity) + [0] && order == old(order) + [|old(order)|] && nextVar == old(nextVar)
    {
      var idx := |activity|;
      activity, rank, order := activity + [0], rank + [idx], order + [idx];
    }

    /** Resume the scan at `v` if it stands before the scan position. */
    method Lower(v: nat)
      requires Valid() && v < |activity|
      modifies this`nextVar
      ensures nextVar == if rank[v] < old(nextVar) then rank[v] else old(nextVar)
    {
      if rank[v] < nextVar {
        nextVar := rank[v];
      }
    }

    /** The first position, before `pos`, of a variable less active than `act`. */
    method FirstBelow(act: nat, pos: nat) returns (hi: nat)
      requires Valid() && 0 < pos < |order|
      requires activity[order[pos - 1]] < act
      requires forall i :: 0 <= i < pos ==> act <= activity[order[i]] + 1
      ensures hi < pos && activity[order[hi]] < act
      ensures forall i :: 0 <= i < hi ==> act <= activity[order[i]]
    {
      if activity[order[0]] + 1 == act {
        return 0;
      }
      var lo := 0;
      hi := pos - 1;
      while hi - lo > 1
        invariant 0 <= lo < hi < pos
        invariant activity[order[hi]] < act <= activity[order[lo]]
      {
        var mid := (lo + hi) / 2;
        if activity[order[mid]] < act {
          hi := mid;
        } else {
          lo := mid;
        }
      }
    }

    /** Count one more occurrence of `v` and move it in front of everything less active. */
    method Bump(v: nat)
      requires Valid() && v < |activity|
      modifies this
      ensures Valid()
      ensures activity == old(activity)[v := old(activity)[v] + 1]
      ensures Placed(activity, rank, order, v)
      ensures |order| == |old(order)| && forall i :: 0 <= i < |order| && i != rank[v] && i != old(rank[v]) ==>
            order[i] == old(order[i])
      ensures nextVar == if rank[v] != old(rank[v]) && rank[v] < old(nextVar) then rank[v] else old(nextVar)
      ensures |rank| == |old(rank)| && forall u :: 0 <= u < |rank| && rank[u] < nextVar ==> rank[u] == old(rank)[u]
    {
      hide Ordered, Placed;
      OrderFacts(activity, rank, order, v);
      var pos := rank[v];
      var act := activity[v] + 1;
      if pos == 0 || activity[order[pos - 1]] >= act {
        StayKeepsOrder(activity, rank, order, v);
        activity := activity[v := act];
        return;
      }
      var hi := FirstBelow(act, pos);
      var u := order[hi];
      SwapKeepsOrder(activity, rank, order, v, hi);
      activity := activity[v := act];
      order := order[hi := v][pos := u];
      rank := rank[u := pos][v := hi];
      if hi < nextVar {
        nextVar := hi;
      }
    }

    /** Halve every activity. */
    method Decay()
      requires Valid()
      modifies this`activity
      ensures Valid() && |activity| == |old(activity)|
      ensures forall v :: 0 <= v < |activity| ==> activity[v] == old(activity)[v] / 2
    {
      ghost var activity0 := activity;
      for i := 0 to |activity|
        invariant |activity| == |activity0|
        invariant forall v :: 0 <= v < i ==> activity[v] == activity0[v] / 2
        invariant forall v :: i <= v < |activity| ==> activity[v] == activity0[v]
      {
        activity := activity[i := activity[i] / 2];
      }
    }
  }

  /** Exchanging the bumped variable with the first less active one keeps the order sorted. */
  lemma SwapKeepsOrder(activity: seq<nat>, rank: seq<nat>, order: seq<nat>, v: nat, hi: nat)
    requires Ordered(activity, rank, order) && v < |rank| && hi < rank[v]
    requires activity[order[hi]] < activity[v] + 1
    requires forall i :: 0 <= i < hi ==> activity[v] + 1 <= activity[order[i]]
    ensures Ordered(activity[v := activity[v] + 1], rank[order[hi] := rank[v]][v := hi],
                    order[hi := v][rank[v] := order[hi]])
    ensures Placed(activity[v := activity[v] + 1], rank[order[hi] := rank[v]][v := hi],
                   order[hi := v][rank[v] := order[hi]], v)
  {
  }

  /** What bumping `v` relies on. */
  lemma OrderFacts(activity: seq<nat>, rank: seq<nat>, order: seq<nat>, v: nat)
    requires Ordered(activity, rank, order) && v < |activity|
    ensures |activity| == |rank| == |order| && rank[v] < |order|
    ensures forall i :: 0 <= i < |order| ==> order[i] < |rank| && (order[i] == v <==> i == rank[v])
    ensures forall i :: 0 <= i < rank[v] ==> activity[v] <= activity[order[i]]
  {
  }

  lemma StayKeepsOrder(activity: seq<nat>, rank: seq<nat>, order: seq<nat>, v: nat)
    requires Ordered(activity, rank, order) && v < |rank|
    requires rank[v] == 0 || activity[order[rank[v] - 1]] > activity[v]
    ensures Ordered(activity[v := activity[v] + 1], rank, order)
            && Placed(activity[v := activity[v] + 1], rank, order, v)
  {
    forall i | 0 <= i < rank[v] ensures activity[v] + 1 <= activity[order[i]] {
      assert activity[order[rank[v] - 1]] <= activity[order[i]];
    }
  }

  /** `v` stands in front of everything less active, and behind the rest. */
  ghost predicate Placed(activity: seq<nat>, rank: seq<nat>, order: seq<nat>, v: nat)
    requires Ordered(activity, rank, order) && v < |rank|
  {
    && (forall i :: 0 <= i < rank[v] ==> activity[v] <= activity[order[i]])
    && (forall i :: rank[v] < i < |order| ==> activity[order[i]] < activity[v])
  }
}
