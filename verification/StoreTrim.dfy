// Removing purged constraints from the list of an entry (store.c): the head
// stays, because solvers may hold on to it.
module StoreTrim {
  import opened Wrappers
  import opened StoreCore

  // The first n nodes of a list, without the purged ones after the head.
  ghost function Kept(nodes: map<nat, Node>, s: seq<nat>, n: nat, purged: set<nat>): seq<nat>
    requires 0 < n <= |s| && forall x :: x in s ==> x in nodes
  {
    if n == 1 then [s[0]]
    else
      assert s[n - 1] in s;
      var k := Kept(nodes, s, n - 1, purged);
      if nodes[s[n - 1]].cons in purged then k else k + [s[n - 1]]
  }

  lemma {:induction false} KeptIs(nodes: map<nat, Node>, s: seq<nat>, n: nat, purged: set<nat>)
    requires 0 < n <= |s| && (forall x :: x in s ==> x in nodes)
    requires forall i, j :: 0 <= i < j < |s| ==> s[i] != s[j]
    ensures var k := Kept(nodes, s, n, purged);
      && |k| > 0 && k[0] == s[0]
      && (forall i :: 0 <= i < |k| ==> k[i] in s[..n])
      && (forall i, j :: 0 <= i < j < |k| ==> k[i] != k[j])
      && (forall x :: x in k <==> x == s[0] || (x in s[..n] && nodes[x].cons !in purged))
  {
    if n > 1 {
      KeptIs(nodes, s, n - 1, purged);
      assert s[..n] == s[..n - 1] + [s[n - 1]];
      assert s[n - 1] in s && s[n - 1] !in s[..n - 1];
    }
  }

  // The loop at work on the list s of entry e: the kept nodes up to s[p] are
  // linked, the nodes from s[p] on are as they were, q nodes were looked at.
  ghost predicate Trimming(c: Core, d: Core, e: nat, s: seq<nat>, p: nat, q: nat, purged: set<nat>) {
    && p < q <= |s| && HasList(c, e, s) && (forall x :: x in s ==> x in c.nodes)
    && d.stored == c.stored && d.entries == c.entries && d.nodes.Keys == c.nodes.Keys
    && var k := Kept(c.nodes, s, q, purged);
    && |k| > 0 && Chain(d.nodes, k) && k[|k| - 1] == s[p]
    && (forall i :: p <= i < |s| ==> s[i] in d.nodes && d.nodes[s[i]] == c.nodes[s[i]])
    && (forall x :: x in c.nodes ==> d.nodes[x].cons == c.nodes[x].cons && (x !in s ==> d.nodes[x] == c.nodes[x]))
  }

  lemma TrimStart(c: Core, e: nat, s: seq<nat>, purged: set<nat>)
    requires HasList(c, e, s)
    ensures Trimming(c, c, e, s, 0, 1, purged)
  {
    assert Kept(c.nodes, s, 1, purged) == [s[0]];
  }

  lemma TrimSkip(c: Core, d: Core, e: nat, s: seq<nat>, p: nat, q: nat, purged: set<nat>)
    requires Trimming(c, d, e, s, p, q, purged) && q < |s|
    requires s[q] in d.nodes && d.nodes[s[q]].cons in purged
    ensures Trimming(c, d, e, s, p, q + 1, purged)
  {
    hide HasList, Chain;
    assert s[q] in s;
  }

  // Where the loop reads next.
  lemma TrimNext(c: Core, d: Core, e: nat, s: seq<nat>, p: nat, q: nat, purged: set<nat>, i: nat)
    requires Trimming(c, d, e, s, p, q, purged) && p <= i < |s|
    ensures s[i] in d.nodes && d.nodes[s[i]].next == At(s, i + 1)
  {
    if i + 1 < |s| {
      assert c.nodes[s[i]].next == Some(s[i + 1]);
    }
  }

  lemma TrimLink(c: Core, d: Core, e: nat, s: seq<nat>, p: nat, q: nat, purged: set<nat>)
    requires Trimming(c, d, e, s, p, q, purged) && q < |s|
    requires s[q] in d.nodes && d.nodes[s[q]].cons !in purged && s[p] in d.nodes
    ensures Trimming(c, SetNext(d, s[p], Some(s[q])), e, s, q, q + 1, purged)
  {
    var d' := SetNext(d, s[p], Some(s[q]));
    var k := Kept(c.nodes, s, q, purged);
    KeptIs(c.nodes, s, q, purged);
    assert s[q] in s && s[p] in s;
    var k' := k + [s[q]];
    assert Kept(c.nodes, s, q + 1, purged) == k';
    ChainGrows(d.nodes, k, s[q]);
  }

  lemma ChainGrows(nodes: map<nat, Node>, k: seq<nat>, x: nat)
    requires Chain(nodes, k) && |k| > 0 && x in nodes
    requires forall i, j :: 0 <= i < j < |k| ==> k[i] != k[j]
    ensures k[|k| - 1] in nodes
    ensures Chain(nodes[k[|k| - 1] := nodes[k[|k| - 1]].(next := Some(x))], k + [x])
  {
    var m := nodes[k[|k| - 1] := nodes[k[|k| - 1]].(next := Some(x))];
    var k' := k + [x];
    forall i | 0 <= i < |k'| - 1 ensures m[k'[i]].next == Some(k'[i + 1]) {
      if i < |k| - 1 {
        assert nodes[k[i]].next == Some(k[i + 1]) && k[i] != k[|k| - 1];
      }
    }
  }

  // The list after the loop.
  ghost function Trimmed(c: Core, d: Core, e: nat, last: nat): Core
    requires e in d.entries && last in d.nodes
  {
    SetNext(SetTail(d, e, last), last, None)
  }

  lemma ChainEnds(nodes: map<nat, Node>, k: seq<nat>)
    requires Chain(nodes, k) && |k| > 0
    requires forall i, j :: 0 <= i < j < |k| ==> k[i] != k[j]
    ensures k[|k| - 1] in nodes
    ensures Chain(nodes[k[|k| - 1] := nodes[k[|k| - 1]].(next := None)], k)
  {
    var m := nodes[k[|k| - 1] := nodes[k[|k| - 1]].(next := None)];
    forall i | 0 <= i < |k| - 1 ensures m[k[i]].next == Some(k[i + 1]) {
      assert nodes[k[i]].next == Some(k[i + 1]) && k[i] != k[|k| - 1];
    }
  }

  lemma TrimEnd(c: Core, d: Core, e: nat, s: seq<nat>, p: nat, purged: set<nat>)
    requires Trimming(c, d, e, s, p, |s|, purged)
    ensures e in d.entries && s[p] in d.nodes
    ensures HasList(Trimmed(c, d, e, s[p]), e, Kept(c.nodes, s, |s|, purged))
  {
    hide Chain, Kept;
    KeptIs(c.nodes, s, |s|, purged);
    ChainEnds(d.nodes, Kept(c.nodes, s, |s|, purged));
  }

  // The nodes of other lists are left alone.
  lemma TrimOther(c: Core, d: Core, e: nat, s: seq<nat>, p: nat, purged: set<nat>, e': nat, t: seq<nat>)
    requires Trimming(c, d, e, s, p, |s|, purged) && e' != e && HasList(c, e', t) && Disjoint(s, t)
    ensures e in d.entries && s[p] in d.nodes
    ensures HasList(Trimmed(c, d, e, s[p]), e', t)
    ensures Disjoint(Kept(c.nodes, s, |s|, purged), t)
  {
    hide HasList, Chain, Kept;
    ListHead(c, e, s);
    ListHead(c, e', t);
    KeptIs(c.nodes, s, |s|, purged);
    assert s[p] in s;
    SameList(c, Trimmed(c, d, e, s[p]), e', t);
  }

  lemma TrimOk(c: Core, d: Core, e: nat, s: seq<nat>, p: nat, purged: set<nat>)
    requires Trimming(c, d, e, s, p, |s|, purged) && CoreOk(c) && e in c.stored
    ensures e in d.entries && s[p] in d.nodes
    ensures CoreOk(Trimmed(c, d, e, s[p]))
    ensures forall e', t :: e' in c.stored && e' != e && HasList(c, e', t) ==> HasList(Trimmed(c, d, e, s[p]), e', t)
  {
    hide HasList, Chain, Kept, Disjoint;
    TrimEnd(c, d, e, s, p, purged);
    var d', k := Trimmed(c, d, e, s[p]), Kept(c.nodes, s, |s|, purged);
    var lists :| ListedBy(c, lists);
    OneList(c, e, s, lists[e]);
    var lists' := lists[e := k];
    forall e' | e' in lists && e' != e
      ensures HasList(d', e', lists[e']) && Disjoint(k, lists[e']) && Disjoint(lists[e'], k)
    {
      TrimOther(c, d, e, s, p, purged, e', lists[e']);
      DisjointFlip(k, lists[e']);
    }
    assert ListedBy(d', lists');
    forall e', t | e' in c.stored && e' != e && HasList(c, e', t) ensures HasList(d', e', t) {
      OneList(c, e', t, lists[e']);
    }
  }

  lemma ListHead(c: Core, e: nat, s: seq<nat>)
    requires HasList(c, e, s)
    ensures |s| > 0 && e in c.entries && s[0] == c.entries[e].cons
    ensures forall i, j :: 0 <= i < j < |s| ==> s[i] != s[j]
    ensures c.entries[e].tail == s[|s| - 1]
  {
  }
}
