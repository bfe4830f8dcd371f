/**
 The Luby sequence that paces restarts: 1 1 2 1 1 2 4 1 1 2 ...
 */
module SatLuby {

  function Pow2(k: nat): (p: nat)
    ensures p >= 1
  {
    if k == 0 then 1 else 2 * Pow2(k - 1)
  }

  /** The largest `k` with `Pow2(k) <= n`. */
  function Log2(n: nat): (k: nat)
    requires n > 0
    ensures Pow2(k) <= n < Pow2(k + 1)
  {
    if n == 1 then 0 else 1 + Log2(n / 2)
  }

  /** At `2^(k+1) - 1` the sequence reaches `2^k`; in between it repeats itself from the start. */
  function Luby(i: nat): nat {
    if i <= 1 then 1
    else
      var k := Log2(i + 1);
      if Pow2(k) == i + 1 then Pow2(k - 1) else Luby(i + 1 - Pow2(k))
  }

  lemma {:induction false} Pow2Grows(a: nat, b: nat)
    requires a <= b
    ensures Pow2(a) <= Pow2(b)
  {
    if a < b {
      Pow2Grows(a, b - 1);
    }
  }

  lemma LogIsUnique(n: nat, k: nat)
    requires n > 0 && Pow2(k) <= n < Pow2(k + 1)
    ensures Log2(n) == k
  {
    if Log2(n) < k {
      Pow2Grows(Log2(n) + 1, k);
    } else if k < Log2(n) {
      Pow2Grows(k + 1, Log2(n));
    }
  }

  /** The two halves of a block repeat the blocks before it, and its last entry doubles. */
  lemma {:induction false} LubyBlocks(k: nat, j: nat)
    requires 1 <= j < Pow2(k)
    ensures Luby(Pow2(k) - 1 + j) == Luby(j)
    ensures Luby(Pow2(k + 1) - 1) == Pow2(k)
  {
    hide Luby, Log2, Pow2;
    Doubles(k);
    var i := Pow2(k) - 1 + j;
    LogIsUnique(i + 1, k);
    LubyUnfolds(i);
    Doubles(k + 1);
    LogIsUnique(Pow2(k + 1), k + 1);
    LubyUnfolds(Pow2(k + 1) - 1);
  }

  lemma Doubles(k: nat)
    ensures Pow2(k + 1) == 2 * Pow2(k) && Pow2(k + 1) >= 2 && (Pow2(k) > 1 ==> Pow2(k) >= 2)
  {
  }

  lemma LubyPositive(i: nat)
    ensures Luby(i) >= 1
  {
  }

  lemma LubyUnfolds(i: nat)
    ensures i <= 1 ==> Luby(i) == 1
    ensures i > 1 ==>
          Luby(i) == (if Pow2(Log2(i + 1)) == i + 1 then Pow2(Log2(i + 1) - 1) else Luby(i + 1 - Pow2(Log2(i + 1))))
    ensures i > 1 ==> 2 <= Pow2(Log2(i + 1)) <= i + 1
  {
  }

  /** Halving a number lowers its logarithm by one; only even numbers above 1 can be powers of two. */
  lemma Halving(j: nat)
    requires j >= 2
    ensures Log2(j) == 1 + Log2(j / 2)
    ensures j % 2 == 0 ==> (Pow2(Log2(j)) == j <==> Pow2(Log2(j / 2)) == j / 2)
    ensures j % 2 == 1 ==> Pow2(Log2(j)) != j
  {
  }

  /** The engine's computation: strip trailing zeros of `i + 1`, then find its leading bit. */
  method LubyTerm(i: nat) returns (r: nat)
    ensures r == Luby(i) && r >= 1
  {
    hide Luby, Log2, Pow2;
    LubyUnfolds(i);
    LubyPositive(i);
    assert Log2(1) == 0 && Pow2(0) == 1 by { LogOne(); }
    if i <= 1 {
      return 1;
    }
    var j, k := i + 1, 0;
    while j % 2 == 0
      invariant j >= 1 && Log2(i + 1) == k + Log2(j)
      invariant Pow2(Log2(i + 1)) == i + 1 <==> Pow2(Log2(j)) == j
      decreases j
    {
      Halving(j);
      j, k := j / 2, k + 1;
    }
    if j == 1 {
      return Pow2(k - 1);
    }
    Halving(j);
    while j != 1
      invariant j >= 1 && Log2(i + 1) == k + Log2(j)
      decreases j
    {
      Halving(j);
      j, k := j / 2, k + 1;
    }
    r := LubyTerm(i - Pow2(k) + 1);
  }

  lemma LogOne()
    ensures Log2(1) == 0 && Pow2(0) == 1
  {
  }
}
