/** macro.h: SUBSETS(i, s), the loop that visits every subset of the bits of s. */
module Subsets {
  import opened Common
  import opened Bits

  predicate Submask(m: nat, s: nat) {
    And(m, s) == m
  }

  /** The loop's step, in unsigned 64-bit arithmetic: 0 - 1 wraps to all ones. */
  function StepDown(i: nat, s: nat): nat {
    And(ToWord(i - 1), s)
  }

  /** The number spelled by the bits of m at the places where s has a one: subsets of s counted 0, 1, 2, ... */
  function Rank(m: nat, s: nat): nat {
    if s == 0 then 0
    else if s % 2 == 1 then 2 * Rank(m / 2, s / 2) + m % 2
    else Rank(m / 2, s / 2)
  }

  lemma {:induction false} SubmaskHalf(m: nat, s: nat)
    ensures Submask(m, s) <==> Submask(m / 2, s / 2) && (m % 2 == 1 ==> s % 2 == 1)
  {
  }

  lemma {:induction false} SubmaskAtMost(m: nat, s: nat)
    requires Submask(m, s)
    ensures m <= s
  {
    if m != 0 && s != 0 {
      SubmaskHalf(m, s);
      SubmaskAtMost(m / 2, s / 2);
    }
  }

  lemma {:induction false} Reflexive(s: nat)
    ensures Submask(s, s)
  {
    if s != 0 { Reflexive(s / 2); }
  }

  lemma {:induction false} AndIsSubmask(a: nat, s: nat)
    ensures Submask(And(a, s), s)
  {
    if a != 0 && s != 0 {
      AndIsSubmask(a / 2, s / 2);
      SubmaskHalf(And(a, s), s);
    }
  }

  /** Rank keeps the order of submasks, so it tells them apart. */
  lemma {:induction false} RankOrders(m: nat, n: nat, s: nat)
    requires Submask(m, s) && Submask(n, s)
    ensures m < n <==> Rank(m, s) < Rank(n, s)
    decreases s
  {
    SubmaskHalf(m, s);
    SubmaskHalf(n, s);
    if s != 0 {
      RankOrders(m / 2, n / 2, s / 2);
      RankOrders(n / 2, m / 2, s / 2);
    }
  }

  lemma {:induction false} RankOfAll(s: nat)
    ensures Rank(s, s) == Pow2(Popcount(s)) - 1
    ensures Rank(0, s) == 0
  {
    if s != 0 { RankOfAll(s / 2); }
  }

  /** The heart of the macro: (i-1) & s is the submask counted just before i. */
  lemma {:induction false} StepCountsDown(i: nat, s: nat)
    requires Submask(i, s) && i > 0
    ensures Rank(And(i - 1, s), s) == Rank(i, s) - 1
  {
    SubmaskHalf(i, s);
    assert s != 0;
    if i % 2 == 1 {
      assert (i - 1) / 2 == i / 2 && And(i / 2, s / 2) == i / 2;
      assert And(i - 1, s) == 2 * (i / 2);
    } else {
      StepCountsDown(i / 2, s / 2);
      assert (i - 1) / 2 == i / 2 - 1 && (i - 1) % 2 == 1;
      if i == 2 {
        assert And(1, s) == s % 2;
      }
    }
  }

  /** Said without ranks: it is the greatest submask below i. */
  lemma StepIsPredecessor(i: nat, s: nat, m: nat)
    requires Submask(i, s) && i > 0 && Submask(m, s)
    ensures Submask(And(i - 1, s), s) && And(i - 1, s) < i
    ensures m < i ==> m <= And(i - 1, s)
  {
    var p := And(i - 1, s);
    AndIsSubmask(i - 1, s);
    StepCountsDown(i, s);
    RankOrders(p, i, s);
    RankOrders(m, i, s);
    RankOrders(p, m, s);
  }

  lemma {:induction false} AllOnes(s: nat, n: nat)
    requires s < Pow2(n)
    ensures And(Pow2(n) - 1, s) == s
  {
    if n > 0 && s != 0 {
      AllOnes(s / 2, n - 1);
      assert (Pow2(n) - 1) / 2 == Pow2(n - 1) - 1 && (Pow2(n) - 1) % 2 == 1;
    }
  }

  // ----- the loop

  lemma RankBelowTotal(m: nat, s: nat)
    requires Submask(m, s)
    ensures Rank(m, s) < Pow2(Popcount(s))
  {
  }

  lemma FirstStepGivesAll(s: nat)
    requires s < WORD
    ensures StepDown(0, s) == s
  {
    WordIsPow2();
    AllOnes(s, 64);
  }

  lemma LaterStepsCountDown(i: nat, s: nat)
    requires Submask(i, s) && 0 < i < WORD
    ensures Submask(StepDown(i, s), s) && StepDown(i, s) < i && Rank(StepDown(i, s), s) == Rank(i, s) - 1
  {
    StepIsPredecessor(i, s, i);
    StepCountsDown(i, s);
  }

  /** What the loop has produced: position k holds the submask of rank total - k, with 0 moved to the front. */
  ghost predicate Listed(visited: seq<nat>, s: nat, total: nat) {
    forall k | 0 <= k < |visited| ::
      Submask(visited[k], s) && Rank(visited[k], s) == if k == 0 then 0 else total - k
  }

  lemma ListedIsComplete(visited: seq<nat>, s: nat, m: nat)
    requires Listed(visited, s, Pow2(Popcount(s))) && |visited| == Pow2(Popcount(s)) && Submask(m, s)
    ensures m in visited
  {
    RankBelowTotal(m, s);
    var r := Rank(m, s);
    var k := if r == 0 then 0 else |visited| - r;
    RankOrders(m, visited[k], s);
    RankOrders(visited[k], m, s);
    assert visited[k] == m;
  }

  lemma ListedDescends(visited: seq<nat>, s: nat, j: nat, k: nat)
    requires Listed(visited, s, Pow2(Popcount(s))) && |visited| == Pow2(Popcount(s)) && 1 <= j < k < |visited|
    ensures visited[j] > visited[k] > 0
  {
    RankOrders(visited[k], visited[j], s);
    RankOrders(0, visited[k], s);
    RankOfAll(s);
  }

  /** SUBSETS(i, s) for any 64-bit s: the visited values are exactly the submasks of s, each once; 0 comes first, the
      rest run strictly downwards from s; there are 2^popcount(s) of them. */
  method Enumerate(s: nat) returns (visited: seq<nat>)
    requires s < WORD
    ensures |visited| == Pow2(Popcount(s))
    ensures forall k | 0 <= k < |visited| :: Submask(visited[k], s)
    ensures forall m: nat | Submask(m, s) :: m in visited
    ensures visited[0] == 0 && (|visited| > 1 ==> visited[1] == s)
    ensures forall j, k | 1 <= j < k < |visited| :: visited[j] > visited[k] > 0
  {
    ghost var total := Pow2(Popcount(s));
    RankOfAll(s);
    Reflexive(s);
    visited := [];
    var i: nat, null_flag := 0, true;
    while i != 0 || null_flag
      invariant Submask(i, s) && i < WORD && Listed(visited, s, total)
      invariant if null_flag then i == 0 && visited == [] else
                  |visited| >= 1 && Rank(i, s) == total - |visited| && (|visited| == 1 ==> i == s)
      invariant |visited| > 1 ==> visited[1] == s
      decreases null_flag, i
    {
      if null_flag { FirstStepGivesAll(s); } else { LaterStepsCountDown(i, s); }
      visited := visited + [i];
      i, null_flag := StepDown(i, s), false;
    }
    forall m: nat | Submask(m, s) ensures m in visited { ListedIsComplete(visited, s, m); }
    forall j, k | 1 <= j < k < |visited| ensures visited[j] > visited[k] > 0 { ListedDescends(visited, s, j, k); }
    RankOrders(0, visited[0], s);
  }
}
