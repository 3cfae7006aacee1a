/** Small vocabulary shared by the models: optional values, machine words, and weighted sums over a sequence. */
module Common {

  /** 2^64: uint64_t, size_t and unsigned long wrap at this modulus. */
  const WORD: int := 0x1_0000_0000_0000_0000

  /** 2^31: the first value an int cannot hold. */
  const INT_LIMIT: int := 0x8000_0000

  datatype Option<+T> = None | Some(value: T)

  /** The value an int holds after storing x (two's complement). */
  function ToInt32(x: int): int {
    (x + INT_LIMIT) % (2 * INT_LIMIT) - INT_LIMIT
  }

  /** The value an unsigned 64-bit word holds after storing x. */
  function ToWord(x: int): int {
    x % WORD
  }

  function Sum<A>(s: seq<A>, weight: A -> nat): nat {
    if s == [] then 0 else weight(s[0]) + Sum(s[1..], weight)
  }

  /** The items the elements of s carry, all together. */
  function Gather<A, T>(s: seq<A>, items: A -> multiset<T>): multiset<T> {
    if s == [] then multiset{} else items(s[0]) + Gather(s[1..], items)
  }

  lemma {:induction false} SumUpdate<A>(s: seq<A>, weight: A -> nat, i: nat, a: A)
    requires i < |s|
    ensures Sum(s[i := a], weight) + weight(s[i]) == Sum(s, weight) + weight(a)
  {
    if i == 0 {
      assert s[0 := a][1..] == s[1..];
    } else {
      SumUpdate(s[1..], weight, i - 1, a);
      assert s[i := a][1..] == s[1..][i - 1 := a];
    }
  }

  lemma {:induction false} SumAppend<A>(s: seq<A>, weight: A -> nat, a: A)
    ensures Sum(s + [a], weight) == Sum(s, weight) + weight(a)
  {
    if s == [] {
      assert s + [a] == [a];
    } else {
      SumAppend(s[1..], weight, a);
      assert (s + [a])[1..] == s[1..] + [a];
    }
  }

  lemma {:induction false} SumAtLeast<A>(s: seq<A>, weight: A -> nat, i: nat)
    requires i < |s|
    ensures weight(s[i]) <= Sum(s, weight)
  {
    if i > 0 {
      SumAtLeast(s[1..], weight, i - 1);
    }
  }

  lemma {:induction false} SumZero<A>(s: seq<A>, weight: A -> nat)
    requires forall i | 0 <= i < |s| :: weight(s[i]) == 0
    ensures Sum(s, weight) == 0
  {
    if s != [] {
      SumZero(s[1..], weight);
    }
  }

  /** A sum of zero-one weights that reaches the length leaves no element out. */
  lemma {:induction false} SumFull<A>(s: seq<A>, weight: A -> nat)
    requires forall i | 0 <= i < |s| :: weight(s[i]) <= 1
    ensures Sum(s, weight) <= |s|
    ensures Sum(s, weight) == |s| <==> forall i | 0 <= i < |s| :: weight(s[i]) == 1
  {
    if s != [] {
      SumFull(s[1..], weight);
      assert forall i | 1 <= i < |s| :: s[i] == s[1..][i - 1];
      if Sum(s, weight) == |s| {
        forall i | 0 <= i < |s| ensures weight(s[i]) == 1 {
          if i > 0 { assert s[i] == s[1..][i - 1]; }
        }
      }
    }
  }

  lemma {:induction false} SumMonotone<A>(s: seq<A>, low: A -> nat, high: A -> nat)
    requires forall i | 0 <= i < |s| :: low(s[i]) <= high(s[i])
    ensures Sum(s, low) <= Sum(s, high)
  {
    if s != [] {
      SumMonotone(s[1..], low, high);
    }
  }

  lemma {:induction false} GatherUpdate<A, T>(s: seq<A>, items: A -> multiset<T>, i: nat, a: A)
    requires i < |s|
    ensures Gather(s[i := a], items) + items(s[i]) == Gather(s, items) + items(a)
  {
    if i == 0 {
      assert s[0 := a][1..] == s[1..];
    } else {
      GatherUpdate(s[1..], items, i - 1, a);
      assert s[i := a][1..] == s[1..][i - 1 := a];
      var rest, rest' := Gather(s[1..], items), Gather(s[1..][i - 1 := a], items);
      assert (items(s[0]) + rest') + items(s[i]) == items(s[0]) + (rest' + items(s[1..][i - 1]));
      assert (items(s[0]) + rest) + items(a) == items(s[0]) + (rest + items(a));
    }
  }

  lemma {:induction false} GatherAppend<A, T>(s: seq<A>, items: A -> multiset<T>, a: A)
    ensures Gather(s + [a], items) == Gather(s, items) + items(a)
  {
    if s == [] {
      assert s + [a] == [a];
    } else {
      GatherAppend(s[1..], items, a);
      assert (s + [a])[1..] == s[1..] + [a];
      assert Gather([a], items) == items(a);
    }
  }

  lemma {:induction false} GatherEmpty<A, T>(s: seq<A>, items: A -> multiset<T>)
    requires forall i | 0 <= i < |s| :: items(s[i]) == multiset{}
    ensures Gather(s, items) == multiset{}
  {
    if s != [] {
      GatherEmpty(s[1..], items);
    }
  }
}
