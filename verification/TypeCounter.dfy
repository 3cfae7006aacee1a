/** type.h: types numbered by a compile-time counter, and an inheritance test on bit masks. */
module TypeCounter {

  /** A translation unit seen from one counter. `__COUNTER__` is global: other macros consume it as well. */
  datatype Use = Read | Increment | Elsewhere

  /** `next` is the coming value of __COUNTER__, `spec` the explicit specialisations of Counter<NUM> with their values,
      `used` the indices instantiated so far, `results` the values counter_read has produced. */
  datatype Unit = Unit(first: nat, next: nat, spec: map<nat, nat>, used: set<nat>, results: seq<nat>)

  /** new_counter: Counter<__COUNTER__> is specialised with value 0. */
  function Declare(counter: nat): Unit {
    Unit(counter, counter + 1, map[counter := 0], {}, [])
  }

  /** The primary template: Counter<n>::value is Counter<n-1>::value until a specialisation is met. */
  function Value(u: Unit, n: nat): nat
    requires u.first in u.spec && u.first <= n
    decreases n
  {
    if n in u.spec then u.spec[n] else Value(u, n - 1)
  }

  /** The indices that evaluating Counter<n>::value instantiates. */
  function Walk(u: Unit, n: nat): set<nat>
    requires u.first in u.spec && u.first <= n
    decreases n
  {
    if n in u.spec then {n} else {n} + Walk(u, n - 1)
  }

  ghost predicate Sane(u: Unit) {
    && u.first in u.spec && u.first < u.next
    && (forall n | n in u.spec :: u.first <= n < u.next)
    && (forall n | n in u.used :: u.first <= n < u.next)
  }

  function Next(u: Unit, e: Use): Unit
    requires u.first in u.spec && u.first < u.next
  {
    match e
    case Elsewhere => u.(next := u.next + 1)
    case Read => u.(next := u.next + 1, used := u.used + Walk(u, u.next), results := u.results + [Value(u, u.next)])
    case Increment =>
      // Counter<c> with value Counter<(c+1)-2>::value + 1, two uses of __COUNTER__.
      u.(next := u.next + 2, used := u.used + Walk(u, u.next - 1), spec := u.spec[u.next := Value(u, u.next - 1) + 1])
  }

  function Run(u: Unit, es: seq<Use>): Unit
    requires Sane(u)
    decreases |es|
  {
    if es == [] then u else
      StepKeepsSane(u, es[0]);
      Run(Next(u, es[0]), es[1..])
  }

  lemma {:induction false} WalkStaysBelow(u: Unit, n: nat)
    requires u.first in u.spec && u.first <= n
    ensures forall k | k in Walk(u, n) :: u.first <= k <= n
    ensures exists k :: k in Walk(u, n) && k in u.spec
    decreases n
  {
    if n !in u.spec { WalkStaysBelow(u, n - 1); }
  }

  lemma {:induction false} WalkIs(u: Unit, n: nat, k: nat)
    requires u.first in u.spec && u.first <= n
    ensures k in Walk(u, n) <==> u.first <= k <= n && forall j | k < j <= n :: j !in u.spec
    decreases n
  {
    if n !in u.spec { WalkIs(u, n - 1, k); }
  }

  lemma {:induction false} ValueIs(u: Unit, n: nat, k: nat)
    requires u.first in u.spec && u.first <= k <= n && k in u.spec && forall j | k < j <= n :: j !in u.spec
    ensures Value(u, n) == u.spec[k]
    decreases n
  {
    if k < n { ValueIs(u, n - 1, k); }
  }

  /** k is instantiated when Counter<n>::value is: it lies between n and the nearest specialisation at or below n. */
  predicate Met(u: Unit, n: nat, k: nat) {
    u.first <= k <= n && forall j | k < j <= n :: j !in u.spec
  }

  /** A use of __COUNTER__ by this counter instantiates exactly the indices from the one it names down to the nearest
      specialisation, and the value it sees is the one written there. */
  lemma UseInstantiates(u: Unit, e: Use, near: nat)
    requires Sane(u) && !e.Elsewhere?
    requires near in u.spec && Met(u, if e.Read? then u.next else u.next - 1, near)
    ensures forall k: nat ::
              k in Next(u, e).used <==> k in u.used || Met(u, if e.Read? then u.next else u.next - 1, k)
    ensures if e.Read? then Next(u, e).results == u.results + [u.spec[near]] && Next(u, e).spec == u.spec
            else Next(u, e).spec == u.spec[u.next := u.spec[near] + 1] && Next(u, e).results == u.results
  {
    var n := if e.Read? then u.next else u.next - 1;
    forall k: nat ensures k in Walk(u, n) <==> Met(u, n, k) { WalkIs(u, n, k); }
    ValueIs(u, n, near);
  }

  lemma StepKeepsSane(u: Unit, e: Use)
    requires Sane(u)
    ensures Sane(Next(u, e))
  {
    WalkStaysBelow(u, u.next);
    WalkStaysBelow(u, u.next - 1);
  }

  function Increments(es: seq<Use>): nat {
    if es == [] then 0 else Increments(es[1..]) + if es[0].Increment? then 1 else 0
  }

  /** How often a use takes the next value of __COUNTER__. */
  function Takes(es: seq<Use>): nat {
    if es == [] then 0 else Takes(es[1..]) + if es[0].Increment? then 2 else 1
  }

  /** __COUNTER__ goes up by one each time it is named, whoever names it. */
  lemma {:induction false} RunTakes(u: Unit, es: seq<Use>)
    requires Sane(u)
    ensures Run(u, es).next == u.next + Takes(es) && Run(u, es).first == u.first
    decreases |es|
  {
    if es != [] {
      StepKeepsSane(u, es[0]);
      RunTakes(Next(u, es[0]), es[1..]);
    }
  }

  /** What every counter_read should give: the number of counter_inc before it. */
  function Expected(es: seq<Use>, k: nat): seq<nat> {
    if es == [] then [] else
      match es[0]
      case Read => [k] + Expected(es[1..], k)
      case Increment => Expected(es[1..], k + 1)
      case Elsewhere => Expected(es[1..], k)
  }

  /** From any point on, an index not yet specialised or behind sees the current value. */
  lemma CurrentValue(u: Unit, e: Use)
    requires Sane(u)
    ensures Value(u, u.next) == Value(u, u.next - 1)
    ensures var u' := Next(u, e);
            Value(u', u'.next - 1) == Value(u, u.next - 1) + if e.Increment? then 1 else 0
  {
    var u' := Next(u, e);
    match e
    case Increment =>
      assert u.next + 1 !in u'.spec;
      assert Value(u', u.next + 1) == Value(u', u.next);
    case _ =>
      assert u'.spec == u.spec;
      SameSpec(u, u', u.next);
  }

  lemma {:induction false} SameSpec(u: Unit, v: Unit, n: nat)
    requires u.first in u.spec && u.first <= n && u.first == v.first && u.spec == v.spec
    ensures Value(u, n) == Value(v, n)
    decreases n
  {
    if n !in u.spec { SameSpec(u, v, n - 1); }
  }

  lemma {:induction false} RunCounts(u: Unit, es: seq<Use>)
    requires Sane(u)
    ensures Run(u, es).results == u.results + Expected(es, Value(u, u.next - 1))
    decreases |es|
  {
    if es != [] {
      CurrentValue(u, es[0]);
      StepKeepsSane(u, es[0]);
      RunCounts(Next(u, es[0]), es[1..]);
    }
  }

  /** Whatever else uses __COUNTER__ in between, each counter_read yields the number of counter_inc before it. */
  lemma ReadsCountIncrements(counter: nat, es: seq<Use>)
    ensures Sane(Declare(counter)) && Run(Declare(counter), es).results == Expected(es, 0)
  {
    RunCounts(Declare(counter), es);
  }

  /** register_type is one read followed by one increment. */
  function Registrations(gaps: seq<(nat, nat)>): seq<Use> {
    if gaps == [] then [] else
      Noise(gaps[0].0) + [Read] + Noise(gaps[0].1) + [Increment] + Registrations(gaps[1..])
  }

  function Noise(n: nat): seq<Use> {
    seq(n, _ => Elsewhere)
  }

  lemma {:induction false} ExpectedNoise(n: nat, es: seq<Use>, k: nat)
    ensures Expected(Noise(n) + es, k) == Expected(es, k)
  {
    if n == 0 {
      assert Noise(0) + es == es;
    } else {
      assert (Noise(n) + es)[1..] == Noise(n - 1) + es;
      ExpectedNoise(n - 1, es, k);
    }
  }

  lemma {:induction false} ExpectedRegistrations(gaps: seq<(nat, nat)>, k: nat)
    ensures Expected(Registrations(gaps), k) == seq(|gaps|, i requires 0 <= i => k + i)
  {
    if gaps != [] {
      var rest := Registrations(gaps[1..]);
      var tail := [Increment] + rest;
      var body := [Read] + (Noise(gaps[0].1) + tail);
      assert Registrations(gaps) == Noise(gaps[0].0) + body;
      ExpectedNoise(gaps[0].0, body, k);
      ExpectedNoise(gaps[0].1, tail, k);
      assert body[1..] == Noise(gaps[0].1) + tail && tail[1..] == rest;
      ExpectedRegistrations(gaps[1..], k + 1);
    }
  }

  /** The k-th register_type reads k, for any number of other uses of __COUNTER__ around and inside it. */
  lemma KthRegistrationReadsK(counter: nat, gaps: seq<(nat, nat)>, k: nat)
    requires k < |gaps|
    ensures Sane(Declare(counter))
    ensures var results := Run(Declare(counter), Registrations(gaps)).results; |results| == |gaps| && results[k] == k
  {
    ReadsCountIncrements(counter, Registrations(gaps));
    ExpectedRegistrations(gaps, 0);
  }

  /** No index is specialised after it was instantiated, and every walk ends at a specialisation. */
  lemma SpecialisationComesFirst(counter: nat, es: seq<Use>, e: Use)
    ensures Sane(Declare(counter))
    ensures var u := Run(Declare(counter), es);
            && Sane(u) && u.next !in u.used && u.next !in u.spec
            && (e.Increment? ==> u.next !in Next(u, e).used)
            && (exists n :: n in Walk(u, u.next) && n in u.spec)
  {
    RunKeepsSane(Declare(counter), es);
    var u := Run(Declare(counter), es);
    WalkStaysBelow(u, u.next - 1);
    WalkStaysBelow(u, u.next);
  }

  lemma {:induction false} RunKeepsSane(u: Unit, es: seq<Use>)
    requires Sane(u)
    ensures Sane(Run(u, es))
    decreases |es|
  {
    if es != [] {
      StepKeepsSane(u, es[0]);
      RunKeepsSane(Next(u, es[0]), es[1..]);
    }
  }
}
