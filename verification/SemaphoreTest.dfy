/** semaphore.cpp: threads that loop on `wait` and `notify` around a shared counter, and an owner that tears the
    semaphore down while they run. */
module SemaphoreTest {
  import opened Common
  import S = Semaphores

  datatype Actor = Thread(i: nat) | Owner

  /** Where a thread stands in its loop. `AtAssert` is between --c and ++c, where the test asserts c >= 0. */
  datatype Place = AtWait | Granted | AtAssert | Restored | Left

  datatype State = State(ts: seq<Place>, sem: S.Sem<Actor>, c: int)

  datatype Event =
    | Advance(i: nat)
    | Post(i: nat, wake: Option<Actor>)
    | Rouse(i: nat)
    | OwnerLocks
    | OwnerTearsDown

  function Initial(permits: nat, threads: nat): State {
    State(seq(threads, _ => AtWait), S.Initial(permits), permits)
  }

  predicate ThreadEnabled(s: State, i: nat) {
    i < |s.ts| &&
    match s.ts[i]
    case AtWait => s.sem.owner == Some(Thread(i)) || S.CanLock(s.sem, Thread(i))
    case Granted => true
    case AtAssert => true
    case Restored => S.CanLock(s.sem, Thread(i))
    case Left => false
  }

  function WaitStep(s: State, i: nat): State
    requires i < |s.ts|
  {
    var s' := s.(sem := S.Check(s.sem, Thread(i)));
    match S.Verdict(s.sem)
    case Slept => s'
    case Returned(ok) => s'.(ts := s.ts[i := if ok then Granted else Left])
  }

  function ThreadStep(s: State, i: nat): State
    requires ThreadEnabled(s, i)
  {
    match s.ts[i]
    case AtWait => if s.sem.owner == Some(Thread(i)) then WaitStep(s, i) else s.(sem := S.Lock(s.sem, Thread(i)))
    case Granted => s.(ts := s.ts[i := AtAssert], c := s.c - 1)
    case AtAssert => s.(ts := s.ts[i := Restored], c := s.c + 1)
    case Restored => s.(sem := S.Lock(s.sem, Thread(i)))
  }

  predicate Enabled(s: State, e: Event) {
    match e
    case Advance(i) => ThreadEnabled(s, i)
    case Post(i, wake) =>
      i < |s.ts| && s.ts[i].Restored? && s.sem.owner == Some(Thread(i)) && S.CanPick(s.sem, wake)
    case Rouse(i) => Thread(i) in s.sem.asleep
    case OwnerLocks => S.CanLock(s.sem, Owner) && s.sem.running
    case OwnerTearsDown => s.sem.owner == Some(Owner)
  }

  function Next(s: State, e: Event): State
    requires Enabled(s, e)
  {
    match e
    case Advance(i) => ThreadStep(s, i)
    case Post(i, wake) => s.(ts := s.ts[i := AtWait], sem := S.Notify(s.sem, wake))
    case Rouse(i) => s.(sem := S.Spurious(s.sem, Thread(i)))
    case OwnerLocks => s.(sem := S.Lock(s.sem, Owner))
    case OwnerTearsDown => s.(sem := S.Teardown(s.sem))
  }

  predicate Runs(s: State, es: seq<Event>, s': State)
    decreases |es|
  {
    if es == [] then s == s' else Enabled(s, es[0]) && Runs(Next(s, es[0]), es[1..], s')
  }

  // ----- the permit bound

  /** Between a true `wait` and the end of the matching `notify`. */
  function Holds(p: Place): nat {
    if p.Granted? || p.AtAssert? || p.Restored? then 1 else 0
  }

  function Took(p: Place): nat {
    if p.AtAssert? then 1 else 0
  }

  ghost predicate Inv(s: State, permits: nat) {
    && S.Inv(s.sem)
    && s.c == permits - Sum(s.ts, Took)
    && Sum(s.ts, Holds) <= permits
    && (s.sem.running ==> s.sem.count + Sum(s.ts, Holds) == permits && forall i | 0 <= i < |s.ts| :: !s.ts[i].Left?)
  }

  /** Where the threads the semaphore knows about stand. */
  ghost predicate PlaceInv(s: State) {
    && (forall i: nat | Thread(i) in s.sem.asleep :: i < |s.ts| && s.ts[i].AtWait?)
    && (forall i: nat | Thread(i) in s.sem.woken :: i < |s.ts| && s.ts[i].AtWait?)
    && Owner !in s.sem.asleep && Owner !in s.sem.woken
    && (forall i: nat | s.sem.owner == Some(Thread(i)) :: i < |s.ts| && (s.ts[i].AtWait? || s.ts[i].Restored?))
    && (s.sem.owner == Some(Owner) ==> s.sem.running)
  }

  lemma Moves(s: State, i: nat, p: Place)
    requires i < |s.ts|
    ensures Sum(s.ts[i := p], Holds) + Holds(s.ts[i]) == Sum(s.ts, Holds) + Holds(p)
    ensures Sum(s.ts[i := p], Took) + Took(s.ts[i]) == Sum(s.ts, Took) + Took(p)
  {
    SumUpdate(s.ts, Holds, i, p);
    SumUpdate(s.ts, Took, i, p);
  }

  lemma WaitKeepsInv(s: State, i: nat, permits: nat)
    requires permits < WORD && Inv(s, permits) && i < |s.ts| && s.ts[i].AtWait? && s.sem.owner == Some(Thread(i))
    ensures Inv(WaitStep(s, i), permits)
  {
    S.CheckKeepsInv(s.sem, Thread(i));
    Moves(s, i, Granted);
    Moves(s, i, Left);
  }

  lemma ThreadKeepsInv(s: State, i: nat, permits: nat)
    requires permits < WORD && Inv(s, permits) && ThreadEnabled(s, i)
    ensures Inv(ThreadStep(s, i), permits)
  {
    match s.ts[i]
    case AtWait => if s.sem.owner == Some(Thread(i)) { WaitKeepsInv(s, i, permits); }
    case Granted => Moves(s, i, AtAssert);
    case AtAssert => Moves(s, i, Restored);
    case Restored =>
  }

  lemma PostKeepsInv(s: State, i: nat, wake: Option<Actor>, permits: nat)
    requires permits < WORD && Inv(s, permits) && Enabled(s, Post(i, wake))
    ensures Inv(Next(s, Post(i, wake)), permits)
  {
    S.NotifyKeepsInv(s.sem, wake);
    Moves(s, i, AtWait);
  }

  lemma StepKeepsInv(s: State, e: Event, permits: nat)
    requires permits < WORD && Inv(s, permits) && Enabled(s, e)
    ensures Inv(Next(s, e), permits)
  {
    match e
    case Advance(i) => ThreadKeepsInv(s, i, permits);
    case Post(i, wake) => PostKeepsInv(s, i, wake, permits);
    case Rouse(i) => S.SpuriousKeepsInv(s.sem, Thread(i));
    case _ =>
  }

  lemma StepKeepsPlaces(s: State, e: Event)
    requires S.Inv(s.sem) && PlaceInv(s) && Enabled(s, e)
    ensures PlaceInv(Next(s, e))
  {
  }

  lemma {:induction false} RunKeepsInv(s: State, es: seq<Event>, s': State, permits: nat)
    requires permits < WORD && Inv(s, permits) && PlaceInv(s) && Runs(s, es, s')
    ensures Inv(s', permits) && PlaceInv(s')
    decreases |es|
  {
    if es != [] {
      StepKeepsInv(s, es[0], permits);
      StepKeepsPlaces(s, es[0]);
      RunKeepsInv(Next(s, es[0]), es[1..], s', permits);
    }
  }

  lemma ReachableInv(permits: nat, threads: nat, es: seq<Event>, s: State)
    requires permits < WORD && Runs(Initial(permits, threads), es, s)
    ensures Inv(s, permits) && PlaceInv(s)
  {
    var s0 := Initial(permits, threads);
    SumZero(s0.ts, Holds);
    SumZero(s0.ts, Took);
    RunKeepsInv(s0, es, s, permits);
  }

  /** At most `permits` threads are between a true `wait` and the matching `notify`, and the asserted counter stays
      between 0 and `permits`: in every state of every run, also after teardown, when count_ may have wrapped. */
  lemma PermitBound(permits: nat, threads: nat, es: seq<Event>, s: State)
    requires permits < WORD && Runs(Initial(permits, threads), es, s)
    ensures Sum(s.ts, Holds) <= permits
    ensures 0 <= s.c <= permits
    ensures s.sem.running ==> s.sem.count + Sum(s.ts, Holds) == permits
    ensures (forall i | 0 <= i < |s.ts| :: s.ts[i].Left?) ==> s.c == permits
  {
    ReachableInv(permits, threads, es, s);
    forall i | 0 <= i < |s.ts| ensures Took(s.ts[i]) <= Holds(s.ts[i]) {}
    SumMonotone(s.ts, Took, Holds);
    if forall i | 0 <= i < |s.ts| :: s.ts[i].Left? { SumZero(s.ts, Took); }
  }

  /** The owner's teardown, and nothing else, stops the semaphore; no thread is added or removed. */
  lemma {:induction false} RunsUntilTeardown(s: State, es: seq<Event>, s': State)
    requires s.sem.running && Runs(s, es, s')
    ensures s'.sem.running <==> OwnerTearsDown !in es
    ensures |s'.ts| == |s.ts|
    decreases |es|
  {
    if es != [] {
      var m := Next(s, es[0]);
      if m.sem.running { RunsUntilTeardown(m, es[1..], s'); } else { StaysDown(m, es[1..], s'); }
    }
  }

  lemma {:induction false} StaysDown(s: State, es: seq<Event>, s': State)
    requires !s.sem.running && Runs(s, es, s')
    ensures !s'.sem.running && |s'.ts| == |s.ts|
    decreases |es|
  {
    if es != [] { StaysDown(Next(s, es[0]), es[1..], s'); }
  }

  // ----- progress

  lemma SomeThreadIsAwake(s: State, permits: nat)
    requires 0 < permits < WORD && Inv(s, permits) && PlaceInv(s) && s.ts != []
    ensures exists i: nat :: i < |s.ts| && Thread(i) !in s.sem.asleep
  {
    if forall i: nat | i < |s.ts| :: Thread(i) in s.sem.asleep {
      assert Thread(0) in s.sem.asleep;
      assert s.sem.woken == {} by {
        forall a ensures a !in s.sem.woken {
          match a
          case Thread(i) => assert i < |s.ts| ==> Thread(i) in s.sem.asleep;
          case Owner =>
        }
      }
      forall i | 0 <= i < |s.ts| ensures Holds(s.ts[i]) == 0 { assert Thread(i) in s.sem.asleep; }
      SumZero(s.ts, Holds);
      assert false;
    }
  }

  /** With at least one permit and one thread the test never gets stuck: until every thread has left, a step other than
      a spurious wake-up is enabled. */
  lemma TestNeverStalls(permits: nat, threads: nat, es: seq<Event>, s: State)
    requires 0 < permits < WORD && Runs(Initial(permits, threads), es, s)
    requires exists i: nat :: i < |s.ts| && !s.ts[i].Left?
    ensures exists e :: Enabled(s, e) && !e.Rouse? && e != OwnerLocks
  {
    ReachableInv(permits, threads, es, s);
    if s.sem.owner == Some(Owner) {
      assert Enabled(s, OwnerTearsDown);
    } else if s.sem.owner.Some? {
      var i := s.sem.owner.value.i;
      if s.ts[i].AtWait? {
        assert Enabled(s, Advance(i));
      } else if s.sem.asleep == {} {
        assert Enabled(s, Post(i, None));
      } else {
        var x :| x in s.sem.asleep;
        assert Enabled(s, Post(i, Some(x)));
      }
    } else if s.sem.running {
      SomeThreadIsAwake(s, permits);
      var i: nat :| i < |s.ts| && Thread(i) !in s.sem.asleep;
      assert Enabled(s, Advance(i));
    } else {
      var i: nat :| i < |s.ts| && !s.ts[i].Left?;
      assert Enabled(s, Advance(i));
    }
  }

  // ----- the joins at the end

  /** Sections a thread still needs once `wait` can only answer false. */
  function SectionsLeft(p: Place): nat {
    match p case Granted => 6 case AtAssert => 5 case Restored => 4 case AtWait => 2 case Left => 0
  }

  function Remaining(s: State): int {
    Sum(s.ts, SectionsLeft) - if s.sem.owner.Some? then 1 else 0
  }

  lemma WaitDrains(s: State, i: nat)
    requires !s.sem.running && i < |s.ts| && s.ts[i].AtWait? && s.sem.owner == Some(Thread(i))
    ensures Remaining(WaitStep(s, i)) == Remaining(s) - 1
  {
    SumUpdate(s.ts, SectionsLeft, i, Left);
  }

  lemma DrainDecreases(s: State, e: Event)
    requires S.Inv(s.sem) && PlaceInv(s) && !s.sem.running && Enabled(s, e)
    ensures !Next(s, e).sem.running && Remaining(Next(s, e)) == Remaining(s) - 1
  {
    match e
    case Advance(i) =>
      if s.ts[i].AtWait? && s.sem.owner == Some(Thread(i)) {
        WaitDrains(s, i);
      } else {
        SumUpdate(s.ts, SectionsLeft, i, ThreadStep(s, i).ts[i]);
        assert s.ts[i := s.ts[i]] == s.ts;
      }
    case Post(i, _) => SumUpdate(s.ts, SectionsLeft, i, AtWait);
    case _ =>
  }

  lemma DrainNeverStalls(s: State, i: nat)
    requires S.Inv(s.sem) && PlaceInv(s) && !s.sem.running && i < |s.ts| && !s.ts[i].Left?
    ensures exists e :: Enabled(s, e)
  {
    if s.sem.owner.Some? {
      var j := s.sem.owner.value.i;
      if s.ts[j].AtWait? { assert Enabled(s, Advance(j)); } else { assert Enabled(s, Post(j, None)); }
    } else {
      assert Enabled(s, Advance(i));
    }
  }

  /** After teardown the loops end: no run is longer than a bound known at teardown, and one that cannot be continued
      has every thread out of its loop, so that every join returns. */
  lemma {:induction false} EveryThreadLeaves(s: State, es: seq<Event>, s': State, permits: nat)
    requires permits < WORD && Inv(s, permits) && PlaceInv(s) && !s.sem.running && Runs(s, es, s')
    ensures |es| <= Remaining(s)
    ensures (forall e :: !Enabled(s', e)) ==> forall i | 0 <= i < |s'.ts| :: s'.ts[i].Left?
    decreases |es|
  {
    if es != [] {
      DrainDecreases(s, es[0]);
      StepKeepsInv(s, es[0], permits);
      StepKeepsPlaces(s, es[0]);
      EveryThreadLeaves(Next(s, es[0]), es[1..], s', permits);
    } else {
      if s.sem.owner.Some? { SumAtLeast(s.ts, SectionsLeft, s.sem.owner.value.i); }
      if i: nat :| i < |s.ts| && !s.ts[i].Left? { DrainNeverStalls(s, i); }
    }
  }
}
