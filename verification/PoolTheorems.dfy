/** What the thread pool guarantees over every run. */
module PoolTheorems {
  import opened Common
  import opened Pool
  import opened PoolInvariant
  import S = Semaphores

  ghost predicate Reachable<T>(clients: nat, es: seq<Event<T>>, s: State<T>) {
    Runs(Initial(clients), es, s)
  }

  lemma ReachableInv<T>(clients: nat, es: seq<Event<T>>, s: State<T>)
    requires Reachable(clients, es, s)
    ensures Inv(s)
  {
    InitialInv<T>(clients);
    RunKeepsInv(Initial<T>(clients), es, s);
  }

  // ----- accounting

  /** An assigner between push and notify holds lock_, so there is at most one. */
  predicate Unpublished<T>(s: State<T>) {
    s.lock.Some? && CallOf(s, s.lock.value).Pushed?
  }

  lemma {:induction false} SumOfOne<A>(xs: seq<A>, weight: A -> nat, k: nat)
    requires forall i | 0 <= i < |xs| && i != k :: weight(xs[i]) == 0
    ensures Sum(xs, weight) == if k < |xs| then weight(xs[k]) else 0
  {
    if xs == [] {
    } else if k == 0 {
      SumZero(xs[1..], weight);
    } else {
      SumOfOne(xs[1..], weight, k - 1);
    }
  }

  function PendingOf<T>(w: Worker<T>): nat {
    if w.Running? then Unposted(w.call) else 0
  }

  lemma {:induction false} OwesSplits<T>(ws: seq<Worker<T>>)
    ensures Sum(ws, Owes) == Sum(ws, Claims) + Sum(ws, PendingOf)
  {
    if ws != [] { OwesSplits(ws[1..]); }
  }

  lemma OnePending<T>(s: State<T>)
    requires LockInv(s)
    ensures Sum(s.ws, PendingOf) + Sum(s.cs, Unposted) == if Unpublished(s) then 1 else 0
  {
    var i := if s.lock.Some? && s.lock.value.W? then s.lock.value.i else |s.ws|;
    var j := if s.lock.Some? && s.lock.value.C? then s.lock.value.j else |s.cs|;
    forall k | 0 <= k < |s.ws| && k != i ensures PendingOf(s.ws[k]) == 0 {
      assert !HoldsLock(s, W(k));
    }
    forall k | 0 <= k < |s.cs| && k != j ensures Unposted(s.cs[k]) == 0 {
      assert !HoldsLock(s, C(k));
    }
    SumOfOne(s.ws, PendingOf, i);
    SumOfOne(s.cs, Unposted, j);
  }

  /** Until teardown, permits, workers that own one, and the task being published add up to the queue. */
  lemma PermitsMatchTasks<T>(clients: nat, es: seq<Event<T>>, s: State<T>)
    requires Reachable(clients, es, s)
    ensures s.sem.running ==>
              s.sem.count + Sum(s.ws, Claims) + (if Unpublished(s) then 1 else 0) == |s.tasks|
    ensures s.waiting == Sum(s.ws, Counted)
  {
    ReachableInv(clients, es, s);
    OwesSplits(s.ws);
    OnePending(s);
  }

  /** front and pop never meet an empty queue. */
  lemma PopNeverMeetsEmptyQueue<T>(clients: nat, es: seq<Event<T>>, s: State<T>, i: nat)
    requires Reachable(clients, es, s) && i < |s.ws| && s.ws[i].AtQueue?
    ensures s.tasks != [] && WorkerEnabled(s, i)
  {
    ReachableInv(clients, es, s);
    SumAtLeast(s.ws, Owes, i);
  }

  lemma PusherLeftATask<T>(s: State<T>, a: Actor)
    requires Inv(s) && s.sem.running && CallOf(s, a).Pushed?
    ensures s.sem.count + 1 <= |s.tasks|
  {
    if a.W? {
      SumAtLeast(s.ws, Owes, a.i);
    } else {
      SumAtLeast(s.cs, Unposted, a.j);
    }
  }

  lemma NotifyExact<T>(s: State<T>, a: Actor, wake: Option<Actor>)
    requires Inv(s) && s.sem.running && Enabled(s, Post(a, wake))
    ensures Next(s, Post(a, wake)).sem.count == s.sem.count + 1 <= |s.tasks|
  {
    PusherLeftATask(s, a);
  }

  /** While the semaphore runs ++count_ never wraps ... */
  lemma NotifyNeverWraps<T>(clients: nat, es: seq<Event<T>>, s: State<T>, a: Actor, wake: Option<Actor>)
    requires Reachable(clients, es, s) && Enabled(s, Post(a, wake)) && s.sem.running
    ensures Next(s, Post(a, wake)).sem.count == s.sem.count + 1 <= |s.tasks|
  {
    ReachableInv(clients, es, s);
    NotifyExact(s, a, wake);
  }

  /** ... and neither does --count_: a worker takes a permit exactly when there is one. */
  lemma WaitNeverWraps<T>(clients: nat, es: seq<Event<T>>, s: State<T>, i: nat)
    requires Reachable(clients, es, s) && s.sem.running
    requires i < |s.ws| && s.ws[i].Waiting? && s.sem.owner == Some(W(i))
    ensures var s' := Next(s, Advance(W(i)));
            if s.sem.count > 0 then s'.ws[i].Claimed? && s'.sem.count == s.sem.count - 1
            else W(i) in s'.sem.asleep && s'.sem.count == 0
  {
    ReachableInv(clients, es, s);
  }

  // ----- exactly once, in order

  lemma ExactlyOnceInOrder<T>(clients: nat, es: seq<Event<T>>, s: State<T>)
    requires Reachable(clients, es, s)
    ensures s.pushed == s.popped + s.tasks
    ensures multiset(s.popped) == Gather(s.ws, InHand) + s.done
  {
    ReachableInv(clients, es, s);
  }

  // ----- occupy

  predicate Unforced<T>(call: Call<T>) {
    (call.WantLock? || call.Locked?) ==> !call.op.Assign?
  }

  /** Nobody is inside `assign`. */
  ghost predicate NobodyAssigns<T>(s: State<T>) {
    && (forall i | 0 <= i < |s.ws| && s.ws[i].Running? :: Unforced(s.ws[i].call))
    && (forall j | 0 <= j < |s.cs| :: Unforced(s.cs[j]))
  }

  predicate StartsAssign<T>(e: Event<T>) {
    e.Begin? && e.op.Assign?
  }

  lemma CallKeepsQueueShort<T>(s: State<T>, a: Actor)
    requires NobodyAssigns(s) && |s.tasks| <= |s.ws| + 1 && CallEnabled(s, a)
    ensures NobodyAssigns(CallStep(s, a)) && |CallStep(s, a).tasks| <= |CallStep(s, a).ws| + 1
  {
  }

  lemma StepKeepsQueueShort<T>(s: State<T>, e: Event<T>)
    requires NobodyAssigns(s) && |s.tasks| <= |s.ws| + 1 && Enabled(s, e) && !StartsAssign(e)
    ensures NobodyAssigns(Next(s, e)) && |Next(s, e).tasks| <= |Next(s, e).ws| + 1
  {
    if e.Advance? && (e.a.C? || (e.a.W? && s.ws[e.a.i].Running?)) {
      CallKeepsQueueShort(s, e.a);
    }
  }

  lemma {:induction false} RunKeepsQueueShort<T>(s: State<T>, es: seq<Event<T>>, s': State<T>)
    requires NobodyAssigns(s) && |s.tasks| <= |s.ws| + 1 && Runs(s, es, s')
    requires forall e | e in es :: !StartsAssign(e)
    ensures |s'.tasks| <= |s'.ws| + 1
    decreases |es|
  {
    if es != [] {
      StepKeepsQueueShort(s, es[0]);
      RunKeepsQueueShort(Next(s, es[0]), es[1..], s');
    }
  }

  /** Callers that only ever use `occupy` keep the queue at most one longer than the number of threads, however their
      looks at the queue, the pushes, the pops and the spawns interleave. */
  lemma OccupyBoundsTheQueue<T>(clients: nat, es: seq<Event<T>>, s: State<T>)
    requires Reachable(clients, es, s) && forall e | e in es :: !StartsAssign(e)
    ensures |s.tasks| <= |s.ws| + 1
  {
    RunKeepsQueueShort(Initial<T>(clients), es, s);
  }

  // ----- shutdown

  predicate PastTheLoop<T>(s: State<T>) {
    s.main.Tearing? || s.main.Joining? || s.main.Done?
  }

  /** cleanup has, under one hold of lock_, read waiting_ == threads_.size() and finds the queue empty. */
  predicate ExitTestSucceeds<T>(s: State<T>) {
    s.main.SawAll? && s.tasks == []
  }

  lemma NothingInHand<T>(s: State<T>)
    requires AllStopping(s) && InOrder(s) && InHands(s) && s.tasks == []
    ensures Gather(s.ws, InHand) == multiset{} && s.done == multiset(s.pushed) && s.popped == s.pushed
  {
    GatherEmpty(s.ws, InHand);
  }

  /** Teardown is safe: from the moment the exit test succeeds on, everything ever assigned, from outside or from
      inside func_, has been popped and its call of func_ has returned; nothing is left in the queue or in a hand. */
  lemma SafeShutdown<T>(clients: nat, es: seq<Event<T>>, s: State<T>)
    requires Reachable(clients, es, s) && (ExitTestSucceeds(s) || PastTheLoop(s))
    ensures s.tasks == [] && s.popped == s.pushed && s.done == multiset(s.pushed)
    ensures Gather(s.ws, InHand) == multiset{} && AllStopping(s)
    ensures s.main.Done? ==> forall i | 0 <= i < |s.ws| :: s.ws[i].Exited?
  {
    ReachableInv(clients, es, s);
    NothingInHand(s);
  }

  /** The same of any state that satisfies the invariant, and the guarantees about the queue. */
  lemma InvariantGuarantees<T>(s: State<T>)
    requires Inv(s)
    ensures s.pushed == s.popped + s.tasks && multiset(s.popped) == Gather(s.ws, InHand) + s.done
    ensures forall i | 0 <= i < |s.ws| && s.ws[i].AtQueue? :: s.tasks != []
    ensures ExitTestSucceeds(s) || PastTheLoop(s) ==>
              s.tasks == [] && s.popped == s.pushed && s.done == multiset(s.pushed) && AllStopping(s)
    ensures s.main.Done? ==> forall i | 0 <= i < |s.ws| :: s.ws[i].Exited?
  {
    forall i: nat | i < |s.ws| && s.ws[i].AtQueue? ensures s.tasks != [] {
      SumAtLeast(s.ws, Owes, i);
    }
    if ExitTestSucceeds(s) || PastTheLoop(s) {
      NothingInHand(s);
    }
  }

  /** The two facts cleanup reads, which are not updated together, do mean quiescence. */
  lemma ExitTestIsExact<T>(clients: nat, es: seq<Event<T>>, s: State<T>)
    requires Reachable(clients, es, s) && s.sem.running
    ensures AllCounted(s) && s.tasks == [] <==> AllWaiting(s) && s.tasks == []
  {
    ReachableInv(clients, es, s);
    CountedExactly(s);
    if s.tasks == [] { OwesNothing(s); }
  }

  // ----- quiescence

  predicate Quiescent<T>(s: State<T>) {
    s.sem.running && !s.main.Owner? && AllWaiting(s) && s.tasks == []
  }

  /** Quiescent, or torn down after having been so. */
  predicate Settled<T>(s: State<T>) {
    Quiescent(s) || !s.sem.running
  }

  lemma SettledWorker<T>(s: State<T>, i: nat)
    requires Inv(s) && Settled(s) && WorkerEnabled(s, i)
    ensures var s' := WorkerStep(s, i);
            Settled(s') && s'.pushed == s.pushed && s'.done == s.done && s'.main == s.main
  {
  }

  lemma SettledMain<T>(s: State<T>)
    requires Inv(s) && Settled(s) && MainEnabled(s)
    ensures var s' := MainStep(s);
            Settled(s') && s'.pushed == s.pushed && s'.done == s.done && !s.main.Sleeping?
  {
  }

  lemma SettledPost<T>(s: State<T>, a: Actor)
    requires Inv(s) && Settled(s)
    ensures CallOf(s, a).Idle? && !MayCall(s, a)
  {
  }

  lemma SettledStep<T>(s: State<T>, e: Event<T>)
    requires Inv(s) && Settled(s) && Enabled(s, e)
    ensures var s' := Next(s, e);
            && Settled(s') && s'.pushed == s.pushed && s'.done == s.done
            && (s.main.Sleeping? && e != Timeout && e != RouseMain ==> s'.main.Sleeping?)
  {
    match e
    case Advance(W(i)) => SettledWorker(s, i);
    case Advance(Main) => SettledMain(s);
    case Begin(a, _) => SettledPost(s, a);
    case Advance(a) => SettledPost(s, a);
    case Post(a, _) => SettledPost(s, a);
    case _ =>
  }

  /** A state with every worker waiting and an empty queue is final for the workers: whatever happens, nothing is
      pushed or run any more and only cleanup's own teardown ends the waiting. */
  lemma {:induction false} QuiescenceIsClosed<T>(s: State<T>, es: seq<Event<T>>, s': State<T>)
    requires Inv(s) && Settled(s) && Runs(s, es, s')
    ensures Inv(s') && Settled(s') && s'.pushed == s.pushed && s'.done == s.done
    decreases |es|
  {
    if es != [] {
      SettledStep(s, es[0]);
      StepKeepsInv(s, es[0]);
      QuiescenceIsClosed(Next(s, es[0]), es[1..], s');
    }
  }

  /** When a worker issues no_tasks_.notify_one it is not counted in waiting_, so cleanup's test is false. */
  lemma NotifierFailsTheTest<T>(clients: nat, es: seq<Event<T>>, s: State<T>, i: nat)
    requires Reachable(clients, es, s) && i < |s.ws| && s.ws[i].Popped?
    ensures !AllCounted(s) && !AllCounted(Next(s, Advance(W(i))))
    ensures s.main.Sleeping? ==> (Next(s, Advance(W(i))).main.Poll? <==> s.tasks == [])
  {
    ReachableInv(clients, es, s);
    CountedExactly(s);
    var s' := Next(s, Advance(W(i)));
    StepKeepsInv(s, Advance(W(i)));
    CountedExactly(s');
    assert Counted(s.ws[i]) == 0 && Counted(s'.ws[i]) == 0;
  }

  /** Hence, once cleanup sleeps in a quiescent pool, only the 100 ms timeout or a spurious wake-up gets it out. */
  lemma {:induction false} OnlyThePollWakesCleanup<T>(s: State<T>, es: seq<Event<T>>, s': State<T>)
    requires Inv(s) && Quiescent(s) && s.main.Sleeping? && Runs(s, es, s')
    requires Timeout !in es && RouseMain !in es
    ensures s'.main.Sleeping? && Quiescent(s')
    decreases |es|
  {
    if es != [] {
      SettledStep(s, es[0]);
      StepKeepsInv(s, es[0]);
      OnlyThePollWakesCleanup(Next(s, es[0]), es[1..], s');
    }
  }

  lemma RunsFrom<T>(s: State<T>, e: Event<T>, es: seq<Event<T>>, s': State<T>)
    requires Enabled(s, e) && Fits(Next(s, e)) && Runs(Next(s, e), es, s')
    ensures Runs(s, [e] + es, s')
  {
  }

  /** And it does get there: here a worker starts after cleanup's first look, and nobody is left to notify. */
  lemma CleanupCanSleepInQuiescence<T>()
    ensures exists es: seq<Event<T>>, s: State<T> :: Reachable(0, es, s) && Quiescent(s) && s.main.Sleeping?
  {
    var s0 := Initial<T>(0);
    var s1 := s0.(ws := [Entry]);
    assert s0.ws + [Entry] == [Entry];
    var s2 := s1.(main := Poll);
    var s3 := s2.(main := Reading, lock := Some(Main));
    var s4 := s3.(main := Sleeping, lock := None);
    var s5 := s4.(ws := [Waiting], waiting := 1);
    RunsFrom(s4, Advance(W(0)), [], s5);
    var es4: seq<Event<T>> := [Advance(W(0))] + [];
    RunsFrom(s3, Advance(Main), es4, s5);
    var es3 := [Advance(Main)] + es4;
    RunsFrom(s2, Advance(Main), es3, s5);
    var es2 := [Advance(Main)] + es3;
    RunsFrom(s1, BeginCleanup, es2, s5);
    var es1 := [BeginCleanup] + es2;
    RunsFrom(s0, Spawn, es1, s5);
    assert Reachable(0, [Spawn] + es1, s5) && Quiescent(s5);
  }

  // ----- progress

  /** A step of the protocol itself: not a spurious wake-up, not the timeout, not a new call from outside. */
  predicate Proper<T>(e: Event<T>) {
    e.Return? || e.Advance? || e.Post?
  }

  /** The holder of mutex_ is never blocked. */
  lemma MutexHolderMoves<T>(s: State<T>) returns (e: Event<T>)
    requires Inv(s) && s.sem.owner.Some?
    ensures Proper(e) && Agent(e) == s.sem.owner.value && Enabled(s, e)
  {
    var a := s.sem.owner.value;
    if WaitsOnSemaphore(s, a) || a.Main? {
      e := Advance(a);
    } else if s.sem.asleep == {} {
      e := Post(a, None);
    } else {
      var x :| x in s.sem.asleep;
      e := Post(a, Some(x));
    }
  }

  /** The holder of lock_ is blocked by nobody but the holder of mutex_. */
  lemma LockHolderMoves<T>(s: State<T>) returns (e: Event<T>)
    requires Inv(s) && s.lock.Some? && s.sem.owner == None
    ensures Proper(e) && Agent(e) == s.lock.value && Enabled(s, e)
  {
    var a := s.lock.value;
    assert HoldsLock(s, a);
    e := Advance(a);
    if a.W? {
      SumAtLeast(s.ws, Owes, a.i);
    }
  }

  /** With both locks free, some worker can move as long as there is a task. */
  lemma SomeWorkerMoves<T>(s: State<T>) returns (e: Event<T>)
    requires Inv(s) && s.ws != [] && s.tasks != [] && s.lock == None && s.sem.owner == None
    ensures Proper(e) && Agent(e).W? && Enabled(s, e)
  {
    if i: nat :| i < |s.ws| && !s.ws[i].Waiting? {
      e := if s.ws[i].Running? && s.ws[i].call.Idle? then Return(i) else Advance(W(i));
      assert !HoldsLock(s, W(i));
    } else if i: nat :| i < |s.ws| && W(i) !in s.sem.asleep {
      e := Advance(W(i));
    } else {
      assert W(0) in s.sem.asleep;
      assert s.sem.woken == {} by {
        if a :| a in s.sem.woken { assert false; }
      }
      SumZero(s.ws, Owes);
      assert Sum(s.cs, Unposted) == 0 by {
        forall j | 0 <= j < |s.cs| ensures Unposted(s.cs[j]) == 0 { assert !HoldsLock(s, C(j)); }
        SumZero(s.cs, Unposted);
      }
      assert false;
    }
  }

  /** No deadlock between lock_ and mutex_ and no forgotten task: with a worker and a task, a worker or the holder of
      one of the locks can always take a proper step. */
  lemma PoolNeverStalls<T>(clients: nat, es: seq<Event<T>>, s: State<T>)
    requires Reachable(clients, es, s) && s.ws != [] && s.tasks != []
    ensures exists e :: Proper(e) && Enabled(s, e) &&
              (Agent(e).W? || s.lock == Some(Agent(e)) || s.sem.owner == Some(Agent(e)))
  {
    ReachableInv(clients, es, s);
    var e: Event<T>;
    if s.sem.owner.Some? {
      e := MutexHolderMoves(s);
    } else if s.lock.Some? {
      e := LockHolderMoves(s);
    } else {
      e := SomeWorkerMoves(s);
    }
  }

  // ----- after teardown

  function Unfinished<T>(w: Worker<T>): nat {
    if w.Exited? then 0 else 1
  }

  /** What is left to do after teardown: two sections of mutex_ a worker, and the joins. */
  function Remaining<T>(s: State<T>): int {
    2 * Sum(s.ws, Unfinished) - (if s.sem.owner.Some? then 1 else 0) +
    (match s.main case Joining(k) => |s.ws| - k + 1 case _ => 0)
  }

  lemma RemainingBounded<T>(s: State<T>)
    requires Inv(s) && !s.sem.running
    ensures Remaining(s) >= 0
    ensures !s.main.Done? ==> Remaining(s) > 0
  {
  }

  lemma DrainWorker<T>(s: State<T>, i: nat)
    requires Inv(s) && !s.sem.running && WorkerEnabled(s, i)
    ensures !WorkerStep(s, i).sem.running && Remaining(WorkerStep(s, i)) < Remaining(s)
  {
    SumUpdate(s.ws, Unfinished, i, Exited);
  }

  /** After teardown every enabled step, whoever takes it, brings the end closer ... */
  lemma DrainDecreases<T>(s: State<T>, e: Event<T>)
    requires Inv(s) && !s.sem.running && Enabled(s, e)
    ensures !Next(s, e).sem.running && Remaining(Next(s, e)) < Remaining(s)
  {
    match e
    case Advance(W(i)) => DrainWorker(s, i);
    case Begin(a, _) => SettledPost(s, a);
    case Advance(C(j)) => SettledPost(s, C(j));
    case Post(a, _) => SettledPost(s, a);
    case _ =>
  }

  /** ... and until cleanup is done some step is enabled. */
  lemma DrainNeverStalls<T>(s: State<T>)
    requires Inv(s) && !s.sem.running && !s.main.Done?
    ensures exists e :: Proper(e) && Enabled(s, e)
  {
    if s.sem.owner.Some? {
      var e := MutexHolderMoves(s);
    } else if s.main.k < |s.ws| && !s.ws[s.main.k].Exited? {
      assert Enabled(s, Event<T>.Advance(W(s.main.k)));
    } else {
      assert Enabled(s, Event<T>.Advance(Main));
    }
  }

  /** So after teardown every run is finite, with a bound known in advance, and a run that cannot be continued has
      joined every thread: all workers leave and cleanup returns. */
  lemma {:induction false} ShutdownTerminates<T>(s: State<T>, es: seq<Event<T>>, s': State<T>)
    requires Inv(s) && !s.sem.running && Runs(s, es, s')
    ensures |es| <= Remaining(s)
    ensures (forall e :: Proper(e) ==> !Enabled(s', e)) ==>
              s'.main.Done? && forall i | 0 <= i < |s'.ws| :: s'.ws[i].Exited?
    decreases |es|
  {
    RemainingBounded(s);
    if es != [] {
      DrainDecreases(s, es[0]);
      StepKeepsInv(s, es[0]);
      ShutdownTerminates(Next(s, es[0]), es[1..], s');
    } else if !s.main.Done? {
      DrainNeverStalls(s);
    }
  }
}
