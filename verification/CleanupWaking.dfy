/** taskmaster.h:39-43: exactly when something other than the 100 ms poll gets `cleanup` out of its wait. */
module CleanupWaking {
  import opened Common
  import opened Pool
  import opened PoolInvariant
  import opened PoolTheorems
  import S = Semaphores

  predicate Busy<T>(w: Worker<T>) {
    w.Popped? || w.Running?
  }

  /** There is a worker, and a task is queued, just popped, or being run. */
  predicate Warm<T>(s: State<T>) {
    s.ws != [] && (s.tasks != [] || exists i | 0 <= i < |s.ws| :: Busy(s.ws[i]))
  }

  /** No timeout and no spurious wake-up of cleanup. */
  ghost predicate Unprompted<T>(es: seq<Event<T>>) {
    Timeout !in es && RouseMain !in es
  }

  /** The loop of cleanup, one look at a time: having read waiting_ it goes on to the queue exactly if every worker is
      between waiting_++ and waiting_--, having looked at the queue it leaves exactly if that is empty, and otherwise it
      gives lock_ back and waits, until it is called, roused, or the time is over. */
  lemma TestEndsOrWaits<T>(clients: nat, es: seq<Event<T>>, s: State<T>)
    requires Reachable(clients, es, s)
    ensures s.main.Reading? ==>
              var s', all := Next(s, Advance(Main)), forall i | 0 <= i < |s.ws| :: s.ws[i].Waiting? || s.ws[i].Claimed?;
              if all then s'.main.SawAll? && s'.lock == Some(Main) else s'.main.Sleeping? && s'.lock == None
    ensures s.main.SawAll? ==>
              var s' := Next(s, Advance(Main));
              s'.lock == None && if s.tasks == [] then s'.main.Tearing? else s'.main.Sleeping?
    ensures s.main.Sleeping? ==> Next(s, Timeout).main.Poll? && Next(s, RouseMain).main.Poll?
  {
    ReachableInv(clients, es, s);
    CountedExactly(s);
    hide Sum, Gather;
    if s.main.Reading? {
      assert HoldsLock(s, Main);
      forall i | 0 <= i < |s.ws| ensures Counted(s.ws[i]) == 1 <==> s.ws[i].Waiting? || s.ws[i].Claimed? {}
    }
  }

  // ----- a cold pool leaves cleanup asleep

  lemma ColdWorkersRest<T>(s: State<T>, i: nat)
    requires Inv(s) && s.main.Sleeping? && !Warm(s) && i < |s.ws|
    ensures s.tasks == [] && (s.ws[i].Entry? || s.ws[i].Waiting?)
    ensures s.ws[i].Waiting? && s.sem.owner == Some(W(i)) ==> S.Verdict(s.sem).Slept?
  {
    assert !Busy(s.ws[i]);
    OwesNothing(s);
    assert Owes(s.ws[i]) == 0;
  }

  lemma ColdStep<T>(s: State<T>, e: Event<T>)
    requires Inv(s) && s.main.Sleeping? && !Warm(s) && Enabled(s, e) && e != Timeout && e != RouseMain
    ensures Next(s, e).main.Sleeping? && !Warm(Next(s, e))
  {
    hide Sum, Gather;
    if i: nat :| i < |s.ws| && Agent(e) == W(i) {
      ColdWorkersRest(s, i);
    }
  }

  lemma {:induction false} ColdRun<T>(s: State<T>, es: seq<Event<T>>, s': State<T>)
    requires Inv(s) && s.main.Sleeping? && !Warm(s) && Runs(s, es, s')
    requires Unprompted(es)
    ensures s'.main.Sleeping? && !Warm(s')
    decreases |es|
  {
    if es != [] {
      ColdStep(s, es[0]);
      StepKeepsInv(s, es[0]);
      ColdRun(Next(s, es[0]), es[1..], s');
    }
  }

  // ----- what a proper step costs

  /** The number of steps a worker can still take by itself, generously counted; a sleeper's two are taken back in
      `Work`. */
  function Effort<T>(w: Worker<T>): nat {
    match w
    case Entry => 3
    case Waiting => 2
    case Claimed => 8
    case WantQueue => 7
    case AtQueue => 6
    case Popped(_) => 5
    case Running(_, Idle) => 4
    case Running(_, WantLock(_)) => 19
    case Running(_, Locked(_)) => 18
    case Running(_, Pushed(_)) => 17
    case Running(_, Leaving(_, _)) => 5
    case Exited => 0
  }

  function Work<T>(s: State<T>): int {
    Sum(s.ws, Effort) + 8 * s.sem.count - 2 * |s.sem.asleep| - if s.sem.owner.Some? then 1 else 0
  }

  function IsWaiting<T>(w: Worker<T>): nat {
    if w.Waiting? then 1 else 0
  }

  lemma {:induction false} SleepersAreWaiting<T>(ws: seq<Worker<T>>, sleepers: set<Actor>)
    requires forall a | a in sleepers :: a.W? && a.i < |ws| && ws[a.i].Waiting?
    ensures |sleepers| <= Sum(ws, IsWaiting)
    decreases |ws|
  {
    if ws == [] {
      assert sleepers == {};
    } else {
      var k := |ws| - 1;
      assert ws == ws[..k] + [ws[k]];
      SumAppend(ws[..k], IsWaiting, ws[k]);
      SleepersAreWaiting(ws[..k], sleepers - {W(k)});
    }
  }

  lemma {:induction false} EffortCoversWaiting<T>(ws: seq<Worker<T>>)
    ensures 2 * Sum(ws, IsWaiting) <= Sum(ws, Effort)
  {
    if ws != [] { EffortCoversWaiting(ws[1..]); }
  }

  lemma WorkBounded<T>(s: State<T>)
    requires Inv(s)
    ensures Work(s) >= -1
  {
    SleepersAreWaiting(s.ws, s.sem.asleep);
    EffortCoversWaiting(s.ws);
  }

  /** Until cleanup is called back, a proper step is a step of one worker. */
  lemma ProperIsLocal<T>(s: State<T>, e: Event<T>)
    requires Inv(s) && s.main.Sleeping? && Proper(e) && Enabled(s, e)
    ensures Agent(e).W? && Agent(e).i < |s.ws|
    ensures var i := Agent(e).i; var s' := Next(s, e);
            |s'.ws| == |s.ws| && s'.ws == s.ws[i := s'.ws[i]]
  {
    hide Sum, Gather;
    var s' := Next(s, e);
    if e.Advance? && e.a.W? && s.ws[e.a.i].Running? {
      CallStepMoves(s, e.a);
    }
    assert s'.ws == s.ws[Agent(e).i := s'.ws[Agent(e).i]];
  }

  /** The part of Work that is not about the position of the worker. */
  function Rest<T>(s: State<T>): int {
    8 * s.sem.count - 2 * |s.sem.asleep| - if s.sem.owner.Some? then 1 else 0
  }

  lemma PostCosts<T>(s: State<T>, i: nat, wake: Option<Actor>)
    requires Enabled(s, Post(W(i), wake)) && Next(s, Post(W(i), wake)).sem.count == s.sem.count + 1
    ensures var s' := Next(s, Post(W(i), wake)); Effort(s'.ws[i]) + Rest(s') < Effort(s.ws[i]) + Rest(s)
  {
    if wake.Some? {
      assert |s.sem.asleep - {wake.value}| == |s.sem.asleep| - 1;
    }
  }

  lemma WaitCosts<T>(s: State<T>, i: nat)
    requires S.Inv(s.sem) && s.sem.running && WorkerEnabled(s, i) && s.ws[i].Waiting?
    ensures var s' := WorkerStep(s, i); Effort(s'.ws[i]) + Rest(s') < Effort(s.ws[i]) + Rest(s)
  {
    if s.sem.owner == Some(W(i)) {
      assert |s.sem.asleep + {W(i)}| == |s.sem.asleep| + 1;
    }
  }

  function MayPush<T>(w: Worker<T>): nat {
    if w.Running? && (w.call.WantLock? || w.call.Locked?) then 1 else 0
  }

  function Room<T>(s: State<T>): nat {
    |s.tasks| + Sum(s.ws, MayPush)
  }

  lemma CallCosts<T>(s: State<T>, i: nat)
    requires CallEnabled(s, W(i))
    ensures var s' := CallStep(s, W(i)); Effort(s'.ws[i]) + Rest(s') < Effort(s.ws[i]) + Rest(s)
    ensures var s' := CallStep(s, W(i)); |s'.tasks| + MayPush(s'.ws[i]) <= |s.tasks| + MayPush(s.ws[i])
  {
  }

  lemma MoveCosts<T>(s: State<T>, i: nat)
    requires WorkerEnabled(s, i) && !s.ws[i].Waiting? && !s.ws[i].Running?
    ensures var s' := WorkerStep(s, i); Effort(s'.ws[i]) + Rest(s') < Effort(s.ws[i]) + Rest(s)
    ensures var s' := WorkerStep(s, i); |s'.tasks| + MayPush(s'.ws[i]) <= |s.tasks| + MayPush(s.ws[i])
  {
  }

  lemma ProperCosts<T>(s: State<T>, e: Event<T>)
    requires Inv(s) && s.main.Sleeping? && Proper(e) && Enabled(s, e)
    ensures Work(Next(s, e)) < Work(s)
  {
    ProperIsLocal(s, e);
    var i, s' := Agent(e).i, Next(s, e);
    SumUpdate(s.ws, Effort, i, s'.ws[i]);
    hide Sum, Gather;
    assert Effort(s'.ws[i]) + Rest(s') < Effort(s.ws[i]) + Rest(s) by {
      if e.Post? {
        NotifyExact(s, W(i), e.wake);
        PostCosts(s, i, e.wake);
      } else if e.Advance? && s.ws[i].Waiting? {
        WaitCosts(s, i);
      } else if e.Advance? && s.ws[i].Running? {
        CallCosts(s, i);
      } else if e.Advance? {
        MoveCosts(s, i);
      }
    }
  }

  lemma ProperNeedsNoRoom<T>(s: State<T>, e: Event<T>)
    requires Inv(s) && s.main.Sleeping? && Proper(e) && Enabled(s, e)
    ensures Room(Next(s, e)) <= Room(s) && |Next(s, e).ws| == |s.ws|
  {
    ProperIsLocal(s, e);
    var i, s' := Agent(e).i, Next(s, e);
    SumUpdate(s.ws, MayPush, i, s'.ws[i]);
    hide Sum, Gather;
    assert |s'.tasks| + MayPush(s'.ws[i]) <= |s.tasks| + MayPush(s.ws[i]) by {
      if e.Advance? && s.ws[i].Running? {
        CallCosts(s, i);
      } else if e.Advance? && !s.ws[i].Waiting? {
        MoveCosts(s, i);
      }
    }
  }

  // ----- a warm pool can call cleanup back

  /** On its way to an `assign`. */
  predicate WillPush<T>(w: Worker<T>) {
    w.Running? && (w.call.WantLock? || w.call.Locked?) && w.call.op.Assign?
  }

  /** Whatever proper steps are taken, a worker will pop the last task. */
  predicate Hopeful<T>(s: State<T>) {
    s.ws != [] && (s.tasks != [] || exists i | 0 <= i < |s.ws| :: s.ws[i].Popped? || WillPush(s.ws[i]))
  }

  lemma HopeStays<T>(s: State<T>, e: Event<T>)
    requires Inv(s) && s.main.Sleeping? && Hopeful(s) && Proper(e) && Enabled(s, e)
    ensures var s' := Next(s, e); s'.main.Sleeping? ==> Hopeful(s')
  {
    hide Sum, Gather;
    ProperIsLocal(s, e);
    var s' := Next(s, e);
    if s.tasks == [] {
      var k :| 0 <= k < |s.ws| && (s.ws[k].Popped? || WillPush(s.ws[k]));
      assert k != Agent(e).i ==> s'.ws[k] == s.ws[k];
    } else if s'.tasks == [] {
      assert s'.ws[Agent(e).i].Popped?;
    }
  }

  lemma HopeMoves<T>(s: State<T>) returns (e: Event<T>)
    requires Inv(s) && s.main.Sleeping? && Hopeful(s)
    ensures Proper(e) && Enabled(s, e)
  {
    if s.sem.owner.Some? {
      e := MutexHolderMoves(s);
    } else if s.lock.Some? {
      e := LockHolderMoves(s);
    } else if s.tasks != [] {
      e := SomeWorkerMoves(s);
    } else {
      var k: nat :| k < |s.ws| && (s.ws[k].Popped? || WillPush(s.ws[k]));
      assert !HoldsLock(s, W(k));
      e := Advance(W(k));
    }
  }

  /** A worker inside a call can finish it without anybody else's task. */
  lemma CallerMoves<T>(s: State<T>, i: nat) returns (e: Event<T>)
    requires Inv(s) && s.main.Sleeping? && i < |s.ws| && s.ws[i].Running? && !s.ws[i].call.Idle?
    ensures Proper(e) && Enabled(s, e) && !e.Return?
    ensures Next(s, e).main.Sleeping? ==> i < |Next(s, e).ws| && Next(s, e).ws[i].Running?
  {
    if s.sem.owner.Some? {
      e := MutexHolderMoves(s);
    } else if s.lock.Some? {
      e := LockHolderMoves(s);
    } else {
      assert !HoldsLock(s, W(i));
      e := Advance(W(i));
    }
    hide Sum, Gather;
    ProperIsLocal(s, e);
  }

  /** A running func_ starts an assign. */
  lemma AssignBegins<T>(s: State<T>, i: nat)
    requires Inv(s) && s.main.Sleeping? && i < |s.ws| && s.ws[i].Running? && s.ws[i].call.Idle?
    ensures var e := Begin(W(i), Assign(s.ws[i].t)); var s' := Next(s, e);
            && Enabled(s, e) && s'.main.Sleeping? && Hopeful(s')
            && Room(s') <= Room(s) + 1 && s'.tasks == s.tasks && |s'.ws| == |s.ws|
  {
    var w := Running(s.ws[i].t, WantLock(Assign(s.ws[i].t)));
    SumUpdate(s.ws, MayPush, i, w);
    hide Sum, Gather;
    assert WillPush(s.ws[i := w][i]);
  }

  lemma Prepend<T>(s: State<T>, e: Event<T>, es: seq<Event<T>>, s': State<T>)
    requires Enabled(s, e) && Fits(Next(s, e)) && Runs(Next(s, e), es, s')
    requires e != Timeout && e != RouseMain && Unprompted(es)
    ensures Runs(s, [e] + es, s') && Unprompted([e] + es)
  {
    hide Next, Enabled;
    RunsFrom(s, e, es, s');
  }

  /** The number of calls that may still have to be begun. */
  function ToBegin<T>(s: State<T>): nat {
    if Hopeful(s) then 0 else 1
  }

  /** One step towards the end of the wait. */
  lemma WarmStep<T>(s: State<T>) returns (e: Event<T>)
    requires Inv(s) && s.main.Sleeping? && Warm(s) && Room(s) + ToBegin(s) < WORD
    ensures Enabled(s, e) && e != Timeout && e != RouseMain
    ensures Inv(Next(s, e)) && Fits(Next(s, e))
    ensures var s' := Next(s, e);
            s'.main.Sleeping? ==>
              && Warm(s') && Room(s') + ToBegin(s') < WORD
              && (ToBegin(s') < ToBegin(s) || (ToBegin(s') == ToBegin(s) && Work(s') < Work(s)))
  {
    hide Sum, Gather, Work;
    if Hopeful(s) {
      e := HopeMoves(s);
      HopeStays(s, e);
      ProperCosts(s, e);
      ProperNeedsNoRoom(s, e);
    } else {
      var i: nat :| i < |s.ws| && Busy(s.ws[i]);
      if s.ws[i].call.Idle? {
        e := Begin(W(i), Assign(s.ws[i].t));
        AssignBegins(s, i);
      } else {
        e := CallerMoves(s, i);
        ProperCosts(s, e);
        ProperNeedsNoRoom(s, e);
      }
    }
    StepKeepsInv(s, e);
  }

  lemma {:induction false} WarmRun<T>(s: State<T>) returns (es: seq<Event<T>>, s': State<T>)
    requires Inv(s) && s.main.Sleeping? && Warm(s) && Room(s) + ToBegin(s) < WORD
    ensures Runs(s, es, s') && Unprompted(es) && !s'.main.Sleeping?
    decreases ToBegin(s), Work(s) + 1
  {
    hide Enabled, Next, Inv, Warm, Room, Work, ToBegin;
    var e := WarmStep(s);
    var next := Next(s, e);
    if next.main.Sleeping? {
      WorkBounded(next);
      es, s' := WarmRun(next);
    } else {
      es, s' := [], next;
    }
    Prepend(s, e, es, s');
    es := [e] + es;
  }

  /** cleanup, asleep in its wait, can be woken by the workers exactly if there is a worker and a task is queued, just
      popped or being run. Otherwise only the timeout, or a spurious wake-up, gets it out. */
  lemma LeavesTheWaitIff<T>(clients: nat, es0: seq<Event<T>>, s: State<T>)
    requires Reachable(clients, es0, s) && s.main.Sleeping? && |s.tasks| + |s.ws| + 1 < WORD
    ensures Warm(s) <==> exists es: seq<Event<T>>, s': State<T> ::
                           Runs(s, es, s') && Unprompted(es) && !s'.main.Sleeping?
  {
    ReachableInv(clients, es0, s);
    if Warm(s) {
      SumFull(s.ws, MayPush);
      var es, s' := WarmRun(s);
    } else {
      forall es: seq<Event<T>>, s': State<T> | Runs(s, es, s') && Unprompted(es)
        ensures s'.main.Sleeping?
      {
        ColdRun(s, es, s');
      }
    }
  }

  // ----- one completed poll of a quiescent pool leads to the end

  /** A quiescent pool whose cleanup is out of its wait, or a pool torn down already. */
  predicate Closing<T>(s: State<T>) {
    !s.sem.running || (Quiescent(s) && !s.main.Sleeping?)
  }

  /** What is left to do: the rest of the loop and the teardown, two steps for every worker not yet asleep, and then
      what remains after teardown. */
  function ToGo<T>(s: State<T>): int {
    if !s.sem.running then Remaining(s)
    else 3 * |s.ws| + 2 * (|s.ws| - |s.sem.asleep|) - (if s.sem.owner.Some? then 1 else 0) +
         match s.main case Poll => 6 case Reading => 5 case SawAll => 4 case _ => 3
  }

  lemma ToGoBounded<T>(s: State<T>)
    requires Inv(s) && Closing(s)
    ensures ToGo(s) >= 0
  {
    if !s.sem.running { RemainingBounded(s); }
    SleepersAreWaiting(s.ws, s.sem.asleep);
    SumFull(s.ws, IsWaiting);
  }

  lemma TeardownStep<T>(s: State<T>)
    requires Inv(s) && s.sem.running && Closing(s) && s.main.Tearing? && s.sem.owner == Some(Main)
    ensures var s' := MainStep(s); Closing(s') && ToGo(s') < ToGo(s)
  {
    SleepersAreWaiting(s.ws, s.sem.asleep);
    SumFull(s.ws, IsWaiting);
    SumFull(s.ws, Unfinished);
  }

  lemma ClosingWait<T>(s: State<T>, i: nat)
    requires S.Inv(s.sem) && Quiescent(s) && !s.main.Sleeping? && s.sem.count == 0 && WorkerEnabled(s, i)
    ensures var s' := WorkerStep(s, i); Closing(s') && ToGo(s') < ToGo(s)
  {
    if s.sem.owner == Some(W(i)) {
      assert |s.sem.asleep + {W(i)}| == |s.sem.asleep| + 1;
    }
  }

  lemma ClosingMain<T>(s: State<T>)
    requires Quiescent(s) && AllCounted(s) && MainEnabled(s)
    requires (s.main.Tearing? ==> s.sem.owner == None) && !s.main.Joining?
    ensures var s' := MainStep(s); Closing(s') && ToGo(s') < ToGo(s)
  {
  }

  lemma OnlyWorkersAndCleanup<T>(s: State<T>, e: Event<T>)
    requires Inv(s) && Quiescent(s) && Proper(e) && Enabled(s, e)
    ensures e.Advance? && (e.a.W? || e.a.Main?)
  {
    hide Sum, Gather;
    SettledPost(s, Agent(e));
  }

  lemma ClosingStep<T>(s: State<T>, e: Event<T>)
    requires Inv(s) && Closing(s) && Proper(e) && Enabled(s, e)
    ensures Closing(Next(s, e)) && ToGo(Next(s, e)) < ToGo(s)
  {
    if !s.sem.running {
      DrainDecreases(s, e);
    } else {
      CountedExactly(s);
      OwesNothing(s);
      hide Sum, Gather, ToGo, Closing, WorkerStep, MainStep;
      OnlyWorkersAndCleanup(s, e);
      if e == Advance(Main) && s.main.Tearing? && s.sem.owner == Some(Main) {
        TeardownStep(s);
      } else if e == Advance(Main) {
        ClosingMain(s);
      } else {
        ClosingWait(s, e.a.i);
      }
    }
  }

  lemma ClosingNeverStalls<T>(s: State<T>)
    requires Inv(s) && Closing(s) && !s.main.Done?
    ensures exists e :: Proper(e) && Enabled(s, e)
  {
    if !s.sem.running {
      DrainNeverStalls(s);
    } else if s.sem.owner.Some? {
      var e := MutexHolderMoves(s);
    } else if s.lock.Some? {
      var e := LockHolderMoves(s);
    } else {
      assert !HoldsLock(s, Main);
      assert Enabled(s, Event<T>.Advance(Main));
    }
  }

  ghost predicate AllProper<T>(es: seq<Event<T>>) {
    forall e | e in es :: Proper(e)
  }

  /** Once cleanup looks at a quiescent pool it does not go back to sleep: every run of proper steps from there is
      bounded in advance, and one that cannot be continued has torn down, joined every worker and returned. */
  lemma {:induction false} OnePollEndsIt<T>(s: State<T>, es: seq<Event<T>>, s': State<T>)
    requires Inv(s) && Closing(s) && Runs(s, es, s') && AllProper(es)
    ensures |es| <= ToGo(s)
    ensures (forall e :: Proper(e) ==> !Enabled(s', e)) ==>
              s'.main.Done? && forall i | 0 <= i < |s'.ws| :: s'.ws[i].Exited?
    decreases |es|
  {
    ToGoBounded(s);
    if es != [] {
      ClosingStep(s, es[0]);
      StepKeepsInv(s, es[0]);
      OnePollEndsIt(Next(s, es[0]), es[1..], s');
    } else if !s.main.Done? {
      ClosingNeverStalls(s);
    }
  }
}
