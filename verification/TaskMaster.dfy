/** taskmaster.h: the class itself, one method for each atomic section of its functions. */
module TaskMasters {
  import opened Common
  import opened Pool
  import opened PoolCalls
  import opened PoolInvariant
  import opened PoolTheorems
  import S = Semaphores

  class TaskMaster<T(==)> {
    var threads_: seq<Worker<T>>
    var clients: seq<Call<T>>
    var owner: Cleanup
    var lock_: Option<Actor>
    const sem_: S.Semaphore<Actor>
    var tasks_: seq<T>
    var waiting_: int
    ghost var pushed: seq<T>
    ghost var popped: seq<T>
    ghost var done: multiset<T>

    ghost function View(): State<T>
      reads this, sem_
    {
      State(threads_, clients, owner, lock_, sem_.View(), waiting_, tasks_, pushed, popped, done)
    }

    /** The invariant of the whole system, of the object's own fields. */
    ghost predicate Valid()
      reads this, sem_
    {
      Inv(View())
    }

    /** What cleanup may rely on when it leaves its loop, and its caller when it returns. */
    ghost predicate ShutDownSafely()
      reads this, sem_
    {
      ExitTestSucceeds(View()) || PastTheLoop(View()) ==>
        && tasks_ == [] && popped == pushed && done == multiset(pushed)
        && (owner.Done? ==> forall i | 0 <= i < |threads_| :: threads_[i].Exited?)
    }

    constructor (clients: nat)
      ensures View() == Initial(clients) && fresh(sem_) && Valid()
    {
      threads_, this.clients := [], seq(clients, _ => Idle);
      owner, lock_ := Owner, None;
      sem_ := new S.Semaphore(0);
      tasks_, waiting_ := [], 0;
      pushed, popped, done := [], [], multiset{};
      new;
      InitialInv<T>(clients);
    }

    method Spawn()
      requires Enabled(View(), Event.Spawn)
      modifies this
      ensures View() == Next(old(View()), Event.Spawn)
      ensures threads_ == old(threads_) + [Entry]
    {
      threads_ := threads_ + [Entry];
    }

    /** Where a thread stands inside assign, occupy or occupied. */
    function Position(a: Actor): (call: Call<T>)
      requires CallOf(View(), a) != Idle
      reads this, sem_
      ensures call == CallOf(View(), a)
    {
      match a
      case W(i) => threads_[i].call
      case C(j) => clients[j]
    }

    /** Moves a thread inside assign, occupy or occupied. */
    method SetPosition(a: Actor, call: Call<T>)
      requires CallOf(View(), a) != Idle || MayCall(View(), a)
      modifies this`threads_, this`clients
      ensures View() == SetCall(old(View()), a, call)
    {
      match a
      case W(i) => threads_ := threads_[i := Running(threads_[i].t, call)];
      case C(j) => clients := clients[j := call];
    }

    /** The next section of `assign`, `occupy` or `occupied`: take lock_; look at the queue and push; take mutex_;
        give lock_ back. */
    method CallSection(a: Actor)
      requires CallEnabled(View(), a)
      modifies this, sem_
      ensures View() == CallStep(old(View()), a)
      ensures old(CallOf(View(), a).Locked?) ==> Decided(old(View()), a, old(CallOf(View(), a)).op, View())
    {
      if CallOf(View(), a).Locked? { UnderTheLock(View(), a); }
      match Position(a)
      case WantLock(op) =>
        lock_ := Some(a);
        SetPosition(a, Locked(op));
      case Locked(op) =>
        if op.Assign? || (op.Occupy? && |tasks_| <= |threads_|) {
          SetPosition(a, Pushed(op));
          tasks_ := tasks_ + [op.t];
          pushed := pushed + [op.t];
        } else {
          SetPosition(a, Leaving(op, op.Occupied? && |tasks_| > |threads_|));
        }
      case Pushed(_) =>
        sem_.Acquire(a);
      case Leaving(_, _) =>
        SetPosition(a, Idle);
        lock_ := None;
    }

    /** sem_.notify, with mutex_ held. */
    method Notify(a: Actor, wake: Option<Actor>)
      requires Enabled(View(), Post(a, wake))
      modifies this, sem_
      ensures View() == Next(old(View()), Post(a, wake))
    {
      var op := Position(a).op;
      sem_.Post(wake);
      SetPosition(a, Leaving(op, true));
    }

    /** The next section of `worker` and `obey`. */
    method WorkerSection(i: nat)
      requires WorkerEnabled(View(), i)
      modifies this, sem_
      ensures View() == WorkerStep(old(View()), i)
    {
      match threads_[i]
      case Entry =>
        waiting_ := ToInt32(waiting_ + 1);
        threads_ := threads_[i := Waiting];
      case Waiting =>
        if sem_.owner == Some(W(i)) {
          var r := sem_.Evaluate(W(i));
          if r.Returned? {
            threads_ := threads_[i := if r.ok then Claimed else Exited];
          }
        } else {
          sem_.Acquire(W(i));
        }
      case Claimed =>
        waiting_ := ToInt32(waiting_ - 1);
        threads_ := threads_[i := WantQueue];
      case WantQueue =>
        lock_ := Some(W(i));
        threads_ := threads_[i := AtQueue];
      case AtQueue =>
        var t := tasks_[0];
        popped := popped + [t];
        tasks_ := tasks_[1..];
        threads_ := threads_[i := Popped(t)];
      case Popped(t) =>
        if |tasks_| == 0 && owner == Sleeping {
          owner := Poll;
        }
        lock_ := None;
        threads_ := threads_[i := Running(t, Idle)];
      case Running(_, _) =>
        CallSection(W(i));
    }

    /** The next section of `cleanup`. */
    method CleanupSection()
      requires MainEnabled(View())
      modifies this, sem_
      ensures View() == MainStep(old(View()))
    {
      match owner
      case Poll =>
        lock_ := Some(Main);
        owner := Reading;
      case Reading =>
        if ToWord(waiting_) == |threads_| {
          owner := SawAll;
        } else {
          owner := Sleeping;
          lock_ := None;
        }
      case SawAll =>
        owner := if |tasks_| == 0 then Tearing else Sleeping;
        lock_ := None;
      case Tearing =>
        if sem_.owner == Some(Main) {
          sem_.Shut();
          owner := Joining(0);
        } else {
          sem_.Acquire(Main);
        }
      case Joining(k) =>
        owner := if k < |threads_| then Joining(k + 1) else Done;
    }

    method Step(e: Event<T>)
      requires Enabled(View(), e)
      modifies this, sem_
      ensures View() == Next(old(View()), e)
      ensures old(Valid()) && Fits(View()) ==> Valid()
    {
      hide Inv;
      if Inv(View()) && Fits(Next(View(), e)) { StepKeepsInv(View(), e); }
      match e
      case Spawn => Spawn();
      case BeginCleanup => owner := Poll;
      case Begin(a, op) => SetPosition(a, WantLock(op));
      case Return(i) =>
        done := done + multiset{threads_[i].t};
        threads_ := threads_[i := Entry];
      case Advance(W(i)) => WorkerSection(i);
      case Advance(C(j)) => CallSection(C(j));
      case Advance(Main) => CleanupSection();
      case Post(a, wake) => Notify(a, wake);
      case Rouse(i) => sem_.Rouse(W(i));
      case RouseMain => owner := Poll;
      case Timeout => owner := Poll;
    }

    /** Carries out a schedule: the object goes through exactly the states of the step relation, keeps the invariant
        all the way, and whatever the schedule, tasks leave in the order they came and none is lost at shutdown. */
    method Run(schedule: seq<Event<T>>, ghost final: State<T>)
      requires Runs(View(), schedule, final) && Valid()
      modifies this, sem_
      ensures View() == final && Valid()
      ensures pushed == popped + tasks_ && ShutDownSafely()
      ensures |threads_| == |old(threads_)| + Spawns(schedule)
      ensures old(View()) == Initial(|old(clients)|) && (ExitTestSucceeds(View()) || PastTheLoop(View())) ==>
                done == Assigned(schedule) + Accepted(old(View()), schedule)
    {
      hide Inv;
      var k := 0;
      while k < |schedule|
        invariant k <= |schedule| && Runs(View(), schedule[k..], final) && Valid()
      {
        assert schedule[k..][0] == schedule[k] && schedule[k..][1..] == schedule[k + 1..];
        Step(schedule[k]);
        k := k + 1;
      }
      InvariantGuarantees(View());
      RunCounts(old(View()), schedule, final);
      if old(View()) == Initial(|old(clients)|) && (ExitTestSucceeds(View()) || PastTheLoop(View())) {
        EveryTaskServed(|old(clients)|, schedule, final);
      }
    }
  }
}
