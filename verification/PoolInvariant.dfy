/** The whole-system invariant of the thread pool and its preservation by every step. */
module PoolInvariant {
  import opened Common
  import opened Pool
  import S = Semaphores

  // ----- what a position is worth

  /** Between tasks_.push and the end of sem_.notify. */
  function Unposted<T>(call: Call<T>): nat {
    if call.Pushed? then 1 else 0
  }

  /** Returned from sem_.wait and has not popped. */
  function Claims<T>(w: Worker<T>): nat {
    if w.Claimed? || w.WantQueue? || w.AtQueue? then 1 else 0
  }

  /** Tasks of the queue this worker answers for: the one it is about to pop, or the one it pushed but did not post. */
  function Owes<T>(w: Worker<T>): nat {
    if w.Running? then Unposted(w.call) else Claims(w)
  }

  /** Between waiting_++ and waiting_--; a worker that leaves through `return false` stays counted. */
  function Counted<T>(w: Worker<T>): nat {
    if w.Waiting? || w.Claimed? || w.Exited? then 1 else 0
  }

  /** The task in the hands of a worker, popped but not finished. */
  function InHand<T>(w: Worker<T>): multiset<T> {
    if w.Popped? || w.Running? then multiset{w.t} else multiset{}
  }

  // ----- the invariant

  predicate CallHoldsLock<T>(call: Call<T>) {
    call.Locked? || call.Pushed? || call.Leaving?
  }

  predicate WorkerHoldsLock<T>(w: Worker<T>) {
    w.AtQueue? || w.Popped? || (w.Running? && CallHoldsLock(w.call))
  }

  predicate MainHoldsLock(m: Cleanup) {
    m.Reading? || m.SawAll?
  }

  predicate HoldsLock<T>(s: State<T>, a: Actor) {
    match a
    case W(i) => i < |s.ws| && WorkerHoldsLock(s.ws[i])
    case C(j) => j < |s.cs| && CallHoldsLock(s.cs[j])
    case Main => MainHoldsLock(s.main)
  }

  /** lock_ is held exactly by the thread whose position says so. */
  ghost predicate LockInv<T>(s: State<T>) {
    forall a :: HoldsLock(s, a) <==> s.lock == Some(a)
  }

  predicate WaitsOnSemaphore<T>(s: State<T>, a: Actor) {
    a.W? && a.i < |s.ws| && s.ws[a.i].Waiting?
  }

  predicate UsesSemaphore<T>(s: State<T>, a: Actor) {
    WaitsOnSemaphore(s, a) || CallOf(s, a).Pushed? || (a.Main? && s.main.Tearing?)
  }

  /** mutex_ is only ever held at the places that use the semaphore, and only waiting workers sleep on it. */
  ghost predicate MutexInv<T>(s: State<T>) {
    && (s.sem.owner.Some? ==> UsesSemaphore(s, s.sem.owner.value))
    && (forall a | a in s.sem.asleep :: WaitsOnSemaphore(s, a))
    && (forall a | a in s.sem.woken :: WaitsOnSemaphore(s, a))
  }

  function Debt<T>(s: State<T>): nat {
    Sum(s.ws, Owes) + Sum(s.cs, Unposted)
  }

  /** Every task in the queue is matched by a permit or by a thread that answers for it; waiting_ counts positions. */
  ghost predicate Accounting<T>(s: State<T>) {
    && (s.sem.running ==> s.sem.count + Debt(s) == |s.tasks|)
    && s.waiting == Sum(s.ws, Counted)
  }

  ghost predicate InOrder<T>(s: State<T>) {
    s.pushed == s.popped + s.tasks
  }

  ghost predicate InHands<T>(s: State<T>) {
    multiset(s.popped) == Gather(s.ws, InHand) + s.done
  }

  predicate AllWaiting<T>(s: State<T>) {
    forall i | 0 <= i < |s.ws| :: s.ws[i].Waiting?
  }

  predicate NoneExited<T>(s: State<T>) {
    forall i | 0 <= i < |s.ws| :: !s.ws[i].Exited?
  }

  predicate AllStopping<T>(s: State<T>) {
    forall i | 0 <= i < |s.ws| :: s.ws[i].Waiting? || s.ws[i].Exited?
  }

  ghost predicate PhaseInv<T>(s: State<T>) {
    && (!s.main.Owner? ==> forall j | 0 <= j < |s.cs| :: s.cs[j].Idle?)
    && (s.sem.running <==> !s.main.Joining? && !s.main.Done?)
    && (s.sem.running ==> NoneExited(s))
    && (s.main.SawAll? && s.tasks == [] ==> AllWaiting(s))
    && (s.main.Tearing? ==> s.tasks == [] && AllWaiting(s))
    && (!s.sem.running ==> s.tasks == [] && AllStopping(s))
    && (s.main.Joining? ==> s.main.k <= |s.ws| && forall i | 0 <= i < s.main.k :: s.ws[i].Exited?)
    && (s.main.Done? ==> forall i | 0 <= i < |s.ws| :: s.ws[i].Exited?)
  }

  ghost predicate Inv<T>(s: State<T>) {
    S.Inv(s.sem) && LockInv(s) && MutexInv(s) && Accounting(s) && InOrder(s) && InHands(s) && PhaseInv(s) && Fits(s)
  }

  // ----- consequences used again and again

  lemma OwesNothing<T>(s: State<T>)
    requires Accounting(s) && s.sem.running && 0 <= s.sem.count && s.tasks == []
    ensures s.sem.count == 0
    ensures forall i | 0 <= i < |s.ws| :: Owes(s.ws[i]) == 0
  {
    forall i | 0 <= i < |s.ws| ensures Owes(s.ws[i]) == 0 {
      SumAtLeast(s.ws, Owes, i);
    }
  }

  /** `waiting_ == threads_.size()` means what it says: every worker is between waiting_++ and waiting_--. */
  lemma CountedExactly<T>(s: State<T>)
    requires Accounting(s) && Fits(s)
    ensures 0 <= s.waiting <= |s.ws|
    ensures AllCounted(s) <==> forall i | 0 <= i < |s.ws| :: Counted(s.ws[i]) == 1
  {
    SumFull(s.ws, Counted);
  }

  // ----- preservation, one part of the invariant at a time

  /** The thread that takes the step. */
  function Agent<T>(e: Event<T>): Actor {
    match e
    case Begin(a, _) => a
    case Advance(a) => a
    case Post(a, _) => a
    case Return(i) => W(i)
    case Rouse(i) => W(i)
    case _ => Main
  }

  lemma LockCall<T>(s: State<T>, x: Actor)
    requires LockInv(s) && CallEnabled(s, x)
    ensures LockInv(CallStep(s, x))
  {
    var s' := CallStep(s, x);
    forall a ensures HoldsLock(s', a) <==> s'.lock == Some(a) {
      assert HoldsLock(s, a) <==> s.lock == Some(a);
      assert HoldsLock(s, x) <==> s.lock == Some(x);
    }
  }

  lemma LockWorker<T>(s: State<T>, i: nat)
    requires LockInv(s) && WorkerEnabled(s, i)
    ensures LockInv(WorkerStep(s, i))
  {
    if s.ws[i].Running? {
      LockCall(s, W(i));
    } else {
      var s' := WorkerStep(s, i);
      forall a ensures HoldsLock(s', a) <==> s'.lock == Some(a) {
        assert HoldsLock(s, a) <==> s.lock == Some(a);
        assert HoldsLock(s, W(i)) <==> s.lock == Some(W(i));
      }
    }
  }

  /** A change of position that neither takes nor releases lock_. */
  lemma LockSetCall<T>(s: State<T>, x: Actor, call: Call<T>)
    requires LockInv(s) && (CallOf(s, x) != Idle || MayCall(s, x))
    requires CallHoldsLock(call) <==> CallHoldsLock(CallOf(s, x))
    ensures LockInv(SetCall(s, x, call))
  {
  }

  lemma LockPost<T>(s: State<T>, x: Actor, wake: Option<Actor>)
    requires LockInv(s) && Enabled(s, Post(x, wake))
    ensures LockInv(Next(s, Post(x, wake)))
  {
  }

  lemma LockMain<T>(s: State<T>)
    requires LockInv(s) && MainEnabled(s)
    ensures LockInv(MainStep(s))
  {
    var s' := MainStep(s);
    forall a ensures HoldsLock(s', a) <==> s'.lock == Some(a) {
      assert HoldsLock(s, a) <==> s.lock == Some(a);
      assert HoldsLock(s, Main) <==> s.lock == Some(Main);
    }
  }

  lemma LockStep<T>(s: State<T>, e: Event<T>)
    requires LockInv(s) && Enabled(s, e)
    ensures LockInv(Next(s, e))
  {
    if e.Advance? && e.a.C? {
      LockCall(s, e.a);
    } else if e.Advance? && e.a.W? {
      LockWorker(s, e.a.i);
    } else if e.Advance? {
      LockMain(s);
    } else if e.Begin? {
      LockSetCall(s, e.a, WantLock(e.op));
    } else if e.Post? {
      LockPost(s, e.a, e.wake);
    } else {
      var s' := Next(s, e);
      forall a ensures HoldsLock(s', a) <==> s'.lock == Some(a) {
        assert HoldsLock(s, a) <==> s.lock == Some(a);
      }
    }
  }

  lemma SemStep<T>(s: State<T>, e: Event<T>)
    requires S.Inv(s.sem) && Enabled(s, e)
    ensures S.Inv(Next(s, e).sem)
  {
    match e
    case Post(a, wake) => S.NotifyKeepsInv(s.sem, wake);
    case Rouse(i) => S.SpuriousKeepsInv(s.sem, W(i));
    case Advance(W(i)) => if s.ws[i].Waiting? && s.sem.owner == Some(W(i)) { S.CheckKeepsInv(s.sem, W(i)); }
    case _ =>
  }

  lemma MutexWait<T>(s: State<T>, i: nat)
    requires S.Inv(s.sem) && MutexInv(s) && i < |s.ws| && s.ws[i].Waiting? && s.sem.owner == Some(W(i))
    ensures MutexInv(WaitStep(s, i))
  {
  }

  lemma MutexCall<T>(s: State<T>, a: Actor)
    requires S.Inv(s.sem) && MutexInv(s) && CallEnabled(s, a)
    ensures MutexInv(CallStep(s, a))
  {
    var s' := CallStep(s, a);
    assert forall x :: WaitsOnSemaphore(s', x) <==> WaitsOnSemaphore(s, x);
    assert forall x | x != a :: CallOf(s', x) == CallOf(s, x);
  }

  lemma MutexPost<T>(s: State<T>, a: Actor, wake: Option<Actor>)
    requires S.Inv(s.sem) && MutexInv(s) && Enabled(s, Post(a, wake))
    ensures MutexInv(Next(s, Post(a, wake)))
  {
  }

  lemma MutexMain<T>(s: State<T>)
    requires S.Inv(s.sem) && MutexInv(s) && MainEnabled(s)
    ensures MutexInv(MainStep(s))
  {
  }

  lemma MutexWorker<T>(s: State<T>, i: nat)
    requires S.Inv(s.sem) && MutexInv(s) && WorkerEnabled(s, i)
    ensures MutexInv(WorkerStep(s, i))
  {
    if s.ws[i].Running? {
      MutexCall(s, W(i));
    } else if s.ws[i].Waiting? && s.sem.owner == Some(W(i)) {
      MutexWait(s, i);
    }
  }

  lemma MutexStep<T>(s: State<T>, e: Event<T>)
    requires S.Inv(s.sem) && MutexInv(s) && Enabled(s, e)
    ensures MutexInv(Next(s, e))
  {
    match e
    case Post(a, wake) => MutexPost(s, a, wake);
    case Advance(W(i)) => MutexWorker(s, i);
    case Advance(C(j)) => MutexCall(s, C(j));
    case Advance(Main) => MutexMain(s);
    case _ =>
  }

  // What a change of position does to the sums.

  lemma WorkerMoves<T>(s: State<T>, i: nat, w: Worker<T>)
    requires i < |s.ws|
    ensures Sum(s.ws[i := w], Owes) + Owes(s.ws[i]) == Sum(s.ws, Owes) + Owes(w)
    ensures Sum(s.ws[i := w], Counted) + Counted(s.ws[i]) == Sum(s.ws, Counted) + Counted(w)
    ensures Sum(s.ws, Counted) <= |s.ws| && Sum(s.ws[i := w], Counted) <= |s.ws|
  {
    SumUpdate(s.ws, Owes, i, w);
    SumUpdate(s.ws, Counted, i, w);
    SumFull(s.ws, Counted);
    SumFull(s.ws[i := w], Counted);
  }

  lemma CallMoves<T>(s: State<T>, a: Actor, call: Call<T>)
    requires CallOf(s, a) != Idle || MayCall(s, a)
    ensures var s' := SetCall(s, a, call);
            && Debt(s') + Unposted(CallOf(s, a)) == Debt(s) + Unposted(call)
            && Sum(s'.ws, Counted) == Sum(s.ws, Counted)
  {
    if a.W? {
      WorkerMoves(s, a.i, Running(s.ws[a.i].t, call));
    } else {
      SumUpdate(s.cs, Unposted, a.j, call);
    }
  }

  lemma AccountingCall<T>(s: State<T>, a: Actor)
    requires Accounting(s) && CallEnabled(s, a)
    ensures Accounting(CallStep(s, a))
  {
    match CallOf(s, a)
    case WantLock(op) => CallMoves(s, a, Locked(op));
    case Locked(op) => CallMoves(s, a, CallOf(CallStep(s, a), a));
    case Pushed(_) =>
    case Leaving(_, _) => CallMoves(s, a, Idle);
  }

  lemma AccountingPost<T>(s: State<T>, a: Actor, wake: Option<Actor>)
    requires S.Inv(s.sem) && Accounting(s) && Fits(s) && Enabled(s, Post(a, wake))
    ensures Accounting(Next(s, Post(a, wake)))
  {
    CallMoves(s, a, Leaving(CallOf(s, a).op, true));
  }

  lemma AccountingWait<T>(s: State<T>, i: nat)
    requires S.Inv(s.sem) && Accounting(s) && i < |s.ws| && s.ws[i].Waiting?
    ensures Accounting(WaitStep(s, i))
  {
    WorkerMoves(s, i, Claimed);
    WorkerMoves(s, i, Exited);
  }

  lemma AccountingMove<T>(s: State<T>, i: nat)
    requires Accounting(s) && Fits(s) && WorkerEnabled(s, i) && !s.ws[i].Running? && !s.ws[i].Waiting?
    ensures Accounting(WorkerStep(s, i))
  {
    hide Sum;
    var s' := WorkerStep(s, i);
    WorkerMoves(s, i, s'.ws[i]);
    assert s'.ws == s.ws[i := s'.ws[i]];
  }

  lemma AccountingWorker<T>(s: State<T>, i: nat)
    requires S.Inv(s.sem) && Accounting(s) && Fits(s) && WorkerEnabled(s, i)
    ensures Accounting(WorkerStep(s, i))
  {
    if s.ws[i].Running? {
      AccountingCall(s, W(i));
    } else if s.ws[i].Waiting? {
      if s.sem.owner == Some(W(i)) { AccountingWait(s, i); }
    } else {
      AccountingMove(s, i);
    }
  }

  lemma AccountingStep<T>(s: State<T>, e: Event<T>)
    requires S.Inv(s.sem) && Accounting(s) && Fits(s) && Enabled(s, e)
    ensures Accounting(Next(s, e))
  {
    match e
    case Spawn =>
      SumAppend(s.ws, Owes, Entry);
      SumAppend(s.ws, Counted, Entry);
    case Begin(a, op) => CallMoves(s, a, WantLock(op));
    case Return(i) => WorkerMoves(s, i, Entry);
    case Advance(W(i)) => AccountingWorker(s, i);
    case Advance(C(j)) => AccountingCall(s, C(j));
    case Post(a, wake) => AccountingPost(s, a, wake);
    case _ =>
  }

  lemma Cancel<T>(a: multiset<T>, b: multiset<T>, h: multiset<T>)
    requires a + h == b + h
    ensures a == b
  {
    assert forall x :: (a + h)[x] == a[x] + h[x] && (b + h)[x] == b[x] + h[x];
  }

  lemma HandKept<T>(s: State<T>, i: nat, w: Worker<T>)
    requires i < |s.ws| && InHand(w) == InHand(s.ws[i])
    ensures Gather(s.ws[i := w], InHand) == Gather(s.ws, InHand)
  {
    GatherUpdate(s.ws, InHand, i, w);
    Cancel(Gather(s.ws[i := w], InHand), Gather(s.ws, InHand), InHand(w));
  }

  lemma HandSetCall<T>(s: State<T>, a: Actor, call: Call<T>)
    ensures Gather(SetCall(s, a, call).ws, InHand) == Gather(s.ws, InHand)
  {
    if a.W? && a.i < |s.ws| && s.ws[a.i].Running? {
      HandKept(s, a.i, Running(s.ws[a.i].t, call));
    }
  }

  /** A section of a call changes no worker but the caller, and of it only the position in the call. */
  lemma CallStepMoves<T>(s: State<T>, a: Actor)
    requires CallEnabled(s, a)
    ensures CallStep(s, a).ws == SetCall(s, a, CallOf(CallStep(s, a), a)).ws
  {
  }

  lemma HandCall<T>(s: State<T>, a: Actor)
    requires CallEnabled(s, a)
    ensures Gather(CallStep(s, a).ws, InHand) == Gather(s.ws, InHand)
  {
    CallStepMoves(s, a);
    HandSetCall(s, a, CallOf(CallStep(s, a), a));
  }

  lemma HandPop<T>(s: State<T>, i: nat)
    requires InHands(s) && i < |s.ws| && s.ws[i].AtQueue? && s.tasks != []
    ensures InHands(WorkerStep(s, i))
  {
    var t := s.tasks[0];
    var g, g' := Gather(s.ws, InHand), Gather(s.ws[i := Popped(t)], InHand);
    GatherUpdate(s.ws, InHand, i, Popped(t));
    assert g' == g' + multiset{} == g + multiset{t};
    assert multiset(s.popped + [t]) == multiset(s.popped) + multiset{t};
    assert (g + s.done) + multiset{t} == (g + multiset{t}) + s.done;
  }

  lemma HandReturn<T>(s: State<T>, i: nat)
    requires InHands(s) && i < |s.ws| && s.ws[i].Running?
    ensures multiset(s.popped) == Gather(s.ws[i := Entry], InHand) + (s.done + multiset{s.ws[i].t})
  {
    var t := s.ws[i].t;
    var g, g' := Gather(s.ws, InHand), Gather(s.ws[i := Entry], InHand);
    GatherUpdate(s.ws, InHand, i, Entry);
    assert g' + multiset{t} == g + multiset{} == g;
    assert g' + (s.done + multiset{t}) == (g' + multiset{t}) + s.done;
  }

  lemma HandWorker<T>(s: State<T>, i: nat)
    requires WorkerEnabled(s, i) && !s.ws[i].AtQueue?
    ensures Gather(WorkerStep(s, i).ws, InHand) == Gather(s.ws, InHand)
  {
    hide Gather;
    if s.ws[i].Running? {
      HandCall(s, W(i));
    } else {
      var s' := WorkerStep(s, i);
      HandKept(s, i, s'.ws[i]);
      assert s'.ws == s.ws[i := s'.ws[i]];
    }
  }

  /** Only a pop and a return change what is in the workers' hands. */
  predicate HandsMove<T>(s: State<T>, e: Event<T>)
    requires Enabled(s, e)
  {
    e.Return? || (e.Advance? && e.a.W? && s.ws[e.a.i].AtQueue?)
  }

  lemma HandSpawn<T>(s: State<T>)
    ensures Gather(s.ws + [Entry], InHand) == Gather(s.ws, InHand)
  {
    GatherAppend(s.ws, InHand, Entry);
    assert Gather(s.ws, InHand) + multiset{} == Gather(s.ws, InHand);
  }

  lemma HandsStay<T>(s: State<T>, e: Event<T>)
    requires Enabled(s, e) && !HandsMove(s, e)
    ensures Gather(Next(s, e).ws, InHand) == Gather(s.ws, InHand)
  {
    if e.Spawn? {
      HandSpawn(s);
    } else if e.Begin? {
      HandSetCall(s, e.a, WantLock(e.op));
    } else if e.Post? {
      HandSetCall(s, e.a, Leaving(CallOf(s, e.a).op, true));
    } else if e.Advance? && e.a.W? {
      HandWorker(s, e.a.i);
    } else if e.Advance? && e.a.C? {
      HandCall(s, e.a);
    } else {
      assert Next(s, e).ws == s.ws;
    }
  }

  lemma RecordStays<T>(s: State<T>, e: Event<T>)
    requires Enabled(s, e) && !HandsMove(s, e)
    ensures Next(s, e).popped == s.popped && Next(s, e).done == s.done
  {
  }

  lemma HandStep<T>(s: State<T>, e: Event<T>)
    requires InHands(s) && Enabled(s, e)
    ensures InHands(Next(s, e))
  {
    if !HandsMove(s, e) {
      HandsStay(s, e);
      RecordStays(s, e);
    } else if e.Return? {
      HandReturn(s, e.i);
    } else {
      HandPop(s, e.a.i);
    }
  }

  lemma OrderStep<T>(s: State<T>, e: Event<T>)
    requires InOrder(s) && Enabled(s, e)
    ensures InOrder(Next(s, e))
  {
  }

  lemma PhaseCall<T>(s: State<T>, a: Actor)
    requires PhaseInv(s) && CallEnabled(s, a)
    ensures PhaseInv(CallStep(s, a))
  {
  }

  lemma PhaseWait<T>(s: State<T>, i: nat)
    requires S.Inv(s.sem) && Accounting(s) && PhaseInv(s) && i < |s.ws| && s.ws[i].Waiting?
    ensures PhaseInv(WaitStep(s, i))
  {
  }

  lemma PhaseWorker<T>(s: State<T>, i: nat)
    requires S.Inv(s.sem) && LockInv(s) && Accounting(s) && PhaseInv(s) && WorkerEnabled(s, i)
    ensures PhaseInv(WorkerStep(s, i))
  {
    if s.ws[i].Running? {
      PhaseCall(s, W(i));
    } else if s.ws[i].Waiting? && s.sem.owner == Some(W(i)) {
      PhaseWait(s, i);
    } else if s.ws[i].AtQueue? {
      assert HoldsLock(s, W(i)) && !HoldsLock(s, Main);
    }
  }

  lemma PhaseMain<T>(s: State<T>)
    requires S.Inv(s.sem) && Accounting(s) && PhaseInv(s) && Fits(s) && MainEnabled(s)
    ensures PhaseInv(MainStep(s))
  {
    if s.main.Reading? && AllCounted(s) && s.tasks == [] {
      CountedExactly(s);
      OwesNothing(s);
    }
  }

  lemma PhaseStep<T>(s: State<T>, e: Event<T>)
    requires S.Inv(s.sem) && LockInv(s) && Accounting(s) && PhaseInv(s) && Fits(s) && Enabled(s, e)
    ensures PhaseInv(Next(s, e))
  {
    match e
    case Advance(W(i)) => PhaseWorker(s, i);
    case Advance(C(j)) => PhaseCall(s, C(j));
    case Advance(Main) => PhaseMain(s);
    case _ =>
  }

  lemma StepKeepsInv<T>(s: State<T>, e: Event<T>)
    requires Inv(s) && Enabled(s, e) && Fits(Next(s, e))
    ensures Inv(Next(s, e))
  {
    SemStep(s, e);
    LockStep(s, e);
    MutexStep(s, e);
    AccountingStep(s, e);
    OrderStep(s, e);
    HandStep(s, e);
    PhaseStep(s, e);
  }

  lemma InitialInv<T>(clients: nat)
    ensures Inv(Initial<T>(clients))
  {
    var s := Initial<T>(clients);
    SumZero(s.cs, Unposted);
    assert Gather(s.ws, InHand) == multiset{};
  }

  lemma {:induction false} RunKeepsInv<T>(s: State<T>, es: seq<Event<T>>, s': State<T>)
    requires Inv(s) && Runs(s, es, s')
    ensures Inv(s')
    decreases |es|
  {
    if es != [] {
      StepKeepsInv(s, es[0]);
      RunKeepsInv(Next(s, es[0]), es[1..], s');
    }
  }
}
