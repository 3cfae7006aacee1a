/** taskmaster.h: the thread pool as a system of interleaved atomic sections. */
module Pool {
  import opened Common
  import S = Semaphores

  /** Who can hold lock_ or mutex_: a pool worker (an index into threads_), a client thread that calls `assign`,
      `occupy` or `occupied` from outside, or the owner inside `cleanup`. */
  datatype Actor = W(i: nat) | C(j: nat) | Main

  datatype Op<T> = Assign(t: T) | Occupy(t: T) | Occupied

  /** Where a thread stands inside `assign`, `occupy` or `occupied`. From `Locked` to `Leaving` it holds lock_;
      `Pushed` lies between tasks_.push and the end of sem_.notify. A call leaves with its result; `assign`, which has
      none, leaves with true. */
  datatype Call<T> =
    | Idle
    | WantLock(op: Op<T>)
    | Locked(op: Op<T>)
    | Pushed(op: Op<T>)
    | Leaving(op: Op<T>, result: bool)

  /** Where a worker stands in its loop. `Waiting` covers all of sem_.wait; the semaphore's own state says whether
      the thread wants mutex_, holds it, is asleep or is woken. */
  datatype Worker<T> =
    | Entry            // before waiting_++
    | Waiting          // inside sem_.wait
    | Claimed          // wait returned true, before waiting_--
    | WantQueue        // wants lock_
    | AtQueue          // holds lock_, before front and pop
    | Popped(t: T)     // holds lock_, after pop
    | Running(t: T, call: Call<T>)  // inside func_
    | Exited

  /** Where the owner stands. */
  datatype Cleanup =
    | Owner            // cleanup not called yet
    | Poll             // wants lock_
    | Reading          // holds lock_, before reading waiting_
    | SawAll           // holds lock_, read waiting_ == threads_.size()
    | Sleeping         // inside no_tasks_.wait_for
    | Tearing          // left the loop, inside sem_.teardown
    | Joining(k: nat)  // joining thread k
    | Done

  /** `pushed`, `popped` and `done` record the history: tasks in the order they were pushed and popped, and the tasks
      whose call of func_ has returned. */
  datatype State<T(==)> = State(
    ws: seq<Worker<T>>, cs: seq<Call<T>>, main: Cleanup,
    lock: Option<Actor>, sem: S.Sem<Actor>, waiting: int, tasks: seq<T>,
    pushed: seq<T>, popped: seq<T>, done: multiset<T>)

  datatype Event<T> =
    | Spawn
    | BeginCleanup
    | Begin(a: Actor, op: Op<T>)              // a client, or a running func_, calls assign, occupy or occupied
    | Return(i: nat)                          // func_ returns
    | Advance(a: Actor)                       // the actor's next atomic section
    | Post(a: Actor, wake: Option<Actor>)     // the critical section of sem_.notify
    | Rouse(i: nat)                           // spurious wake-up of a worker
    | RouseMain                               // spurious wake-up of cleanup
    | Timeout                                 // the 100 ms of wait_for are over

  function Initial<T>(clients: nat): State<T> {
    State([], seq(clients, _ => Idle), Owner, None, S.Initial(0), 0, [], [], [], multiset{})
  }

  // ----- calls of assign, occupy and occupied

  function CallOf<T>(s: State<T>, a: Actor): Call<T> {
    match a
    case W(i) => if i < |s.ws| && s.ws[i].Running? then s.ws[i].call else Idle
    case C(j) => if j < |s.cs| then s.cs[j] else Idle
    case Main => Idle
  }

  function SetCall<T>(s: State<T>, a: Actor, call: Call<T>): State<T> {
    match a
    case W(i) => if i < |s.ws| && s.ws[i].Running? then s.(ws := s.ws[i := Running(s.ws[i].t, call)]) else s
    case C(j) => if j < |s.cs| then s.(cs := s.cs[j := call]) else s
    case Main => s
  }

  predicate CallEnabled<T>(s: State<T>, a: Actor) {
    match CallOf(s, a)
    case Idle => false
    case WantLock(_) => s.lock == None
    case Locked(_) => true
    case Pushed(_) => S.CanLock(s.sem, a)
    case Leaving(_, _) => true
  }

  predicate Pushes<T>(s: State<T>, op: Op<T>) {
    op.Assign? || (op.Occupy? && |s.tasks| <= |s.ws|)
  }

  function CallStep<T>(s: State<T>, a: Actor): State<T>
    requires CallEnabled(s, a)
  {
    match CallOf(s, a)
    case WantLock(op) => SetCall(s, a, Locked(op)).(lock := Some(a))
    case Locked(op) =>
      if Pushes(s, op) then SetCall(s, a, Pushed(op)).(tasks := s.tasks + [op.t], pushed := s.pushed + [op.t])
      else SetCall(s, a, Leaving(op, op.Occupied? && |s.tasks| > |s.ws|))
    case Pushed(_) => s.(sem := S.Lock(s.sem, a))
    case Leaving(_, _) => SetCall(s, a, Idle).(lock := None)
  }

  // ----- the worker loop

  predicate WorkerEnabled<T>(s: State<T>, i: nat) {
    i < |s.ws| &&
    match s.ws[i]
    case Entry => true
    case Waiting => s.sem.owner == Some(W(i)) || S.CanLock(s.sem, W(i))
    case Claimed => true
    case WantQueue => s.lock == None
    case AtQueue => s.tasks != []
    case Popped(_) => true
    case Running(_, _) => CallEnabled(s, W(i))
    case Exited => false
  }

  /** One evaluation of the semaphore's predicate by worker i. */
  function WaitStep<T>(s: State<T>, i: nat): State<T>
    requires i < |s.ws|
  {
    var s' := s.(sem := S.Check(s.sem, W(i)));
    match S.Verdict(s.sem)
    case Slept => s'
    case Returned(ok) => s'.(ws := s.ws[i := if ok then Claimed else Exited])
  }

  function WorkerStep<T>(s: State<T>, i: nat): State<T>
    requires WorkerEnabled(s, i)
  {
    match s.ws[i]
    case Entry => s.(ws := s.ws[i := Waiting], waiting := ToInt32(s.waiting + 1))
    case Waiting => if s.sem.owner == Some(W(i)) then WaitStep(s, i) else s.(sem := S.Lock(s.sem, W(i)))
    case Claimed => s.(ws := s.ws[i := WantQueue], waiting := ToInt32(s.waiting - 1))
    case WantQueue => s.(ws := s.ws[i := AtQueue], lock := Some(W(i)))
    case AtQueue =>
      s.(ws := s.ws[i := Popped(s.tasks[0])], tasks := s.tasks[1..], popped := s.popped + [s.tasks[0]])
    case Popped(t) =>
      s.(ws := s.ws[i := Running(t, Idle)], lock := None,
         main := if s.tasks == [] && s.main.Sleeping? then Poll else s.main)
    case Running(_, _) => CallStep(s, W(i))
  }

  // ----- cleanup

  predicate MainEnabled<T>(s: State<T>) {
    match s.main
    case Owner => false
    case Poll => s.lock == None
    case Reading => true
    case SawAll => true
    case Sleeping => false
    case Tearing => s.sem.owner == Some(Main) || S.CanLock(s.sem, Main)
    case Joining(k) => k < |s.ws| ==> s.ws[k].Exited?
    case Done => false
  }

  /** waiting_ == threads_.size(), the int converted to size_t. */
  predicate AllCounted<T>(s: State<T>) {
    ToWord(s.waiting) == |s.ws|
  }

  function MainStep<T>(s: State<T>): State<T>
    requires MainEnabled(s)
  {
    match s.main
    case Poll => s.(main := Reading, lock := Some(Main))
    case Reading => if AllCounted(s) then s.(main := SawAll) else s.(main := Sleeping, lock := None)
    case SawAll => s.(main := if s.tasks == [] then Tearing else Sleeping, lock := None)
    case Tearing =>
      if s.sem.owner == Some(Main) then s.(sem := S.Teardown(s.sem), main := Joining(0))
      else s.(sem := S.Lock(s.sem, Main))
    case Joining(k) => if k < |s.ws| then s.(main := Joining(k + 1)) else s.(main := Done)
  }

  // ----- the step relation

  /** Clients act only before cleanup begins; afterwards only bodies of func_ assign. */
  predicate MayCall<T>(s: State<T>, a: Actor) {
    match a
    case W(i) => i < |s.ws| && s.ws[i].Running? && s.ws[i].call.Idle?
    case C(j) => j < |s.cs| && s.cs[j].Idle? && s.main.Owner?
    case Main => false
  }

  predicate Enabled<T>(s: State<T>, e: Event<T>) {
    match e
    case Spawn => s.main.Owner?
    case BeginCleanup => s.main.Owner? && forall j | 0 <= j < |s.cs| :: s.cs[j].Idle?
    case Begin(a, op) => MayCall(s, a)
    case Return(i) => i < |s.ws| && s.ws[i].Running? && s.ws[i].call.Idle?
    case Advance(W(i)) => WorkerEnabled(s, i)
    case Advance(C(j)) => CallEnabled(s, C(j))
    case Advance(Main) => MainEnabled(s)
    case Post(a, wake) => CallOf(s, a).Pushed? && s.sem.owner == Some(a) && S.CanPick(s.sem, wake)
    case Rouse(i) => W(i) in s.sem.asleep
    case RouseMain => s.main.Sleeping?
    case Timeout => s.main.Sleeping?
  }

  function Next<T>(s: State<T>, e: Event<T>): State<T>
    requires Enabled(s, e)
  {
    match e
    case Spawn => s.(ws := s.ws + [Entry])
    case BeginCleanup => s.(main := Poll)
    case Begin(a, op) => SetCall(s, a, WantLock(op))
    case Return(i) => s.(ws := s.ws[i := Entry], done := s.done + multiset{s.ws[i].t})
    case Advance(W(i)) => WorkerStep(s, i)
    case Advance(C(j)) => CallStep(s, C(j))
    case Advance(Main) => MainStep(s)
    case Post(a, wake) => SetCall(s, a, Leaving(CallOf(s, a).op, true)).(sem := S.Notify(s.sem, wake))
    case Rouse(i) => s.(sem := S.Spurious(s.sem, W(i)))
    case RouseMain => s.(main := Poll)
    case Timeout => s.(main := Poll)
  }

  /** What the machine can represent: a queue shorter than 2^64 and fewer than 2^31 threads. */
  predicate Fits<T>(s: State<T>) {
    |s.tasks| < WORD && |s.ws| < INT_LIMIT
  }

  /** The run es leads from s to s', and every state on the way fits the machine. */
  predicate Runs<T>(s: State<T>, es: seq<Event<T>>, s': State<T>)
    decreases |es|
  {
    if es == [] then s == s'
    else Enabled(s, es[0]) && Fits(Next(s, es[0])) && Runs(Next(s, es[0]), es[1..], s')
  }
}
