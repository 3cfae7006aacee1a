/** semaphore.h: a counting semaphore built on a mutex and a condition variable. */
module Semaphores {
  import opened Common

  /** The whole state. `owner` holds mutex_. A thread blocked inside condition_.wait is `asleep` until a notification
      (or a spurious wake-up) makes it `woken`; a woken thread has not evaluated its predicate again yet. */
  datatype Sem<T(==)> = Sem(count: int, running: bool, owner: Option<T>, asleep: set<T>, woken: set<T>)

  datatype Outcome = Slept | Returned(ok: bool)

  function Initial<T>(count: nat): Sem<T> {
    Sem(count, true, None, {}, {})
  }

  predicate CanLock<T(==)>(m: Sem<T>, t: T) {
    m.owner == None && t !in m.asleep
  }

  function Lock<T(==)>(m: Sem<T>, t: T): Sem<T> {
    m.(owner := Some(t))
  }

  /** notify_one wakes one sleeper, whichever the implementation picks, and nobody if there is none. */
  predicate CanPick<T(==)>(m: Sem<T>, wake: Option<T>) {
    if wake.None? then m.asleep == {} else wake.value in m.asleep
  }

  /** The body of `notify`, up to and including the release of mutex_. */
  function Notify<T(==)>(m: Sem<T>, wake: Option<T>): Sem<T> {
    var m' := m.(count := ToWord(m.count + 1), owner := None);
    if wake.None? then m'
    else m'.(asleep := m.asleep - {wake.value}, woken := m.woken + {wake.value})
  }

  /** What the predicate of condition_.wait makes of the current state. */
  function Verdict<T>(m: Sem<T>): Outcome {
    if !m.running || m.count > 0 then Returned(m.running) else Slept
  }

  /** One evaluation of that predicate with mutex_ held: either sleep, or take a permit and leave. The decrement is
      performed in both return cases, so it wraps when the semaphore was torn down with no permit left. */
  function Check<T(==)>(m: Sem<T>, t: T): Sem<T> {
    var m' := m.(owner := None, woken := m.woken - {t});
    if Verdict(m).Slept? then m'.(asleep := m.asleep + {t})
    else m'.(count := ToWord(m.count - 1))
  }

  function Teardown<T(==)>(m: Sem<T>): Sem<T> {
    m.(running := false, owner := None, asleep := {}, woken := m.woken + m.asleep)
  }

  function Spurious<T(==)>(m: Sem<T>, t: T): Sem<T> {
    m.(asleep := m.asleep - {t}, woken := m.woken + {t})
  }

  // ----- every use of a semaphore, by any threads in any order

  datatype Event<T> =
    | Acquire(t: T)
    | Post(t: T, wake: Option<T>)
    | Evaluate(t: T)
    | Shut(t: T)
    | Rouse(t: T)

  predicate Enabled<T(==)>(m: Sem<T>, e: Event<T>) {
    match e
    case Acquire(t) => CanLock(m, t)
    case Post(t, wake) => m.owner == Some(t) && t !in m.woken && CanPick(m, wake)
    case Evaluate(t) => m.owner == Some(t)
    case Shut(t) => m.owner == Some(t) && t !in m.woken
    case Rouse(t) => t in m.asleep
  }

  function Next<T(==)>(m: Sem<T>, e: Event<T>): Sem<T> {
    match e
    case Acquire(t) => Lock(m, t)
    case Post(t, wake) => Notify(m, wake)
    case Evaluate(t) => Check(m, t)
    case Shut(t) => Teardown(m)
    case Rouse(t) => Spurious(m, t)
  }

  predicate Runs<T(==)>(m: Sem<T>, es: seq<Event<T>>, m': Sem<T>)
    decreases |es|
  {
    if es == [] then m == m' else Enabled(m, es[0]) && Runs(Next(m, es[0]), es[1..], m')
  }

  /** No wake-up is lost: a thread only sleeps on while every permit already has a woken thread coming for it. */
  predicate NoLostWakeup<T>(m: Sem<T>) {
    m.asleep != {} ==> m.running && m.count <= |m.woken|
  }

  predicate Inv<T>(m: Sem<T>) {
    && 0 <= m.count < WORD
    && m.asleep !! m.woken
    && (m.owner.Some? ==> m.owner.value !in m.asleep)
    && NoLostWakeup(m)
  }

  lemma NotifyKeepsInv<T>(m: Sem<T>, wake: Option<T>)
    requires Inv(m) && CanPick(m, wake)
    ensures Inv(Notify(m, wake))
  {
  }

  lemma CheckKeepsInv<T>(m: Sem<T>, t: T)
    requires Inv(m) && m.owner == Some(t)
    ensures Inv(Check(m, t))
  {
  }

  lemma SpuriousKeepsInv<T>(m: Sem<T>, t: T)
    requires Inv(m) && t in m.asleep
    ensures Inv(Spurious(m, t))
  {
  }

  lemma StepKeepsInv<T>(m: Sem<T>, e: Event<T>)
    requires Inv(m) && Enabled(m, e)
    ensures Inv(Next(m, e))
  {
  }

  lemma {:induction false} RunKeepsInv<T>(m: Sem<T>, es: seq<Event<T>>, m': Sem<T>)
    requires Inv(m) && Runs(m, es, m')
    ensures Inv(m')
    decreases |es|
  {
    if es != [] {
      StepKeepsInv(m, es[0]);
      RunKeepsInv(Next(m, es[0]), es[1..], m');
    }
  }

  /** In every run, while a permit is free and some thread sleeps, another thread is already awake, and whenever
      mutex_ is free too that thread can take the permit. */
  lemma SleeperNeverBlocksAPermit<T>(count: nat, es: seq<Event<T>>, m: Sem<T>)
    requires count < WORD && Runs(Initial(count), es, m)
    ensures NoLostWakeup(m)
    ensures m.asleep != {} && m.count > 0 ==> exists t :: t in m.woken
    ensures forall t | t in m.woken && m.owner == None && m.count > 0 && m.running ::
              Enabled(m, Acquire(t)) && Verdict(Lock(m, t)) == Returned(true)
  {
    RunKeepsInv(Initial<T>(count), es, m);
    if m.asleep != {} && m.count > 0 {
      assert m.woken != {};
    }
  }

  /** Teardown is final: no run from there ever puts a thread to sleep, and `wait` answers false every time. */
  lemma {:induction false} TeardownIsFinal<T>(m: Sem<T>, es: seq<Event<T>>, m': Sem<T>)
    requires Inv(m) && !m.running && Runs(m, es, m')
    ensures !m'.running && m'.asleep == {} && Verdict(m') == Returned(false)
    decreases |es|
  {
    if es != [] {
      StepKeepsInv(m, es[0]);
      TeardownIsFinal(Next(m, es[0]), es[1..], m');
    }
  }

  /** The class of the source. Each method is one critical section of mutex_; `owner`, `asleep` and `woken` stand for
      the state of mutex_ and condition_. Every section keeps the invariant above, so no wake-up is lost by the object
      either. */
  class Semaphore<T(==)> {
    var count_: int
    var running_: bool
    var owner: Option<T>
    var asleep: set<T>
    var woken: set<T>

    function View(): Sem<T>
      reads this
    {
      Sem(count_, running_, owner, asleep, woken)
    }

    constructor (count: nat)
      ensures View() == Initial(count) && (count < WORD ==> Inv(View()))
    {
      count_, running_ := count, true;
      owner, asleep, woken := None, {}, {};
    }

    method Acquire(t: T)
      requires CanLock(View(), t)
      modifies this
      ensures View() == Lock(old(View()), t)
      ensures old(Inv(View())) ==> Inv(View())
    {
      owner := Some(t);
    }

    method Post(wake: Option<T>)
      requires CanPick(View(), wake)
      modifies this
      ensures View() == Notify(old(View()), wake)
      ensures count_ == (old(count_) + 1) % WORD && running_ == old(running_) && owner == None
      ensures if old(asleep) == {} then asleep == {} && woken == old(woken)
              else exists t :: t in old(asleep) && asleep == old(asleep) - {t} && woken == old(woken) + {t}
      ensures old(Inv(View())) ==> Inv(View())
    {
      count_ := (count_ + 1) % WORD;
      if wake.Some? {
        asleep := asleep - {wake.value};
        woken := woken + {wake.value};
      }
      owner := None;
    }

    method Evaluate(t: T) returns (r: Outcome)
      modifies this
      ensures r == Verdict(old(View()))
      ensures running_ == old(running_) && owner == None && woken == old(woken) - {t}
      ensures if old(running_) && old(count_) <= 0
              then r == Slept && count_ == old(count_) && asleep == old(asleep) + {t}
              else r == Returned(old(running_)) && count_ == (old(count_) - 1) % WORD && asleep == old(asleep)
      ensures View() == Check(old(View()), t)
      ensures old(Inv(View()) && owner == Some(t)) ==> Inv(View())
    {
      woken := woken - {t};
      if !running_ || count_ > 0 {
        count_ := (count_ - 1) % WORD;
        r := Returned(running_);
      } else {
        asleep := asleep + {t};
        r := Slept;
      }
      owner := None;
    }

    method Shut()
      modifies this
      ensures View() == Teardown(old(View()))
      ensures count_ == old(count_) && !running_ && owner == None && woken == old(woken) + old(asleep)
      ensures old(Inv(View())) ==> Inv(View()) && asleep == {}
    {
      running_ := false;
      woken := woken + asleep;
      asleep := {};
      owner := None;
    }

    method Rouse(t: T)
      requires t in asleep
      modifies this
      ensures View() == Spurious(old(View()), t)
      ensures old(Inv(View())) ==> Inv(View())
    {
      asleep := asleep - {t};
      woken := woken + {t};
    }
  }
}
