/** taskmaster.h:35-80: what a run owes to those who call spawn, assign, occupy and occupied. */
module PoolCalls {
  import opened Common
  import opened Pool
  import opened PoolInvariant
  import opened PoolTheorems

  // ----- threads and finished tasks

  function Spawns<T>(es: seq<Event<T>>): nat {
    if es == [] then 0 else Spawns(es[1..]) + if es[0].Spawn? then 1 else 0
  }

  function Returns<T>(es: seq<Event<T>>): nat {
    if es == [] then 0 else Returns(es[1..]) + if es[0].Return? then 1 else 0
  }

  lemma CountStep<T>(s: State<T>, e: Event<T>)
    requires Enabled(s, e)
    ensures |Next(s, e).ws| == |s.ws| + (if e.Spawn? then 1 else 0) && |Next(s, e).cs| == |s.cs|
    ensures |Next(s, e).done| == |s.done| + if e.Return? then 1 else 0
  {
  }

  lemma {:induction false} RunCounts<T>(s: State<T>, es: seq<Event<T>>, s': State<T>)
    requires Runs(s, es, s')
    ensures |s'.ws| == |s.ws| + Spawns(es) && |s'.cs| == |s.cs| && |s'.done| == |s.done| + Returns(es)
    decreases |es|
  {
    if es != [] {
      CountStep(s, es[0]);
      RunCounts(Next(s, es[0]), es[1..], s');
    }
  }

  /** Every spawn adds a worker, nothing else adds or removes one, and one task is done for every return of func_. */
  lemma EverySpawnAddsAWorker<T>(clients: nat, es: seq<Event<T>>, s: State<T>)
    requires Reachable(clients, es, s)
    ensures |s.ws| == Spawns(es) && |s.cs| == clients && |s.done| == Returns(es)
  {
    RunCounts(Initial<T>(clients), es, s);
  }

  lemma HistoryStep<T>(s: State<T>, e: Event<T>)
    requires Enabled(s, e)
    ensures s.pushed <= Next(s, e).pushed && s.popped <= Next(s, e).popped
  {
  }

  /** What has been pushed and popped is never revised: both lists only grow at their ends. */
  lemma {:induction false} HistoryOnlyGrows<T>(s: State<T>, es: seq<Event<T>>, s': State<T>)
    requires Runs(s, es, s')
    ensures s.pushed <= s'.pushed && s.popped <= s'.popped
    decreases |es|
  {
    if es != [] {
      HistoryStep(s, es[0]);
      HistoryOnlyGrows(Next(s, es[0]), es[1..], s');
    }
  }

  // ----- the decision taken under lock_

  /** The task of op is put behind the queue. */
  predicate Appended<T(==)>(s: State<T>, a: Actor, op: Op<T>, s': State<T>)
    requires !op.Occupied?
  {
    s'.tasks == s.tasks + [op.t] && s'.pushed == s.pushed + [op.t] && CallOf(s', a) == Pushed(op)
  }

  predicate Declined<T(==)>(s: State<T>, a: Actor, op: Op<T>, answer: bool, s': State<T>) {
    s'.tasks == s.tasks && s'.pushed == s.pushed && CallOf(s', a) == Leaving(op, answer)
  }

  /** `assign` always appends; `occupy` appends unless the queue is longer than the number of threads, and then answers
      false; `occupied` answers whether it is longer and leaves it alone. */
  predicate Decided<T(==)>(s: State<T>, a: Actor, op: Op<T>, s': State<T>) {
    match op
    case Assign(_) => Appended(s, a, op, s')
    case Occupy(_) => if |s.tasks| > |s.ws| then Declined(s, a, op, false, s') else Appended(s, a, op, s')
    case Occupied => Declined(s, a, op, |s.tasks| > |s.ws|, s')
  }

  lemma UnderTheLock<T>(s: State<T>, a: Actor)
    requires CallOf(s, a).Locked?
    ensures Enabled(s, Advance(a)) && Decided(s, a, CallOf(s, a).op, Next(s, Advance(a)))
  {
  }

  /** The answer r of op is the right one for a queue of `queued` tasks and that many threads. */
  predicate Honest<T>(op: Op<T>, r: bool, queued: nat, threads: nat) {
    match op
    case Assign(_) => r
    case Occupy(_) => r <==> queued <= threads
    case Occupied => r <==> queued > threads
  }

  /** How a step e moves the call its agent is in, from c to c', and what becomes of the list of pushed tasks. */
  predicate Moves<T(==)>(e: Event<T>, c: Call<T>, c': Call<T>, pushed: seq<T>, pushed': seq<T>) {
    if e.Advance? && c.Locked? then
      if c.op.Assign? || (c.op.Occupy? && c'.Pushed?) then c' == Pushed(c.op) && pushed' == pushed + [c.op.t]
      else c'.Leaving? && c'.op == c.op && (c.op.Occupy? ==> !c'.result) && pushed' == pushed
    else
      && pushed' == pushed
      && match e
         case Begin(_, op) => c == Idle && c' == WantLock(op)
         case Post(_, _) => c.Pushed? && c' == Leaving(c.op, true)
         case Advance(_) =>
           (match c
            case WantLock(op) => c' == Locked(op)
            case Pushed(_) => c' == c
            case _ => c' == Idle)
         case _ => c == c' && (e.Rouse? || c == Idle)
  }

  lemma StepMoves<T>(s: State<T>, e: Event<T>)
    requires Enabled(s, e)
    ensures Moves(e, CallOf(s, Agent(e)), CallOf(Next(s, e), Agent(e)), s.pushed, Next(s, e).pushed)
  {
    if e.Advance? && CallOf(s, e.a).Locked? { UnderTheLock(s, e.a); }
  }

  lemma OthersStay<T>(s: State<T>, e: Event<T>, a: Actor)
    requires Enabled(s, e) && Agent(e) != a
    ensures CallOf(Next(s, e), a) == CallOf(s, a)
  {
  }

  lemma {:induction false} RunLast<T>(s: State<T>, es: seq<Event<T>>, s': State<T>) returns (m: State<T>)
    requires es != [] && Runs(s, es, s')
    ensures Runs(s, es[..|es| - 1], m) && Enabled(m, es[|es| - 1]) && s' == Next(m, es[|es| - 1])
    decreases |es|
  {
    hide Enabled, Next;
    if |es| == 1 {
      m := s;
      assert es[1..] == [];
    } else {
      m := RunLast(Next(s, es[0]), es[1..], s');
      assert es[1..][..|es| - 2] == es[..|es| - 1][1..];
    }
  }

  /** At step k of the run the caller a stood, with lock_, before the decision about op that gives r; it has begun no
      other call since. */
  ghost predicate DecidedAt<T>(s0: State<T>, es: seq<Event<T>>, k: nat, m: State<T>, a: Actor, op: Op<T>, r: bool) {
    && k < |es| && Runs(s0, es[..k], m) && es[k] == Advance(a)
    && CallOf(m, a) == Locked(op) && m.lock == Some(a) && Honest(op, r, |m.tasks|, |m.ws|)
    && forall j | k < j < |es| && Agent(es[j]) == a :: !es[j].Begin?
  }

  lemma DecidedEarlier<T>(s0: State<T>, es: seq<Event<T>>, e: Event<T>, k: nat, m: State<T>, a: Actor, op: Op<T>,
                          r: bool)
    requires DecidedAt(s0, es, k, m, a, op, r) && (Agent(e) == a ==> !e.Begin?)
    ensures DecidedAt(s0, es + [e], k, m, a, op, r)
  {
    assert (es + [e])[..k] == es[..k];
  }

  function AnswerOf<T>(c: Call<T>): bool {
    c.Leaving? ==> c.result
  }

  lemma DecidedJustNow<T>(s0: State<T>, init: seq<Event<T>>, m: State<T>, a: Actor)
    requires Runs(s0, init, m) && LockInv(m) && CallOf(m, a).Locked?
    ensures var c := CallOf(Next(m, Advance(a)), a);
            (c.Pushed? || c.Leaving?) && c.op == CallOf(m, a).op
            && DecidedAt(s0, init + [Advance(a)], |init|, m, a, c.op, AnswerOf(c))
  {
    UnderTheLock(m, a);
    hide Runs, Next, Enabled;
    assert HoldsLock(m, a);
    assert (init + [Advance(a)])[..|init|] == init;
  }

  lemma {:induction false} DecisionPoint<T>(s0: State<T>, es: seq<Event<T>>, s: State<T>, a: Actor)
      returns (k: nat, m: State<T>)
    requires Inv(s0) && CallOf(s0, a).Idle? && Runs(s0, es, s) && (CallOf(s, a).Pushed? || CallOf(s, a).Leaving?)
    ensures DecidedAt(s0, es, k, m, a, CallOf(s, a).op, AnswerOf(CallOf(s, a)))
    decreases |es|
  {
    assert es != [];
    hide Runs, Next, Enabled, Inv, CallOf, DecidedAt;
    var init, e := es[..|es| - 1], es[|es| - 1];
    assert es == init + [e];
    var before := RunLast(s0, es, s);
    StepMoves(before, e);
    if Agent(e) != a { OthersStay(before, e, a); }
    if e == Advance(a) && CallOf(before, a).Locked? {
      k, m := |init|, before;
      RunKeepsInv(s0, init, before);
      InvHasLock(before);
      DecidedJustNow(s0, init, before, a);
    } else {
      k, m := DecisionPoint(s0, init, before, a);
      DecidedEarlier(s0, init, e, k, m, a, CallOf(s, a).op, AnswerOf(CallOf(s, a)));
    }
  }

  lemma InvHasLock<T>(s: State<T>)
    requires Inv(s)
    ensures LockInv(s)
  {
  }

  /** What a call returns in any run was right at a moment of that very call at which the caller held lock_: `occupied`
      is true exactly if the queue was longer than the number of threads, `occupy` exactly if it was not. */
  lemma AnswersAreHonest<T>(clients: nat, es: seq<Event<T>>, s: State<T>, a: Actor)
    requires Reachable(clients, es, s) && CallOf(s, a).Leaving?
    ensures exists k: nat, m: State<T> ::
              DecidedAt(Initial(clients), es, k, m, a, CallOf(s, a).op, CallOf(s, a).result)
  {
    InitialInv<T>(clients);
    var k, m := DecisionPoint(Initial<T>(clients), es, s, a);
  }

  // ----- no task is lost or invented

  /** The tasks handed to `assign` in a run. */
  function Assigned<T>(es: seq<Event<T>>): multiset<T> {
    if es == [] then multiset{} else AssignedBy(es[0]) + Assigned(es[1..])
  }

  function AssignedBy<T>(e: Event<T>): multiset<T> {
    if e.Begin? && e.op.Assign? then multiset{e.op.t} else multiset{}
  }

  /** The tasks of the calls of `occupy` that returned true in a run. */
  function Accepted<T>(s: State<T>, es: seq<Event<T>>): multiset<T>
    decreases |es|
  {
    if es == [] || !Enabled(s, es[0]) then multiset{}
    else AcceptedBy(s, es[0]) + Accepted(Next(s, es[0]), es[1..])
  }

  function AcceptedBy<T>(s: State<T>, e: Event<T>): multiset<T> {
    Delivered(e, CallOf(s, Agent(e)))
  }

  function Delivered<T>(e: Event<T>, c: Call<T>): multiset<T> {
    if e.Advance? && c.Leaving? then Granted(c) else multiset{}
  }

  /** The task of an `assign` that has not come to the queue yet. */
  function Underway<T>(c: Call<T>): multiset<T> {
    if (c.WantLock? || c.Locked?) && c.op.Assign? then multiset{c.op.t} else multiset{}
  }

  /** The task of an `occupy` that will return true. */
  function Granted<T>(c: Call<T>): multiset<T> {
    if (c.Pushed? || (c.Leaving? && c.result)) && c.op.Occupy? then multiset{c.op.t} else multiset{}
  }

  function OfWorker<T>(items: Call<T> -> multiset<T>): Worker<T> -> multiset<T> {
    (w: Worker<T>) => if w.Running? then items(w.call) else multiset{}
  }

  /** What all calls in progress carry. */
  function InCalls<T>(s: State<T>, items: Call<T> -> multiset<T>): multiset<T> {
    Gather(s.ws, OfWorker(items)) + Gather(s.cs, items)
  }

  lemma Exchange<T>(g': multiset<T>, g: multiset<T>, rest: multiset<T>, old_: multiset<T>, new_: multiset<T>)
    requires g' + old_ == g + new_
    ensures (g' + rest) + old_ == (g + rest) + new_ && (rest + g') + old_ == (rest + g) + new_
  {
    assert (g' + rest) + old_ == (g' + old_) + rest == (g + new_) + rest == (g + rest) + new_;
    assert rest + g' == g' + rest && rest + g == g + rest;
  }

  lemma TallyWorker<T>(s: State<T>, i: nat, w: Worker<T>, items: Call<T> -> multiset<T>)
    requires i < |s.ws|
    ensures InCalls(s.(ws := s.ws[i := w]), items) + OfWorker(items)(s.ws[i])
            == InCalls(s, items) + OfWorker(items)(w)
  {
    var f := OfWorker(items);
    GatherUpdate(s.ws, f, i, w);
    Exchange(Gather(s.ws[i := w], f), Gather(s.ws, f), Gather(s.cs, items), f(s.ws[i]), f(w));
  }

  lemma TallyClient<T>(s: State<T>, j: nat, c: Call<T>, items: Call<T> -> multiset<T>)
    requires j < |s.cs|
    ensures InCalls(s.(cs := s.cs[j := c]), items) + items(s.cs[j]) == InCalls(s, items) + items(c)
  {
    GatherUpdate(s.cs, items, j, c);
    Exchange(Gather(s.cs[j := c], items), Gather(s.cs, items), Gather(s.ws, OfWorker(items)), items(s.cs[j]), items(c));
  }

  /** A step moves one worker, or one client, or neither; `spawn` and spurious wake-ups apart. */
  lemma StepIsLocal<T>(s: State<T>, e: Event<T>)
    requires Enabled(s, e) && !e.Spawn? && !e.Rouse?
    ensures var a, s' := Agent(e), Next(s, e);
            match a
            case W(i) => i < |s.ws| == |s'.ws| && s'.ws == s.ws[i := s'.ws[i]] && s'.cs == s.cs
            case C(j) => j < |s.cs| == |s'.cs| && s'.cs == s.cs[j := s'.cs[j]] && s'.ws == s.ws
            case Main => s'.ws == s.ws && s'.cs == s.cs
  {
  }

  lemma OnlyShape<T>(s: State<T>, s': State<T>, items: Call<T> -> multiset<T>)
    requires s.ws == s'.ws && s.cs == s'.cs
    ensures InCalls(s, items) == InCalls(s', items)
  {
  }

  /** The calls in progress change by what the agent of the step carried before and carries afterwards. */
  lemma TallyStep<T>(s: State<T>, e: Event<T>, items: Call<T> -> multiset<T>)
    requires Enabled(s, e) && items(Idle) == multiset{}
    ensures InCalls(Next(s, e), items) + items(CallOf(s, Agent(e))) ==
            InCalls(s, items) + items(CallOf(Next(s, e), Agent(e)))
  {
    hide Gather, InCalls;
    var a, s' := Agent(e), Next(s, e);
    if e.Spawn? {
      TallySpawn(s, items);
    } else if e.Rouse? {
      OnlyShape(s, s', items);
    } else {
      StepIsLocal(s, e);
      hide Enabled, Next;
      match a
      case W(i) =>
        TallyWorker(s, i, s'.ws[i], items);
        OnlyShape(s.(ws := s.ws[i := s'.ws[i]]), s', items);
      case C(j) =>
        TallyClient(s, j, s'.cs[j], items);
        OnlyShape(s.(cs := s.cs[j := s'.cs[j]]), s', items);
      case Main =>
        OnlyShape(s, s', items);
    }
  }

  lemma TallySpawn<T>(s: State<T>, items: Call<T> -> multiset<T>)
    ensures InCalls(s.(ws := s.ws + [Entry]), items) == InCalls(s, items)
  {
    GatherAppend(s.ws, OfWorker(items), Entry);
    assert Gather(s.ws, OfWorker(items)) + multiset{} == Gather(s.ws, OfWorker(items));
  }

  /** The tasks the step pushes for an `assign`, or else for an `occupy`. */
  function PushedBy<T>(e: Event<T>, c: Call<T>, c': Call<T>, occupy: bool): multiset<T> {
    if e.Advance? && c.Locked? && c'.Pushed? && !c.op.Occupied? && c.op.Occupy? == occupy then multiset{c.op.t}
    else multiset{}
  }

  lemma AssignMoves<T>(e: Event<T>, c: Call<T>, c': Call<T>, pushed: seq<T>, pushed': seq<T>)
    requires Moves(e, c, c', pushed, pushed')
    ensures AssignedBy(e) + Underway(c) == Underway(c') + PushedBy(e, c, c', false)
  {
  }

  lemma OccupyMoves<T>(e: Event<T>, c: Call<T>, c': Call<T>, pushed: seq<T>, pushed': seq<T>)
    requires Moves(e, c, c', pushed, pushed')
    ensures Delivered(e, c) + Granted(c') == Granted(c) + PushedBy(e, c, c', true)
  {
  }

  lemma PushMoves<T>(e: Event<T>, c: Call<T>, c': Call<T>, pushed: seq<T>, pushed': seq<T>)
    requires Moves(e, c, c', pushed, pushed')
    ensures multiset(pushed') == multiset(pushed) + PushedBy(e, c, c', false) + PushedBy(e, c, c', true)
  {
    if e.Advance? && c.Locked? && c'.Pushed? {
      assert multiset(pushed + [c.op.t]) == multiset(pushed) + multiset{c.op.t};
    }
  }

  lemma Regroup<T>(b: multiset<T>, d: multiset<T>, g: multiset<T>, g': multiset<T>, u: multiset<T>, u': multiset<T>,
                   p: multiset<T>, p': multiset<T>, n1: multiset<T>, n2: multiset<T>)
    requires b + u == u' + n1 && d + g' == g + n2 && p' == p + n1 + n2
    ensures b + d + g' + u + p == p' + u' + g
  {
    assert b + d + g' + u + p == (b + u) + (d + g') + p;
    assert p' + u' + g == (u' + n1) + (g + n2) + p;
  }

  /** What the agent of a step begins, pushes and returns. */
  lemma AgentBalance<T>(s: State<T>, e: Event<T>)
    requires Enabled(s, e)
    ensures var c, c', s' := CallOf(s, Agent(e)), CallOf(Next(s, e), Agent(e)), Next(s, e);
            AssignedBy(e) + Delivered(e, c) + Granted(c') + Underway(c) + multiset(s.pushed) ==
            multiset(s'.pushed) + Underway(c') + Granted(c)
  {
    hide *;
    var c, c', s' := CallOf(s, Agent(e)), CallOf(Next(s, e), Agent(e)), Next(s, e);
    StepMoves(s, e);
    AssignMoves(e, c, c', s.pushed, s'.pushed);
    OccupyMoves(e, c, c', s.pushed, s'.pushed);
    PushMoves(e, c, c', s.pushed, s'.pushed);
    Regroup(AssignedBy(e), Delivered(e, c), Granted(c), Granted(c'), Underway(c), Underway(c'),
            multiset(s.pushed), multiset(s'.pushed), PushedBy(e, c, c', false), PushedBy(e, c, c', true));
  }

  lemma Balance<T>(l: multiset<T>, p: multiset<T>, p': multiset<T>, u: multiset<T>, u': multiset<T>, g: multiset<T>,
                   g': multiset<T>, mu: multiset<T>, mu': multiset<T>, mg: multiset<T>, mg': multiset<T>)
    requires l + mg' + mu + p == p' + mu' + mg
    requires u' + mu == u + mu' && g' + mg == g + mg'
    ensures l + g' + u + p == p' + u' + g
  {
    forall x ensures (l + g' + u + p)[x] == (p' + u' + g)[x] {
      assert (l + mg' + mu + p)[x] == (p' + mu' + mg)[x];
      assert (u' + mu)[x] == (u + mu')[x] && (g' + mg)[x] == (g + mg')[x];
    }
  }

  lemma BalanceTwice<T>(l1: multiset<T>, l2: multiset<T>, p0: multiset<T>, p1: multiset<T>, p2: multiset<T>,
                        u0: multiset<T>, u1: multiset<T>, u2: multiset<T>,
                        g0: multiset<T>, g1: multiset<T>, g2: multiset<T>)
    requires l1 + g1 + u0 + p0 == p1 + u1 + g0
    requires l2 + g2 + u1 + p1 == p2 + u2 + g1
    ensures (l1 + l2) + g2 + u0 + p0 == p2 + u2 + g0
  {
    forall x ensures ((l1 + l2) + g2 + u0 + p0)[x] == (p2 + u2 + g0)[x] {
      assert (l1 + g1 + u0 + p0)[x] == (p1 + u1 + g0)[x];
      assert (l2 + g2 + u1 + p1)[x] == (p2 + u2 + g1)[x];
    }
  }

  lemma StepBalance<T>(s: State<T>, e: Event<T>)
    requires Enabled(s, e)
    ensures var s' := Next(s, e);
            (AssignedBy(e) + AcceptedBy(s, e)) + InCalls(s', Granted) + InCalls(s, Underway) + multiset(s.pushed) ==
            multiset(s'.pushed) + InCalls(s', Underway) + InCalls(s, Granted)
  {
    var a, s' := Agent(e), Next(s, e);
    TallyStep(s, e, Underway);
    TallyStep(s, e, Granted);
    AgentBalance(s, e);
    hide *;
    Balance(AssignedBy(e) + AcceptedBy(s, e), multiset(s.pushed), multiset(s'.pushed),
            InCalls(s, Underway), InCalls(s', Underway), InCalls(s, Granted), InCalls(s', Granted),
            Underway(CallOf(s, a)), Underway(CallOf(s', a)), Granted(CallOf(s, a)), Granted(CallOf(s', a)));
  }

  lemma {:induction false} RunBalance<T>(s: State<T>, es: seq<Event<T>>, s': State<T>)
    requires Runs(s, es, s')
    ensures (Assigned(es) + Accepted(s, es)) + InCalls(s', Granted) + InCalls(s, Underway) + multiset(s.pushed) ==
            multiset(s'.pushed) + InCalls(s', Underway) + InCalls(s, Granted)
    decreases |es|
  {
    hide Enabled, Next, InCalls;
    if es != [] {
      var e, m := es[0], Next(s, es[0]);
      var l1, l2 := AssignedBy(e) + AcceptedBy(s, e), Assigned(es[1..]) + Accepted(m, es[1..]);
      StepBalance(s, e);
      RunBalance(m, es[1..], s');
      BalanceTwice(l1, l2, multiset(s.pushed), multiset(m.pushed), multiset(s'.pushed),
                   InCalls(s, Underway), InCalls(m, Underway), InCalls(s', Underway),
                   InCalls(s, Granted), InCalls(m, Granted), InCalls(s', Granted));
      assert l1 + l2 == Assigned(es) + Accepted(s, es);
    }
  }

  lemma NoCallsNoItems<T>(s: State<T>, items: Call<T> -> multiset<T>)
    requires items(Idle) == multiset{} && forall j | 0 <= j < |s.cs| :: s.cs[j].Idle?
    requires forall i | 0 <= i < |s.ws| :: !s.ws[i].Running?
    ensures InCalls(s, items) == multiset{}
  {
    GatherEmpty(s.ws, OfWorker(items));
    GatherEmpty(s.cs, items);
  }

  /** Nothing that was assigned is lost and nothing is invented: in every state of every run the tasks given to `assign`
      and those `occupy` accepted are the ones pushed so far and the ones of the assigns still on their way. */
  lemma EveryCallAccountedFor<T>(clients: nat, es: seq<Event<T>>, s: State<T>)
    requires Reachable(clients, es, s)
    ensures Assigned(es) + Accepted(Initial(clients), es) + InCalls(s, Granted) ==
            multiset(s.pushed) + InCalls(s, Underway)
  {
    var s0 := Initial<T>(clients);
    NoCallsNoItems(s0, Granted);
    NoCallsNoItems(s0, Underway);
    RunBalance(s0, es, s);
    assert s0.pushed == [];
    hide *;
    var l := Assigned(es) + Accepted(s0, es) + InCalls(s, Granted);
    var r := multiset(s.pushed) + InCalls(s, Underway);
    assert l + multiset{} + multiset{} == l && r + multiset{} == r;
  }

  lemma ShutDownHasNoCalls<T>(clients: nat, es: seq<Event<T>>, s: State<T>)
    requires Reachable(clients, es, s) && (ExitTestSucceeds(s) || PastTheLoop(s))
    ensures InCalls(s, Granted) == multiset{} && InCalls(s, Underway) == multiset{}
  {
    ReachableInv(clients, es, s);
    SafeShutdown(clients, es, s);
    hide LockInv, Accounting, InHands, MutexInv, Sum, Gather, InCalls;
    NoCallsNoItems(s, Granted);
    NoCallsNoItems(s, Underway);
  }

  lemma WithoutCalls<T>(l: multiset<T>, r: multiset<T>)
    requires l + multiset{} == r + multiset{}
    ensures l == r
  {
    Cancel(l, r, multiset{});
  }

  /** Teardown is safe for the callers: once the exit test succeeds, and ever after, the calls of func_ that have
      returned are exactly one for every task given to `assign` in the run and one for every task an `occupy` that
      returned true was given. */
  lemma EveryTaskServed<T>(clients: nat, es: seq<Event<T>>, s: State<T>)
    requires Reachable(clients, es, s) && (ExitTestSucceeds(s) || PastTheLoop(s))
    ensures s.done == Assigned(es) + Accepted(Initial(clients), es)
    ensures s.tasks == [] && s.popped == s.pushed
  {
    hide *;
    EveryCallAccountedFor(clients, es, s);
    SafeShutdown(clients, es, s);
    ShutDownHasNoCalls(clients, es, s);
    WithoutCalls(Assigned(es) + Accepted(Initial<T>(clients), es), multiset(s.pushed));
  }

  // ----- callers that only assign

  predicate NoOccupyIn<T>(c: Call<T>) {
    !c.Idle? ==> !c.op.Occupy?
  }

  predicate NobodyOccupies<T>(s: State<T>) {
    && (forall i | 0 <= i < |s.ws| && s.ws[i].Running? :: NoOccupyIn(s.ws[i].call))
    && (forall j | 0 <= j < |s.cs| :: NoOccupyIn(s.cs[j]))
  }

  predicate StartsOccupy<T>(e: Event<T>) {
    e.Begin? && e.op.Occupy?
  }

  lemma AgentNeverOccupies<T>(s: State<T>, e: Event<T>)
    requires NobodyOccupies(s) && Enabled(s, e) && !StartsOccupy(e)
    ensures NoOccupyIn(CallOf(s, Agent(e))) && NoOccupyIn(CallOf(Next(s, e), Agent(e)))
    ensures AcceptedBy(s, e) == multiset{}
  {
  }

  lemma NobodyOccupiesStep<T>(s: State<T>, e: Event<T>)
    requires NobodyOccupies(s) && Enabled(s, e) && !StartsOccupy(e)
    ensures NobodyOccupies(Next(s, e)) && AcceptedBy(s, e) == multiset{}
  {
    AgentNeverOccupies(s, e);
    if !e.Spawn? && !e.Rouse? { StepIsLocal(s, e); }
    hide Enabled;
  }

  lemma {:induction false} NobodyOccupiesRun<T>(s: State<T>, es: seq<Event<T>>, s': State<T>)
    requires NobodyOccupies(s) && Runs(s, es, s') && forall e | e in es :: !StartsOccupy(e)
    ensures NobodyOccupies(s') && Accepted(s, es) == multiset{}
    decreases |es|
  {
    if es != [] {
      NobodyOccupiesStep(s, es[0]);
      hide Enabled, Next, NobodyOccupies, AcceptedBy;
      NobodyOccupiesRun(Next(s, es[0]), es[1..], s');
    }
  }

  lemma NothingGranted<T>(s: State<T>)
    requires NobodyOccupies(s)
    ensures InCalls(s, Granted) == multiset{}
  {
    forall i | 0 <= i < |s.ws| ensures OfWorker(Granted)(s.ws[i]) == multiset{} {
      assert s.ws[i].Running? ==> NoOccupyIn(s.ws[i].call) && Granted(s.ws[i].call) == multiset{};
    }
    GatherEmpty(s.ws, OfWorker(Granted));
    GatherEmpty(s.cs, Granted);
  }

  /** In a run without `occupy`, what was assigned is what was pushed and what is on its way. */
  lemma AssignNeverLoses<T>(clients: nat, es: seq<Event<T>>, s: State<T>)
    requires Reachable(clients, es, s) && forall e | e in es :: !StartsOccupy(e)
    ensures Assigned(es) == multiset(s.pushed) + InCalls(s, Underway)
  {
    var s0 := Initial<T>(clients);
    EveryCallAccountedFor(clients, es, s);
    NobodyOccupiesRun(s0, es, s);
    NothingGranted(s);
    hide *;
    assert Assigned(es) + multiset{} + multiset{} == Assigned(es);
  }
}
