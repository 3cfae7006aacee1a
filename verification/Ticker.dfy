/** timing.h: interval_callback, a periodic loop that aims at absolute points in time. */
module Ticker {
  import opened Common

  /** One round as the world decides it: how long the callback and the loop take until now() is read again; how long
      after the time asked for the next callback is entered when the loop sleeps, and how long after the reading when it
      does not; and whether the callback asks for another round. Times in microseconds. */
  datatype Round = Round(busy: nat, oversleep: nat, slack: nat, more: bool)

  /** The signed reading of an unsigned long. */
  function Signed(x: int): int {
    if ToWord(x) < WORD / 2 then ToWord(x) else ToWord(x) - WORD
  }

  /** usleep takes a 32-bit argument. */
  function SleepTime(wait: int): nat {
    wait % (2 * INT_LIMIT)
  }

  /** The signed difference of two words is the true difference exactly while that fits a signed word. */
  lemma SignedExactIff(a: int, b: int)
    ensures Signed(ToWord(a) - ToWord(b)) == a - b <==> -(WORD / 2) <= a - b < WORD / 2
  {
  }

  /** One pass from the reading of now() to the next callback: the program knows `due` and `clock` modulo 2^64 only. */
  function Resumed(due: int, clock: int, round: Round): int {
    var wait := Signed(ToWord(due) - ToWord(clock));
    if wait > 0 then clock + SleepTime(wait) + round.oversleep else clock + round.slack
  }

  lemma ResumedOnTime(due: int, clock: int, round: Round, d: nat)
    requires due - clock < 2 * INT_LIMIT
    ensures Resumed(due, clock, round) >= due
    ensures clock + round.slack <= due + d && round.oversleep <= d <= WORD / 2 ==> Resumed(due, clock, round) <= due + d
  {
  }

  /** The body of the loop after the callback: sleep for what is left of the period, if anything is. */
  method Pause(next: int, clock: int, round: Round, ghost due: int) returns (clock': int)
    requires next == ToWord(due)
    ensures clock' == Resumed(due, clock, round)
  {
    clock' := clock + round.slack;
    var wait := Signed(next - ToWord(clock));
    if wait > 0 {
      clock' := clock + SleepTime(wait) + round.oversleep;
    }
  }

  /** When the callbacks are entered, given that the first is due at `due` and entered at `clock`. */
  function Begins(due: int, clock: int, period: int, rounds: seq<Round>): seq<int>
    decreases |rounds|
  {
    if rounds == [] then []
    else if !rounds[0].more then [clock]
    else
      var next := due + period;
      [clock] + Begins(next, Resumed(next, clock + rounds[0].busy, rounds[0]), period, rounds[1..])
  }

  /** No round takes longer than a period and no callback is entered more than d after its sleep should have ended. */
  predicate Timely(rounds: seq<Round>, period: int, d: nat) {
    && d <= WORD / 2
    && forall k | 0 <= k < |rounds| :: rounds[k].busy + rounds[k].slack <= period && rounds[k].oversleep <= d
  }

  /** No callback is early, however late the clock and however often it wraps. */
  lemma {:induction false} NeverEarly(due: int, clock: int, period: int, rounds: seq<Round>, k: nat)
    requires -INT_LIMIT <= period < INT_LIMIT && due <= clock && k < |Begins(due, clock, period, rounds)|
    ensures Begins(due, clock, period, rounds)[k] >= due + k * period
    decreases |rounds|
  {
    if k > 0 {
      var next := due + period;
      var clock' := Resumed(next, clock + rounds[0].busy, rounds[0]);
      hide Resumed;
      ResumedOnTime(next, clock + rounds[0].busy, rounds[0], 0);
      NeverEarly(next, clock', period, rounds[1..], k - 1);
      assert next + (k - 1) * period == due + k * period;
    }
  }

  /** Lateness does not accumulate: in a timely world every callback is at most d late. */
  lemma {:induction false} NoDrift(due: int, clock: int, period: int, rounds: seq<Round>, d: nat, k: nat)
    requires -INT_LIMIT <= period < INT_LIMIT && due <= clock <= due + d && Timely(rounds, period, d)
    requires k < |Begins(due, clock, period, rounds)|
    ensures Begins(due, clock, period, rounds)[k] <= due + k * period + d
    decreases |rounds|
  {
    if k > 0 {
      var next := due + period;
      var clock' := Resumed(next, clock + rounds[0].busy, rounds[0]);
      ResumedOnTime(next, clock + rounds[0].busy, rounds[0], d);
      NoDrift(next, clock', period, rounds[1..], d, k - 1);
      assert next + (k - 1) * period == due + k * period;
    }
  }

  /** How one callback follows another that was entered at `begin` in round r, itself due at `due`: never before the
      first has returned; at once, but for the slack, if it is overdue by then; and otherwise when it is due, but for
      the oversleep. (Overdue by more than 2^63 microseconds the difference no longer fits a signed word.) */
  predicate Follows(begin: int, begin': int, due: int, r: Round) {
    var back := begin + r.busy;
    && begin' >= back
    && (due > back ==> begin' == due + r.oversleep)
    && (due <= back <= due + WORD / 2 ==> begin' == back + r.slack)
  }

  lemma ResumedFollows(due: int, begin: int, r: Round)
    requires due - (begin + r.busy) < INT_LIMIT
    ensures Follows(begin, Resumed(due, begin + r.busy, r), due, r)
  {
    SignedExactIff(due, begin + r.busy);
  }

  lemma {:induction false} RoundByRound(due: int, clock: int, period: int, rounds: seq<Round>, k: nat)
    requires -INT_LIMIT <= period < INT_LIMIT && due <= clock && k + 1 < |Begins(due, clock, period, rounds)|
    ensures k < |rounds|
    ensures var begins := Begins(due, clock, period, rounds);
            Follows(begins[k], begins[k + 1], due + (k + 1) * period, rounds[k])
    decreases |rounds|
  {
    hide Resumed, Follows, Signed, SleepTime, ToWord;
    var next, back := due + period, clock + rounds[0].busy;
    var clock' := Resumed(next, back, rounds[0]);
    assert Begins(due, clock, period, rounds) == [clock] + Begins(next, clock', period, rounds[1..]);
    ResumedFollows(next, clock, rounds[0]);
    ResumedOnTime(next, back, rounds[0], 0);
    if k > 0 {
      RoundByRound(next, clock', period, rounds[1..], k - 1);
      assert next + k * period == due + (k + 1) * period;
    }
  }

  /** The callback is called again exactly as long as it asks for it. */
  lemma {:induction false} CalledAsAsked(due: int, clock: int, period: int, rounds: seq<Round>)
    ensures var n := |Begins(due, clock, period, rounds)|;
            && n <= |rounds| && (rounds != [] ==> n > 0)
            && (forall k | 0 <= k < n - 1 :: rounds[k].more)
            && (n < |rounds| ==> !rounds[n - 1].more)
    decreases |rounds|
  {
    if rounds != [] && rounds[0].more {
      var next := due + period;
      CalledAsAsked(next, Resumed(next, clock + rounds[0].busy, rounds[0]), period, rounds[1..]);
      assert forall k | 1 <= k < |rounds| :: rounds[k] == rounds[1..][k - 1];
    }
  }

  /** The first callback is entered `lead` after the start; each round that asks for more is followed by another as
      `Follows` says, and no other is. */
  ghost predicate Paced(begins: seq<int>, epoch: int, lead: nat, period: int, rounds: seq<Round>) {
    && |begins| <= |rounds| && (rounds != [] ==> begins != [] && begins[0] == epoch + lead)
    && (forall k: nat | k + 1 < |begins| ::
          rounds[k].more && Follows(begins[k], begins[k + 1], epoch + (k + 1) * period, rounds[k]))
    && (|begins| < |rounds| ==> begins == [] || !rounds[|begins| - 1].more)
  }

  ghost predicate NoneEarly(begins: seq<int>, epoch: int, period: int) {
    forall k: nat | k < |begins| :: begins[k] >= epoch + k * period
  }

  ghost predicate NoneLate(begins: seq<int>, epoch: int, period: int, d: nat) {
    forall k: nat | k < |begins| :: begins[k] <= epoch + k * period + d
  }

  lemma BeginsOnTime(epoch: int, lead: nat, period: int, rounds: seq<Round>, d: nat)
    requires -INT_LIMIT <= period < INT_LIMIT
    ensures var begins := Begins(epoch, epoch + lead, period, rounds);
            && NoneEarly(begins, epoch, period)
            && (lead <= d && Timely(rounds, period, d) ==> NoneLate(begins, epoch, period, d))
  {
    var begins := Begins(epoch, epoch + lead, period, rounds);
    hide Begins, Timely;
    forall k: nat | k < |begins| ensures begins[k] >= epoch + k * period {
      NeverEarly(epoch, epoch + lead, period, rounds, k);
    }
    if lead <= d && Timely(rounds, period, d) {
      forall k: nat | k < |begins| ensures begins[k] <= epoch + k * period + d {
        NoDrift(epoch, epoch + lead, period, rounds, d, k);
      }
    }
  }

  lemma BeginsArePaced(epoch: int, lead: nat, period: int, rounds: seq<Round>)
    requires -INT_LIMIT <= period < INT_LIMIT
    ensures Paced(Begins(epoch, epoch + lead, period, rounds), epoch, lead, period, rounds)
  {
    var begins := Begins(epoch, epoch + lead, period, rounds);
    CalledAsAsked(epoch, epoch + lead, period, rounds);
    assert rounds != [] ==> begins[0] == epoch + lead;
    hide Begins, Follows;
    forall k: nat | k + 1 < |begins|
      ensures rounds[k].more && Follows(begins[k], begins[k + 1], epoch + (k + 1) * period, rounds[k])
    {
      RoundByRound(epoch, epoch + lead, period, rounds, k);
    }
  }

  /** `clock` is the true time; the program only sees it modulo 2^64. now() is first read at `epoch` and callback 0
      entered `lead` later; begins[k] is when callback k is entered. The run ends when a callback returns false or the
      given rounds are used up. A negative period makes every callback overdue. */
  method IntervalCallback(ms: int, epoch: nat, lead: nat, rounds: seq<Round>, ghost d: nat) returns (begins: seq<int>)
    requires -INT_LIMIT <= ms * 1000 < INT_LIMIT
    ensures Paced(begins, epoch, lead, ms * 1000, rounds) && NoneEarly(begins, epoch, ms * 1000)
    ensures lead <= d && Timely(rounds, ms * 1000, d) ==> NoneLate(begins, epoch, ms * 1000, d)
    ensures begins == Begins(epoch, epoch + lead, ms * 1000, rounds)
  {
    hide Paced, NoneEarly, NoneLate, Timely, Resumed;
    ghost var due: int := epoch;
    var clock: int := epoch + lead;
    var next := ToWord(epoch);
    begins := [];
    var i := 0;
    while i < |rounds|
      invariant i <= |rounds| && next == ToWord(due)
      invariant begins + Begins(due, clock, ms * 1000, rounds[i..]) == Begins(epoch, epoch + lead, ms * 1000, rounds)
    {
      var round := rounds[i];
      assert rounds[i..][0] == round && rounds[i..][1..] == rounds[i + 1..];
      begins := begins + [clock];
      i := i + 1;
      if !round.more {
        break;
      }
      next := ToWord(next + ms * 1000);
      due := due + ms * 1000;
      clock := Pause(next, clock + round.busy, round, due);
    }
    assert begins == Begins(epoch, epoch + lead, ms * 1000, rounds);
    BeginsOnTime(epoch, lead, ms * 1000, rounds, d);
    BeginsArePaced(epoch, lead, ms * 1000, rounds);
  }
}
