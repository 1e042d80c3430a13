/**
 The supervised background loop: a timer, a one-slot wake channel, and passes that may fail. The
 world (clock, wakes, cancellation) moves on its own whenever the loop waits or runs a pass.
 */
module SupervisedLoop {
  import opened Common
  import opened Backoff

  datatype Event =
    | Woken(at: int)
    | PassStarted(at: int)
    | PassSucceeded(at: int)
    | PassFailed(at: int, failures: int, backoff: int, retryAfter: int)

  type History = seq<Event>

  /** Failures since the last success. */
  function Consecutive(h: History): nat {
    if h == [] then 0
    else match h[|h| - 1]
         case PassFailed(_, _, _, _) => Consecutive(h[..|h| - 1]) + 1
         case PassSucceeded(_) => 0
         case _ => Consecutive(h[..|h| - 1])
  }

  /** A wake without a later pass is still in the channel. */
  ghost predicate NoWakeLost(h: History, pending: bool) {
    forall i :: 0 <= i < |h| && h[i].Woken? ==> pending || exists j :: i < j < |h| && h[j].PassStarted?
  }

  /** No pass starts before the delay after a failure is over, whatever wakes arrived. */
  ghost predicate DelaysKept(h: History) {
    forall i, j :: 0 <= i < j < |h| && h[i].PassFailed? && h[j].PassStarted? ==>
      h[j].at >= h[i].at + Max(h[i].backoff, h[i].retryAfter)
  }

  /** Every failure is numbered from the last success on, and its backoff is the one for that number. */
  ghost predicate BackoffsCounted(h: History, base: int, max: int)
    requires Int64(base)
  {
    forall i :: 0 <= i < |h| && h[i].PassFailed? ==>
      h[i].failures == Consecutive(h[..i + 1]) && PossibleDelay(h[i].backoff, base, max, h[i].failures)
  }

  /** A delay that some draw and some conversion of what does not fit can give. */
  ghost predicate PossibleDelay(delay: int, base: int, max: int, failures: int)
    requires Int64(base)
  {
    exists random: real, wild: int ::
      Draw(random) && Int64(wild) && delay == FinalDelay(base, max, failures, random, wild)
  }

  /** From `at` on, every delay begun in the history is over. */
  ghost predicate DelaysOver(h: History, at: int) {
    forall i :: 0 <= i < |h| && h[i].PassFailed? ==> at >= h[i].at + Max(h[i].backoff, h[i].retryAfter)
  }

  /** A pass after a success, with no wake since the pass before it began, starts no earlier than the interval later. */
  ghost predicate IntervalsKept(h: History, interval: int) {
    forall i :: 2 <= i < |h| && h[i - 2].PassStarted? && h[i - 1].PassSucceeded? && h[i].PassStarted? ==>
      h[i].at >= h[i - 1].at + interval
  }

  /** A wake was sent since the last pass began. */
  function WokenSince(h: History): bool {
    h != [] && !h[|h| - 1].PassStarted? && (h[|h| - 1].Woken? || WokenSince(h[..|h| - 1]))
  }

  /** When the next pass is due if no wake comes: at first, and after a success without a wake. */
  function DueAt(h: History, first: int, interval: int): Option<int> {
    if h == [] then Some(first)
    else if |h| >= 2 && h[|h| - 1].PassSucceeded? && h[|h| - 2].PassStarted? then Some(h[|h| - 1].at + interval)
    else None
  }

  /** Appending an event keeps the intervals, if a pass that nothing woke starts when it is due. */
  lemma IntervalAdded(h: History, e: Event, first: int, interval: int)
    requires IntervalsKept(h, interval)
    requires e.PassStarted? && DueAt(h, first, interval).Some? ==> e.at >= DueAt(h, first, interval).value
    ensures IntervalsKept(h + [e], interval)
    ensures WokenSince(h + [e]) == (!e.PassStarted? && (e.Woken? || WokenSince(h)))
    ensures !e.PassSucceeded? ==> DueAt(h + [e], first, interval).None?
    ensures e.PassSucceeded? && DueAt(h + [e], first, interval).Some? ==>
              DueAt(h + [e], first, interval).value == e.at + interval && !WokenSince(h + [e])
  {
    Last(h, e);
  }

  lemma FirstIsDue(h: History, first: int, interval: int)
    ensures h == [] ==> DueAt(h, first, interval) == Some(first)
  {}

  /** A pass that a wake may have started is due at any time. */
  lemma WokenIsNotDue(h: History, first: int, interval: int)
    requires WokenSince(h)
    ensures DueAt(h, first, interval).None?
  {
    if |h| >= 2 && h[|h| - 1].PassSucceeded? {
      assert h[..|h| - 1][|h| - 2] == h[|h| - 2];
    }
  }

  function PassCount(h: History): nat {
    if h == [] then 0 else PassCount(h[..|h| - 1]) + if h[|h| - 1].PassStarted? then 1 else 0
  }

  lemma Last(h: History, e: Event)
    ensures (h + [e])[..|h|] == h && (h + [e])[|h|] == e && |h + [e]| == |h| + 1
    ensures forall i :: 0 <= i < |h| ==> (h + [e])[i] == h[i] && (h + [e])[..i + 1] == h[..i + 1]
  {}

  lemma EventAdded(h: History, e: Event, pending: bool, base: int, max: int)
    requires Int64(base) && NoWakeLost(h, pending) && DelaysKept(h) && BackoffsCounted(h, base, max)
    requires e.PassStarted? ==> DelaysOver(h, e.at)
    requires e.PassFailed? ==>
      e.failures == Consecutive(h) + 1 && PossibleDelay(e.backoff, base, max, e.failures)
    ensures var h' := h + [e];
      && (e.PassStarted? || pending || !e.Woken? ==> NoWakeLost(h', pending)) && NoWakeLost(h', true)
      && (e.PassStarted? ==> NoWakeLost(h', false))
      && DelaysKept(h') && BackoffsCounted(h', base, max)
      && Consecutive(h') == (if e.PassFailed? then Consecutive(h) + 1 else if e.PassSucceeded? then 0 else Consecutive(h))
      && PassCount(h') == PassCount(h) + (if e.PassStarted? then 1 else 0)
      && forall t: int :: DelaysOver(h', t) <==> DelaysOver(h, t) && (e.PassFailed? ==> t >= e.at + Max(e.backoff, e.retryAfter))
  {
    hide PossibleDelay;
    var h' := h + [e];
    Last(h, e);
    NoWakeLostAdded(h, e, pending);
    forall i | 0 <= i < |h'| && h'[i].PassFailed?
      ensures h'[i].failures == Consecutive(h'[..i + 1]) && PossibleDelay(h'[i].backoff, base, max, h'[i].failures)
    {
      if i == |h| {
        assert h'[..i + 1] == h';
      }
    }
    forall t: int
      ensures DelaysOver(h', t) <==> DelaysOver(h, t) && (e.PassFailed? ==> t >= e.at + Max(e.backoff, e.retryAfter))
    {
      DelaysOverAdded(h, e, t);
    }
  }

  lemma NoWakeLostAdded(h: History, e: Event, pending: bool)
    requires NoWakeLost(h, pending)
    ensures e.PassStarted? || pending || !e.Woken? ==> NoWakeLost(h + [e], pending)
    ensures NoWakeLost(h + [e], true) && (e.PassStarted? ==> NoWakeLost(h + [e], false))
  {
    Last(h, e);
    var h' := h + [e];
    if !pending {
      forall i | 0 <= i < |h| && h[i].Woken? ensures exists j :: i < j < |h'| && h'[j].PassStarted? {
        var j :| i < j < |h| && h[j].PassStarted?;
        assert h'[j].PassStarted?;
      }
    }
    if e.PassStarted? {
      assert h'[|h|].PassStarted?;
    }
  }

  lemma DelaysOverAdded(h: History, e: Event, t: int)
    ensures DelaysOver(h + [e], t) <==> DelaysOver(h, t) && (e.PassFailed? ==> t >= e.at + Max(e.backoff, e.retryAfter))
  {
    Last(h, e);
    var h' := h + [e];
    if DelaysOver(h', t) {
      assert forall i :: 0 <= i < |h| ==> h'[i] == h[i];
      assert h'[|h|] == e;
    }
  }

  lemma DelaysStayOver(h: History, start: int, later: int)
    requires start <= later
    ensures DelaysOver(h, start) ==> DelaysOver(h, later)
  {}

  lemma FinalDelayPossible(base: int, max: int, failures: int, random: real, wild: int)
    requires 0 < base < TWO_63 && 0 < max < TWO_63 && Draw(random) && Int64(wild)
    ensures FinalDelay(base, max, failures, random, wild) > 0
    ensures PossibleDelay(FinalDelay(base, max, failures, random, wild), base, max, failures)
  {
    FinalDelayExactly(base, max, failures, random, wild);
  }

  class Loop {
    const interval: int
    const initialDelay: int
    const hasWake: bool
    const base: int
    const max: int
    var now: int
    var cancelled: bool
    var wakePending: bool
    var deadline: Option<int>
    var tick: bool
    var failures: int
    ghost const first: int
    ghost var history: History

    constructor (interval: int, initialDelay: int, hasWake: bool, base: int, max: int, now: int)
      requires 0 < interval && 0 < base < TWO_63 && 0 < max < TWO_63
      ensures Valid() && Armed() && history == [] && this.now == now
      ensures this.base == base && this.max == max && this.hasWake == hasWake && this.interval == interval
      ensures deadline == Some(now + if initialDelay > 0 then initialDelay else interval) && first == deadline.value
    {
      this.interval, this.initialDelay, this.hasWake, this.base, this.max := interval, initialDelay, hasWake, base, max;
      this.now, cancelled, wakePending, tick, failures := now, false, false, false, 0;
      deadline := Some(now + if initialDelay > 0 then initialDelay else interval);
      first := now + if initialDelay > 0 then initialDelay else interval;
      history := [];
    }

    ghost predicate Valid()
      reads this
    {
      && 0 < interval && 0 < base < TWO_63 && 0 < max < TWO_63 && Int64(base)
      && failures == Consecutive(history)
      && NoWakeLost(history, wakePending) && DelaysKept(history) && BackoffsCounted(history, base, max)
      && (wakePending ==> hasWake && WokenSince(history)) && (deadline.Some? ==> !tick)
      && IntervalsKept(history, interval) && (history != [] && history[0].PassStarted? ==> history[0].at >= first)
    }

    /** Unless a wake came, the next pass is due no later than now. */
    ghost predicate Due()
      reads this
    {
      DueAt(history, first, interval).Some? ==> now >= DueAt(history, first, interval).value
    }

    /** The timer is set or has fired, and it fires only when every failure's delay is over. */
    ghost predicate Armed()
      reads this
    {
      && (deadline.Some? || tick)
      && (deadline.Some? ==> DelaysOver(history, deadline.value))
      && (tick ==> DelaysOver(history, now) && Due())
      && (failures == 0 ==> DelaysOver(history, now))
      && (deadline.Some? && DueAt(history, first, interval).Some? ==> deadline.value >= DueAt(history, first, interval).value)
    }

    /** The clock goes on, the timer fires when due, a wake may be sent, the context may be cancelled. */
    method WorldMoves(elapsed: nat, wake: bool, cancel: bool)
      requires Valid()
      modifies `now, `cancelled, `wakePending, `deadline, `tick, `history
      ensures Valid() && old(now) <= now
      ensures old(Armed()) ==> Armed()
      ensures forall t: int :: old(DelaysOver(history, t)) ==> DelaysOver(history, t)
      ensures PassCount(history) == old(PassCount(history)) && (old(cancelled) ==> cancelled)
      ensures now == old(now) + elapsed && old(history) <= history <= old(history) + [Woken(now)]
      ensures old(wakePending) ==> wakePending
      ensures old(deadline).Some? && old(deadline).value <= now ==> tick && deadline.None?
      ensures !(old(deadline).Some? && old(deadline).value <= now) ==> tick == old(tick) && deadline == old(deadline)
    {
      hide NoWakeLost, DelaysKept, BackoffsCounted, DelaysOver, Consecutive, PassCount, IntervalsKept, WokenSince, DueAt;
      DelaysStayOver(history, now, now + elapsed);
      now := now + elapsed;
      if deadline.Some? && deadline.value <= now {
        DelaysStayOver(history, deadline.value, now);
      }
      if deadline.Some? && deadline.value <= now {
        deadline, tick := None, true;
      }
      if wake && hasWake {
        EventAdded(history, Woken(now), wakePending, base, max);
        IntervalAdded(history, Woken(now), first, interval);
        wakePending := true;
        history := history + [Woken(now)];
      }
      cancelled := cancelled || cancel;
    }

    /** Any number of moves of the world. */
    method WorldGoesOn()
      requires Valid()
      modifies `now, `cancelled, `wakePending, `deadline, `tick, `history
      ensures Valid() && old(now) <= now && PassCount(history) == old(PassCount(history)) && old(history) <= history
      ensures (old(wakePending) ==> wakePending) && (old(cancelled) ==> cancelled) && (old(tick) ==> tick)
      ensures old(Armed()) ==> Armed()
      ensures forall t: int :: old(DelaysOver(history, t)) ==> DelaysOver(history, t)
    {
      hide NoWakeLost, DelaysKept, BackoffsCounted, DelaysOver, IntervalsKept, WokenSince, DueAt;
      var moves: int := *;
      moves := Max(moves, 0);
      for k := 0 to moves
        invariant Valid() && old(now) <= now && PassCount(history) == old(PassCount(history)) && old(history) <= history
        invariant old(Armed()) ==> Armed()
        invariant (old(wakePending) ==> wakePending) && (old(cancelled) ==> cancelled) && (old(tick) ==> tick)
        invariant forall t: int :: old(DelaysOver(history, t)) ==> DelaysOver(history, t)
      {
        var elapsed: nat, wake: bool, cancel: bool := *, *, *;
        WorldMoves(elapsed, wake, cancel);
      }
    }

    /**
     The select: wait until cancellation, the timer or an enabled wake is ready, and take one of them.
     It sleeps until the timer only when nothing was ready, so a wake interrupts a healthy loop at once.
     */
    method Await() returns (stop: bool, slept: bool)
      requires Valid() && Armed()
      modifies `now, `cancelled, `wakePending, `deadline, `tick, `history
      ensures Valid() && old(now) <= now && PassCount(history) == old(PassCount(history)) && old(history) <= history
      ensures stop ==> cancelled
      ensures !stop ==> DelaysOver(history, now) && Due()
      ensures slept ==> !old(cancelled) && !old(tick) && (failures == 0 ==> !old(wakePending))
      ensures slept && !stop ==> deadline.None?
    {
      hide NoWakeLost, DelaysKept, BackoffsCounted, DelaysOver, IntervalsKept, WokenSince, DueAt;
      WorldGoesOn();
      slept := !cancelled && !tick && !(failures == 0 && wakePending);
      if slept {
        var elapsed := deadline.value - now;
        var wake: bool := *;
        WorldMoves(if elapsed > 0 then elapsed else 0, wake, false);
      }
      var choice: nat := *;
      if cancelled && (choice == 0 || (!tick && !(failures == 0 && wakePending))) {
        return true, slept;
      }
      if wakePending {
        WokenIsNotDue(history, first, interval);
      }
      if tick && (choice == 1 || !(failures == 0 && wakePending)) {
        tick := false;
      }
      stop := false;
    }

    /** Stop the timer, drop a tick it may have left, and set it anew. */
    method ResetTimer(delay: int)
      requires Valid()
      modifies `deadline, `tick
      ensures Valid() && deadline == Some(now + delay) && !tick
    {
      var wasSet := deadline.Some?;
      deadline := None;
      if !wasSet && tick {
        tick := false;
      }
      deadline := Some(now + delay);
    }

    /** Drop the wakes the coming pass serves: it starts now. */
    method StartPass()
      requires Valid() && DelaysOver(history, now) && Due()
      modifies `wakePending, `history
      ensures Valid() && !wakePending && history == old(history) + [PassStarted(now)]
      ensures DelaysOver(history, now) && PassCount(history) == old(PassCount(history)) + 1
    {
      hide NoWakeLost, DelaysKept, BackoffsCounted, DelaysOver, PossibleDelay, Consecutive, PassCount, IntervalsKept, WokenSince, DueAt;
      IntervalAdded(history, PassStarted(now), first, interval);
      FirstIsDue(history, first, interval);
      EventAdded(history, PassStarted(now), wakePending, base, max);
      wakePending := false;
      history := history + [PassStarted(now)];
    }

    method Succeed()
      requires Valid() && DelaysOver(history, now)
      modifies `failures, `deadline, `tick, `history
      ensures Valid() && Armed() && failures == 0 && PassCount(history) == old(PassCount(history))
      ensures deadline == Some(now + interval)
      ensures history == old(history) + [PassSucceeded(now)]
    {
      hide NoWakeLost, DelaysKept, BackoffsCounted, PossibleDelay, Consecutive, PassCount, IntervalsKept, WokenSince, DueAt;
      EventAdded(history, PassSucceeded(now), wakePending, base, max);
      IntervalAdded(history, PassSucceeded(now), first, interval);
      history := history + [PassSucceeded(now)];
      failures := 0;
      ResetTimer(interval);
    }

    /** Count the failure and wait for the larger of its backoff and the delay the error asks for. */
    method BackOff(retryAfter: int, random: real, wild: int)
      requires Valid() && DelaysOver(history, now) && Draw(random) && Int64(wild)
      modifies `failures, `deadline, `tick, `history
      ensures Valid() && Armed() && failures == old(failures) + 1 && PassCount(history) == old(PassCount(history))
      ensures deadline == Some(now + Max(FinalDelay(base, max, failures, random, wild), retryAfter))
      ensures history == old(history) + [PassFailed(now, failures, FinalDelay(base, max, failures, random, wild), retryAfter)]
    {
      hide NoWakeLost, DelaysKept, BackoffsCounted, DelaysOver, FinalDelay, PossibleDelay, Consecutive, PassCount, IntervalsKept, WokenSince, DueAt;
      failures := failures + 1;
      var backoff := BackoffDelay(failures, base, max, random, wild);
      var next := if retryAfter > backoff then retryAfter else backoff;
      FinalDelayPossible(base, max, failures, random, wild);
      DelaysStayOver(history, now, now + next);
      EventAdded(history, PassFailed(now, failures, backoff, retryAfter), wakePending, base, max);
      IntervalAdded(history, PassFailed(now, failures, backoff, retryAfter), first, interval);
      history := history + [PassFailed(now, failures, backoff, retryAfter)];
      ResetTimer(next);
    }

    /**
     The loop for up to `passes` passes. It ends early only once cancelled; until then every wait ends
     in a pass, so a wake sent before a wait is served by the pass that ends it.
     */
    method Run(passes: nat)
      requires Valid() && Armed()
      modifies this
      ensures Valid() && old(history) <= history
      ensures cancelled || PassCount(history) == old(PassCount(history)) + passes
    {
      hide NoWakeLost, DelaysKept, BackoffsCounted, DelaysOver, Consecutive, PassCount, IntervalsKept, WokenSince, DueAt;
      for k := 0 to passes
        invariant Valid() && Armed() && old(history) <= history
        invariant PassCount(history) == old(PassCount(history)) + k
      {
        var stop, _ := Await();
        if stop {
          return;
        }
        StartPass();
        ghost var start := now;
        WorldGoesOn();
        DelaysStayOver(history, start, now);
        var succeeds: bool := *;
        if succeeds {
          Succeed();
        } else {
          if cancelled {
            return;
          }
          var retryAfter: int, random: real, wild: int := *, *, *;
          BackOff(retryAfter, if Draw(random) then random else 0.0, if Int64(wild) then wild else 0);
        }
      }
    }
  }
}
