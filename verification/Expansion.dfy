/** Expansion of a periodic schedule into scheduler commands at absolute ticks. */
module Expansion {
  import opened Entities
  import opened Arith
  import opened FscList
  import opened Actions

  // ---- send events ----

  /** Time of the first event: the send time less the egress delay, or, when that lies
      before the cycle, the first later period that does not. */
  function FirstEvent(send: nat, period: nat, delay: nat): nat
    requires period > 0
  {
    if send >= delay then send - delay else (send - delay) % period
  }

  function EventTime(send: nat, period: nat, delay: nat, j: nat): nat
    requires period > 0
  {
    FirstEvent(send, period, delay) + j * period
  }

  function EventCmd(gather: nat, redund: nat): SchedCmd {
    SchedCmd(gather, 0, redund, StandAlone, false, false, false, false)
  }

  function EventTick(e: ScheduleEntry, delay: nat, tick: nat, j: nat): (t: nat)
    requires tick > 0 && e.periodNs > 0
  {
    var time := EventTime(e.sendTimeNs, e.periodNs, delay, j);
    RoundClosestWithinHalf(time, tick);
    DivRoundClosest(time, tick)
  }

  /** The `n` commands of a send schedule. */
  function EventCommands(e: ScheduleEntry, delay: nat, tick: nat, cmd: SchedCmd, n: nat): (r: seq<FscCommand>)
    requires tick > 0 && e.periodNs > 0
    ensures |r| == n
  {
    if n == 0 then []
    else EventCommands(e, delay, tick, cmd, n - 1) + [FscCommand(EventTick(e, delay, tick, n - 1), cmd, e)]
  }

  /** Skipping the negative times: after `k` of them the first usable time is FirstEvent. */
  lemma FirstEventAfterSkips(send: nat, period: nat, delay: nat, k: nat)
    requires period > 0
    requires k > 0 ==> send + (k - 1) * period < delay
    requires send + k * period >= delay
    ensures send + k * period - delay == FirstEvent(send, period, delay)
    ensures k > 0 ==> FirstEvent(send, period, delay) < period
  {
    if k > 0 {
      assert send + k * period == send + (k - 1) * period + period;
      assert (k - 1) * period >= 0;
      ModUnique(send - delay, period, k);
    }
  }

  /** The send time of loop pass `k`. */
  ghost function PassTime(send: nat, period: nat, k: nat): nat {
    if k == 0 then send else PassTime(send, period, k - 1) + period
  }

  lemma {:induction false} PassTimeIs(send: nat, period: nat, k: nat)
    ensures PassTime(send, period, k) == send + k * period
  {
    if k > 0 {
      PassTimeIs(send, period, k - 1);
      assert (k - 1) * period == k * period - period;
    }
  }

  /** The first `k` of `i` loop passes were skipped for a negative time. */
  ghost predicate SkippedFirst(send: nat, period: nat, delay: nat, k: nat, i: nat) {
    && k <= i
    && (k > 0 ==> PassTime(send, period, k - 1) < delay)
    && (i > k ==> PassTime(send, period, k) >= delay)
  }

  lemma SkippedTimes(send: nat, period: nat, delay: nat, k: nat, i: nat)
    requires SkippedFirst(send, period, delay, k, i)
    ensures k > 0 ==> send + (k - 1) * period < delay
    ensures i > k ==> send + k * period >= delay
    ensures PassTime(send, period, k) == send + k * period
  {
    PassTimeIs(send, period, k);
    if k > 0 {
      PassTimeIs(send, period, k - 1);
    }
  }

  lemma Products(period: nat, n: nat, k: nat, i: nat)
    requires k <= i < n + k
    ensures k * period <= i * period == k * period + (i - k) * period <= k * period + n * period - period
    ensures (k + 1) * period == k * period + period
    ensures (k - 1) * period == k * period - period
  {
    MulLe(i - k, n - 1, period);
    MulLe(0, i - k, period);
    assert (n - 1) * period == n * period - period;
  }

  /** The unsigned sum of a loop pass does not wrap. */
  lemma EventSumFits(send: nat, period: nat, delay: nat, cycle: nat, n: nat, k: nat, i: nat)
    requires period > 0 && send <= period && cycle + delay < U32_LIMIT
    requires n * period <= cycle && i < n + k
    requires SkippedFirst(send, period, delay, k, i)
    ensures 0 <= send + i * period < U32_LIMIT
  {
    Products(period, n, k, i);
    SkippedTimes(send, period, delay, k, i);
  }

  /** A negative time occurs only while all passes so far were skipped. */
  lemma EventSkip(send: nat, period: nat, delay: nat, n: nat, k: nat, i: nat)
    requires period > 0 && i < n + k
    requires SkippedFirst(send, period, delay, k, i)
    requires send + i * period < delay
    ensures i == k && SkippedFirst(send, period, delay, k + 1, i + 1)
    ensures Slack(send, period, delay, k + 1) < Slack(send, period, delay, k)
  {
    Products(period, n, k, i);
    SkippedTimes(send, period, delay, k, i);
  }

  /** Any other pass has the time of the next event. */
  lemma EventHit(send: nat, period: nat, delay: nat, n: nat, k: nat, i: nat)
    requires period > 0 && i < n + k
    requires SkippedFirst(send, period, delay, k, i)
    requires send + i * period >= delay
    ensures SkippedFirst(send, period, delay, k, i + 1)
    ensures send + i * period - delay == EventTime(send, period, delay, i - k)
  {
    Products(period, n, k, i);
    SkippedTimes(send, period, delay, k, i);
    FirstEventAfterSkips(send, period, delay, k);
  }

  /** How far the first usable pass may still be away; bounds the self-extending loop. */
  ghost function Slack(send: nat, period: nat, delay: nat, k: nat): nat {
    if PassTime(send, period, k) < delay then 1 + delay - PassTime(send, period, k) else 0
  }

  /** The time calculation of one loop pass: None when the event would lie before the
      cycle and the pass is skipped, otherwise the event's tick. */
  method EventPass(e: ScheduleEntry, d: Delays, tick: nat, i: nat, ghost n: nat, ghost k: nat, ghost cycle: nat)
    returns (absCycle: Option<nat>)
    requires tick > 0 && e.periodNs > 0 && e.sendTimeNs <= e.periodNs
    requires cycle + d.chipEg + d.phyEg < U32_LIMIT
    requires PassTime(0, e.periodNs, n) <= cycle && i < n + k
    requires SkippedFirst(e.sendTimeNs, e.periodNs, d.chipEg + d.phyEg, k, i)
    ensures absCycle.None? ==> i == k && SkippedFirst(e.sendTimeNs, e.periodNs, d.chipEg + d.phyEg, k + 1, i + 1)
    ensures absCycle.None? ==>
      Slack(e.sendTimeNs, e.periodNs, d.chipEg + d.phyEg, k + 1)
      < Slack(e.sendTimeNs, e.periodNs, d.chipEg + d.phyEg, k)
    ensures absCycle.Some? ==> SkippedFirst(e.sendTimeNs, e.periodNs, d.chipEg + d.phyEg, k, i + 1)
    ensures absCycle.Some? ==> absCycle.value == EventTick(e, d.chipEg + d.phyEg, tick, i - k)
  {
    ghost var delay := d.chipEg + d.phyEg;
    ghost var time := e.sendTimeNs + i * e.periodNs;
    PassTimeIs(0, e.periodNs, n);
    EventSumFits(e.sendTimeNs, e.periodNs, delay, cycle, n, k, i);
    var help: int := U32(e.sendTimeNs + i * e.periodNs);
    U32Fits(time);
    help := help - U32(d.chipEg + d.phyEg);
    U32Fits(delay);
    if help < 0 {
      EventSkip(e.sendTimeNs, e.periodNs, delay, n, k, i);
      return None;
    }
    help := U32(e.sendTimeNs + i * e.periodNs - d.chipEg - d.phyEg);
    U32Fits(time - delay);
    EventHit(e.sendTimeNs, e.periodNs, delay, n, k, i);
    RoundClosestWithinHalf(help, tick);
    return Some(DivRoundClosest(help, tick));
  }

  /** The command of event `j`, at its tick. */
  method AddEvent(e: ScheduleEntry, m: AcmModule, tick: nat, absCycle: nat, gather: nat, redund: nat,
                  ghost list: seq<FscCommand>, ghost delay: nat, ghost j: nat)
    requires tick > 0 && e.periodNs > 0 && absCycle == EventTick(e, delay, tick, j) && Sorted(m.fscList)
    requires m.fscList == InsertAll(list, EventCommands(e, delay, tick, EventCmd(gather, redund), j))
    modifies m`fscList
    ensures Sorted(m.fscList)
    ensures m.fscList == InsertAll(list, EventCommands(e, delay, tick, EventCmd(gather, redund), j + 1))
  {
    var item := FscCommand(absCycle, SchedCmd(gather, 0, redund, StandAlone, false, false, false, false), e);
    InsertAllNext(list, EventCommands(e, delay, tick, EventCmd(gather, redund), j), item);
    AddFscToModuleSorted(m, item);
  }

  /** The loop: `count` events, and one more pass for each that would lie before the cycle. */
  method CreateEvents(e: ScheduleEntry, m: AcmModule, tick: nat, gather: nat, redund: nat, count: nat)
    requires tick > 0 && e.periodNs > 0
    requires e.sendTimeNs <= e.periodNs && PassTime(0, e.periodNs, count) <= m.cycleNs
    requires m.cycleNs + m.delays.chipEg + m.delays.phyEg < U32_LIMIT
    requires Sorted(m.fscList)
    modifies m`fscList
    ensures Sorted(m.fscList)
    ensures m.fscList == InsertAll(old(m.fscList),
      EventCommands(e, m.delays.chipEg + m.delays.phyEg, tick, EventCmd(gather, redund), count))
  {
    ghost var delay, list := m.delays.chipEg + m.delays.phyEg, m.fscList;
    var numItems := count;
    ghost var cmd := EventCmd(gather, redund);
    ghost var skipped: nat, done: nat := 0, 0;
    var i := 0;
    while i < numItems
      invariant i == skipped + done <= numItems == count + skipped
      invariant SkippedFirst(e.sendTimeNs, e.periodNs, delay, skipped, i)
      invariant Sorted(m.fscList)
      invariant m.fscList == InsertAll(list, EventCommands(e, delay, tick, cmd, done))
      decreases numItems - i, Slack(e.sendTimeNs, e.periodNs, delay, skipped)
    {
      var absCycle := EventPass(e, m.delays, tick, i, count, skipped, m.cycleNs);
      if absCycle.None? {
        // the loop has to run longer to add this event at the end of the cycle
        numItems := numItems + 1;
        i := i + 1;
        skipped := skipped + 1;
        continue;
      }
      AddEvent(e, m, tick, absCycle.value, gather, redund, list, delay, done);
      i := i + 1;
      done := done + 1;
    }
  }

  method CreateEventSysfsItems(e: ScheduleEntry, m: AcmModule, tick: nat, gather: nat, redund: nat)
    requires tick > 0 && e.periodNs > 0
    requires e.sendTimeNs <= e.periodNs
    requires m.cycleNs + m.delays.chipEg + m.delays.phyEg < U32_LIMIT
    requires Sorted(m.fscList)
    modifies m`fscList
    ensures Sorted(m.fscList)
    ensures m.fscList == InsertAll(old(m.fscList),
      EventCommands(e, m.delays.chipEg + m.delays.phyEg, tick, EventCmd(gather, redund), m.cycleNs / e.periodNs))
  {
    DivBounds(m.cycleNs, e.periodNs);
    PassTimeIs(0, e.periodNs, m.cycleNs / e.periodNs);
    CreateEvents(e, m, tick, gather, redund, m.cycleNs / e.periodNs);
  }

  /** With a period dividing the cycle, all event times lie in [0, cycle) exactly when
      the first one lies in the first period; only a zero delay and a send time at the
      very end of the period break this. */
  lemma EventTimesInCycle(send: nat, period: nat, delay: nat, n: nat)
    requires period > 0 && n > 0 && send <= period
    ensures (forall j: nat :: j < n ==> EventTime(send, period, delay, j) < n * period)
      <==> !(send == period && delay == 0)
  {
    var first := FirstEvent(send, period, delay);
    assert first < period <==> !(send == period && delay == 0);
    assert (n - 1) * period == n * period - period;
    forall j: nat | j < n && first < period ensures EventTime(send, period, delay, j) < n * period {
      MulLe(j, n - 1, period);
    }
    if first >= period {
      assert EventTime(send, period, delay, n - 1) >= n * period;
    }
  }

  /** An input that breaks it: a send time at the end of the period, with no delay. */
  lemma EventAtEndOfPeriod()
    ensures EventTime(1000, 1000, 0, 0) == 1000
  {
  }

  /** Number of leading periods whose event would have to be sent before the cycle. */
  function Skips(send: nat, period: nat, delay: nat): nat
    requires period > 0
  {
    if send >= delay then 0 else DivRoundUp(delay - send, period)
  }

  lemma SkipsSpec(send: nat, period: nat, delay: nat)
    requires period > 0
    ensures send + Skips(send, period, delay) * period - delay == FirstEvent(send, period, delay)
  {
    if send < delay {
      var k := Skips(send, period, delay);
      RoundUpBounds(delay - send, period);
      assert k > 0;
      assert (k - 1) * period == k * period - period;
      FirstEventAfterSkips(send, period, delay, k);
    }
  }

  /** The events are the ideal send times less the delay, modulo the cycle: event j is
      the ideal event number j plus Skips, counted around the cycle, so every ideal
      event is sent exactly once. Consecutive events are one period apart. */
  lemma EventsAreIdealModuloCycle(send: nat, period: nat, delay: nat, n: nat, j: nat)
    requires period > 0 && j < n && send <= period && (delay > 0 || send < period)
    ensures n * period > 0
    ensures EventTime(send, period, delay, j)
      == (send + ((j + Skips(send, period, delay)) % n) * period - delay) % (n * period)
    ensures EventTime(send, period, delay, j + 1) - EventTime(send, period, delay, j) == period
  {
    EventTimesInCycle(send, period, delay, n);
    var k := Skips(send, period, delay);
    SkipsSpec(send, period, delay);
    TurnProducts(j + k, n, period);
    assert (j + k) * period == j * period + k * period;
    assert (j + 1) * period == j * period + period;
    ModUnique(send + ((j + k) % n) * period - delay, n * period, (j + k) / n);
  }

  lemma TurnProducts(x: nat, n: nat, period: nat)
    requires n > 0 && period > 0
    ensures n * period > 0
    ensures x * period == (x % n) * period + (n * period) * (x / n)
  {
    var q, r := x / n, x % n;
    assert x == n * q + r;
    assert (n * q + r) * period == (n * q) * period + r * period;
    assert (n * q) * period == (n * period) * q;
    MulLe(1, n, period);
  }

  lemma RoundedTickInCycle(time: nat, tick: nat, cycleTicks: nat)
    requires tick > 0 && time < tick * cycleTicks
    ensures DivRoundClosest(time, tick) <= cycleTicks
    ensures DivRoundClosest(time, tick) == cycleTicks <==> tick * cycleTicks - time <= tick / 2
  {
    if time > 0 {
      DivBelow(time + tick / 2, tick, cycleTicks);
      DivBelow(time + tick / 2, tick, cycleTicks + 1);
      assert tick * (cycleTicks + 1) == tick * cycleTicks + tick;
    } else {
      QuotientUnique(tick / 2, tick, 0);
      MulLe(1, cycleTicks, tick);
    }
  }

  /** Every tick is within half a tick of its time, and lies inside the cycle unless the
      time is so close to the end of the cycle that it is rounded up to it. */
  lemma EventTickNearTime(e: ScheduleEntry, delay: nat, tick: nat, j: nat, cycleTicks: nat)
    requires tick > 0 && e.periodNs > 0
    requires EventTime(e.sendTimeNs, e.periodNs, delay, j) < tick * cycleTicks
    ensures var time := EventTime(e.sendTimeNs, e.periodNs, delay, j);
      var t := EventTick(e, delay, tick, j);
      && 0 - tick <= 2 * (tick * t - time) <= tick
      && t <= cycleTicks
      && (t == cycleTicks <==> tick * cycleTicks - time <= tick / 2)
  {
    var time := EventTime(e.sendTimeNs, e.periodNs, delay, j);
    RoundClosestWithinHalf(time, tick);
    RoundedTickInCycle(time, tick, cycleTicks);
  }

  lemma RoundsBelow(time: nat, tick: nat, cycleTicks: nat)
    requires tick > 0
    ensures DivRoundClosest(time, tick) < cycleTicks <==> time + tick / 2 < tick * cycleTicks
  {
    if time > 0 {
      DivBelow(time + tick / 2, tick, cycleTicks);
    } else {
      QuotientUnique(tick / 2, tick, 0);
      if cycleTicks > 0 {
        MulLe(1, cycleTicks, tick);
      }
    }
  }

  lemma EventTickBelow(e: ScheduleEntry, delay: nat, tick: nat, j: nat, cycleTicks: nat)
    requires tick > 0 && e.periodNs > 0
    ensures EventTick(e, delay, tick, j) < cycleTicks <==>
      EventTime(e.sendTimeNs, e.periodNs, delay, j) + tick / 2 < tick * cycleTicks
  {
    RoundsBelow(EventTime(e.sendTimeNs, e.periodNs, delay, j), tick, cycleTicks);
  }

  lemma LastEventTime(send: nat, period: nat, delay: nat, n: nat, j: nat)
    requires period > 0 && j < n
    ensures EventTime(send, period, delay, j) <= EventTime(send, period, delay, n - 1)
    ensures EventTime(send, period, delay, n - 1) == FirstEvent(send, period, delay) + n * period - period
  {
    MulLe(j, n - 1, period);
    assert (n - 1) * period == n * period - period;
  }

  /** With a period dividing the cycle, all ticks of a schedule lie inside the cycle exactly
      when the first event is more than half a tick before the end of its period. */
  lemma EventTicksInCycle(e: ScheduleEntry, delay: nat, tick: nat, n: nat, cycleTicks: nat)
    requires tick > 0 && n > 0 && e.periodNs > 0
    requires n * e.periodNs == tick * cycleTicks
    ensures (forall j: nat :: j < n ==> EventTick(e, delay, tick, j) < cycleTicks)
      <==> FirstEvent(e.sendTimeNs, e.periodNs, delay) + tick / 2 < e.periodNs
  {
    forall j: nat | j < n
      ensures EventTick(e, delay, tick, j) < cycleTicks <== EventTick(e, delay, tick, n - 1) < cycleTicks
    {
      LastEventTime(e.sendTimeNs, e.periodNs, delay, n, j);
      EventTickBelow(e, delay, tick, j, cycleTicks);
      EventTickBelow(e, delay, tick, n - 1, cycleTicks);
    }
    LastEventTime(e.sendTimeNs, e.periodNs, delay, n, n - 1);
    EventTickBelow(e, delay, tick, n - 1, cycleTicks);
  }

  /** An input that breaks it: an event 2 ns before the end of a cycle of 100 ticks of 10 ns. */
  lemma EventRoundedUpToCycle(e: ScheduleEntry)
    requires e.sendTimeNs == 998 && e.periodNs == 1000
    ensures EventTick(e, 0, 10, 0) == 100
  {
  }

  // ---- reception windows ----

  function IngressDelay(m: ConnectionMode, d: Delays): nat {
    d.chipIn + d.phyIn + if m.Serial? then d.serSwitch else 0
  }

  /** One conditional subtraction of the cycle. */
  function WrapOnce(t: nat, cycleTicks: nat): nat {
    if t >= cycleTicks then t - cycleTicks else t
  }

  function OpenTick(e: ScheduleEntry, mode: ConnectionMode, d: Delays, tick: nat, cycleTicks: nat, i: nat): nat
    requires tick > 0
  {
    WrapOnce((e.timeStartNs + i * e.periodNs + IngressDelay(mode, d)) / tick, cycleTicks)
  }

  function CloseTick(e: ScheduleEntry, d: Delays, tick: nat, cycleTicks: nat, i: nat): nat
    requires tick > 0
  {
    var t := e.timeEndNs + i * e.periodNs + d.chipIn + d.phyIn;
    RoundUpBounds(t, tick);
    WrapOnce(DivRoundUp(t, tick), cycleTicks)
  }

  function OpenCmd(lookup: nat): SchedCmd {
    SchedCmd(0, lookup, 0, NoTrigger, false, true, false, false)
  }

  function CloseCmd(lookup: nat, recoveryGather: Option<nat>): SchedCmd {
    match recoveryGather
    case Some(gather) => SchedCmd(gather, lookup, 0, FirstStage, true, false, false, false)
    case None => SchedCmd(0, lookup, 0, NoTrigger, true, false, false, false)
  }

  /** The open and close commands of the first `n` windows, alternating. */
  function WindowCommands(e: ScheduleEntry, mode: ConnectionMode, d: Delays, tick: nat, cycleTicks: nat,
      lookup: nat, recoveryGather: Option<nat>, n: nat): (r: seq<FscCommand>)
    requires tick > 0
    ensures |r| == 2 * n
  {
    if n == 0 then []
    else
      WindowCommands(e, mode, d, tick, cycleTicks, lookup, recoveryGather, n - 1)
      + [FscCommand(OpenTick(e, mode, d, tick, cycleTicks, n - 1), OpenCmd(lookup), e)]
      + [FscCommand(CloseTick(e, d, tick, cycleTicks, n - 1), CloseCmd(lookup, recoveryGather), e)]
  }

  /** The unsigned sums of the window loop do not wrap. */
  lemma WindowSumFits(start: nat, period: nat, cycle: nat, n: nat, i: nat)
    requires start <= period && period * n <= cycle && i < n
    ensures start + i * period <= cycle
  {
    MulLe(i, n - 1, period);
    assert (n - 1) * period == n * period - period;
  }

  /** An edge of window `i`, `delay` later, as an unsigned sum. */
  method WindowEdge(edge: nat, period: nat, delay: nat, i: nat, ghost cycle: nat, ghost n: nat) returns (time: nat)
    requires edge <= period && period * n <= cycle && i < n && cycle + delay < U32_LIMIT
    ensures time == edge + i * period + delay
  {
    WindowSumFits(edge, period, cycle, n, i);
    U32Fits(edge + i * period + delay);
    time := U32(edge + i * period + delay);
  }

  /** The conditional subtraction that keeps a tick in the cycle. */
  method WithinCycle(absCycle: nat, cycleNs: nat, tick: nat) returns (t: nat)
    requires tick > 0
    ensures t == WrapOnce(absCycle, cycleNs / tick)
  {
    t := absCycle;
    if t >= cycleNs / tick {
      t := t - cycleNs / tick;
    }
  }

  /** Tick of the start of window `i`. */
  method WindowStart(e: ScheduleEntry, mode: ConnectionMode, d: Delays, cycleNs: nat, tick: nat, i: nat, ghost n: nat)
    returns (absCycle: nat)
    requires tick > 0 && e.timeStartNs <= e.periodNs
    requires e.periodNs * n <= cycleNs && i < n
    requires cycleNs + d.chipIn + d.phyIn + d.serSwitch < U32_LIMIT
    ensures absCycle == OpenTick(e, mode, d, tick, cycleNs / tick, i)
  {
    var delay := d.chipIn + d.phyIn;
    match mode {
      case Parallel =>
      case Serial => delay := delay + d.serSwitch;
    }
    var time := WindowEdge(e.timeStartNs, e.periodNs, delay, i, cycleNs, n);
    absCycle := WithinCycle(time / tick, cycleNs, tick);
  }

  /** Tick of the end of window `i`. */
  method WindowEnd(e: ScheduleEntry, d: Delays, cycleNs: nat, tick: nat, i: nat, ghost n: nat)
    returns (absCycle: nat)
    requires tick > 0 && e.timeEndNs <= e.periodNs
    requires e.periodNs * n <= cycleNs && i < n
    requires cycleNs + d.chipIn + d.phyIn < U32_LIMIT
    ensures absCycle == CloseTick(e, d, tick, cycleNs / tick, i)
  {
    var time := WindowEdge(e.timeEndNs, e.periodNs, d.chipIn + d.phyIn, i, cycleNs, n);
    RoundUpBounds(time, tick);
    absCycle := WithinCycle(DivRoundUp(time, tick), cycleNs, tick);
  }

  /** One pass of the loop: the open and the close command of window `i`. */
  method AddWindow(e: ScheduleEntry, m: AcmModule, tick: nat, gather: nat, lookup: nat, recovery: bool, i: nat,
                   ghost n: nat)
    requires tick > 0 && e.timeStartNs <= e.periodNs && e.timeEndNs <= e.periodNs
    requires e.periodNs * n <= m.cycleNs && i < n
    requires m.cycleNs + m.delays.chipIn + m.delays.phyIn + m.delays.serSwitch < U32_LIMIT
    requires Sorted(m.fscList)
    modifies m`fscList
    ensures Sorted(m.fscList)
    ensures m.fscList == Insert(Insert(old(m.fscList),
      FscCommand(OpenTick(e, m.mode, m.delays, tick, m.cycleNs / tick, i), OpenCmd(lookup), e)),
      FscCommand(CloseTick(e, m.delays, tick, m.cycleNs / tick, i),
                 CloseCmd(lookup, if recovery then Some(gather) else None), e))
  {
    var absCycle := WindowStart(e, m.mode, m.delays, m.cycleNs, tick, i, n);
    AddFscToModuleSorted(m, FscCommand(absCycle, SchedCmd(0, lookup, 0, NoTrigger, false, true, false, false), e));
    absCycle := WindowEnd(e, m.delays, m.cycleNs, tick, i, n);
    var item := FscCommand(absCycle, SchedCmd(0, lookup, 0, NoTrigger, true, false, false, false), e);
    if recovery {
      item := FscCommand(absCycle, SchedCmd(gather, lookup, 0, FirstStage, true, false, false, false), e);
    }
    AddFscToModuleSorted(m, item);
  }

  method CreateWindowSysfsItems(e: ScheduleEntry, m: AcmModule, tick: nat, gather: nat, lookup: nat, recovery: bool)
    requires tick > 0 && e.periodNs > 0
    requires e.timeStartNs <= e.periodNs && e.timeEndNs <= e.periodNs
    requires m.cycleNs + m.delays.chipIn + m.delays.phyIn + m.delays.serSwitch < U32_LIMIT
    requires Sorted(m.fscList)
    modifies m`fscList
    ensures Sorted(m.fscList)
    ensures m.fscList == InsertAll(old(m.fscList),
      WindowCommands(e, m.mode, m.delays, tick, m.cycleNs / tick, lookup,
        if recovery then Some(gather) else None, m.cycleNs / e.periodNs))
  {
    var numItems := m.cycleNs / e.periodNs;
    ghost var list := m.fscList;
    ghost var cycleTicks: nat := m.cycleNs / tick;
    ghost var recoveryGather := if recovery then Some(gather) else None;
    DivBounds(m.cycleNs, e.periodNs);
    var i := 0;
    while i < numItems
      invariant 0 <= i <= numItems && Sorted(m.fscList)
      invariant m.fscList == InsertAll(list,
        WindowCommands(e, m.mode, m.delays, tick, cycleTicks, lookup, recoveryGather, i))
    {
      AddWindow(e, m, tick, gather, lookup, recovery, i, numItems);
      ghost var before := WindowCommands(e, m.mode, m.delays, tick, cycleTicks, lookup, recoveryGather, i);
      ghost var open := FscCommand(OpenTick(e, m.mode, m.delays, tick, cycleTicks, i), OpenCmd(lookup), e);
      ghost var close := FscCommand(CloseTick(e, m.delays, tick, cycleTicks, i), CloseCmd(lookup, recoveryGather), e);
      InsertAllNext(list, before, open);
      InsertAllNext(list, before + [open], close);
      i := i + 1;
    }
  }

  /** `t` is the tick `w` of the cycle, in this cycle or in the next one. */
  ghost predicate InTurn(t: int, w: nat, cycleTicks: nat) {
    t == w || t == w + cycleTicks
  }

  /** Parallel mode, with the tick dividing the cycle and the delay at least one tick
      shorter than it: the single subtraction brings both ticks of window i into the
      cycle, and up to whole cycles the open tick is the last one not after the delayed
      start, the close tick the first one not before the delayed end. */
  lemma ParallelWindowCoversRequest(e: ScheduleEntry, d: Delays, tick: nat, cycleTicks: nat, n: nat, i: nat)
    requires tick > 0 && i < n && n * e.periodNs <= tick * cycleTicks
    requires e.timeStartNs <= e.periodNs && e.timeEndNs <= e.periodNs
    requires d.chipIn + d.phyIn + tick <= tick * cycleTicks
    ensures OpenTick(e, Parallel, d, tick, cycleTicks, i) < cycleTicks
    ensures CloseTick(e, d, tick, cycleTicks, i) < cycleTicks
    ensures var start := e.timeStartNs + i * e.periodNs + d.chipIn + d.phyIn;
      exists open :: InTurn(open, OpenTick(e, Parallel, d, tick, cycleTicks, i), cycleTicks)
        && tick * open <= start < tick * open + tick
    ensures var end := e.timeEndNs + i * e.periodNs + d.chipIn + d.phyIn;
      exists close :: InTurn(close, CloseTick(e, d, tick, cycleTicks, i), cycleTicks)
        && end <= tick * close < end + tick
  {
    var delay := d.chipIn + d.phyIn;
    var start := e.timeStartNs + i * e.periodNs + delay;
    var end := e.timeEndNs + i * e.periodNs + delay;
    WindowSumFits(e.timeStartNs, e.periodNs, tick * cycleTicks, n, i);
    WindowSumFits(e.timeEndNs, e.periodNs, tick * cycleTicks, n, i);
    assert tick * (2 * cycleTicks) == 2 * (tick * cycleTicks);
    DivBelow(start, tick, 2 * cycleTicks);
    DivBelow(end + tick - 1, tick, 2 * cycleTicks);
    DivBounds(start, tick);
    RoundUpBounds(end, tick);
    assert InTurn(start / tick, OpenTick(e, Parallel, d, tick, cycleTicks, i), cycleTicks);
    assert InTurn(DivRoundUp(end, tick), CloseTick(e, d, tick, cycleTicks, i), cycleTicks);
  }

  /** Time of the start of window `i` with the delays of both modes, less the switch delay. */
  function WindowStartTime(e: ScheduleEntry, d: Delays, i: nat): nat {
    e.timeStartNs + i * e.periodNs + d.chipIn + d.phyIn
  }

  function WindowEndTime(e: ScheduleEntry, d: Delays, i: nat): nat {
    e.timeEndNs + i * e.periodNs + d.chipIn + d.phyIn
  }

  function SwitchDelay(mode: ConnectionMode, d: Delays): nat {
    if mode.Serial? then d.serSwitch else 0
  }

  /** The single subtraction brings an open tick into the cycle exactly while the delayed
      start is before the end of the next cycle. */
  lemma {:induction false} OpenTickInCycle(e: ScheduleEntry, mode: ConnectionMode, d: Delays, tick: nat,
                                           cycleTicks: nat, i: nat)
    requires tick > 0
    ensures OpenTick(e, mode, d, tick, cycleTicks, i) < cycleTicks <==>
      WindowStartTime(e, d, i) + SwitchDelay(mode, d) < 2 * (tick * cycleTicks)
  {
    DivBelow(WindowStartTime(e, d, i) + SwitchDelay(mode, d), tick, 2 * cycleTicks);
    assert tick * (2 * cycleTicks) == 2 * (tick * cycleTicks);
  }

  /** The close tick is rounded up: it needs the delayed end a whole tick earlier. */
  lemma CloseTickInCycle(e: ScheduleEntry, d: Delays, tick: nat, cycleTicks: nat, i: nat)
    requires tick > 0
    ensures CloseTick(e, d, tick, cycleTicks, i) < cycleTicks <==>
      WindowEndTime(e, d, i) + tick <= 2 * (tick * cycleTicks)
  {
    DivBelow(WindowEndTime(e, d, i) + tick - 1, tick, 2 * cycleTicks);
    assert tick * (2 * cycleTicks) == 2 * (tick * cycleTicks);
  }

  /** An input that breaks both: a delay of two cycles of 100 ticks of 10 ns. */
  lemma DelayOfTwoCycles(e: ScheduleEntry, d: Delays)
    requires e.timeStartNs == 0 && e.timeEndNs == 500 && e.periodNs == 1000
    requires d.chipIn == 1500 && d.phyIn == 500
    ensures OpenTick(e, Parallel, d, 10, 100, 0) == 100
    ensures CloseTick(e, d, 10, 100, 0) == 150
  {
  }

  /** Rounding down a time behind `start` still gives a tick not after `start`. */
  lemma FloorStaysBefore(start: nat, extra: nat, tick: nat)
    requires tick > 0
    ensures tick * ((start + extra) / tick) <= start + extra < tick * ((start + extra) / tick) + tick
    ensures tick * ((start + extra) / tick) <= start <==> start % tick + extra < tick
  {
    DivBounds(start, tick);
    DivBounds(start + extra, tick);
    if start % tick + extra < tick {
      QuotientUnique(start + extra, tick, start / tick);
    } else {
      DivBelow(start + extra, tick, start / tick + 1);
      MulStep(tick, start / tick, (start + extra) / tick);
    }
  }

  /** Serial mode adds the switch delay to the window start only. Up to whole cycles the open
      tick is the last one not after the start with that delay; the window opens no later
      than the start of the request exactly when the delay does not carry it into the next
      tick. */
  lemma SerialWindowOpensInTime(e: ScheduleEntry, d: Delays, tick: nat, cycleTicks: nat, i: nat)
    requires tick > 0
    ensures var start := WindowStartTime(e, d, i);
      exists open :: InTurn(open, OpenTick(e, Serial, d, tick, cycleTicks, i), cycleTicks)
        && tick * open <= start + d.serSwitch < tick * open + tick
        && (tick * open <= start <==> start % tick + d.serSwitch < tick)
  {
    var start := WindowStartTime(e, d, i);
    var open := (start + d.serSwitch) / tick;
    FloorStaysBefore(start, d.serSwitch, tick);
    assert InTurn(open, OpenTick(e, Serial, d, tick, cycleTicks, i), cycleTicks);
  }

  /** An input whose window opens late: a start at 100 ns and a switch delay of 800 ns open
      the window at tick 90 instead of 10, and it closes at tick 50. */
  lemma SerialWindowOpensLate(e: ScheduleEntry, d: Delays)
    requires e.timeStartNs == 100 && e.timeEndNs == 500 && e.periodNs == 1000
    requires d.chipIn == 0 && d.phyIn == 0 && d.serSwitch == 800
    ensures OpenTick(e, Parallel, d, 10, 100, 0) == 10
    ensures OpenTick(e, Serial, d, 10, 100, 0) == 90
    ensures CloseTick(e, d, 10, 100, 0) == 50
  {
  }

  // ---- what the commands do ----

  lemma {:induction false} EventCommandAt(e: ScheduleEntry, delay: nat, tick: nat, cmd: SchedCmd, n: nat, j: nat)
    requires tick > 0 && e.periodNs > 0 && j < n
    ensures EventCommands(e, delay, tick, cmd, n)[j] == FscCommand(EventTick(e, delay, tick, j), cmd, e)
  {
    if j < n - 1 {
      EventCommandAt(e, delay, tick, cmd, n - 1, j);
    }
  }

  lemma {:induction false} WindowCommandAt(e: ScheduleEntry, mode: ConnectionMode, d: Delays, tick: nat,
                                           cycleTicks: nat, lookup: nat, recoveryGather: Option<nat>, n: nat, i: nat)
    requires tick > 0 && i < n
    ensures var xs := WindowCommands(e, mode, d, tick, cycleTicks, lookup, recoveryGather, n);
      && xs[2 * i] == FscCommand(OpenTick(e, mode, d, tick, cycleTicks, i), OpenCmd(lookup), e)
      && xs[2 * i + 1] == FscCommand(CloseTick(e, d, tick, cycleTicks, i), CloseCmd(lookup, recoveryGather), e)
  {
    if i < n - 1 {
      WindowCommandAt(e, mode, d, tick, cycleTicks, lookup, recoveryGather, n - 1, i);
    }
  }

  /** Some command of `xs` does `a` at tick `t`. */
  ghost predicate DoneAt(xs: seq<FscCommand>, t: nat, a: Action) {
    exists k {:trigger xs[k]} :: 0 <= k < |xs| && xs[k].absCycle == t && Does(xs[k].cmd, a)
  }

  ghost predicate EventAt(e: ScheduleEntry, delay: nat, tick: nat, n: nat, t: nat)
    requires tick > 0 && e.periodNs > 0
  {
    exists j :: 0 <= j < n && EventTick(e, delay, tick, j) == t
  }

  /** A send schedule runs its stream's program at the ticks of its events, and does nothing
      else. */
  lemma EventsRunProgram(e: ScheduleEntry, delay: nat, tick: nat, gather: nat, redund: nat, n: nat, t: nat, a: Action)
    requires tick > 0 && e.periodNs > 0
    ensures DoneAt(EventCommands(e, delay, tick, EventCmd(gather, redund), n), t, a) <==>
      a == RunProgram(gather, redund) && EventAt(e, delay, tick, n, t)
  {
    var xs := EventCommands(e, delay, tick, EventCmd(gather, redund), n);
    forall j | 0 <= j < n ensures xs[j] == FscCommand(EventTick(e, delay, tick, j), EventCmd(gather, redund), e) {
      EventCommandAt(e, delay, tick, EventCmd(gather, redund), n, j);
    }
  }

  ghost predicate OpensAt(e: ScheduleEntry, mode: ConnectionMode, d: Delays, tick: nat, cycleTicks: nat, n: nat, t: nat)
    requires tick > 0
  {
    exists i :: 0 <= i < n && OpenTick(e, mode, d, tick, cycleTicks, i) == t
  }

  ghost predicate ClosesAtTick(e: ScheduleEntry, d: Delays, tick: nat, cycleTicks: nat, n: nat, t: nat)
    requires tick > 0
  {
    exists i :: 0 <= i < n && CloseTick(e, d, tick, cycleTicks, i) == t
  }

  lemma DoneByEdge(e: ScheduleEntry, mode: ConnectionMode, d: Delays, tick: nat, cycleTicks: nat,
                   lookup: nat, recoveryGather: Option<nat>, n: nat, t: nat, a: Action)
    requires tick > 0 && DoneAt(WindowCommands(e, mode, d, tick, cycleTicks, lookup, recoveryGather, n), t, a)
    ensures a == OpenWindow(lookup) ==> OpensAt(e, mode, d, tick, cycleTicks, n, t)
    ensures a != OpenWindow(lookup) ==> ClosesAtTick(e, d, tick, cycleTicks, n, t)
    ensures a == OpenWindow(lookup) || a == CloseWindow(lookup)
      || (recoveryGather.Some? && a == RunConditionally(recoveryGather.value, lookup))
  {
    var xs := WindowCommands(e, mode, d, tick, cycleTicks, lookup, recoveryGather, n);
    var k {:trigger xs[k]} :| 0 <= k < |xs| && xs[k].absCycle == t && Does(xs[k].cmd, a);
    WindowCommandAt(e, mode, d, tick, cycleTicks, lookup, recoveryGather, n, k / 2);
    assert k == 2 * (k / 2) || k == 2 * (k / 2) + 1;
  }

  /** A reception schedule opens the window of its rule at the open ticks and closes it at the
      close ticks, where it also triggers the recovery stream on the frames the rule received,
      if there is one, and does nothing else. */
  lemma WindowsOpenAndClose(e: ScheduleEntry, mode: ConnectionMode, d: Delays, tick: nat, cycleTicks: nat,
                            lookup: nat, recoveryGather: Option<nat>, n: nat, t: nat, a: Action)
    requires tick > 0
    ensures DoneAt(WindowCommands(e, mode, d, tick, cycleTicks, lookup, recoveryGather, n), t, a) <==>
      || (a == OpenWindow(lookup) && OpensAt(e, mode, d, tick, cycleTicks, n, t))
      || (a == CloseWindow(lookup) && ClosesAtTick(e, d, tick, cycleTicks, n, t))
      || (recoveryGather.Some? && a == RunConditionally(recoveryGather.value, lookup)
          && ClosesAtTick(e, d, tick, cycleTicks, n, t))
  {
    var xs := WindowCommands(e, mode, d, tick, cycleTicks, lookup, recoveryGather, n);
    if DoneAt(xs, t, a) {
      DoneByEdge(e, mode, d, tick, cycleTicks, lookup, recoveryGather, n, t, a);
    }
    if i :| 0 <= i < n && OpenTick(e, mode, d, tick, cycleTicks, i) == t {
      WindowCommandAt(e, mode, d, tick, cycleTicks, lookup, recoveryGather, n, i);
      assert xs[2 * i].absCycle == t && Does(xs[2 * i].cmd, OpenWindow(lookup));
    }
    if i :| 0 <= i < n && CloseTick(e, d, tick, cycleTicks, i) == t {
      WindowCommandAt(e, mode, d, tick, cycleTicks, lookup, recoveryGather, n, i);
      assert xs[2 * i + 1].absCycle == t && Does(xs[2 * i + 1].cmd, CloseWindow(lookup));
    }
  }

  predicate OwnAndActive(l: seq<FscCommand>, e: ScheduleEntry) {
    forall k :: 0 <= k < |l| ==> Active(l[k].cmd) && l[k].schedule == e
  }

  /** Expanded commands belong to their schedule and are never no-operations. */
  lemma {:induction false} ExpandedCommandsActive(e: ScheduleEntry, mode: ConnectionMode, d: Delays, tick: nat,
                                                  cycleTicks: nat,
      lookup: nat, recoveryGather: Option<nat>, gather: nat, redund: nat, n: nat)
    requires tick > 0 && e.periodNs > 0
    ensures OwnAndActive(EventCommands(e, d.chipEg + d.phyEg, tick, EventCmd(gather, redund), n), e)
    ensures OwnAndActive(WindowCommands(e, mode, d, tick, cycleTicks, lookup, recoveryGather, n), e)
  {
    if n > 0 {
      ExpandedCommandsActive(e, mode, d, tick, cycleTicks, lookup, recoveryGather, gather, redund, n - 1);
    }
  }
}
