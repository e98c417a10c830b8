/** The windows of a reception schedule as the scheduler keeps them: open in exactly the ticks
    that the requested windows reach into. */
module ReceptionWindows {
  import opened Entities
  import opened Arith
  import opened Actions
  import opened FscList
  import opened Expansion
  import opened SchedTable
  import opened Windows

  // ---- the requested windows ----

  /** What the windows of a schedule depend on, besides the schedule. */
  datatype Setting = Setting(mode: ConnectionMode, d: Delays, tick: nat, cycleTicks: nat)

  /** Time of the start of window `i`, delayed. */
  function StartsAt(e: ScheduleEntry, s: Setting, i: nat): nat {
    WindowStartTime(e, s.d, i) + SwitchDelay(s.mode, s.d)
  }

  /** The end given for a window can lie before its start: it is the one of the next period. */
  predicate EndsInNextPeriod(e: ScheduleEntry, s: Setting) {
    e.timeEndNs <= e.timeStartNs + SwitchDelay(s.mode, s.d)
  }

  /** Time of the end of window `i`, delayed. */
  function EndsAt(e: ScheduleEntry, s: Setting, i: nat): nat {
    WindowEndTime(e, s.d, if EndsInNextPeriod(e, s) then i + 1 else i)
  }

  /** Window `i` reaches into tick `t`, counted from the start of a cycle. */
  predicate Reaches(e: ScheduleEntry, s: Setting, i: nat, t: nat) {
    StartsAt(e, s, i) < s.tick * t + s.tick && s.tick * t < EndsAt(e, s, i)
  }

  /** The cycle has `n` whole periods, a window starts before the end of the next one, and the
      delays do not carry the last one out of the next cycle. */
  predicate Fits(e: ScheduleEntry, s: Setting, n: nat) {
    && n > 0 && s.tick > 0 && e.periodNs > 0 && n * e.periodNs == s.tick * s.cycleTicks
    && e.timeEndNs <= e.periodNs && e.timeStartNs + SwitchDelay(s.mode, s.d) < e.timeEndNs + e.periodNs
    && StartsAt(e, s, n - 1) < 2 * (s.tick * s.cycleTicks)
    && WindowEndTime(e, s.d, n - 1) + s.tick <= 2 * (s.tick * s.cycleTicks)
  }

  /** The only window of the cycle ends and starts again within the last tick of the cycle. */
  predicate SplitByLastTick(e: ScheduleEntry, s: Setting) {
    var cycle := s.tick * s.cycleTicks;
    e.periodNs == cycle && cycle - s.tick < WindowEndTime(e, s.d, 0) <= StartsAt(e, s, 0) < cycle
  }

  // ---- ticks on the line ----

  function Opens(e: ScheduleEntry, s: Setting, i: nat): nat
    requires s.tick > 0
  {
    StartsAt(e, s, i) / s.tick
  }

  function RoundedEnd(e: ScheduleEntry, s: Setting, i: nat): nat
    requires s.tick > 0
  {
    RoundUpBounds(WindowEndTime(e, s.d, i), s.tick);
    DivRoundUp(WindowEndTime(e, s.d, i), s.tick)
  }

  function Closes(e: ScheduleEntry, s: Setting, i: nat): nat
    requires s.tick > 0
  {
    RoundedEnd(e, s, if EndsInNextPeriod(e, s) then i + 1 else i)
  }

  lemma TurnsRound(x: nat, tick: nat, cycleTicks: nat)
    requires tick > 0
    ensures (x + tick * cycleTicks) / tick == x / tick + cycleTicks
    ensures DivRoundUp(x + tick * cycleTicks, tick) == DivRoundUp(x, tick) + cycleTicks
  {
    DivBounds(x, tick);
    DivBounds(x + tick - 1, tick);
    assert tick * (x / tick + cycleTicks) == tick * (x / tick) + tick * cycleTicks;
    var up := (x + tick - 1) / tick;
    assert tick * (up + cycleTicks) == tick * up + tick * cycleTicks;
    QuotientUnique(x + tick * cycleTicks, tick, x / tick + cycleTicks);
    QuotientUnique(x + tick * cycleTicks + tick - 1, tick, up + cycleTicks);
  }

  /** One cycle later the ticks are one cycle later. */
  lemma NextCycle(e: ScheduleEntry, s: Setting, n: nat)
    requires Fits(e, s, n)
    ensures Opens(e, s, n) == Opens(e, s, 0) + s.cycleTicks
    ensures RoundedEnd(e, s, n) == RoundedEnd(e, s, 0) + s.cycleTicks
  {
    TurnsRound(StartsAt(e, s, 0), s.tick, s.cycleTicks);
    TurnsRound(WindowEndTime(e, s.d, 0), s.tick, s.cycleTicks);
    assert 0 * e.periodNs == 0;
  }

  lemma TicksReached(e: ScheduleEntry, s: Setting, i: nat, t: nat)
    requires s.tick > 0
    ensures Reaches(e, s, i, t) <==> Opens(e, s, i) <= t < Closes(e, s, i)
  {
    DivBelow(StartsAt(e, s, i), s.tick, t + 1);
    assert s.tick * (t + 1) == s.tick * t + s.tick;
    DivBelow(EndsAt(e, s, i) + s.tick - 1, s.tick, t + 1);
  }

  /** Time from the end of one window to the start of the next. */
  function Pause(e: ScheduleEntry, s: Setting): int {
    e.timeStartNs + SwitchDelay(s.mode, s.d) - e.timeEndNs + if EndsInNextPeriod(e, s) then 0 else e.periodNs
  }

  lemma WindowsFollow(e: ScheduleEntry, s: Setting, i: nat)
    ensures StartsAt(e, s, i + 1) == EndsAt(e, s, i) + Pause(e, s)
    ensures EndsInNextPeriod(e, s) ==> StartsAt(e, s, i) == WindowEndTime(e, s.d, i) + Pause(e, s)
  {
    assert (i + 1) * e.periodNs == i * e.periodNs + e.periodNs;
  }

  lemma WindowNotEmpty(e: ScheduleEntry, s: Setting, n: nat, i: nat)
    requires Fits(e, s, n)
    ensures Opens(e, s, i) < Closes(e, s, i)
  {
    StartsBeforeEnd(e, s, n, i);
    FloorBelowRoundUp(StartsAt(e, s, i), EndsAt(e, s, i), s.tick);
  }

  lemma StartsBeforeEnd(e: ScheduleEntry, s: Setting, n: nat, i: nat)
    requires Fits(e, s, n)
    ensures StartsAt(e, s, i) < EndsAt(e, s, i)
  {
    assert (i + 1) * e.periodNs == i * e.periodNs + e.periodNs;
  }

  lemma FloorBelowRoundUp(start: nat, end: nat, tick: nat)
    requires tick > 0 && start < end
    ensures start / tick < DivRoundUp(end, tick)
  {
    DivBounds(start, tick);
    RoundUpBounds(end, tick);
    if start / tick >= DivRoundUp(end, tick) {
      MulLe(DivRoundUp(end, tick), start / tick, tick);
    }
  }

  /** Ticks of a start behind an end. */
  lemma StartBehindEnd(end: nat, start: nat, tick: nat)
    requires tick > 0 && end <= start
    ensures start / tick + 1 >= DivRoundUp(end, tick)
    ensures start < end + tick ==> start / tick <= DivRoundUp(end, tick)
    ensures start >= end + tick ==> start / tick >= DivRoundUp(end, tick)
  {
    RoundUpBounds(end, tick);
    DivBounds(start, tick);
    var a, c := start / tick, DivRoundUp(end, tick);
    assert tick * (a + 1) == tick * a + tick;
    assert tick * (a + 2) == tick * a + 2 * tick;
    assert tick * (c + 1) == tick * c + tick;
    if a + 1 < c {
      MulLe(a + 2, c, tick);
    }
    if start < end + tick && a > c {
      MulLe(c + 1, a, tick);
    }
    if start >= end + tick && a < c {
      MulLe(a + 1, c, tick);
    }
  }

  // ---- an accepted list keeps the windows apart ----

  /** No two commands of the schedule share a tick or have neighbouring ones. */
  ghost predicate TicksApart(e: ScheduleEntry, s: Setting, n: nat)
    requires s.tick > 0
  {
    && (forall i, j {:trigger OpenTick(e, s.mode, s.d, s.tick, s.cycleTicks, i),
                      CloseTick(e, s.d, s.tick, s.cycleTicks, j)} :: 0 <= i < n && 0 <= j < n ==>
          NotNext(OpenTick(e, s.mode, s.d, s.tick, s.cycleTicks, i), CloseTick(e, s.d, s.tick, s.cycleTicks, j)))
    && (forall i, j {:trigger CloseTick(e, s.d, s.tick, s.cycleTicks, i),
                      CloseTick(e, s.d, s.tick, s.cycleTicks, j)} :: 0 <= i < j < n ==>
          NotNext(CloseTick(e, s.d, s.tick, s.cycleTicks, i), CloseTick(e, s.d, s.tick, s.cycleTicks, j)))
  }

  predicate NotNext(x: int, y: int) {
    x - y > 1 || y - x > 1
  }

  lemma LaterTimes(e: ScheduleEntry, s: Setting, i: nat, n: nat)
    requires i < n
    ensures StartsAt(e, s, i) <= StartsAt(e, s, n - 1) && WindowEndTime(e, s.d, i) <= WindowEndTime(e, s.d, n - 1)
  {
    MulLe(i, n - 1, e.periodNs);
  }

  lemma {:induction false} WrapOfTimes(e: ScheduleEntry, s: Setting, i: nat)
    requires s.tick > 0
    ensures OpenTick(e, s.mode, s.d, s.tick, s.cycleTicks, i) == WrapOnce(Opens(e, s, i), s.cycleTicks)
    ensures CloseTick(e, s.d, s.tick, s.cycleTicks, i) == WrapOnce(RoundedEnd(e, s, i), s.cycleTicks)
  {
    assert e.timeStartNs + i * e.periodNs + IngressDelay(s.mode, s.d) == StartsAt(e, s, i);
  }

  /** One subtraction brings all ticks into the cycle. */
  lemma {:induction false} TicksWrapOnce(e: ScheduleEntry, s: Setting, n: nat, i: nat)
    requires Fits(e, s, n) && i < n
    ensures Opens(e, s, i) < 2 * s.cycleTicks && RoundedEnd(e, s, i) < 2 * s.cycleTicks
    ensures OpenTick(e, s.mode, s.d, s.tick, s.cycleTicks, i) == WrapOnce(Opens(e, s, i), s.cycleTicks)
    ensures CloseTick(e, s.d, s.tick, s.cycleTicks, i) == WrapOnce(RoundedEnd(e, s, i), s.cycleTicks)
  {
    WrapOfTimes(e, s, i);
    LaterTimes(e, s, i, n);
    TwoCycles(StartsAt(e, s, i), s.tick, s.cycleTicks);
    TwoCycles(WindowEndTime(e, s.d, i) + s.tick - 1, s.tick, s.cycleTicks);
  }

  lemma TwoCycles(time: nat, tick: nat, cycleTicks: nat)
    requires tick > 0 && time < 2 * (tick * cycleTicks)
    ensures time / tick < 2 * cycleTicks
  {
    DivBelow(time, tick, 2 * cycleTicks);
    assert tick * (2 * cycleTicks) == 2 * (tick * cycleTicks);
  }

  /** Windows that end in their own period: less than a tick between them would put the last
      end next to the first start. */
  lemma PauseOfOwnPeriod(e: ScheduleEntry, s: Setting, n: nat)
    requires Fits(e, s, n) && TicksApart(e, s, n) && !EndsInNextPeriod(e, s)
    ensures Pause(e, s) >= s.tick
  {
    NextCycle(e, s, n);
    WindowsFollow(e, s, n - 1);
    StartBehindEnd(EndsAt(e, s, n - 1), StartsAt(e, s, n), s.tick);
    TicksWrapOnce(e, s, n, 0);
    TicksWrapOnce(e, s, n, n - 1);
    assert NotNext(OpenTick(e, s.mode, s.d, s.tick, s.cycleTicks, 0),
                   CloseTick(e, s.d, s.tick, s.cycleTicks, n - 1));
  }

  /** Windows that end in the next period: the end and the start of a period could be next to
      each other only across the end of the cycle. */
  lemma PauseAcrossEnd(e: ScheduleEntry, s: Setting, n: nat, i: nat)
    requires Fits(e, s, n) && TicksApart(e, s, n) && EndsInNextPeriod(e, s) && i < n && Pause(e, s) < s.tick
    ensures RoundedEnd(e, s, i) == s.cycleTicks && Opens(e, s, i) == s.cycleTicks - 1
  {
    WindowsFollow(e, s, i);
    StartBehindEnd(WindowEndTime(e, s.d, i), StartsAt(e, s, i), s.tick);
    TicksWrapOnce(e, s, n, i);
    assert NotNext(OpenTick(e, s.mode, s.d, s.tick, s.cycleTicks, i), CloseTick(e, s.d, s.tick, s.cycleTicks, i));
  }

  lemma LastTick(e: ScheduleEntry, s: Setting)
    requires s.tick > 0 && s.cycleTicks > 0 && EndsInNextPeriod(e, s) && e.periodNs == s.tick * s.cycleTicks
    ensures SplitByLastTick(e, s) <==>
      Opens(e, s, 0) == s.cycleTicks - 1 && RoundedEnd(e, s, 0) == s.cycleTicks
  {
    var start, end := StartsAt(e, s, 0), WindowEndTime(e, s.d, 0);
    DivBelow(start, s.tick, s.cycleTicks);
    DivBelow(start, s.tick, s.cycleTicks - 1);
    DivBelow(end + s.tick - 1, s.tick, s.cycleTicks);
    DivBelow(end + s.tick - 1, s.tick, s.cycleTicks + 1);
    assert s.tick * (s.cycleTicks - 1) == s.tick * s.cycleTicks - s.tick;
    assert s.tick * (s.cycleTicks + 1) == s.tick * s.cycleTicks + s.tick;
  }

  /** At least a tick lies between the windows, but for the one exception. */
  lemma PauseOfATick(e: ScheduleEntry, s: Setting, n: nat)
    requires Fits(e, s, n) && TicksApart(e, s, n)
    ensures Pause(e, s) >= s.tick || SplitByLastTick(e, s)
  {
    if !EndsInNextPeriod(e, s) {
      PauseOfOwnPeriod(e, s, n);
    } else if Pause(e, s) < s.tick {
      PauseAcrossEnd(e, s, n, 0);
      if n > 1 {
        TicksWrapOnce(e, s, n, 0);
        TicksWrapOnce(e, s, n, 1);
        assert NotNext(CloseTick(e, s.d, s.tick, s.cycleTicks, 0), CloseTick(e, s.d, s.tick, s.cycleTicks, 1));
        PauseAcrossEnd(e, s, n, 1);
      } else {
        LastTick(e, s);
      }
    }
  }

  // ---- the windows one after the other ----

  /** Every window closes before the next one opens, and the last one before the first one of
      the next cycle. */
  lemma WindowsInTurn(e: ScheduleEntry, s: Setting, n: nat, i: nat)
    requires Fits(e, s, n) && TicksApart(e, s, n) && !SplitByLastTick(e, s) && i < n
    ensures Opens(e, s, i) < Closes(e, s, i) < Opens(e, s, i + 1)
  {
    WindowNotEmpty(e, s, n, i);
    PauseOfATick(e, s, n);
    WindowsFollow(e, s, i);
    StartBehindEnd(EndsAt(e, s, i), StartsAt(e, s, i + 1), s.tick);
    NextCycle(e, s, n);
    TicksWrapOnce(e, s, n, i);
    TicksWrapOnce(e, s, n, if i + 1 < n then i + 1 else 0);
    ghost var end := if !EndsInNextPeriod(e, s) then i else if i + 1 < n then i + 1 else 0;
    assert NotNext(OpenTick(e, s.mode, s.d, s.tick, s.cycleTicks, if i + 1 < n then i + 1 else 0),
                   CloseTick(e, s.d, s.tick, s.cycleTicks, end));
  }

  lemma {:induction false} WindowsOrdered(e: ScheduleEntry, s: Setting, n: nat, i: nat, j: nat)
    requires Fits(e, s, n) && TicksApart(e, s, n) && !SplitByLastTick(e, s) && i < j <= n
    ensures Closes(e, s, i) < Opens(e, s, j)
    decreases j
  {
    WindowsInTurn(e, s, n, j - 1);
    if i < j - 1 {
      WindowsOrdered(e, s, n, i, j - 1);
    }
  }

  /** Window `i`, counted from the cycle in which it opens. */
  function InCycle(e: ScheduleEntry, s: Setting, i: nat): Window
    requires s.tick > 0
  {
    var back := if Opens(e, s, i) >= s.cycleTicks then s.cycleTicks else 0;
    Window(Opens(e, s, i) - back, Closes(e, s, i) - back)
  }

  ghost function InCycleAll(e: ScheduleEntry, s: Setting, n: nat): (ws: seq<Window>)
    requires s.tick > 0
    ensures |ws| == n && forall i {:trigger ws[i]} :: 0 <= i < n ==> ws[i] == InCycle(e, s, i)
  {
    if n == 0 then [] else InCycleAll(e, s, n - 1) + [InCycle(e, s, n - 1)]
  }

  lemma WindowProper(e: ScheduleEntry, s: Setting, n: nat, i: nat)
    requires Fits(e, s, n) && TicksApart(e, s, n) && !SplitByLastTick(e, s) && i < n
    ensures Proper(InCycle(e, s, i), s.cycleTicks)
    ensures Closes(e, s, i) < Opens(e, s, i) + s.cycleTicks
    ensures Opens(e, s, n) == Opens(e, s, 0) + s.cycleTicks
  {
    TicksWrapOnce(e, s, n, i);
    WindowsInTurn(e, s, n, i);
    WindowsOrdered(e, s, n, i, n);
    NextCycle(e, s, n);
    if i > 0 {
      WindowsOrdered(e, s, n, 0, i);
      WindowsInTurn(e, s, n, 0);
    }
  }

  lemma NotWithinEarlier(e: ScheduleEntry, s: Setting, n: nat, i: nat, j: nat)
    requires Fits(e, s, n) && TicksApart(e, s, n) && !SplitByLastTick(e, s) && i < n && j < n
    ensures !Within(InCycle(e, s, i), InCycle(e, s, j).open, s.cycleTicks)
    ensures !Within(InCycle(e, s, i), ClosesAt(InCycle(e, s, j), s.cycleTicks), s.cycleTicks)
  {
    WindowProper(e, s, n, i);
    WindowProper(e, s, n, j);
    if i < j {
      WindowsOrdered(e, s, n, i, j);
      WindowsOrdered(e, s, n, j, n);
      OpensLater(e, s, 0, i);
    } else if j < i {
      WindowsOrdered(e, s, n, j, i);
      WindowsOrdered(e, s, n, i, n);
      OpensLater(e, s, 0, j);
    }
  }

  lemma OpensLater(e: ScheduleEntry, s: Setting, i: nat, j: nat)
    requires s.tick > 0 && i <= j
    ensures Opens(e, s, i) <= Opens(e, s, j)
  {
    MulLe(i, j, e.periodNs);
    DivBelow(StartsAt(e, s, j), s.tick, Opens(e, s, i));
    DivBounds(StartsAt(e, s, i), s.tick);
  }

  lemma WindowsSeparate(e: ScheduleEntry, s: Setting, n: nat)
    requires Fits(e, s, n) && TicksApart(e, s, n) && !SplitByLastTick(e, s)
    ensures Separate(InCycleAll(e, s, n), s.cycleTicks)
  {
    var ws := InCycleAll(e, s, n);
    forall i {:trigger ws[i]} | 0 <= i < n ensures Proper(ws[i], s.cycleTicks) {
      WindowProper(e, s, n, i);
    }
    forall i, j {:trigger ws[i], ws[j]} | 0 <= i < n && 0 <= j < n
      ensures !Within(ws[i], ws[j].open, s.cycleTicks) && !Within(ws[i], ClosesAt(ws[j], s.cycleTicks), s.cycleTicks)
    {
      NotWithinEarlier(e, s, n, i, j);
    }
  }

  /** The requested window reaches into tick `t` of the cycle `k` cycles later. */
  predicate ReachesLater(e: ScheduleEntry, s: Setting, i: nat, t: nat, k: nat) {
    Reaches(e, s, i, t + k * s.cycleTicks)
  }

  /** It does so in this cycle or in one of the next two, or never. */
  lemma ReachedSoon(e: ScheduleEntry, s: Setting, i: nat, t: nat, k: nat)
    requires s.tick > 0 && Closes(e, s, i) <= 3 * s.cycleTicks
    ensures ReachesLater(e, s, i, t, k) ==> k < 3
    ensures ReachesLater(e, s, i, t, 0) <==> Opens(e, s, i) <= t < Closes(e, s, i)
    ensures ReachesLater(e, s, i, t, 1) <==> Opens(e, s, i) <= t + s.cycleTicks < Closes(e, s, i)
    ensures ReachesLater(e, s, i, t, 2) <==> Opens(e, s, i) <= t + 2 * s.cycleTicks < Closes(e, s, i)
  {
    TicksReached(e, s, i, t);
    TicksReached(e, s, i, t + s.cycleTicks);
    TicksReached(e, s, i, t + 2 * s.cycleTicks);
    assert 0 * s.cycleTicks == 0 && 1 * s.cycleTicks == s.cycleTicks;
    TicksReached(e, s, i, t + k * s.cycleTicks);
    if k >= 3 {
      MulLe(3, k, s.cycleTicks);
    }
  }

  /** The window holds tick `t` if and only if the requested one reaches into a tick that is `t`
      in some cycle. */
  lemma InsideIsReached(e: ScheduleEntry, s: Setting, n: nat, i: nat, t: nat)
    requires Fits(e, s, n) && TicksApart(e, s, n) && !SplitByLastTick(e, s) && i < n && t < s.cycleTicks
    ensures Inside(InCycle(e, s, i), t, s.cycleTicks) <==> exists k :: ReachesLater(e, s, i, t, k)
  {
    WindowProper(e, s, n, i);
    TicksWrapOnce(e, s, n, i);
    ReachedSoon(e, s, i, t, 0);
    if k :| ReachesLater(e, s, i, t, k) {
      ReachedSoon(e, s, i, t, k);
    }
  }

  // ---- the windows in a command list ----

  /** The list before the schedule was added, and the commands that were created for it. */
  ghost predicate Added(l: seq<FscCommand>, list: seq<FscCommand>, e: ScheduleEntry, s: Setting, lookup: nat,
                        recoveryGather: Option<nat>, n: nat)
    requires s.tick > 0
  {
    && l == InsertAll(list, WindowCommands(e, s.mode, s.d, s.tick, s.cycleTicks, lookup, recoveryGather, n))
    && (forall k {:trigger list[k]} :: 0 <= k < |list| ==> list[k].schedule != e)
    && Sorted(l) && GapsOk(Ticks(l))
  }

  lemma AcceptedTicksApart(l: seq<FscCommand>, list: seq<FscCommand>, e: ScheduleEntry, s: Setting, lookup: nat,
                           recoveryGather: Option<nat>, n: nat)
    requires s.tick > 0 && Added(l, list, e, s, lookup, recoveryGather, n)
    ensures TicksApart(e, s, n)
  {
    var xs := WindowCommands(e, s.mode, s.d, s.tick, s.cycleTicks, lookup, recoveryGather, n);
    forall i, j | 0 <= i < n && 0 <= j < n
      ensures NotNext(OpenTick(e, s.mode, s.d, s.tick, s.cycleTicks, i), CloseTick(e, s.d, s.tick, s.cycleTicks, j))
    {
      WindowCommandAt(e, s.mode, s.d, s.tick, s.cycleTicks, lookup, recoveryGather, n, i);
      WindowCommandAt(e, s.mode, s.d, s.tick, s.cycleTicks, lookup, recoveryGather, n, j);
      if i <= j {
        InsertedApart(list, xs, 2 * i, 2 * j + 1);
      } else {
        InsertedApart(list, xs, 2 * j + 1, 2 * i);
      }
    }
    forall i, j | 0 <= i < j < n
      ensures NotNext(CloseTick(e, s.d, s.tick, s.cycleTicks, i), CloseTick(e, s.d, s.tick, s.cycleTicks, j))
    {
      WindowCommandAt(e, s.mode, s.d, s.tick, s.cycleTicks, lookup, recoveryGather, n, i);
      WindowCommandAt(e, s.mode, s.d, s.tick, s.cycleTicks, lookup, recoveryGather, n, j);
      InsertedApart(list, xs, 2 * i + 1, 2 * j + 1);
    }
  }

  /** `tl` executes the commands of `l` at their ticks; those of schedule `e` are edges of
      `rule`, and no others are. */
  ghost predicate Executes(tl: seq<(nat, SchedCmd)>, l: seq<FscCommand>, e: ScheduleEntry, rule: nat) {
    && |tl| == |l|
    && forall k {:trigger tl[k]} {:trigger l[k]} :: 0 <= k < |l| ==> ExecutesOne(tl[k], l[k], e, rule)
  }

  predicate ExecutesOne(x: (nat, SchedCmd), item: FscCommand, e: ScheduleEntry, rule: nat) {
    && x.0 == item.absCycle && x.1.winOpen == item.cmd.winOpen && x.1.winClose == item.cmd.winClose
    && (if item.schedule == e then x.1.ruleId == rule else !Edge(x.1, rule))
  }

  /** The command that closes window `i`: the end given for window `i`, or for the next one. */
  function Closer(e: ScheduleEntry, s: Setting, n: nat, i: nat): nat {
    if !EndsInNextPeriod(e, s) then i else if i + 1 < n then i + 1 else 0
  }

  lemma ClosesWithCloser(e: ScheduleEntry, s: Setting, n: nat, i: nat)
    requires Fits(e, s, n) && TicksApart(e, s, n) && !SplitByLastTick(e, s) && i < n
    ensures OpenTick(e, s.mode, s.d, s.tick, s.cycleTicks, i) == InCycle(e, s, i).open
    ensures Closer(e, s, n, i) < n
    ensures CloseTick(e, s.d, s.tick, s.cycleTicks, Closer(e, s, n, i)) == ClosesAt(InCycle(e, s, i), s.cycleTicks)
  {
    TicksWrapOnce(e, s, n, i);
    TicksWrapOnce(e, s, n, Closer(e, s, n, i));
    WindowProper(e, s, n, i);
    NextCycle(e, s, n);
  }

  /** The edges of the rule are those of the schedule's windows. */
  lemma EdgesOfSchedule(tl: seq<(nat, SchedCmd)>, l: seq<FscCommand>, list: seq<FscCommand>, e: ScheduleEntry,
                        s: Setting, lookup: nat, recoveryGather: Option<nat>, n: nat, rule: nat)
    requires Fits(e, s, n) && Added(l, list, e, s, lookup, recoveryGather, n) && !SplitByLastTick(e, s)
    requires Executes(tl, l, e, rule)
    ensures TicksApart(e, s, n) && EdgesOf(tl, rule, InCycleAll(e, s, n), s.cycleTicks)
  {
    var ws := InCycleAll(e, s, n);
    AcceptedTicksApart(l, list, e, s, lookup, recoveryGather, n);
    AcceptedIsStrict(l);
    assert InOrder(tl);
    forall k {:trigger tl[k]} | 0 <= k < |tl| && Edge(tl[k].1, rule) ensures IsEdgeOf(tl[k], rule, ws, s.cycleTicks) {
      EdgeIsOne(tl, l, list, e, s, lookup, recoveryGather, n, rule, k);
    }
    forall i {:trigger ws[i]} | 0 <= i < n ensures HasEdges(tl, rule, ws[i], s.cycleTicks) {
      WindowHasEdges(tl, l, list, e, s, lookup, recoveryGather, n, rule, i);
    }
  }

  lemma EdgeIsOne(tl: seq<(nat, SchedCmd)>, l: seq<FscCommand>, list: seq<FscCommand>, e: ScheduleEntry, s: Setting,
                  lookup: nat, recoveryGather: Option<nat>, n: nat, rule: nat, k: nat)
    requires Fits(e, s, n) && Added(l, list, e, s, lookup, recoveryGather, n) && TicksApart(e, s, n)
    requires !SplitByLastTick(e, s) && Executes(tl, l, e, rule) && k < |tl| && Edge(tl[k].1, rule)
    ensures IsEdgeOf(tl[k], rule, InCycleAll(e, s, n), s.cycleTicks)
  {
    var xs := WindowCommands(e, s.mode, s.d, s.tick, s.cycleTicks, lookup, recoveryGather, n);
    InsertAllHolds(list, xs, l[k]);
    assert l[k] in xs;
    var p :| 0 <= p < |xs| && xs[p] == l[k];
    WindowCommandAt(e, s.mode, s.d, s.tick, s.cycleTicks, lookup, recoveryGather, n, p / 2);
    if p == 2 * (p / 2) {
      OpensOne(tl[k], e, s, n, rule, p / 2);
    } else {
      ClosesOne(tl[k], e, s, n, rule, p / 2);
    }
  }

  /** A command of the schedule in the list is one of those created for it. */
  lemma OwnCommand(l: seq<FscCommand>, list: seq<FscCommand>, e: ScheduleEntry, s: Setting, lookup: nat,
                   recoveryGather: Option<nat>, n: nat, k: nat)
    requires s.tick > 0 && Added(l, list, e, s, lookup, recoveryGather, n) && k < |l| && l[k].schedule == e
    ensures l[k].cmd == OpenCmd(lookup) || l[k].cmd == CloseCmd(lookup, recoveryGather)
  {
    var xs := WindowCommands(e, s.mode, s.d, s.tick, s.cycleTicks, lookup, recoveryGather, n);
    InsertAllHolds(list, xs, l[k]);
    var p :| 0 <= p < |xs| && xs[p] == l[k];
    WindowCommandAt(e, s.mode, s.d, s.tick, s.cycleTicks, lookup, recoveryGather, n, p / 2);
    assert p == 2 * (p / 2) || p == 2 * (p / 2) + 1;
  }

  lemma OpensOne(x: (nat, SchedCmd), e: ScheduleEntry, s: Setting, n: nat, rule: nat, i: nat)
    requires Fits(e, s, n) && TicksApart(e, s, n) && !SplitByLastTick(e, s) && i < n
    requires x.0 == OpenTick(e, s.mode, s.d, s.tick, s.cycleTicks, i)
    requires x.1.winOpen && !x.1.winClose && x.1.ruleId == rule
    ensures IsEdgeOf(x, rule, InCycleAll(e, s, n), s.cycleTicks)
  {
    ClosesWithCloser(e, s, n, i);
    assert OpensIt(x, rule, InCycleAll(e, s, n)[i]);
  }

  lemma ClosesOne(x: (nat, SchedCmd), e: ScheduleEntry, s: Setting, n: nat, rule: nat, i: nat)
    requires Fits(e, s, n) && TicksApart(e, s, n) && !SplitByLastTick(e, s) && i < n
    requires x.0 == CloseTick(e, s.d, s.tick, s.cycleTicks, i)
    requires x.1.winClose && !x.1.winOpen && x.1.ruleId == rule
    ensures IsEdgeOf(x, rule, InCycleAll(e, s, n), s.cycleTicks)
  {
    var j := if !EndsInNextPeriod(e, s) then i else if i > 0 then i - 1 else n - 1;
    ClosesWithCloser(e, s, n, j);
    assert ClosesIt(x, rule, InCycleAll(e, s, n)[j], s.cycleTicks);
  }

  lemma WindowHasEdges(tl: seq<(nat, SchedCmd)>, l: seq<FscCommand>, list: seq<FscCommand>, e: ScheduleEntry,
                       s: Setting, lookup: nat, recoveryGather: Option<nat>, n: nat, rule: nat, i: nat)
    requires Fits(e, s, n) && Added(l, list, e, s, lookup, recoveryGather, n) && TicksApart(e, s, n)
    requires !SplitByLastTick(e, s) && Executes(tl, l, e, rule) && i < n
    ensures HasEdges(tl, rule, InCycle(e, s, i), s.cycleTicks)
  {
    var xs := WindowCommands(e, s.mode, s.d, s.tick, s.cycleTicks, lookup, recoveryGather, n);
    var c := Closer(e, s, n, i);
    ClosesWithCloser(e, s, n, i);
    WindowCommandAt(e, s.mode, s.d, s.tick, s.cycleTicks, lookup, recoveryGather, n, i);
    WindowCommandAt(e, s.mode, s.d, s.tick, s.cycleTicks, lookup, recoveryGather, n, c);
    InsertAllHolds(list, xs, xs[2 * i]);
    InsertAllHolds(list, xs, xs[2 * c + 1]);
    var k :| 0 <= k < |l| && l[k] == xs[2 * i];
    assert OpensIt(tl[k], rule, InCycle(e, s, i));
    var m :| 0 <= m < |l| && l[m] == xs[2 * c + 1];
    assert ClosesIt(tl[m], rule, InCycle(e, s, i), s.cycleTicks);
  }

  /** A requested window reaches into tick `t` of some cycle. */
  ghost predicate Requested(e: ScheduleEntry, s: Setting, n: nat, t: nat) {
    exists i, k {:trigger ReachesLater(e, s, i, t, k)} :: 0 <= i < n && ReachesLater(e, s, i, t, k)
  }

  lemma RequestedIsInside(e: ScheduleEntry, s: Setting, n: nat, ws: seq<Window>, t: nat)
    requires Fits(e, s, n) && TicksApart(e, s, n) && !SplitByLastTick(e, s) && t < s.cycleTicks
    requires ws == InCycleAll(e, s, n)
    ensures Requested(e, s, n, t) <==> exists i :: 0 <= i < |ws| && Inside(ws[i], t, s.cycleTicks)
  {
    if i, k {:trigger ReachesLater(e, s, i, t, k)} :| 0 <= i < n && ReachesLater(e, s, i, t, k) {
      InsideIsReached(e, s, n, i, t);
      assert Inside(ws[i], t, s.cycleTicks);
    }
    if i :| 0 <= i < |ws| && Inside(ws[i], t, s.cycleTicks) {
      InsideIsReached(e, s, n, i, t);
    }
  }

  /** After an accepted schedule has been added, the window of its rule is open in exactly the
      ticks that a requested window reaches into, cycle after cycle. */
  lemma OpenAsRequested(tl: seq<(nat, SchedCmd)>, l: seq<FscCommand>, list: seq<FscCommand>, e: ScheduleEntry,
                        s: Setting, lookup: nat, recoveryGather: Option<nat>, n: nat, rule: nat, t: nat)
    requires Fits(e, s, n) && Added(l, list, e, s, lookup, recoveryGather, n) && !SplitByLastTick(e, s)
    requires Executes(tl, l, e, rule) && t < s.cycleTicks
    ensures OpenAt(tl, rule, t) <==> Requested(e, s, n, t)
  {
    var ws := InCycleAll(e, s, n);
    EdgesOfSchedule(tl, l, list, e, s, lookup, recoveryGather, n, rule);
    WindowsSeparate(e, s, n);
    OpenExactlyInside(tl, rule, ws, s.cycleTicks, t);
    RequestedIsInside(e, s, n, ws, t);
  }

  // ---- the exception ----

  /** The commands of the only window are at the last tick and at the first. */
  lemma SplitTicks(e: ScheduleEntry, s: Setting, n: nat)
    requires Fits(e, s, n) && SplitByLastTick(e, s) && TicksApart(e, s, n)
    ensures n == 1 && s.cycleTicks > 2
    ensures OpenTick(e, s.mode, s.d, s.tick, s.cycleTicks, 0) == s.cycleTicks - 1
    ensures CloseTick(e, s.d, s.tick, s.cycleTicks, 0) == 0
    ensures Closes(e, s, 0) == 2 * s.cycleTicks
  {
    if n > 1 {
      MulLe(2, n, e.periodNs);
      assert false;
    }
    LastTick(e, s);
    TicksWrapOnce(e, s, n, 0);
    NextCycle(e, s, n);
    assert NotNext(OpenTick(e, s.mode, s.d, s.tick, s.cycleTicks, 0), CloseTick(e, s.d, s.tick, s.cycleTicks, 0));
  }

  lemma {:induction false} SplitEdges(tl: seq<(nat, SchedCmd)>, l: seq<FscCommand>, list: seq<FscCommand>,
                                      e: ScheduleEntry, s: Setting, lookup: nat, recoveryGather: Option<nat>, rule: nat)
    requires Fits(e, s, 1) && Added(l, list, e, s, lookup, recoveryGather, 1) && SplitByLastTick(e, s)
    requires Executes(tl, l, e, rule)
    ensures EdgesOf(tl, rule, [Window(s.cycleTicks - 1, s.cycleTicks)], s.cycleTicks) && s.cycleTicks > 2
  {
    var w := Window(s.cycleTicks - 1, s.cycleTicks);
    var xs := WindowCommands(e, s.mode, s.d, s.tick, s.cycleTicks, lookup, recoveryGather, 1);
    AcceptedTicksApart(l, list, e, s, lookup, recoveryGather, 1);
    AcceptedIsStrict(l);
    SplitTicks(e, s, 1);
    WindowCommandAt(e, s.mode, s.d, s.tick, s.cycleTicks, lookup, recoveryGather, 1, 0);
    assert xs[2 * 0] == xs[0] && xs[2 * 0 + 1] == xs[1];
    assert InOrder(tl);
    forall k {:trigger tl[k]} | 0 <= k < |tl| && Edge(tl[k].1, rule)
      ensures IsEdgeOf(tl[k], rule, [w], s.cycleTicks)
    {
      InsertAllHolds(list, xs, l[k]);
      assert l[k] == xs[0] || l[k] == xs[1];
      assert OpensIt(tl[k], rule, [w][0]) || ClosesIt(tl[k], rule, [w][0], s.cycleTicks);
    }
    assert HasEdges(tl, rule, w, s.cycleTicks) by {
      InsertAllHolds(list, xs, xs[0]);
      InsertAllHolds(list, xs, xs[1]);
      var k :| 0 <= k < |l| && l[k] == xs[0];
      assert OpensIt(tl[k], rule, w);
      var m :| 0 <= m < |l| && l[m] == xs[1];
      assert ClosesIt(tl[m], rule, w, s.cycleTicks);
    }
  }

  /** When the only window of the cycle ends and starts again within the last tick, it is
      requested for every tick, but open only in the last one. */
  lemma SplitOpensOneTick(tl: seq<(nat, SchedCmd)>, l: seq<FscCommand>, list: seq<FscCommand>, e: ScheduleEntry,
                          s: Setting, lookup: nat, recoveryGather: Option<nat>, n: nat, rule: nat, t: nat)
    requires Fits(e, s, n) && Added(l, list, e, s, lookup, recoveryGather, n) && SplitByLastTick(e, s)
    requires Executes(tl, l, e, rule) && t < s.cycleTicks
    ensures Requested(e, s, n, t)
    ensures OpenAt(tl, rule, t) <==> t == s.cycleTicks - 1
  {
    var ws := [Window(s.cycleTicks - 1, s.cycleTicks)];
    AcceptedTicksApart(l, list, e, s, lookup, recoveryGather, n);
    SplitTicks(e, s, n);
    SplitEdges(tl, l, list, e, s, lookup, recoveryGather, rule);
    OpenExactlyInside(tl, rule, ws, s.cycleTicks, t);
    assert Inside(ws[0], t, s.cycleTicks) <==> t == s.cycleTicks - 1;
    LastTick(e, s);
    ReachedSoon(e, s, 0, t, 1);
    assert ReachesLater(e, s, 0, t, 1);
  }

  /** An accepted schedule opens its window as requested if and only if it is not that one. */
  lemma OpenExactlyAsRequested(tl: seq<(nat, SchedCmd)>, l: seq<FscCommand>, list: seq<FscCommand>, e: ScheduleEntry,
                               s: Setting, lookup: nat, recoveryGather: Option<nat>, n: nat, rule: nat)
    requires Fits(e, s, n) && Added(l, list, e, s, lookup, recoveryGather, n) && Executes(tl, l, e, rule)
    ensures (forall t: nat :: t < s.cycleTicks ==> (OpenAt(tl, rule, t) <==> Requested(e, s, n, t)))
      <==> !SplitByLastTick(e, s)
  {
    if SplitByLastTick(e, s) {
      AcceptedTicksApart(l, list, e, s, lookup, recoveryGather, n);
      SplitTicks(e, s, n);
      SplitOpensOneTick(tl, l, list, e, s, lookup, recoveryGather, n, rule, 0);
    } else {
      forall t: nat | t < s.cycleTicks ensures OpenAt(tl, rule, t) <==> Requested(e, s, n, t) {
        OpenAsRequested(tl, l, list, e, s, lookup, recoveryGather, n, rule, t);
      }
    }
  }

  /** Such a request: a window from 996 ns to 995 ns of the next cycle of 100 ticks of 10 ns. */
  lemma SplitByLastTickExample(e: ScheduleEntry, d: Delays)
    requires e.timeStartNs == 996 && e.timeEndNs == 995 && e.periodNs == 1000 && d == Delays(0, 0, 0, 0, 0)
    ensures var s := Setting(Parallel, d, 10, 100); Fits(e, s, 1) && SplitByLastTick(e, s)
  {
  }
}
