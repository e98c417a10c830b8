/** The start time of a schedule table: moved into the future by whole cycles, written only
    when it lies within the scheduler's window, and delayed and looked at again otherwise.
    Times are nanoseconds of the PTP clock, which may read anything at each look. */
module StartTime {
  import opened Arith

  const ACM_SCHEDULER_MAX_FUTURE_MSECS := 64000
  const NSEC_PER_MSEC := 1_000_000
  const NSEC_PER_SEC := 1_000_000_000
  const CYCLE_TIME_LIMIT := 0x4000_0000

  /** What one look at the clock leads to. */
  datatype Outcome = Written(start: int) | Delayed(msecs: nat) | NoCycleTime

  /** Times at which the schedule may start: the requested one and whole cycles later. */
  function Candidate(requested: int, cycleNs: nat, k: int): int {
    requested + k * cycleNs
  }

  /** The start time aimed at, when the clock reads `now`. */
  function Adjusted(requested: int, now: int, cycleNs: nat): int
    requires requested < now ==> cycleNs > 0
  {
    if requested < now then Candidate(requested, cycleNs, (now - requested) / cycleNs + 1) else requested
  }

  function Look(requested: int, now: int, cycleNs: nat): Outcome {
    if requested < now && cycleNs == 0 then NoCycleTime
    else
      var start := Adjusted(requested, now, cycleNs);
      var futureMsecs := (start - now) / NSEC_PER_MSEC;
      if futureMsecs > ACM_SCHEDULER_MAX_FUTURE_MSECS then Delayed(futureMsecs % ACM_SCHEDULER_MAX_FUTURE_MSECS)
      else Written(start)
  }

  lemma CandidateOrder(requested: int, cycleNs: nat, j: int, k: int)
    requires cycleNs > 0
    ensures j < k <==> Candidate(requested, cycleNs, j) < Candidate(requested, cycleNs, k)
  {
    if j < k {
      MulStep(cycleNs, j, k);
    } else {
      MulLe(k, j, cycleNs);
    }
  }

  /** A start time that is not past stays as requested; a past one moves to the first
      candidate after now, at most one cycle away. */
  lemma AdjustedIsNextCandidate(requested: int, now: int, cycleNs: nat, k: int)
    requires cycleNs > 0
    ensures var start := Adjusted(requested, now, cycleNs);
      && start >= now
      && (requested >= now ==> start == requested)
      && (requested < now ==>
          now < start <= now + cycleNs
          && start == Candidate(requested, cycleNs, (now - requested) / cycleNs + 1)
          && (Candidate(requested, cycleNs, k) > now ==> start <= Candidate(requested, cycleNs, k)))
  {
    if requested < now {
      var q := (now - requested) / cycleNs;
      DivBounds(now - requested, cycleNs);
      assert (q + 1) * cycleNs == cycleNs * q + cycleNs;
      CandidateOrder(requested, cycleNs, k, q + 1);
      if k < q + 1 {
        MulLe(k, q, cycleNs);
      }
    }
  }

  /** A look writes exactly when the adjusted start is less than 64001 ms ahead. */
  lemma WrittenWithinWindow(requested: int, now: int, cycleNs: nat)
    requires requested < now ==> cycleNs > 0
    ensures Look(requested, now, cycleNs) == Written(Adjusted(requested, now, cycleNs)) <==>
      Adjusted(requested, now, cycleNs) < now + (ACM_SCHEDULER_MAX_FUTURE_MSECS + 1) * NSEC_PER_MSEC
    ensures Look(requested, now, cycleNs).Written? ==>
      Look(requested, now, cycleNs).start == Adjusted(requested, now, cycleNs)
  {
  }

  /** A past start time is never delayed: the cycle time register holds 30 bits. */
  lemma PastStartIsWrittenAtOnce(requested: int, now: int, cycleNs: nat)
    requires requested < now && 0 < cycleNs < CYCLE_TIME_LIMIT
    ensures Look(requested, now, cycleNs).Written?
  {
    AdjustedIsNextCandidate(requested, now, cycleNs, 0);
  }

  /** A delay ends before the start, a whole number of windows away from it; it is zero
      exactly when the distance already was such a number. */
  lemma DelayEndsOnWindow(requested: int, now: int, cycleNs: nat)
    requires Look(requested, now, cycleNs).Delayed?
    ensures var msecs := Look(requested, now, cycleNs).msecs;
      var start := Adjusted(requested, now, cycleNs);
      && now + msecs * NSEC_PER_MSEC + ACM_SCHEDULER_MAX_FUTURE_MSECS * NSEC_PER_MSEC <= start
      && (start - (now + msecs * NSEC_PER_MSEC)) / NSEC_PER_MSEC % ACM_SCHEDULER_MAX_FUTURE_MSECS == 0
      && (msecs == 0 <==> (start - now) / NSEC_PER_MSEC % ACM_SCHEDULER_MAX_FUTURE_MSECS == 0)
  {
  }

  /** Such a distance: twice 64 s, after which the next look follows at once. */
  lemma NoDelayBeforeTwoWindows()
    ensures Look(128_000_000_000, 0, 1_000_000) == Delayed(0)
  {
  }

  // ---- the registers ----

  datatype TimeSpec = TimeSpec(sec: nat, nsec: nat)

  function ToKtime(t: TimeSpec): nat {
    t.sec * NSEC_PER_SEC + t.nsec
  }

  function ToTimeSpec(k: nat): (t: TimeSpec)
    ensures t.nsec < NSEC_PER_SEC && ToKtime(t) == k
  {
    TimeSpec(k / NSEC_PER_SEC, k % NSEC_PER_SEC)
  }

  /** What the hardware is told of a start time: 30 bits of nanoseconds in two registers and
      8 bits of seconds. */
  datatype StartRegs = StartRegs(nsLow: nat, nsHigh: nat, sec: nat)

  function Regs(t: TimeSpec): StartRegs {
    StartRegs(t.nsec % 0x1_0000, t.nsec / 0x1_0000 % 0x4000, t.sec % 0x100)
  }

  /** The registers hold time `k`, in nanoseconds, modulo 256 seconds. */
  predicate NameTime(r: StartRegs, k: nat) {
    && r.nsLow < 0x1_0000 && r.nsHigh < 0x4000 && r.sec < 0x100
    && r.nsLow + 0x1_0000 * r.nsHigh < NSEC_PER_SEC
    && k % (0x100 * NSEC_PER_SEC) == r.sec * NSEC_PER_SEC + r.nsLow + 0x1_0000 * r.nsHigh
  }

  lemma RegistersNameTheTime(k: nat)
    ensures NameTime(Regs(ToTimeSpec(k)), k)
  {
    var t := ToTimeSpec(k);
    assert t.nsec == t.nsec % 0x1_0000 + 0x1_0000 * (t.nsec / 0x1_0000 % 0x4000);
    ModUnique(k, 0x100 * NSEC_PER_SEC, -(t.sec / 0x100));
  }

  /** Among the times less than 256 seconds from now the registers name exactly one. */
  lemma RegistersNameOneTime(a: nat, b: nat, now: int)
    requires now <= a < now + 0x100 * NSEC_PER_SEC && now <= b < now + 0x100 * NSEC_PER_SEC
    ensures Regs(ToTimeSpec(a)) == Regs(ToTimeSpec(b)) <==> a == b
  {
    var s, t := ToTimeSpec(a), ToTimeSpec(b);
    if Regs(s) == Regs(t) {
      assert s.nsec == s.nsec % 0x1_0000 + 0x1_0000 * (s.nsec / 0x1_0000 % 0x4000);
      assert t.nsec == t.nsec % 0x1_0000 + 0x1_0000 * (t.nsec / 0x1_0000 % 0x4000);
      assert -0x100 < s.sec - t.sec < 0x100;
    }
  }

  // ---- any number of looks ----

  /** The table's time after looks at the clock that read `nows`. */
  function TimeAfter(requested: nat, nows: seq<int>, cycleNs: nat): int {
    if nows == [] then requested
    else
      var before := TimeAfter(requested, nows[..|nows| - 1], cycleNs);
      match Look(before, nows[|nows| - 1], cycleNs)
      case Written(start) => start
      case Delayed(_) => before
      case NoCycleTime => before
  }

  /** No look so far has written a start time. */
  predicate NothingWritten(requested: nat, nows: seq<int>, cycleNs: nat) {
    forall i :: 0 <= i < |nows| ==> !Look(requested, nows[i], cycleNs).Written?
  }

  lemma {:induction false} WaitingKeepsRequest(requested: nat, nows: seq<int>, cycleNs: nat)
    requires NothingWritten(requested, nows, cycleNs)
    ensures TimeAfter(requested, nows, cycleNs) == requested
  {
    if nows != [] {
      WaitingKeepsRequest(requested, nows[..|nows| - 1], cycleNs);
    }
  }

  /** The time stays in phase with the request, however often it is adjusted. */
  lemma {:induction false} TimeKeepsPhase(requested: nat, nows: seq<int>, cycleNs: nat) returns (k: nat)
    ensures TimeAfter(requested, nows, cycleNs) == Candidate(requested, cycleNs, k)
  {
    k := 0;
    if nows != [] {
      k := TimeKeepsPhase(requested, nows[..|nows| - 1], cycleNs);
      var before, now := TimeAfter(requested, nows[..|nows| - 1], cycleNs), nows[|nows| - 1];
      if before < now && Look(before, now, cycleNs).Written? {
        var count := (now - before) / cycleNs + 1;
        assert (k + count) * cycleNs == k * cycleNs + count * cycleNs;
        k := k + count;
      }
    }
  }

  /** Whatever the clock read at earlier looks: a start time that is written is in phase with
      the request, not before now, less than 64001 ms ahead, and its registers name it modulo
      256 s and no other time that near; the first one written is the request, or the first
      candidate after now if that is past. */
  lemma StartOfRun(requested: nat, nows: seq<int>, now: int, cycleNs: nat, other: nat) returns (k: nat)
    requires cycleNs > 0 && Look(TimeAfter(requested, nows, cycleNs), now, cycleNs).Written?
    ensures var start := Look(TimeAfter(requested, nows, cycleNs), now, cycleNs).start;
      && start == Candidate(requested, cycleNs, k)
      && now <= start < now + (ACM_SCHEDULER_MAX_FUTURE_MSECS + 1) * NSEC_PER_MSEC
      && (NothingWritten(requested, nows, cycleNs) ==> start == Adjusted(requested, now, cycleNs))
      && start >= 0 && NameTime(Regs(ToTimeSpec(start)), start)
      && (now <= other < now + 0x100 * NSEC_PER_SEC && other != start ==>
          Regs(ToTimeSpec(other)) != Regs(ToTimeSpec(start)))
  {
    var all := nows + [now];
    assert all[..|all| - 1] == nows;
    var before := TimeAfter(requested, nows, cycleNs);
    var start := Look(before, now, cycleNs).start;
    k := TimeKeepsPhase(requested, all, cycleNs);
    AdjustedIsNextCandidate(before, now, cycleNs, 0);
    WrittenWithinWindow(before, now, cycleNs);
    if NothingWritten(requested, nows, cycleNs) {
      WaitingKeepsRequest(requested, nows, cycleNs);
    }
    StartNotNegative(requested, cycleNs, k);
    RegistersNameTheTime(start);
    if now <= other < now + 0x100 * NSEC_PER_SEC {
      RegistersNameOneTime(other, start, now);
    }
  }

  lemma StartNotNegative(requested: nat, cycleNs: nat, k: nat)
    ensures Candidate(requested, cycleNs, k) >= requested
  {
  }

  // ---- the table ----

  class SchedTable {
    var time: TimeSpec
    var trigger: bool
    var cycleNs: nat
    var regs: StartRegs
    var canBeTaken: bool
    var complete: bool

    constructor ()
      ensures time == TimeSpec(0, 0) && !trigger && cycleNs == 0 && !canBeTaken && !complete
    {
      time, trigger, cycleNs := TimeSpec(0, 0), false, 0;
      regs, canBeTaken, complete := StartRegs(0, 0, 0), false, false;
    }

    method WriteStartTimePrepare(time: TimeSpec, trig: bool)
      modifies this`time, this`trigger, this`complete
      ensures this.time == time && trigger == trig && !complete
    {
      complete := false;
      this.time, trigger := time, trig;
    }

    method WriteStartTime()
      modifies this`regs, this`canBeTaken
      ensures regs == Regs(time) && canBeTaken == (old(canBeTaken) || trigger)
    {
      regs := StartRegs(time.nsec % 0x1_0000, time.nsec / 0x1_0000 % 0x4000, time.sec % 0x100);
      if trigger {
        canBeTaken := true;
      }
    }

    /** One look at the clock. Unless the start is written the table stays as it is, so the
        next look starts from the requested time again. */
    method WriteStartTimeExecute(now: int) returns (outcome: Outcome)
      modifies this`time, this`regs, this`canBeTaken, this`complete
      ensures outcome == Look(ToKtime(old(time)), now, cycleNs)
      ensures outcome.NoCycleTime? <==> ToKtime(old(time)) < now && cycleNs == 0
      ensures outcome.Written? ==>
        && ToKtime(time) == outcome.start && regs == Regs(time) && NameTime(regs, outcome.start)
        && complete && canBeTaken == (old(canBeTaken) || trigger)
      ensures !outcome.Written? ==>
        time == old(time) && regs == old(regs) && complete == old(complete) && canBeTaken == old(canBeTaken)
    {
      var start: int := ToKtime(time);
      if start < now {
        if cycleNs == 0 {
          return NoCycleTime;
        }
        var count := (now - start) / cycleNs + 1;
        start := start + count * cycleNs;
      }
      var futureMsecs := (start - now) / NSEC_PER_MSEC;
      if futureMsecs > ACM_SCHEDULER_MAX_FUTURE_MSECS {
        return Delayed(futureMsecs % ACM_SCHEDULER_MAX_FUTURE_MSECS);
      }
      time := ToTimeSpec(start);
      RegistersNameTheTime(start);
      WriteStartTime();
      complete := true;
      outcome := Written(start);
    }
  }
}
