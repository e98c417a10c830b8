/** The RECOVERY_TIMEOUT timer of section 7.4.3 of IEEE Std 802.1CB-2017, as the driver
    keeps it for base and for individual recovery, and its behaviour over whole runs. */
module RecoveryTimer {
  import opened Entities
  import opened Arith

  datatype Timer = Timer(resetMsec: nat, remainingTicks: nat)

  /** What happens to one timer: its timeout is set, or a tick passes, without progress
      (idle) or with it. */
  datatype TimerEvent = TimeoutSet(msec: nat) | Tick(idle: bool)

  /** Start value of the remaining ticks. */
  function StartTicks(msec: nat, ticksPerSec: nat): nat {
    U32(msec * ticksPerSec + 999) / 1000
  }

  /** The product fits its 32-bit type and ticks do pass. */
  predicate TicksFit(msec: nat, ticksPerSec: nat) {
    ticksPerSec > 0 && msec * ticksPerSec + 999 < U32_LIMIT
  }

  /** The start value is the least number of ticks that last the whole timeout. */
  lemma StartTicksCoverTimeout(msec: nat, ticksPerSec: nat, n: nat)
    requires TicksFit(msec, ticksPerSec)
    ensures StartTicks(msec, ticksPerSec) <= n <==> msec * ticksPerSec <= 1000 * n
    ensures msec > 0 ==> StartTicks(msec, ticksPerSec) > 0
  {
    var x := msec * ticksPerSec;
    U32Fits(x + 999);
    assert (x + 999) / 1000 <= n <==> x <= 1000 * n;
    if msec > 0 {
      MulLe(1, msec, ticksPerSec);
    }
  }

  function ResetRemainingTicks(t: Timer, ticksPerSec: nat): Timer {
    t.(remainingTicks := StartTicks(t.resetMsec, ticksPerSec))
  }

  /** The timer after an event and whether the event fired the timeout. */
  function Step(t: Timer, e: TimerEvent, ticksPerSec: nat): (Timer, bool) {
    match e
    case TimeoutSet(msec) => (ResetRemainingTicks(t.(resetMsec := msec), ticksPerSec), false)
    case Tick(idle) =>
      if t.resetMsec == 0 then (t, false)
      else if !idle then (ResetRemainingTicks(t, ticksPerSec), false)
      else if U32(t.remainingTicks - 1) > 0 then (t.(remainingTicks := U32(t.remainingTicks - 1)), false)
      else (ResetRemainingTicks(t, ticksPerSec), true)
  }

  /** A timer after a run, starting switched off. */
  function Run(es: seq<TimerEvent>, ticksPerSec: nat): Timer {
    if es == [] then Timer(0, 0) else Step(Run(es[..|es| - 1], ticksPerSec), es[|es| - 1], ticksPerSec).0
  }

  // ---- what a run means, without remaining ticks ----

  /** The timeout in force. */
  function Msec(es: seq<TimerEvent>): nat {
    if es == [] then 0
    else
      match es[|es| - 1]
      case TimeoutSet(msec) => msec
      case Tick(_) => Msec(es[..|es| - 1])
  }

  /** Number of consecutive idle ticks at the end of the run, since the timeout was set. */
  function Quiet(es: seq<TimerEvent>): (n: nat)
    ensures n <= |es|
    ensures forall k :: |es| - n <= k < |es| ==> es[k] == Tick(true)
    ensures n < |es| ==> es[|es| - n - 1] != Tick(true)
  {
    if es == [] || es[|es| - 1] != Tick(true) then 0 else Quiet(es[..|es| - 1]) + 1
  }

  ghost predicate RunFits(es: seq<TimerEvent>, ticksPerSec: nat) {
    ticksPerSec > 0 && forall k :: 0 <= k < |es| && es[k].TimeoutSet? ==> TicksFit(es[k].msec, ticksPerSec)
  }

  lemma {:induction false} MsecFits(es: seq<TimerEvent>, ticksPerSec: nat)
    requires RunFits(es, ticksPerSec)
    ensures Msec(es) > 0 ==> TicksFit(Msec(es), ticksPerSec) && 0 < StartTicks(Msec(es), ticksPerSec) < U32_LIMIT
  {
    if es != [] {
      MsecFits(es[..|es| - 1], ticksPerSec);
      if es[|es| - 1].TimeoutSet? {
        StartTicksCoverTimeout(Msec(es), ticksPerSec, 0);
      }
    }
  }

  /** Remainders count up and start again. */
  lemma NextRemainder(q: nat, n: nat)
    requires n > 0
    ensures (q + 1) % n == if q % n == n - 1 then 0 else q % n + 1
  {
    DivBounds(q, n);
    var k := q / n;
    if q % n == n - 1 {
      assert n * (k + 1) == n * k + n;
      ModUnique(q + 1, n, -(k + 1));
      assert n * -(k + 1) == -(n * (k + 1));
    } else {
      ModUnique(q + 1, n, -k);
      assert n * -k == -(n * k);
    }
  }

  /** The remaining ticks when the timeout is `msec` and `quiet` idle ticks have passed. */
  predicate CountsDown(t: Timer, msec: nat, quiet: nat, ticksPerSec: nat) {
    && t.resetMsec == msec
    && (msec > 0 ==>
        StartTicks(msec, ticksPerSec) > 0
        && t.remainingTicks == StartTicks(msec, ticksPerSec) - quiet % StartTicks(msec, ticksPerSec))
  }

  lemma TickCountsDown(t: Timer, msec: nat, quiet: nat, ticksPerSec: nat, idle: bool)
    requires CountsDown(t, msec, quiet, ticksPerSec)
    ensures CountsDown(Step(t, Tick(idle), ticksPerSec).0, msec, if idle then quiet + 1 else 0, ticksPerSec)
  {
    if msec > 0 {
      NextRemainder(quiet, StartTicks(msec, ticksPerSec));
    }
  }

  lemma SetCountsDown(t: Timer, msec: nat, ticksPerSec: nat)
    requires ticksPerSec > 0 && TicksFit(msec, ticksPerSec)
    ensures CountsDown(Step(t, TimeoutSet(msec), ticksPerSec).0, msec, 0, ticksPerSec)
  {
    if msec > 0 {
      StartTicksCoverTimeout(msec, ticksPerSec, 0);
    }
  }

  /** After any run the remaining ticks lie in 1..N and count down with the quiet ticks. */
  lemma {:induction false} RemainingTicksOfRun(es: seq<TimerEvent>, ticksPerSec: nat)
    requires RunFits(es, ticksPerSec)
    ensures CountsDown(Run(es, ticksPerSec), Msec(es), Quiet(es), ticksPerSec)
  {
    if es != [] {
      var front := es[..|es| - 1];
      RemainingTicksOfRun(front, ticksPerSec);
      match es[|es| - 1]
      case TimeoutSet(msec) => SetCountsDown(Run(front, ticksPerSec), msec, ticksPerSec);
      case Tick(idle) => TickCountsDown(Run(front, ticksPerSec), Msec(front), Quiet(front), ticksPerSec, idle);
    }
  }

  lemma FiresWhenDue(t: Timer, msec: nat, quiet: nat, e: TimerEvent, ticksPerSec: nat)
    requires ticksPerSec > 0 && CountsDown(t, msec, quiet, ticksPerSec)
    ensures Step(t, e, ticksPerSec).1 <==>
      msec > 0 && e == Tick(true) && (quiet + 1) % StartTicks(msec, ticksPerSec) == 0
  {
    if msec > 0 {
      NextRemainder(quiet, StartTicks(msec, ticksPerSec));
    }
  }

  /** The timeout fires exactly on every N-th consecutive tick without progress, and never
      while the timer is switched off. */
  lemma FiresOnEveryNthIdleTick(es: seq<TimerEvent>, e: TimerEvent, ticksPerSec: nat)
    requires RunFits(es, ticksPerSec)
    ensures Step(Run(es, ticksPerSec), e, ticksPerSec).1 <==>
      && Msec(es) > 0 && e == Tick(true)
      && StartTicks(Msec(es), ticksPerSec) > 0
      && (Quiet(es) + 1) % StartTicks(Msec(es), ticksPerSec) == 0
  {
    RemainingTicksOfRun(es, ticksPerSec);
    MsecFits(es, ticksPerSec);
    FiresWhenDue(Run(es, ticksPerSec), Msec(es), Quiet(es), e, ticksPerSec);
  }
}
