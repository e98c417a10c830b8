/** The recovery tick of the driver: individual recovery of every rule of both bypass
    modules, and base recovery of every entry of the redundancy table. */
module Recovery {
  import opened RecoveryTimer

  const ACMDRV_BYPASS_MODULES_COUNT := 2
  const ACMDRV_BYPASS_NR_RULES := 16
  const ACMDRV_REDUN_TABLE_ENTRY_COUNT := 32

  // ---- one rule ----

  /** What happens to one rule; polls of the flags by diagnostics leave no trace here. */
  datatype RuleEvent = RuleRaised | RuleSet(msec: nat) | RuleTick

  /** `pending`: the rule's flag is in the register or in the cache. */
  datatype RuleState = RuleState(pending: bool, timer: Timer)

  /** The rule after an event and whether its take-any bit is set by it. */
  function RuleStep(s: RuleState, e: RuleEvent, ticksPerSec: nat): (RuleState, bool) {
    match e
    case RuleRaised => (s.(pending := true), false)
    case RuleSet(msec) => (RuleState(false, Step(s.timer, TimeoutSet(msec), ticksPerSec).0), false)
    case RuleTick =>
      if s.timer.resetMsec == 0 then (s, false)
      else
        var (timer, fired) := Step(s.timer, Tick(s.pending), ticksPerSec);
        (RuleState(false, timer), fired)
  }

  function RuleRun(es: seq<RuleEvent>, ticksPerSec: nat): RuleState {
    if es == [] then RuleState(false, Timer(0, 0))
    else RuleStep(RuleRun(es[..|es| - 1], ticksPerSec), es[|es| - 1], ticksPerSec).0
  }

  /** Timeout in force for the rule. */
  function RuleMsec(es: seq<RuleEvent>): nat {
    if es == [] then 0
    else if es[|es| - 1].RuleSet? then es[|es| - 1].msec
    else RuleMsec(es[..|es| - 1])
  }

  /** Recovery looked at the rule's flag at event `k`. */
  predicate Looked(es: seq<RuleEvent>, k: nat)
    requires k < |es|
  {
    es[k].RuleSet? || (es[k].RuleTick? && RuleMsec(es[..k]) > 0)
  }

  /** Hardware reported "no frame received" since recovery last looked. */
  ghost predicate NoFrameSinceLook(es: seq<RuleEvent>) {
    exists i :: 0 <= i < |es| && es[i].RuleRaised? && forall k :: i < k < |es| ==> !Looked(es, k)
  }

  /** The run as its timer should see it: a tick is idle if no frame was received. */
  ghost function RuleTimerEvents(es: seq<RuleEvent>): seq<TimerEvent> {
    if es == [] then []
    else
      var front := es[..|es| - 1];
      RuleTimerEvents(front) +
      match es[|es| - 1]
      case RuleRaised => []
      case RuleSet(msec) => [TimeoutSet(msec)]
      case RuleTick => if RuleMsec(front) > 0 then [Tick(NoFrameSinceLook(front))] else []
  }

  lemma SnocNoFrame(es: seq<RuleEvent>)
    requires es != []
    ensures NoFrameSinceLook(es) <==>
      es[|es| - 1].RuleRaised? || (!Looked(es, |es| - 1) && NoFrameSinceLook(es[..|es| - 1]))
  {
    var front, n := es[..|es| - 1], |es| - 1;
    forall k: nat | k < n ensures Looked(front, k) <==> Looked(es, k) {
      assert front[..k] == es[..k];
    }
    if NoFrameSinceLook(front) && !Looked(es, n) {
      var i :| 0 <= i < n && front[i].RuleRaised? && forall k :: i < k < n ==> !Looked(front, k);
      assert es[i].RuleRaised? && forall k :: i < k < |es| ==> !Looked(es, k);
    }
    if NoFrameSinceLook(es) && !es[n].RuleRaised? {
      var i :| 0 <= i < |es| && es[i].RuleRaised? && forall k :: i < k < |es| ==> !Looked(es, k);
      assert front[i].RuleRaised? && forall k :: i < k < n ==> !Looked(front, k);
    }
  }

  /** Individual recovery over any run: the timer sees as idle exactly the ticks before which
      hardware reported a missing frame since the previous look. */
  lemma {:induction false} RuleFollowsTimer(es: seq<RuleEvent>, ticksPerSec: nat)
    ensures RuleRun(es, ticksPerSec) == RuleState(NoFrameSinceLook(es), Run(RuleTimerEvents(es), ticksPerSec))
    ensures RuleRun(es, ticksPerSec).timer.resetMsec == RuleMsec(es)
  {
    if es != [] {
      var front := es[..|es| - 1];
      RuleFollowsTimer(front, ticksPerSec);
      SnocNoFrame(es);
      var ts := RuleTimerEvents(front);
      match es[|es| - 1]
      case RuleRaised => assert RuleTimerEvents(es) == ts;
      case RuleSet(msec) => OneTimerEvent(ts, TimeoutSet(msec), ticksPerSec);
      case RuleTick =>
        if RuleMsec(front) > 0 {
          OneTimerEvent(ts, Tick(NoFrameSinceLook(front)), ticksPerSec);
        } else {
          assert RuleTimerEvents(es) == ts;
        }
    }
  }

  lemma OneTimerEvent(ts: seq<TimerEvent>, e: TimerEvent, ticksPerSec: nat)
    ensures Run(ts + [e], ticksPerSec) == Step(Run(ts, ticksPerSec), e, ticksPerSec).0
  {
    assert (ts + [e])[..|ts|] == ts;
  }

  ghost predicate RuleFits(es: seq<RuleEvent>, ticksPerSec: nat) {
    ticksPerSec > 0 && forall k :: 0 <= k < |es| && es[k].RuleSet? ==> TicksFit(es[k].msec, ticksPerSec)
  }

  lemma {:induction false} RuleTimerFits(es: seq<RuleEvent>, ticksPerSec: nat)
    requires RuleFits(es, ticksPerSec)
    ensures RunFits(RuleTimerEvents(es), ticksPerSec) && Msec(RuleTimerEvents(es)) == RuleMsec(es)
  {
    if es != [] {
      RuleTimerFits(es[..|es| - 1], ticksPerSec);
      var ts, ts' := RuleTimerEvents(es[..|es| - 1]), RuleTimerEvents(es);
      assert ts' != ts ==> ts'[..|ts'| - 1] == ts;
    }
  }

  /** A rule's take-any bit is set exactly on every N-th consecutive tick without a frame. */
  lemma IndividualTimeoutFires(es: seq<RuleEvent>, ticksPerSec: nat)
    requires RuleFits(es, ticksPerSec)
    ensures RuleStep(RuleRun(es, ticksPerSec), RuleTick, ticksPerSec).1 <==>
      && RuleMsec(es) > 0 && NoFrameSinceLook(es)
      && StartTicks(RuleMsec(es), ticksPerSec) > 0
      && (Quiet(RuleTimerEvents(es)) + 1) % StartTicks(RuleMsec(es), ticksPerSec) == 0
  {
    RuleFollowsTimer(es, ticksPerSec);
    if RuleMsec(es) > 0 {
      var ts, idle := RuleTimerEvents(es), NoFrameSinceLook(es);
      assert RuleStep(RuleRun(es, ticksPerSec), RuleTick, ticksPerSec).1
        == Step(Run(ts, ticksPerSec), Tick(idle), ticksPerSec).1;
      RuleTimerFits(es, ticksPerSec);
      FiresOnEveryNthIdleTick(ts, Tick(idle), ticksPerSec);
    }
  }

  // ---- one base recovery entry ----

  /** What happens to one entry: accepted frames move its sequence number. */
  datatype BaseEvent = Moved(seqNum: nat) | BaseSet(msec: nat) | BaseTick

  /** `seqNum` is the hardware's, `intSeqNum` the one stored at the last look. */
  datatype BaseState = BaseState(seqNum: nat, intSeqNum: nat, timer: Timer)

  function BaseStep(s: BaseState, e: BaseEvent, ticksPerSec: nat): (BaseState, bool) {
    match e
    case Moved(seqNum) => (s.(seqNum := seqNum), false)
    case BaseSet(msec) =>
      (BaseState(s.seqNum, if msec > 0 then s.seqNum else 0, Step(s.timer, TimeoutSet(msec), ticksPerSec).0), false)
    case BaseTick =>
      if s.timer.resetMsec == 0 then (s, false)
      else
        var (timer, fired) := Step(s.timer, Tick(s.seqNum == s.intSeqNum), ticksPerSec);
        (BaseState(s.seqNum, s.seqNum, timer), fired)
  }

  function BaseRun(es: seq<BaseEvent>, ticksPerSec: nat): BaseState {
    if es == [] then BaseState(0, 0, Timer(0, 0))
    else BaseStep(BaseRun(es[..|es| - 1], ticksPerSec), es[|es| - 1], ticksPerSec).0
  }

  /** The hardware's sequence number after the run. */
  function SeqNum(es: seq<BaseEvent>): nat {
    if es == [] then 0 else if es[|es| - 1].Moved? then es[|es| - 1].seqNum else SeqNum(es[..|es| - 1])
  }

  function BaseMsec(es: seq<BaseEvent>): nat {
    if es == [] then 0 else if es[|es| - 1].BaseSet? then es[|es| - 1].msec else BaseMsec(es[..|es| - 1])
  }

  /** The sequence number when the timer last ticked or was set. */
  function SeqNumAtLook(es: seq<BaseEvent>): nat {
    if es == [] then 0
    else if es[|es| - 1].Moved? then SeqNumAtLook(es[..|es| - 1])
    else SeqNum(es)
  }

  /** The run as its timer should see it: a tick is idle if the sequence number is the one
      seen at the tick before. */
  function BaseTimerEvents(es: seq<BaseEvent>): seq<TimerEvent> {
    if es == [] then []
    else
      var front := es[..|es| - 1];
      BaseTimerEvents(front) +
      match es[|es| - 1]
      case Moved(_) => []
      case BaseSet(msec) => [TimeoutSet(msec)]
      case BaseTick => if BaseMsec(front) > 0 then [Tick(SeqNum(front) == SeqNumAtLook(front))] else []
  }

  /** Base recovery over any run. */
  lemma {:induction false} BaseFollowsTimer(es: seq<BaseEvent>, ticksPerSec: nat)
    ensures var s := BaseRun(es, ticksPerSec);
      && s.timer == Run(BaseTimerEvents(es), ticksPerSec) && s.timer.resetMsec == BaseMsec(es)
      && s.seqNum == SeqNum(es)
      && (BaseMsec(es) > 0 ==> s.intSeqNum == SeqNumAtLook(es))
  {
    if es != [] {
      var front := es[..|es| - 1];
      BaseFollowsTimer(front, ticksPerSec);
      var ts := BaseTimerEvents(front);
      match es[|es| - 1]
      case Moved(_) => assert BaseTimerEvents(es) == ts;
      case BaseSet(msec) => OneTimerEvent(ts, TimeoutSet(msec), ticksPerSec);
      case BaseTick =>
        if BaseMsec(front) > 0 {
          OneTimerEvent(ts, Tick(SeqNum(front) == SeqNumAtLook(front)), ticksPerSec);
        } else {
          assert BaseTimerEvents(es) == ts;
        }
    }
  }

  ghost predicate BaseFits(es: seq<BaseEvent>, ticksPerSec: nat) {
    ticksPerSec > 0 && forall k :: 0 <= k < |es| && es[k].BaseSet? ==> TicksFit(es[k].msec, ticksPerSec)
  }

  lemma {:induction false} BaseTimerFits(es: seq<BaseEvent>, ticksPerSec: nat)
    requires BaseFits(es, ticksPerSec)
    ensures RunFits(BaseTimerEvents(es), ticksPerSec) && Msec(BaseTimerEvents(es)) == BaseMsec(es)
  {
    if es != [] {
      BaseTimerFits(es[..|es| - 1], ticksPerSec);
      var ts, ts' := BaseTimerEvents(es[..|es| - 1]), BaseTimerEvents(es);
      assert ts' != ts ==> ts'[..|ts'| - 1] == ts;
    }
  }

  /** An entry's take-any bit is set exactly on every N-th consecutive tick at which its
      sequence number has not moved. */
  lemma BaseTimeoutFires(es: seq<BaseEvent>, ticksPerSec: nat)
    requires BaseFits(es, ticksPerSec)
    ensures BaseStep(BaseRun(es, ticksPerSec), BaseTick, ticksPerSec).1 <==>
      && BaseMsec(es) > 0 && SeqNum(es) == SeqNumAtLook(es)
      && StartTicks(BaseMsec(es), ticksPerSec) > 0
      && (Quiet(BaseTimerEvents(es)) + 1) % StartTicks(BaseMsec(es), ticksPerSec) == 0
  {
    BaseFollowsTimer(es, ticksPerSec);
    if BaseMsec(es) > 0 {
      var ts, idle := BaseTimerEvents(es), SeqNum(es) == SeqNumAtLook(es);
      assert BaseStep(BaseRun(es, ticksPerSec), BaseTick, ticksPerSec).1
        == Step(Run(ts, ticksPerSec), Tick(idle), ticksPerSec).1;
      BaseTimerFits(es, ticksPerSec);
      FiresOnEveryNthIdleTick(ts, Tick(idle), ticksPerSec);
    }
  }
}
