/** The driver's recovery data, updated in place by every tick and by every setting of a
    timeout. Each locked section is one atomic step. */
module RecoveryDriver {
  import opened Arith
  import opened Entities
  import opened RecoveryTimer
  import opened Recovery
  import NoFrames

  // ---- one bypass module ----

  class Bypass {
    var register: set<nat>
    var noFramesReceived: set<nat>
    var diagFlags: set<nat>
    var recovEnable: set<nat>
    var takeAny: set<nat>

    constructor ()
      ensures View() == NoFrames.Flags({}, {}, {}) && recovEnable == {} && takeAny == {}
    {
      register, noFramesReceived, diagFlags, recovEnable, takeAny := {}, {}, {}, {}, {};
    }

    function View(): NoFrames.Flags
      reads this`register, this`noFramesReceived, this`diagFlags
    {
      NoFrames.Flags(register, noFramesReceived, diagFlags)
    }

    predicate Pending(rule: nat)
      reads this`register, this`noFramesReceived
    {
      rule in register || rule in noFramesReceived
    }

    /** Reads the clear-on-read register for diagnostics and recovery alike. */
    method DiagOrNoFramesReceived()
      modifies this`register, this`noFramesReceived, this`diagFlags
      ensures View() == NoFrames.Next(old(View()), NoFrames.Fetch)
      ensures forall rule :: Pending(rule) <==> old(Pending(rule))
    {
      var raw := register;
      register := {};
      diagFlags := diagFlags + raw;
      noFramesReceived := noFramesReceived + raw;
    }

    /** The second locked section of a read: one rule's cached flag is taken. What happens
        between the two sections is a run of NoFrames. */
    method TakeNoFrameFlag(idx: nat) returns (ret: bool)
      modifies this`noFramesReceived
      ensures View() == NoFrames.Next(old(View()), NoFrames.Take(idx))
      ensures ret <==> idx in old(noFramesReceived)
      ensures noFramesReceived == old(noFramesReceived) - {idx}
    {
      ret := idx in noFramesReceived;
      noFramesReceived := noFramesReceived - {idx};
    }

    /** Checks and clears one rule's flag, with nothing between the two sections. */
    method RecoveryNoFrameReceived(idx: nat) returns (ret: bool)
      modifies this`register, this`noFramesReceived, this`diagFlags
      ensures View() == NoFrames.Next(NoFrames.Next(old(View()), NoFrames.Fetch), NoFrames.Take(idx))
      ensures ret <==> old(Pending(idx))
      ensures forall rule :: Pending(rule) <==> old(Pending(rule)) && rule != idx
    {
      DiagOrNoFramesReceived();
      ret := TakeNoFrameFlag(idx);
    }

    method RecoveryTakeAny(idx: nat)
      modifies this`takeAny
      ensures takeAny == old(takeAny) + {idx}
    {
      var bits := takeAny;
      bits := bits + {idx};
      takeAny := bits;
    }
  }

  /** What diagnostics has, or can still fetch, is neither lost nor invented. */
  twostate predicate DiagKept(b: Bypass)
    reads b`diagFlags, b`register
  {
    old(b.diagFlags) <= b.diagFlags && b.diagFlags + b.register == old(b.diagFlags) + old(b.register)
  }

  // ---- the redundancy module ----

  datatype BaseRecovery = BaseRecovery(data: Timer, intSeqNum: nat)

  class Redundancy {
    const ticksPerSec: nat
    const bypass: seq<Bypass>
    const individual: array2<Timer>
    const base: array<BaseRecovery>
    const seqNumTable: array<nat>
    var baseEnable: set<nat>
    var baseTakeAny: set<nat>

    predicate Valid() {
      && |bypass| == ACMDRV_BYPASS_MODULES_COUNT && bypass[0] != bypass[1]
      && individual.Length0 == ACMDRV_BYPASS_NR_RULES && individual.Length1 == ACMDRV_BYPASS_MODULES_COUNT
      && base.Length == ACMDRV_REDUN_TABLE_ENTRY_COUNT && seqNumTable.Length == ACMDRV_REDUN_TABLE_ENTRY_COUNT
    }

    constructor (ticksPerSec: nat, bypass: seq<Bypass>)
      requires |bypass| == ACMDRV_BYPASS_MODULES_COUNT && bypass[0] != bypass[1]
      ensures Valid() && this.ticksPerSec == ticksPerSec && this.bypass == bypass
      ensures fresh(individual) && fresh(base) && fresh(seqNumTable)
      ensures forall i :: 0 <= i < base.Length ==> Base(i) == BaseState(0, 0, Timer(0, 0))
      ensures forall r, m ::
        0 <= r < individual.Length0 && 0 <= m < individual.Length1 ==> individual[r, m] == Timer(0, 0)
    {
      this.ticksPerSec, this.bypass := ticksPerSec, bypass;
      individual := new Timer[ACMDRV_BYPASS_NR_RULES, ACMDRV_BYPASS_MODULES_COUNT]((_, _) => Timer(0, 0));
      base := new BaseRecovery[ACMDRV_REDUN_TABLE_ENTRY_COUNT](_ => BaseRecovery(Timer(0, 0), 0));
      seqNumTable := new nat[ACMDRV_REDUN_TABLE_ENTRY_COUNT](_ => 0);
      baseEnable, baseTakeAny := {}, {};
    }

    function Rule(mod: nat, rule: nat): RuleState
      requires Valid() && mod < ACMDRV_BYPASS_MODULES_COUNT && rule < ACMDRV_BYPASS_NR_RULES
      reads bypass`register, bypass`noFramesReceived, individual
    {
      RuleState(bypass[mod].Pending(rule), individual[rule, mod])
    }

    function Base(idx: nat): BaseState
      requires Valid() && idx < ACMDRV_REDUN_TABLE_ENTRY_COUNT
      reads base, seqNumTable
    {
      BaseState(seqNumTable[idx], base[idx].intSeqNum, base[idx].data)
    }

    // ---- settings ----

    method SetIndividualRecoveryTimeout(mod: nat, rule: nat, timeout: nat) returns (error: Option<Error>)
      requires Valid()
      modifies bypass, individual
      ensures error == if rule < ACMDRV_BYPASS_NR_RULES && mod < ACMDRV_BYPASS_MODULES_COUNT then None else Some(EINVAL)
      ensures error.None? ==> Rule(mod, rule) == RuleStep(old(Rule(mod, rule)), RuleSet(timeout), ticksPerSec).0
      ensures error.None? ==> (rule in bypass[mod].recovEnable <==> timeout > 0)
      ensures forall m, r | 0 <= m < ACMDRV_BYPASS_MODULES_COUNT && 0 <= r < ACMDRV_BYPASS_NR_RULES
        && (error.Some? || m != mod || r != rule) ::
        Rule(m, r) == old(Rule(m, r)) && (r in bypass[m].recovEnable <==> r in old(bypass[m].recovEnable))
      ensures forall m :: 0 <= m < ACMDRV_BYPASS_MODULES_COUNT ==>
        DiagKept(bypass[m]) && bypass[m].takeAny == old(bypass[m].takeAny)
    {
      if rule >= ACMDRV_BYPASS_NR_RULES || mod >= ACMDRV_BYPASS_MODULES_COUNT {
        return Some(EINVAL);
      }
      error := None;
      var b := bypass[mod];
      var enable := b.recovEnable;
      b.recovEnable := if timeout > 0 then enable + {rule} else enable - {rule};
      var _ := b.RecoveryNoFrameReceived(rule);
      individual[rule, mod] := ResetRemainingTicks(Timer(timeout, individual[rule, mod].remainingTicks), ticksPerSec);
    }

    method SetBaseRecoveryTimeout(idx: nat, timeout: nat) returns (error: Option<Error>)
      requires Valid()
      modifies this`baseEnable, base
      ensures error == if idx < ACMDRV_REDUN_TABLE_ENTRY_COUNT then None else Some(EINVAL)
      ensures error.None? ==> Base(idx) == BaseStep(old(Base(idx)), BaseSet(timeout), ticksPerSec).0
      ensures error.None? ==> baseEnable == if timeout > 0 then old(baseEnable) + {idx} else old(baseEnable) - {idx}
      ensures error.Some? ==> baseEnable == old(baseEnable)
      ensures forall i ::
        0 <= i < ACMDRV_REDUN_TABLE_ENTRY_COUNT && (error.Some? || i != idx) ==> Base(i) == old(Base(i))
    {
      if idx >= ACMDRV_REDUN_TABLE_ENTRY_COUNT {
        return Some(EINVAL);
      }
      error := None;
      var intSeqNum := 0;
      if timeout > 0 {
        baseEnable := baseEnable + {idx};
        intSeqNum := seqNumTable[idx];
      } else {
        baseEnable := baseEnable - {idx};
      }
      var t := ResetRemainingTicks(Timer(timeout, base[idx].data.remainingTicks), ticksPerSec);
      base[idx] := BaseRecovery(t, intSeqNum);
    }

    // ---- the tick ----

    /** Whether a tick in the current state times the rule out. */
    predicate RuleFires(mod: nat, rule: nat)
      requires Valid() && mod < ACMDRV_BYPASS_MODULES_COUNT && rule < ACMDRV_BYPASS_NR_RULES
      reads bypass`register, bypass`noFramesReceived, individual
    {
      RuleStep(Rule(mod, rule), RuleTick, ticksPerSec).1
    }

    method IndividualRecoveryProcess(mod: nat, rule: nat)
      requires Valid() && mod < ACMDRV_BYPASS_MODULES_COUNT && rule < ACMDRV_BYPASS_NR_RULES
      modifies bypass[mod], individual
      ensures Rule(mod, rule) == RuleStep(old(Rule(mod, rule)), RuleTick, ticksPerSec).0
      ensures bypass[mod].takeAny == old(bypass[mod].takeAny) + if old(RuleFires(mod, rule)) then {rule} else {}
      ensures bypass[mod].recovEnable == old(bypass[mod].recovEnable) && DiagKept(bypass[mod])
      ensures forall r :: r != rule ==> (bypass[mod].Pending(r) <==> old(bypass[mod].Pending(r)))
      ensures forall r, m :: 0 <= r < individual.Length0 && 0 <= m < individual.Length1 && (r != rule || m != mod) ==>
        individual[r, m] == old(individual[r, m])
    {
      var t := individual[rule, mod];
      if t.resetMsec == 0 {
        return;
      }
      var noFrame := bypass[mod].RecoveryNoFrameReceived(rule);
      if noFrame {
        t := t.(remainingTicks := U32(t.remainingTicks - 1));
        individual[rule, mod] := t;
        if t.remainingTicks > 0 {
          return;
        }
        bypass[mod].RecoveryTakeAny(rule);
      }
      individual[rule, mod] := ResetRemainingTicks(t, ticksPerSec);
    }

    /** One tick for all rules of one module. */
    method ModuleRecoveryProcess(mod: nat)
      requires Valid() && mod < ACMDRV_BYPASS_MODULES_COUNT
      modifies bypass[mod], individual
      ensures forall r ::
        0 <= r < ACMDRV_BYPASS_NR_RULES ==> Rule(mod, r) == RuleStep(old(Rule(mod, r)), RuleTick, ticksPerSec).0
      ensures forall r: nat :: r in bypass[mod].takeAny <==>
        r in old(bypass[mod].takeAny) || (r < ACMDRV_BYPASS_NR_RULES && old(RuleFires(mod, r)))
      ensures bypass[mod].recovEnable == old(bypass[mod].recovEnable) && DiagKept(bypass[mod])
      ensures forall r, m :: 0 <= r < individual.Length0 && 0 <= m < individual.Length1 && m != mod ==>
        individual[r, m] == old(individual[r, m])
    {
      var idx := 0;
      while idx < ACMDRV_BYPASS_NR_RULES
        invariant 0 <= idx <= ACMDRV_BYPASS_NR_RULES
        invariant forall r :: 0 <= r < idx ==> Rule(mod, r) == RuleStep(old(Rule(mod, r)), RuleTick, ticksPerSec).0
        invariant forall r :: idx <= r < ACMDRV_BYPASS_NR_RULES ==> Rule(mod, r) == old(Rule(mod, r))
        invariant forall r: nat :: r in bypass[mod].takeAny <==>
          r in old(bypass[mod].takeAny) || (r < idx && old(RuleFires(mod, r)))
        invariant bypass[mod].recovEnable == old(bypass[mod].recovEnable) && DiagKept(bypass[mod])
        invariant forall r, m :: 0 <= r < individual.Length0 && 0 <= m < individual.Length1 && m != mod ==>
          individual[r, m] == old(individual[r, m])
      {
        assert RuleFires(mod, idx) == old(RuleFires(mod, idx));
        IndividualRecoveryProcess(mod, idx);
        idx := idx + 1;
      }
    }

    predicate BaseFires(idx: nat)
      requires Valid() && idx < ACMDRV_REDUN_TABLE_ENTRY_COUNT
      reads base, seqNumTable
    {
      BaseStep(Base(idx), BaseTick, ticksPerSec).1
    }

    method BaseRecoveryProcess(idx: nat)
      requires Valid() && idx < ACMDRV_REDUN_TABLE_ENTRY_COUNT
      modifies base, this`baseTakeAny
      ensures Base(idx) == BaseStep(old(Base(idx)), BaseTick, ticksPerSec).0
      ensures baseTakeAny == old(baseTakeAny) + if old(BaseFires(idx)) then {idx} else {}
      ensures forall i :: 0 <= i < base.Length && i != idx ==> base[i] == old(base[i])
    {
      var entry := base[idx];
      if entry.data.resetMsec == 0 {
        return;
      }
      var intSeqNum := seqNumTable[idx];
      var t := entry.data;
      if intSeqNum == entry.intSeqNum {
        t := t.(remainingTicks := U32(t.remainingTicks - 1));
        base[idx] := BaseRecovery(t, entry.intSeqNum);
        if t.remainingTicks > 0 {
          return;
        }
        baseTakeAny := baseTakeAny + {idx};
      }
      base[idx] := BaseRecovery(ResetRemainingTicks(t, ticksPerSec), intSeqNum);
    }

    method AllBaseRecoveryProcess()
      requires Valid()
      modifies base, this`baseTakeAny
      ensures forall i ::
        0 <= i < ACMDRV_REDUN_TABLE_ENTRY_COUNT ==> Base(i) == BaseStep(old(Base(i)), BaseTick, ticksPerSec).0
      ensures forall i: nat :: i in baseTakeAny <==>
        i in old(baseTakeAny) || (i < ACMDRV_REDUN_TABLE_ENTRY_COUNT && old(BaseFires(i)))
    {
      var idx := 0;
      while idx < ACMDRV_REDUN_TABLE_ENTRY_COUNT
        invariant 0 <= idx <= ACMDRV_REDUN_TABLE_ENTRY_COUNT
        invariant forall i :: 0 <= i < idx ==> Base(i) == BaseStep(old(Base(i)), BaseTick, ticksPerSec).0
        invariant forall i :: idx <= i < base.Length ==> base[i] == old(base[i])
        invariant forall i: nat :: i in baseTakeAny <==> i in old(baseTakeAny) || (i < idx && old(BaseFires(i)))
      {
        BaseRecoveryProcess(idx);
        idx := idx + 1;
      }
    }

    /** One tick for the rules of both modules. */
    method AllIndividualRecoveryProcess()
      requires Valid()
      modifies bypass, individual
      ensures forall m, r | 0 <= m < ACMDRV_BYPASS_MODULES_COUNT && 0 <= r < ACMDRV_BYPASS_NR_RULES ::
        Rule(m, r) == RuleStep(old(Rule(m, r)), RuleTick, ticksPerSec).0
      ensures forall m, r: nat | 0 <= m < ACMDRV_BYPASS_MODULES_COUNT ::
        r in bypass[m].takeAny <==>
        r in old(bypass[m].takeAny) || (r < ACMDRV_BYPASS_NR_RULES && old(RuleFires(m, r)))
      ensures forall m :: 0 <= m < ACMDRV_BYPASS_MODULES_COUNT ==>
        bypass[m].recovEnable == old(bypass[m].recovEnable) && DiagKept(bypass[m])
    {
      var mod := 0;
      while mod < ACMDRV_BYPASS_MODULES_COUNT
        invariant 0 <= mod <= ACMDRV_BYPASS_MODULES_COUNT
        invariant forall m, r | 0 <= m < mod && 0 <= r < ACMDRV_BYPASS_NR_RULES ::
          Rule(m, r) == RuleStep(old(Rule(m, r)), RuleTick, ticksPerSec).0
        invariant forall m, r | mod <= m < ACMDRV_BYPASS_MODULES_COUNT && 0 <= r < ACMDRV_BYPASS_NR_RULES ::
          Rule(m, r) == old(Rule(m, r))
        invariant forall m, r: nat | 0 <= m < mod ::
          r in bypass[m].takeAny <==>
          r in old(bypass[m].takeAny) || (r < ACMDRV_BYPASS_NR_RULES && old(RuleFires(m, r)))
        invariant forall m | mod <= m < ACMDRV_BYPASS_MODULES_COUNT :: bypass[m].takeAny == old(bypass[m].takeAny)
        invariant forall m :: 0 <= m < ACMDRV_BYPASS_MODULES_COUNT ==>
          bypass[m].recovEnable == old(bypass[m].recovEnable) && DiagKept(bypass[m])
      {
        ModuleRecoveryProcess(mod);
        mod := mod + 1;
      }
    }

    /** One recovery tick: every rule of both modules and every base entry makes its own step,
        and exactly the take-any bits of those that time out are added. */
    method RecoveryProcess()
      requires Valid()
      modifies bypass, individual, base, this`baseTakeAny
      ensures forall m, r | 0 <= m < ACMDRV_BYPASS_MODULES_COUNT && 0 <= r < ACMDRV_BYPASS_NR_RULES ::
        Rule(m, r) == RuleStep(old(Rule(m, r)), RuleTick, ticksPerSec).0
      ensures forall m, r: nat | 0 <= m < ACMDRV_BYPASS_MODULES_COUNT ::
        r in bypass[m].takeAny <==>
        r in old(bypass[m].takeAny) || (r < ACMDRV_BYPASS_NR_RULES && old(RuleFires(m, r)))
      ensures forall m :: 0 <= m < ACMDRV_BYPASS_MODULES_COUNT ==>
        bypass[m].recovEnable == old(bypass[m].recovEnable) && DiagKept(bypass[m])
      ensures forall i ::
        0 <= i < ACMDRV_REDUN_TABLE_ENTRY_COUNT ==> Base(i) == BaseStep(old(Base(i)), BaseTick, ticksPerSec).0
      ensures forall i: nat :: i in baseTakeAny <==>
        i in old(baseTakeAny) || (i < ACMDRV_REDUN_TABLE_ENTRY_COUNT && old(BaseFires(i)))
    {
      AllIndividualRecoveryProcess();
      AllBaseRecoveryProcess();
    }
  }
}
