/** Adding a schedule to a stream as a transaction: its commands are created in the sorted
    list, the module is validated, and a rejected schedule leaves no trace. */
module Schedules {
  import opened Entities
  import opened FscList
  import opened Actions
  import opened Expansion
  import opened SchedTable
  import opened Layout
  import opened ValidateStream
  import opened Validate
  import opened ValidateConfig
  import opened BufferAlloc

  /** Streams that may have schedules of their own. */
  predicate Schedulable(kind: StreamType) {
    kind.TimeTriggered? || kind.RedundantTx? || kind.IngressTriggered? || kind.RedundantRx?
  }

  /** The streams a stream refers to. */
  ghost function Chain(stream: AcmStream): set<AcmStream?>
    reads stream, stream.reference
  {
    {stream, stream.reference} + if stream.reference != null then {stream.reference.reference} else {}
  }

  /** The gather index of the recovery stream behind a receiver, if there is one. */
  function RecoveryGather(stream: AcmStream): Option<nat>
    reads stream, stream.reference, Chain(stream)
  {
    if stream.reference != null && stream.reference.reference != null
    then Some(stream.reference.reference.gatherDmaIndex) else None
  }

  /** The commands a schedule stands for: cycle / period events, or twice as many window edges. */
  ghost function ScheduleCommands(stream: AcmStream, e: ScheduleEntry, m: AcmModule, tick: nat): seq<FscCommand>
    requires tick > 0 && e.periodNs > 0
    reads m, stream, stream.reference, Chain(stream)
  {
    var n := m.cycleNs / e.periodNs;
    if IsIngress(stream.kind)
    then WindowCommands(e, m.mode, m.delays, tick, m.cycleNs / tick, stream.lookupIndex, RecoveryGather(stream), n)
    else
      EventCommands(e, m.delays.chipEg + m.delays.phyEg, tick,
        EventCmd(stream.gatherDmaIndex, stream.redundandIndex), n)
  }

  /** Sums of the module's times fit 32 bits, and the schedule's times lie in its period. */
  predicate TimesFit(e: ScheduleEntry, m: AcmModule)
    reads m
  {
    && e.periodNs > 0 && e.sendTimeNs <= e.periodNs && e.timeStartNs <= e.periodNs && e.timeEndNs <= e.periodNs
    && m.cycleNs + m.delays.chipEg + m.delays.phyEg < U32_LIMIT
    && m.cycleNs + m.delays.chipIn + m.delays.phyIn + m.delays.serSwitch < U32_LIMIT
  }

  method CreateScheduleItems(stream: AcmStream, e: ScheduleEntry, m: AcmModule, tick: nat)
    requires tick > 0 && TimesFit(e, m) && Sorted(m.fscList) && Schedulable(stream.kind)
    modifies m`fscList
    ensures Sorted(m.fscList)
    ensures m.fscList == InsertAll(old(m.fscList), old(ScheduleCommands(stream, e, m, tick)))
  {
    if stream.kind == TimeTriggered || stream.kind == RedundantTx {
      CreateEventSysfsItems(e, m, tick, stream.gatherDmaIndex, stream.redundandIndex);
    } else {
      var recovery, gather := false, 0;
      if stream.reference != null && stream.reference.reference != null {
        recovery, gather := true, stream.reference.reference.gatherDmaIndex;
      }
      CreateWindowSysfsItems(e, m, tick, gather, stream.lookupIndex, recovery);
    }
  }

  /** What a new schedule makes the scheduler do, tick by tick: a sender's program runs at every
      event, a receiver's rule is opened and closed, and the recovery stream behind a receiver is
      triggered where its window closes. */
  lemma ScheduleDoes(stream: AcmStream, e: ScheduleEntry, m: AcmModule, tick: nat, t: nat, a: Action)
    requires tick > 0 && e.periodNs > 0
    ensures var n, d, cycleTicks := m.cycleNs / e.periodNs, m.delays, m.cycleNs / tick;
      DoneAt(ScheduleCommands(stream, e, m, tick), t, a) <==>
        if !IsIngress(stream.kind) then
          && a == RunProgram(stream.gatherDmaIndex, stream.redundandIndex)
          && EventAt(e, d.chipEg + d.phyEg, tick, n, t)
        else
          || (a == OpenWindow(stream.lookupIndex) && OpensAt(e, m.mode, d, tick, cycleTicks, n, t))
          || (a == CloseWindow(stream.lookupIndex) && ClosesAtTick(e, d, tick, cycleTicks, n, t))
          || (ClosesAtTick(e, d, tick, cycleTicks, n, t)
              && stream.reference != null && stream.reference.reference != null
              && a == RunConditionally(stream.reference.reference.gatherDmaIndex, stream.lookupIndex))
  {
    var n := m.cycleNs / e.periodNs;
    if IsIngress(stream.kind) {
      WindowsOpenAndClose(e, m.mode, m.delays, tick, m.cycleNs / tick, stream.lookupIndex, RecoveryGather(stream), n,
        t, a);
    } else {
      EventsRunProgram(e, m.delays.chipEg + m.delays.phyEg, tick, stream.gatherDmaIndex, stream.redundandIndex, n,
        t, a);
    }
  }

  /** Commands of a schedule all refer to it. */
  lemma CommandsAreOwn(stream: AcmStream, e: ScheduleEntry, m: AcmModule, tick: nat)
    requires tick > 0 && e.periodNs > 0
    ensures OwnAndActive(ScheduleCommands(stream, e, m, tick), e)
  {
    ExpandedCommandsActive(e, m.mode, m.delays, tick, m.cycleNs / tick, stream.lookupIndex, RecoveryGather(stream),
      stream.gatherDmaIndex, stream.redundandIndex, m.cycleNs / e.periodNs);
  }

  /** Creates the commands and notes what the module is now judged by. */
  method CreateAndNote(stream: AcmStream, e: ScheduleEntry, m: AcmModule, tick: nat, ghost created: seq<FscCommand>,
                       ghost base: Facts)
    returns (ghost facts: Facts)
    requires tick > 0 && TimesFit(e, m) && Sorted(m.fscList) && Schedulable(stream.kind)
    requires created == ScheduleCommands(stream, e, m, tick)
    requires base == FactsOf(m, NoTies(|m.streams|)) && WellFormed(base)
    modifies m`fscList
    ensures Sorted(m.fscList) && m.fscList == InsertAll(old(m.fscList), created)
    ensures facts == FactsOf(m, NoTies(|m.streams|)) && facts == base.(ticks := Ticks(m.fscList)) && WellFormed(facts)
  {
    CreateScheduleItems(stream, e, m, tick);
    facts := FactsOf(m, NoTies(|m.streams|));
  }

  /** The checks of the stream and of its module. */
  method ValidateAdded(stream: AcmStream, ties: Ties, m: AcmModule, ghost v: StreamView, ghost facts: Facts)
    returns (error: Option<Error>)
    requires v == StreamView(stream.kind, stream.operations)
    requires Sorted(m.fscList) && WellFormed(facts) && facts == FactsOf(m, NoTies(|m.streams|))
    ensures error.None? <==> StreamFine(v, ties, false) && Accepted(facts, false)
  {
    error := ValidateStreamAlone(stream, ties, false, v);
    if error.Some? {
      ViolatedNotFine(error.value, v, ties, false);
      return;
    }
    error := RunChecks(m, NoTies(|m.streams|), false, facts);
  }

  /** Creation, validation and, if that fails, removal. */
  method AddAndValidate(stream: AcmStream, e: ScheduleEntry, m: AcmModule, tick: nat, ties: Ties,
                        ghost created: seq<FscCommand>, ghost v: StreamView, ghost base: Facts)
    returns (error: Option<Error>, ghost facts: Facts)
    requires tick > 0 && TimesFit(e, m) && Sorted(m.fscList) && Schedulable(stream.kind)
    requires created == ScheduleCommands(stream, e, m, tick)
    requires base == FactsOf(m, NoTies(|m.streams|)) && WellFormed(base)
    requires v == StreamView(stream.kind, stream.operations)
    requires Without(InsertAll(m.fscList, created), e) == m.fscList
    modifies m`fscList
    ensures facts == base.(ticks := Ticks(InsertAll(old(m.fscList), created))) && WellFormed(facts)
    ensures m.fscList == if error.Some? then old(m.fscList) else InsertAll(old(m.fscList), created)
    ensures error.None? <==> StreamFine(v, ties, false) && Accepted(facts, false)
  {
    facts := CreateAndNote(stream, e, m, tick, created, base);
    error := ValidateAdded(stream, ties, m, v, facts);
    if error.Some? {
      RemoveScheduleSysfsItemsSchedule(e, m);
    }
  }

  /** The conditions of a schedule for a stream: the tick is known, the stream may have
      schedules, and stream and module are valid with it. */
  ghost predicate Addable(v: StreamView, ties: Ties, tick: int, facts: Facts) {
    tick > 0 && Schedulable(v.kind) && WellFormed(facts) && StreamFine(v, ties, false) && Accepted(facts, false)
  }

  /** Adds the commands of a new schedule to a module. A rejected schedule leaves the command
      list exactly as it was; an accepted one is in it, and stream and module are valid. */
  method ModuleAddSchedules(stream: AcmStream, e: ScheduleEntry, m: AcmModule, tick: int, ties: Ties)
    returns (error: Option<Error>, ghost created: seq<FscCommand>, ghost facts: Facts)
    requires TimesFit(e, m) && Sorted(m.fscList) && WellFormed(FactsOf(m, NoTies(|m.streams|)))
    requires forall k :: 0 <= k < |m.fscList| ==> m.fscList[k].schedule != e
    modifies m`fscList
    ensures tick > 0 ==> created == old(ScheduleCommands(stream, e, m, tick))
    ensures m.fscList == if error.Some? then old(m.fscList) else InsertAll(old(m.fscList), created)
    ensures error.None? ==> Without(m.fscList, e) == old(m.fscList)
    ensures facts == old(FactsOf(m, NoTies(|m.streams|))).(ticks := Ticks(InsertAll(old(m.fscList), created)))
    ensures tick > 0 && Schedulable(stream.kind) ==> WellFormed(facts)
    ensures error.None? <==> Addable(old(StreamView(stream.kind, stream.operations)), ties, tick, facts)
  {
    ghost var base, v := FactsOf(m, NoTies(|m.streams|)), StreamView(stream.kind, stream.operations);
    created := if tick > 0 then ScheduleCommands(stream, e, m, tick) else [];
    facts := base.(ticks := Ticks(InsertAll(m.fscList, created)));
    if tick <= 0 {
      return Some(EINVAL), created, facts;
    }
    if !Schedulable(stream.kind) {
      return Some(EPERM), created, facts;
    }
    CommandsAreOwn(stream, e, m, tick);
    Rollback(m.fscList, created, e);
    error, facts := AddAndValidate(stream, e, m, tick, ties, created, v, base);
  }

  /** The same, noting that the allocator can still be given the configuration. */
  method AddBesideConfig(stream: AcmStream, e: ScheduleEntry, m: AcmModule, tick: int, ties: Ties,
                         ghost config: AcmConfig, ghost limits: Limits, ghost lists: Lists,
                         ghost vss: seq<seq<StreamView>>)
    returns (error: Option<Error>, ghost created: seq<FscCommand>, ghost facts: Facts)
    requires TimesFit(e, m) && Sorted(m.fscList) && WellFormed(FactsOf(m, NoTies(|m.streams|)))
    requires forall k :: 0 <= k < |m.fscList| ==> m.fscList[k].schedule != e
    requires Allocatable(config, lists, vss, limits)
    modifies m`fscList
    ensures tick > 0 ==> created == old(ScheduleCommands(stream, e, m, tick))
    ensures m.fscList == if error.Some? then old(m.fscList) else InsertAll(old(m.fscList), created)
    ensures error.None? ==> Without(m.fscList, e) == old(m.fscList)
    ensures facts == old(FactsOf(m, NoTies(|m.streams|))).(ticks := Ticks(InsertAll(old(m.fscList), created)))
    ensures tick > 0 && Schedulable(stream.kind) ==> WellFormed(facts)
    ensures error.None? <==> Addable(old(StreamView(stream.kind, stream.operations)), ties, tick, facts)
    ensures Allocatable(config, lists, vss, limits)
  {
    error, created, facts := ModuleAddSchedules(stream, e, m, tick, ties);
  }

  /** The check of the configuration and, if it fails, removal of what was added to `list`. */
  method ValidateBuffersOrRemove(m: AcmModule, e: ScheduleEntry, config: AcmConfig, limits: Limits,
                                 ghost list: seq<FscCommand>, ghost lists: Lists,
                                 ghost vss: seq<seq<StreamView>>)
    returns (error: Option<Error>)
    requires Allocatable(config, lists, vss, limits) && Without(m.fscList, e) == list
    modifies m`fscList, config`msgBuffs, lists.first`operations, lists.second`operations
    ensures m.fscList == if error.Some? then list else old(m.fscList)
    ensures error.None? <==> BuffersAccepted(vss, limits, AnyModule(config.bypass, |config.bypass|))
    ensures BothCarry(lists, vss)
  {
    ghost var placed;
    error, placed := ValidateBuffers(config, limits, lists, vss);
    if error.Some? {
      RemoveScheduleSysfsItemsSchedule(e, m);
    }
  }

  /** The same for a module of a configuration, whose message buffers are allocated anew as
      the last check. */
  method ConfigAddSchedules(stream: AcmStream, e: ScheduleEntry, m: AcmModule, tick: int, ties: Ties,
                            config: AcmConfig, limits: Limits, ghost lists: Lists, ghost vss: seq<seq<StreamView>>)
    returns (error: Option<Error>, ghost created: seq<FscCommand>, ghost facts: Facts)
    requires TimesFit(e, m) && Sorted(m.fscList) && WellFormed(FactsOf(m, NoTies(|m.streams|)))
    requires forall k :: 0 <= k < |m.fscList| ==> m.fscList[k].schedule != e
    requires Allocatable(config, lists, vss, limits)
    modifies m`fscList, config`msgBuffs, lists.first`operations, lists.second`operations
    ensures tick > 0 ==> created == old(ScheduleCommands(stream, e, m, tick))
    ensures m.fscList == if error.Some? then old(m.fscList) else InsertAll(old(m.fscList), created)
    ensures facts == old(FactsOf(m, NoTies(|m.streams|))).(ticks := Ticks(InsertAll(old(m.fscList), created)))
    ensures tick > 0 && Schedulable(stream.kind) ==> WellFormed(facts)
    ensures error.None? <==>
      && Addable(old(StreamView(stream.kind, stream.operations)), ties, tick, facts)
      && BuffersAccepted(vss, limits, AnyModule(config.bypass, |config.bypass|))
    // the operations of all streams are kept, up to their links
    ensures BothCarry(lists, vss)
  {
    ghost var list := m.fscList;
    error, created, facts := AddBesideConfig(stream, e, m, tick, ties, config, limits, lists, vss);
    NothingLinked(lists, vss, []);
    if error.None? {
      error := ValidateBuffersOrRemove(m, e, config, limits, list, lists, vss);
    }
  }
}
