/** What the acceptance of a module says of its schedules: whole periods in the cycle, aligned
    partners, and with that the times of events and windows. */
module Acceptance {
  import opened Entities
  import opened Arith
  import opened FscList
  import opened Expansion
  import opened SchedTable
  import opened DmaProgram
  import opened Layout
  import opened DmaTables
  import opened ValidateStream
  import opened Validate
  import opened Schedules
  import opened ReceptionWindows
  import opened Budgets

  // ---- periods ----

  /** A whole number of periods is the cycle. */
  ghost predicate WholePeriods(periodNs: nat, cycleNs: nat) {
    exists n: nat {:trigger n * periodNs} :: n > 0 && n * periodNs == cycleNs
  }

  lemma WholePeriodsDivide(periodNs: nat, cycleNs: nat)
    requires cycleNs > 0
    ensures WholePeriods(periodNs, cycleNs) <==> periodNs != 0 && cycleNs % periodNs == 0
  {
    if periodNs != 0 && cycleNs % periodNs == 0 {
      var n := cycleNs / periodNs;
      assert n * periodNs == cycleNs;
    }
    if n: nat {:trigger n * periodNs} :| n > 0 && n * periodNs == cycleNs {
      assert n * 0 == 0;
      DivUnique(cycleNs, periodNs, n, 0);
    }
  }

  lemma {:induction false} PeriodOfPlan(vs: seq<StreamView>, plans: seq<Plan>, cycleNs: nat, n: nat)
    requires n <= |vs| == |plans| && cycleNs > 0
    ensures PlansFine(vs, plans, cycleNs, false, n) <==>
      forall k, j {:trigger plans[k].periods[j]} :: 0 <= k < n && 0 <= j < |plans[k].periods| ==>
        WholePeriods(plans[k].periods[j], cycleNs)
  {
    if n > 0 {
      PeriodOfPlan(vs, plans, cycleNs, n - 1);
      var periods := plans[n - 1].periods;
      forall j | 0 <= j < |periods|
        ensures WholePeriods(periods[j], cycleNs) <==> periods[j] != 0 && cycleNs % periods[j] == 0
      {
        WholePeriodsDivide(periods[j], cycleNs);
      }
    }
  }

  /** The cycle of the module holds a whole number of periods of every schedule. */
  ghost predicate AllWholePeriods(m: AcmModule)
    reads m`streams, m`cycleNs, m.streams`windows
  {
    forall k, j {:trigger m.streams[k].windows[j]} :: 0 <= k < |m.streams| && 0 <= j < |m.streams[k].windows| ==>
      WholePeriods(m.streams[k].windows[j].periodNs, m.cycleNs)
  }

  /** The check of the periods alone passes if and only if they all go into the cycle. */
  lemma PeriodsPassIfWhole(m: AcmModule)
    requires m.cycleNs > 0
    ensures PlansFine(Views(m.streams), Plans(m.streams), m.cycleNs, false) <==> AllWholePeriods(m)
  {
    var vs, plans := Views(m.streams), Plans(m.streams);
    PeriodOfPlan(vs, plans, m.cycleNs, |vs|);
    forall k, j | 0 <= k < |m.streams| && 0 <= j < |m.streams[k].windows|
      ensures j < |plans[k].periods| && plans[k].periods[j] == m.streams[k].windows[j].periodNs
    {
      assert plans[k] == PlanOf(m.streams[k]);
    }
    if AllWholePeriods(m) {
      forall k, j {:trigger plans[k].periods[j]} | 0 <= k < |vs| && 0 <= j < |plans[k].periods|
        ensures WholePeriods(plans[k].periods[j], m.cycleNs)
      {
        assert plans[k] == PlanOf(m.streams[k]);
        assert WholePeriods(m.streams[k].windows[j].periodNs, m.cycleNs);
      }
    }
  }

  lemma {:induction false} FinalPlansFine(vs: seq<StreamView>, plans: seq<Plan>, cycleNs: nat, n: nat)
    requires n <= |vs| == |plans|
    ensures PlansFine(vs, plans, cycleNs, true, n) <==>
      && PlansFine(vs, plans, cycleNs, false, n)
      && forall k {:trigger plans[k]} :: 0 <= k < n && IsRedundant(vs[k].kind) ==> Aligned(plans[k], cycleNs)
  {
    if n > 0 {
      FinalPlansFine(vs, plans, cycleNs, n - 1);
    }
  }

  /** The schedules of two partners: as many, at most one, with the period of the cycle. */
  predicate PartnersAgree(own: seq<ScheduleEntry>, other: seq<ScheduleEntry>, cycleNs: nat) {
    |own| == |other| <= 1 && (|own| == 1 ==> own[0].periodNs == other[0].periodNs == cycleNs)
  }

  ghost predicate AllPartnersAgree(m: AcmModule)
    reads m`streams, m`cycleNs, m.streams`kind, m.streams`windows, m.streams`referenceRedundant
    reads (set s | s in m.streams :: s.referenceRedundant)`windows
  {
    forall s {:trigger s.referenceRedundant} :: s in m.streams && IsRedundant(s.kind) ==>
      s.referenceRedundant != null && PartnersAgree(s.windows, s.referenceRedundant.windows, m.cycleNs)
  }

  lemma AlignedIfAgree(s: AcmStream, cycleNs: nat)
    requires s.referenceRedundant != null
    ensures Aligned(PlanOf(s), cycleNs) <==> PartnersAgree(s.windows, s.referenceRedundant.windows, cycleNs)
  {
  }

  /** The final check of the periods passes if and only if they all go into the cycle and all
      partners agree. */
  lemma FinalPeriodsPass(m: AcmModule)
    requires m.cycleNs > 0 && PartnersSet(Views(m.streams), Plans(m.streams))
    ensures PlansFine(Views(m.streams), Plans(m.streams), m.cycleNs, true) <==>
      AllWholePeriods(m) && AllPartnersAgree(m)
  {
    var vs, plans := Views(m.streams), Plans(m.streams);
    FinalPlansFine(vs, plans, m.cycleNs, |vs|);
    PeriodsPassIfWhole(m);
    forall k {:trigger plans[k]} | 0 <= k < |vs| && IsRedundant(vs[k].kind)
      ensures m.streams[k].referenceRedundant != null
      ensures Aligned(plans[k], m.cycleNs) <==>
        PartnersAgree(m.streams[k].windows, m.streams[k].referenceRedundant.windows, m.cycleNs)
    {
      assert plans[k] == PlanOf(m.streams[k]);
      AlignedIfAgree(m.streams[k], m.cycleNs);
    }
    if PlansFine(vs, plans, m.cycleNs, true) {
      forall s | s in m.streams && IsRedundant(s.kind)
        ensures s.referenceRedundant != null && PartnersAgree(s.windows, s.referenceRedundant.windows, m.cycleNs)
      {
        var k :| 0 <= k < |m.streams| && m.streams[k] == s;
        assert vs[k].kind == s.kind && Aligned(plans[k], m.cycleNs);
      }
    }
  }

  /** In an accepted module every period goes into the cycle; a module with another one is
      refused, whatever else is right about it. */
  lemma AcceptedPeriods(m: AcmModule, ties: seq<Ties>, final: bool)
    requires WellFormed(FactsOf(m, ties))
    ensures Accepted(FactsOf(m, ties), final) ==> m.cycleNs > 0 && AllWholePeriods(m)
    ensures !AllWholePeriods(m) ==> !Accepted(FactsOf(m, ties), final)
  {
    if Accepted(FactsOf(m, ties), final) {
      FinalPlansFine(Views(m.streams), Plans(m.streams), m.cycleNs, |m.streams|);
      PeriodsPassIfWhole(m);
    }
  }

  /** Redundant partners of a finally accepted module have as many schedules, at most one, with
      the period of the cycle on both sides. */
  lemma AcceptedPartners(m: AcmModule, ties: seq<Ties>)
    requires WellFormed(FactsOf(m, ties)) && Accepted(FactsOf(m, ties), true)
    ensures AllPartnersAgree(m)
  {
    FineHavePartners(FactsOf(m, ties));
    FinalPeriodsPass(m);
  }

  /** Where a redundant stream and its partner may belong. */
  predicate PartnersApart(own: Home, partner: Home) {
    && own.config != null && own.config == partner.config
    && (own.bypass == null || own.bypass != partner.bypass)
  }

  /** Redundant partners of a finally accepted module belong to one configuration, and not to the
      same module; otherwise it is refused. */
  lemma AcceptedPartnersApart(f: Facts, k: nat)
    requires WellFormed(f) && k < |f.vs| && IsRedundant(f.vs[k].kind)
    ensures Accepted(f, true) ==> PartnersApart(f.ties[k].own, f.ties[k].partner)
    ensures TiesFine(f.ties[k], true) <==> PartnersApart(f.ties[k].own, f.ties[k].partner)
  {
    if Accepted(f, true) {
      StreamsFineAt(f.vs, f.ties, k, |f.vs|);
    }
  }

  // ---- the verdict ----

  /** What the streams of a module need, in table rows, entries and bytes. */
  ghost predicate FitsTables(vs: seq<StreamView>) {
    && |ModuleConstants(vs)| <= 4096 && |Partners(vs, |vs|)| <= 31 && |Receivers(vs, |vs|)| <= 16
    && GatherBase(vs, |vs|) + |Sharing(vs, |vs|)| <= 256 && ScatterBase(vs, |vs|) <= 256
  }

  /** What the command list needs: rows of a table, and time between the commands. */
  ghost predicate FitsSchedule(ts: seq<nat>)
    requires Ordered(ts)
  {
    && RowCount(ts) + SpareRows(ts, |ts|) <= 1024
    && (ts != [] ==> ts[0] == 0 || ts[0] >= 8)
    && forall i, j :: 0 <= i < j < |ts| ==> ts[j] - ts[i] >= 8 * (j - i)
  }

  lemma FitsTablesMeans(vs: seq<StreamView>)
    requires forall k {:trigger vs[k]} :: 0 <= k < |vs| ==> WellTyped(vs[k]) && ConstantsSized(vs[k].ops)
    ensures FitsTables(vs) <==>
      && ModuleConstBuffer(vs, |vs|) <= ACM_MAX_CONST_BUFFER_SIZE
      && REDUNDANCY_START_IDX + Redundants(vs, |vs|) <= ACM_MAX_REDUNDANT_STREAMS && TablesAccepted(vs)
  {
    TablesCounted(vs);
  }

  /** A module of well-formed streams is accepted if and only if its streams fit the tables, its
      command list fits a schedule, all periods go into the cycle, and finally also every stream
      passes on its own and all partners agree. */
  lemma AcceptanceMeans(m: AcmModule, ties: seq<Ties>, final: bool)
    requires WellFormed(FactsOf(m, ties)) && (final ==> PartnersSet(Views(m.streams), Plans(m.streams)))
    requires forall k {:trigger Views(m.streams)[k]} :: 0 <= k < |m.streams| ==>
      WellTyped(Views(m.streams)[k]) && ConstantsSized(Views(m.streams)[k].ops)
    ensures Accepted(FactsOf(m, ties), final) <==>
      && FitsTables(Views(m.streams)) && FitsSchedule(Ticks(m.fscList))
      && m.cycleNs > 0 && AllWholePeriods(m)
      && (final ==> StreamsFine(Views(m.streams), ties) && AllPartnersAgree(m))
  {
    FitsTablesMeans(Views(m.streams));
    AcceptedListFitsTable(Ticks(m.fscList));
    GapsOkMeans(Ticks(m.fscList));
    if m.cycleNs > 0 {
      PeriodsPassIfWhole(m);
      if final {
        FinalPeriodsPass(m);
      }
    }
  }

  // ---- the error codes ----

  /** Two commands, or the first one and the start of the cycle, are too close to each other. */
  ghost predicate TooClose(ts: seq<nat>) {
    (ts != [] && 0 < ts[0] < 8) || exists i, j :: 0 <= i < j < |ts| && ts[j] - ts[i] < 8 * (j - i)
  }

  lemma ScheduleErrorMeans(ts: seq<nat>)
    requires Ordered(ts)
    ensures !EventsWithinLimit(ts) ==> RowCount(ts) + SpareRows(ts, |ts|) > 1024
    ensures !GapsOk(ts) ==> TooClose(ts)
  {
    AcceptedListFitsTable(ts);
    GapsOkMeans(ts);
  }

  lemma PeriodsErrorMeans(m: AcmModule, final: bool)
    requires final ==> PartnersSet(Views(m.streams), Plans(m.streams))
    ensures !PlansFine(Views(m.streams), Plans(m.streams), m.cycleNs, final) ==> PeriodsWrong(m, final)
  {
    if m.cycleNs > 0 {
      PeriodsPassIfWhole(m);
      if final {
        FinalPeriodsPass(m);
      }
    }
  }

  /** There is no cycle, a period does not go into it, or finally partners do not agree. */
  ghost predicate PeriodsWrong(m: AcmModule, final: bool)
    reads m`streams, m`cycleNs, m.streams`kind, m.streams`windows, m.streams`referenceRedundant
    reads (set s | s in m.streams :: s.referenceRedundant)`windows
  {
    m.cycleNs == 0 || !AllWholePeriods(m) || (final && !AllPartnersAgree(m))
  }

  /** What is wrong with a module when the checks of the module give error `e`. */
  ghost predicate Wrong(e: Error, m: AcmModule, vs: seq<StreamView>, ties: seq<Ties>, ts: seq<nat>, final: bool)
    requires Ordered(ts) && |vs| == |ties|
    reads m`streams, m`cycleNs, m.streams`kind, m.streams`windows, m.streams`referenceRedundant
    reads (set s | s in m.streams :: s.referenceRedundant)`windows
  {
    match e
    case EACMCONSTBUFFER => |ModuleConstants(vs)| > 4096
    case EACMREDUNDANDSTREAMS => |Partners(vs, |vs|)| > 31
    case EACMSCHEDULEEVENTS => RowCount(ts) + SpareRows(ts, |ts|) > 1024
    case EACMMODCYCLE => m.cycleNs == 0
    case EINVAL => PeriodsWrong(m, final)
    case EACMINCOMPATIBLEPERIOD => PeriodsWrong(m, final)
    case EACMSCHEDTIME => TooClose(ts)
    case EACMEGRESSOPERATIONS => GatherBase(vs, |vs|) + |Sharing(vs, |vs|)| > 256
    case EACMINGRESSOPERATIONS => ScatterBase(vs, |vs|) > 256
    case EACMLOOKUPENTRIES => |Receivers(vs, |vs|)| > 16
    case _ => final && SomeStreamWrong(e, vs, ties)
  }

  ghost predicate SomeStreamWrong(e: Error, vs: seq<StreamView>, ties: seq<Ties>)
    requires |vs| == |ties|
  {
    exists k {:trigger vs[k]} :: 0 <= k < |vs| && StreamWrong(e, vs[k], ties[k])
  }

  /** What is wrong with a stream. */
  ghost predicate StreamWrong(e: Error, v: StreamView, ties: Ties) {
    match e
    case EACMEGRESSFRAMESIZE => Sends(v.kind) && FrameSize(v.ops, |v.ops|) < 64
    case EACMFWDOFFSET => exists k :: 0 <= k < |v.ops| && !FewMoreDropped(v.ops, k)
    case EACMPAYLOAD => FrameSize(v.ops, |v.ops|) > 1518
    case EACMNUMINSERT => NumOps(v.ops, INSERT, |v.ops|) > 8
    case EACMDIFFCONFIG => IsRedundant(v.kind) && ties.own.config != ties.partner.config
    case EACMSTREAMCONFIG => IsRedundant(v.kind) && null in {ties.own.config, ties.partner.config}
    case EACMREDSAMEMOD => IsRedundant(v.kind) && ties.own.bypass == ties.partner.bypass
    case _ => false
  }

  lemma StreamErrorMeans(e: Error, v: StreamView, ties: Ties)
    requires StreamViolated(e, v, ties, true)
    ensures StreamWrong(e, v, ties)
  {
    ReachableMeans(v.ops);
  }

  lemma StreamsErrorMeans(e: Error, vs: seq<StreamView>, ties: seq<Ties>)
    requires |vs| == |ties|
    ensures SomeStreamViolates(e, vs, ties) ==> SomeStreamWrong(e, vs, ties)
  {
    if k :| 0 <= k < |vs| && StreamViolated(e, vs[k], ties[k], true) {
      StreamErrorMeans(e, vs[k], ties[k]);
    }
  }

  /** Every error of the validation names something that is wrong with the module or one of its
      streams. */
  lemma ErrorMeans(e: Error, m: AcmModule, ties: seq<Ties>, final: bool)
    requires WellFormed(FactsOf(m, ties)) && Violated(e, FactsOf(m, ties), final)
    requires final ==> PartnersSet(Views(m.streams), Plans(m.streams))
    requires forall k {:trigger Views(m.streams)[k]} :: 0 <= k < |m.streams| ==>
      WellTyped(Views(m.streams)[k]) && ConstantsSized(Views(m.streams)[k].ops)
    ensures Wrong(e, m, Views(m.streams), ties, Ticks(m.fscList), final)
  {
    var vs := Views(m.streams);
    TablesCounted(vs);
    ScheduleErrorMeans(Ticks(m.fscList));
    PeriodsErrorMeans(m, final);
    StreamsErrorMeans(e, vs, ties);
  }

  lemma TablesCounted(vs: seq<StreamView>)
    requires forall k {:trigger vs[k]} :: 0 <= k < |vs| ==> WellTyped(vs[k]) && ConstantsSized(vs[k].ops)
    ensures ModuleConstBuffer(vs, |vs|) == |ModuleConstants(vs)| && Redundants(vs, |vs|) == |Partners(vs, |vs|)|
    ensures EgressRows(vs, |vs|) == GatherBase(vs, |vs|) + |Sharing(vs, |vs|)|
    ensures IngressRows(vs, |vs|) == ScatterBase(vs, |vs|) && Lookups(vs, |vs|) == |Receivers(vs, |vs|)|
  {
    ModuleConstantsCounted(vs, |vs|);
    assert vs[..|vs|] == vs;
    EntriesCounted(vs, |vs|);
    EgressRowsCounted(vs, |vs|);
    IngressRowsCounted(vs, |vs|);
  }

  // ---- the schedules of an accepted module ----

  /** Schedule `e` belongs to a stream of the module. */
  predicate ScheduleOf(m: AcmModule, stream: AcmStream, e: ScheduleEntry)
    reads m`streams, stream`windows
  {
    stream in m.streams && e in stream.windows
  }

  lemma CycleOfPeriods(m: AcmModule, ties: seq<Ties>, final: bool, stream: AcmStream, e: ScheduleEntry)
    requires WellFormed(FactsOf(m, ties)) && Accepted(FactsOf(m, ties), final) && ScheduleOf(m, stream, e)
    ensures e.periodNs > 0 && m.cycleNs / e.periodNs > 0
    ensures m.cycleNs / e.periodNs * e.periodNs == m.cycleNs
  {
    AcceptedPeriods(m, ties, final);
    var k :| 0 <= k < |m.streams| && m.streams[k] == stream;
    var j :| 0 <= j < |stream.windows| && stream.windows[j] == e;
    assert m.streams[k].windows[j] == e;
    WholePeriodsDivide(e.periodNs, m.cycleNs);
  }

  /** The events of a sender in an accepted module: all times lie in the cycle exactly when it is
      not a send time at the very end of the period without a delay; then they are the ideal
      times less the delay, modulo the cycle. */
  lemma AcceptedEvents(m: AcmModule, ties: seq<Ties>, final: bool, stream: AcmStream, e: ScheduleEntry, delay: nat)
    requires WellFormed(FactsOf(m, ties)) && Accepted(FactsOf(m, ties), final) && ScheduleOf(m, stream, e)
    requires e.sendTimeNs <= e.periodNs
    ensures e.periodNs > 0 && m.cycleNs / e.periodNs > 0
    ensures var n := m.cycleNs / e.periodNs;
      && ((forall j: nat :: j < n ==> EventTime(e.sendTimeNs, e.periodNs, delay, j) < m.cycleNs)
          <==> !(e.sendTimeNs == e.periodNs && delay == 0))
      && (!(e.sendTimeNs == e.periodNs && delay == 0) ==>
            forall j: nat {:trigger EventTime(e.sendTimeNs, e.periodNs, delay, j)} :: j < n ==>
              IdealEvent(e, delay, n, m.cycleNs, j))
  {
    CycleOfPeriods(m, ties, final, stream, e);
    var n := m.cycleNs / e.periodNs;
    EventTimesInCycle(e.sendTimeNs, e.periodNs, delay, n);
    if !(e.sendTimeNs == e.periodNs && delay == 0) {
      forall j: nat | j < n ensures IdealEvent(e, delay, n, m.cycleNs, j) {
        EventsAreIdealModuloCycle(e.sendTimeNs, e.periodNs, delay, n, j);
      }
    }
  }

  /** Event `j` is a send time less the delay, counted round the cycle. */
  predicate IdealEvent(e: ScheduleEntry, delay: nat, n: nat, cycleNs: nat, j: nat)
    requires e.periodNs > 0 && n > 0 && cycleNs > 0
  {
    EventTime(e.sendTimeNs, e.periodNs, delay, j)
    == (e.sendTimeNs + ((j + Skips(e.sendTimeNs, e.periodNs, delay)) % n) * e.periodNs - delay) % cycleNs
  }

  function SettingOf(m: AcmModule, tick: nat): Setting
    requires tick > 0
    reads m`mode, m`delays, m`cycleNs
  {
    Setting(m.mode, m.delays, tick, m.cycleNs / tick)
  }

  /** The delays of an accepted receive schedule leave its windows within the next cycle, and a
      window starts before the end of the next one. */
  predicate TimesWithinCycles(e: ScheduleEntry, m: AcmModule, tick: nat)
    reads m`mode, m`delays, m`cycleNs
  {
    && e.timeStartNs <= e.periodNs && e.timeEndNs <= e.periodNs
    && e.timeStartNs + SwitchDelay(m.mode, m.delays) < e.timeEndNs + e.periodNs
    && m.delays.chipIn + m.delays.phyIn + SwitchDelay(m.mode, m.delays) + tick <= m.cycleNs
  }

  /** An accepted receive schedule in a cycle of whole ticks meets all that the statement of its
      windows asks for (`ReceptionWindows.OpenExactlyAsRequested`, `Scheduled.WindowsServed`). */
  lemma AcceptedWindows(m: AcmModule, ties: seq<Ties>, final: bool, stream: AcmStream, e: ScheduleEntry, tick: nat,
                        list: seq<FscCommand>)
    requires WellFormed(FactsOf(m, ties)) && Accepted(FactsOf(m, ties), final) && ScheduleOf(m, stream, e)
    requires IsIngress(stream.kind) && tick > 0 && m.cycleNs % tick == 0 && TimesWithinCycles(e, m, tick)
    requires Sorted(m.fscList) && e.periodNs > 0
    requires m.fscList == InsertAll(list, ScheduleCommands(stream, e, m, tick))
    requires forall k {:trigger list[k]} :: 0 <= k < |list| ==> list[k].schedule != e
    ensures var s, n := SettingOf(m, tick), m.cycleNs / e.periodNs;
      Fits(e, s, n) && Added(m.fscList, list, e, s, stream.lookupIndex, RecoveryGather(stream), n)
  {
    CycleOfPeriods(m, ties, final, stream, e);
    var s, n := SettingOf(m, tick), m.cycleNs / e.periodNs;
    WholeTicks(m.cycleNs, tick);
    FitsWithinCycles(e, s, n, m.cycleNs);
    AcceptedIsAdded(m, stream, e, tick, list);
  }

  lemma AcceptedIsAdded(m: AcmModule, stream: AcmStream, e: ScheduleEntry, tick: nat, list: seq<FscCommand>)
    requires IsIngress(stream.kind) && tick > 0 && e.periodNs > 0
    requires Sorted(m.fscList) && GapsOk(Ticks(m.fscList))
    requires m.fscList == InsertAll(list, ScheduleCommands(stream, e, m, tick))
    requires forall k {:trigger list[k]} :: 0 <= k < |list| ==> list[k].schedule != e
    ensures Added(m.fscList, list, e, SettingOf(m, tick), stream.lookupIndex, RecoveryGather(stream),
      m.cycleNs / e.periodNs)
  {
  }

  lemma WholeTicks(cycleNs: nat, tick: nat)
    requires tick > 0 && cycleNs % tick == 0
    ensures tick * (cycleNs / tick) == cycleNs
  {
  }

  lemma FitsWithinCycles(e: ScheduleEntry, s: Setting, n: nat, cycleNs: nat)
    requires n > 0 && s.tick > 0 && e.periodNs > 0 && n * e.periodNs == s.tick * s.cycleTicks == cycleNs
    requires e.timeStartNs <= e.periodNs && e.timeEndNs <= e.periodNs
    requires e.timeStartNs + SwitchDelay(s.mode, s.d) < e.timeEndNs + e.periodNs
    requires s.d.chipIn + s.d.phyIn + SwitchDelay(s.mode, s.d) + s.tick <= cycleNs
    ensures Fits(e, s, n)
  {
    WindowSumFits(e.timeStartNs, e.periodNs, cycleNs, n, n - 1);
    WindowSumFits(e.timeEndNs, e.periodNs, cycleNs, n, n - 1);
  }

  /** In parallel mode the ticks of its windows lie in the cycle, and up to whole cycles cover the
      delayed request. */
  lemma AcceptedWindowCovers(m: AcmModule, ties: seq<Ties>, final: bool, stream: AcmStream, e: ScheduleEntry,
                             tick: nat, i: nat)
    requires WellFormed(FactsOf(m, ties)) && Accepted(FactsOf(m, ties), final) && ScheduleOf(m, stream, e)
    requires tick > 0 && m.cycleNs % tick == 0 && m.mode.Parallel? && TimesWithinCycles(e, m, tick)
    requires e.periodNs > 0 && i < m.cycleNs / e.periodNs
    ensures var s := SettingOf(m, tick);
      && OpenTick(e, s.mode, s.d, tick, s.cycleTicks, i) < s.cycleTicks
      && CloseTick(e, s.d, tick, s.cycleTicks, i) < s.cycleTicks
      && (exists open :: InTurn(open, OpenTick(e, s.mode, s.d, tick, s.cycleTicks, i), s.cycleTicks)
            && tick * open <= WindowStartTime(e, s.d, i) < tick * open + tick)
      && (exists close :: InTurn(close, CloseTick(e, s.d, tick, s.cycleTicks, i), s.cycleTicks)
            && WindowEndTime(e, s.d, i) <= tick * close < WindowEndTime(e, s.d, i) + tick)
  {
    CycleOfPeriods(m, ties, final, stream, e);
    var s, n := SettingOf(m, tick), m.cycleNs / e.periodNs;
    assert tick * s.cycleTicks == m.cycleNs;
    ParallelWindowCoversRequest(e, m.delays, tick, s.cycleTicks, n, i);
  }
}
