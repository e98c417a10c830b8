/** The validation of a module: the budgets that the writers of the hardware tables rely on. */
module Validate {
  import opened Entities
  import opened FscList
  import opened SchedTable
  import opened Layout
  import opened DmaTables
  import opened ValidateStream

  // ---- what is checked ----

  /** What a module is judged by. */
  datatype Facts = Facts(vs: seq<StreamView>, ties: seq<Ties>, plans: seq<Plan>, ticks: seq<nat>, cycleNs: nat)

  /** Every redundant stream has a partner. */
  predicate PartnersSet(vs: seq<StreamView>, plans: seq<Plan>)
    requires |vs| == |plans|
  {
    forall k {:trigger plans[k]} :: 0 <= k < |vs| && IsRedundant(vs[k].kind) ==> plans[k].partner.Some?
  }

  /** A partner that is not there belongs nowhere. */
  predicate MissingHomeless(plans: seq<Plan>, ties: seq<Ties>)
    requires |plans| == |ties|
  {
    forall k {:trigger plans[k]} :: 0 <= k < |plans| && plans[k].partner.None? ==> ties[k].partner == Home(null, null)
  }

  /** One entry per stream, and the ticks in order. */
  predicate WellFormed(f: Facts) {
    |f.vs| == |f.ties| == |f.plans| && MissingHomeless(f.plans, f.ties) && Ordered(f.ticks)
  }

  /** `ties` says where each stream and its partner belong. */
  ghost function FactsOf(m: AcmModule, ties: seq<Ties>): Facts
    reads m`streams, m`fscList, m`cycleNs
    reads m.streams`kind, m.streams`operations, m.streams`windows, m.streams`referenceRedundant
    reads (set s | s in m.streams :: s.referenceRedundant)`windows
  {
    Facts(Views(m.streams), ties, Plans(m.streams), Ticks(m.fscList), m.cycleNs)
  }

  /** The first `n` streams pass the final checks of streams on their own. */
  ghost predicate StreamsFine(vs: seq<StreamView>, ties: seq<Ties>, n: nat := |vs|)
    requires n <= |vs| == |ties|
  {
    n > 0 ==> StreamsFine(vs, ties, n - 1) && StreamFine(vs[n - 1], ties[n - 1], true)
  }

  lemma {:induction false} StreamsFineAt(vs: seq<StreamView>, ties: seq<Ties>, k: nat, n: nat)
    requires k < n <= |vs| == |ties| && StreamsFine(vs, ties, n)
    ensures StreamFine(vs[k], ties[k], true)
  {
    if k < n - 1 {
      StreamsFineAt(vs, ties, k, n - 1);
    }
  }

  /** The periods of the first `n` streams pass. */
  predicate PlansFine(vs: seq<StreamView>, plans: seq<Plan>, cycleNs: nat, final: bool, n: nat := |vs|)
    requires n <= |vs| == |plans|
  {
    n > 0 ==> PlansFine(vs, plans, cycleNs, final, n - 1) && PlanFine(vs[n - 1].kind, plans[n - 1], cycleNs, final)
  }

  lemma {:induction false} PlansFineAt(vs: seq<StreamView>, plans: seq<Plan>, cycleNs: nat, final: bool, k: nat, n: nat)
    requires k < n <= |vs| == |plans| && PlansFine(vs, plans, cycleNs, final, n)
    ensures PlanFine(vs[k].kind, plans[k], cycleNs, final)
  {
    if k < n - 1 {
      PlansFineAt(vs, plans, cycleNs, final, k, n - 1);
    }
  }

  ghost predicate SomeStreamViolates(e: Error, vs: seq<StreamView>, ties: seq<Ties>)
    requires |vs| == |ties|
  {
    exists k :: 0 <= k < |vs| && StreamViolated(e, vs[k], ties[k], true)
  }

  /** The condition behind each error code of validate_module. */
  ghost predicate Violated(e: Error, f: Facts, final: bool)
    requires WellFormed(f)
  {
    match e
    case EACMCONSTBUFFER => ModuleConstBuffer(f.vs, |f.vs|) > ACM_MAX_CONST_BUFFER_SIZE
    case EACMREDUNDANDSTREAMS => REDUNDANCY_START_IDX + Redundants(f.vs, |f.vs|) > ACM_MAX_REDUNDANT_STREAMS
    case EACMSCHEDULEEVENTS => !EventsWithinLimit(f.ticks)
    case EACMMODCYCLE => f.cycleNs == 0
    case EINVAL => !PlansFine(f.vs, f.plans, f.cycleNs, final)
    case EACMINCOMPATIBLEPERIOD => !PlansFine(f.vs, f.plans, f.cycleNs, final)
    case EACMSCHEDTIME => !GapsOk(f.ticks)
    case EACMEGRESSOPERATIONS => EgressRows(f.vs, |f.vs|) > ACM_MAX_EGRESS_OPERATIONS
    case EACMINGRESSOPERATIONS => IngressRows(f.vs, |f.vs|) > ACM_MAX_INGRESS_OPERATIONS
    case EACMLOOKUPENTRIES => Lookups(f.vs, |f.vs|) > ACM_MAX_LOOKUP_ITEMS
    case _ => final && SomeStreamViolates(e, f.vs, f.ties)
  }

  ghost predicate StreamsAccepted(vs: seq<StreamView>, ties: seq<Ties>, final: bool)
    requires |vs| == |ties|
  {
    && (final ==> StreamsFine(vs, ties))
    && ModuleConstBuffer(vs, |vs|) <= ACM_MAX_CONST_BUFFER_SIZE
    && REDUNDANCY_START_IDX + Redundants(vs, |vs|) <= ACM_MAX_REDUNDANT_STREAMS
  }

  ghost predicate ScheduleAccepted(f: Facts, final: bool)
    requires WellFormed(f)
  {
    && EventsWithinLimit(f.ticks) && f.cycleNs != 0
    && PlansFine(f.vs, f.plans, f.cycleNs, final) && GapsOk(f.ticks)
  }

  ghost predicate TablesAccepted(vs: seq<StreamView>) {
    && EgressRows(vs, |vs|) <= ACM_MAX_EGRESS_OPERATIONS
    && IngressRows(vs, |vs|) <= ACM_MAX_INGRESS_OPERATIONS
    && Lookups(vs, |vs|) <= ACM_MAX_LOOKUP_ITEMS
  }

  /** A module passes when no condition is violated; the checks of the streams on their own
      and of redundant partners count only finally. */
  ghost predicate Accepted(f: Facts, final: bool)
    requires WellFormed(f)
  {
    StreamsAccepted(f.vs, f.ties, final) && ScheduleAccepted(f, final) && TablesAccepted(f.vs)
  }

  // ---- the loops over the streams ----

  method StreamSumConstBuffer(stream: AcmStream) returns (n: nat)
    ensures n == SumConstBuffer(stream.operations, |stream.operations|)
  {
    n := 0;
    for i := 0 to |stream.operations|
      invariant n == SumConstBuffer(stream.operations, i)
    {
      if stream.operations[i].opcode == INSERT_CONSTANT {
        n := n + stream.operations[i].length;
      }
    }
  }

  method SumConstBuffers(streams: seq<AcmStream>, ghost vs: seq<StreamView>) returns (n: nat)
    requires vs == Views(streams)
    ensures n == ModuleConstBuffer(vs, |vs|)
  {
    n := 0;
    for i := 0 to |streams|
      invariant n == ModuleConstBuffer(vs, i)
    {
      var own := StreamSumConstBuffer(streams[i]);
      n := n + own;
    }
  }

  method CountRedundant(streams: seq<AcmStream>, ghost vs: seq<StreamView>) returns (n: nat)
    requires vs == Views(streams)
    ensures n == REDUNDANCY_START_IDX + Redundants(vs, |vs|)
  {
    n := REDUNDANCY_START_IDX;
    for i := 0 to |streams|
      invariant n == REDUNDANCY_START_IDX + Redundants(vs, i)
    {
      if streams[i].kind == RedundantTx || streams[i].kind == RedundantRx {
        n := n + 1;
      }
    }
  }

  method CountEgressOps(streams: seq<AcmStream>, ghost vs: seq<StreamView>) returns (n: nat)
    requires vs == Views(streams)
    ensures n == EgressRows(vs, |vs|)
  {
    n := GATHER_START_IDX;
    for i := 0 to |streams|
      invariant n == EgressRows(vs, i)
    {
      var prefetchOps := StreamNumPrefetchOps(streams[i]);
      var gatherOps := StreamNumGatherOps(streams[i]);
      if gatherOps >= prefetchOps {
        n := n + gatherOps;
      } else {
        n := n + prefetchOps;
      }
    }
  }

  method CountIngressOps(streams: seq<AcmStream>, ghost vs: seq<StreamView>) returns (n: nat)
    requires vs == Views(streams)
    ensures n == IngressRows(vs, |vs|)
  {
    n := SCATTER_START_IDX;
    for i := 0 to |streams|
      invariant n == IngressRows(vs, i)
    {
      var own := StreamNumScatterOps(streams[i]);
      n := n + own;
    }
  }

  method CountLookups(streams: seq<AcmStream>, ghost vs: seq<StreamView>) returns (n: nat)
    requires vs == Views(streams)
    ensures n == Lookups(vs, |vs|)
  {
    n := 0;
    for i := 0 to |streams|
      invariant n == Lookups(vs, i)
    {
      if streams[i].kind == IngressTriggered || streams[i].kind == RedundantRx {
        n := n + 1;
      }
    }
  }

  /** The final checks of every stream on its own. */
  method ValidateStreamList(streams: seq<AcmStream>, ties: seq<Ties>, ghost vs: seq<StreamView>)
    returns (error: Option<Error>)
    requires vs == Views(streams) && |ties| == |vs|
    ensures error.None? ==> StreamsFine(vs, ties)
    ensures error.Some? ==> SomeStreamViolates(error.value, vs, ties)
  {
    for i := 0 to |streams|
      invariant StreamsFine(vs, ties, i)
    {
      assert vs[i] == StreamView(streams[i].kind, streams[i].operations);
      error := ValidateStreamAlone(streams[i], ties[i], true, vs[i]);
      if error.Some? {
        return;
      }
    }
    return None;
  }

  method CheckPeriods(streams: seq<AcmStream>, cycleNs: nat, final: bool, ghost vs: seq<StreamView>,
                      ghost plans: seq<Plan>)
    returns (error: Option<Error>)
    requires vs == Views(streams) && plans == Plans(streams) && (final ==> PartnersSet(vs, plans))
    ensures error.None? <==> PlansFine(vs, plans, cycleNs, final)
    ensures error.Some? ==> error.value.EINVAL? || error.value.EACMINCOMPATIBLEPERIOD?
  {
    for i := 0 to |streams|
      invariant PlansFine(vs, plans, cycleNs, final, i)
    {
      assert vs[i].kind == streams[i].kind && plans[i] == PlanOf(streams[i]);
      error := StreamCheckPeriods(streams[i], cycleNs, final, vs[i].kind, plans[i]);
      if error.Some? {
        if PlansFine(vs, plans, cycleNs, final) {
          PlansFineAt(vs, plans, cycleNs, final, i, |vs|);
        }
        return;
      }
    }
    return None;
  }

  /** The schedule event limit: one row less when a leading NOP is needed. */
  method CheckScheduleEvents(m: AcmModule) returns (ok: bool)
    requires Sorted(m.fscList)
    ensures ok <==> EventsWithinLimit(Ticks(m.fscList))
  {
    var addItems := CalcNopSchedulesForLongCycles(m);
    var count := |m.fscList|;
    ok := !((count + addItems > ACM_MAX_SCHEDULE_EVENTS && count > 0 && m.fscList[0].absCycle == 0)
         || (count + addItems > ACM_MAX_SCHEDULE_EVENTS - 1 && count > 0 && m.fscList[0].absCycle != 0));
  }

  // ---- the checks of a module ----

  /** Streams on their own (finally), constants and redundant streams. */
  method ValidateStreams(streams: seq<AcmStream>, ties: seq<Ties>, final: bool, ghost f: Facts)
    returns (error: Option<Error>)
    requires WellFormed(f) && f.vs == Views(streams) && f.ties == ties
    ensures error.None? ==> StreamsAccepted(f.vs, f.ties, final)
    ensures error.Some? ==> Violated(error.value, f, final)
  {
    if final {
      error := ValidateStreamList(streams, ties, f.vs);
      if error.Some? {
        return;
      }
    }
    var constants := SumConstBuffers(streams, f.vs);
    if constants > ACM_MAX_CONST_BUFFER_SIZE {
      return Some(EACMCONSTBUFFER);
    }
    var redundant := CountRedundant(streams, f.vs);
    if redundant > ACM_MAX_REDUNDANT_STREAMS {
      return Some(EACMREDUNDANDSTREAMS);
    }
    return None;
  }

  /** A redundant stream without partner does not pass the final checks. */
  lemma FineHavePartners(f: Facts)
    requires WellFormed(f) && StreamsFine(f.vs, f.ties)
    ensures PartnersSet(f.vs, f.plans)
  {
    forall k {:trigger f.plans[k]} | 0 <= k < |f.vs| && IsRedundant(f.vs[k].kind) ensures f.plans[k].partner.Some? {
      StreamsFineAt(f.vs, f.ties, k, |f.vs|);
    }
  }

  /** The checks of the command list and the periods. */
  method ValidateSchedule(m: AcmModule, final: bool, ghost f: Facts) returns (error: Option<Error>)
    requires Sorted(m.fscList) && WellFormed(f) && f == FactsOf(m, f.ties)
    requires final ==> PartnersSet(f.vs, f.plans)
    ensures error.None? ==> ScheduleAccepted(f, final)
    ensures error.Some? ==> Violated(error.value, f, final)
  {
    var events := CheckScheduleEvents(m);
    if !events {
      return Some(EACMSCHEDULEEVENTS);
    }
    if m.cycleNs == 0 {
      return Some(EACMMODCYCLE);
    }
    error := CheckPeriods(m.streams, m.cycleNs, final, f.vs, f.plans);
    if error.Some? {
      return;
    }
    var gaps := CheckModuleSchedulingGaps(m);
    if !gaps {
      return Some(EACMSCHEDTIME);
    }
    return None;
  }

  /** The checks of the table sizes. */
  method ValidateTables(streams: seq<AcmStream>, final: bool, ghost f: Facts) returns (error: Option<Error>)
    requires WellFormed(f) && f.vs == Views(streams)
    ensures error.None? ==> TablesAccepted(f.vs)
    ensures error.Some? ==> Violated(error.value, f, final)
  {
    var egress := CountEgressOps(streams, f.vs);
    if egress > ACM_MAX_EGRESS_OPERATIONS {
      return Some(EACMEGRESSOPERATIONS);
    }
    var ingress := CountIngressOps(streams, f.vs);
    if ingress > ACM_MAX_INGRESS_OPERATIONS {
      return Some(EACMINGRESSOPERATIONS);
    }
    var lookups := CountLookups(streams, f.vs);
    if lookups > ACM_MAX_LOOKUP_ITEMS {
      return Some(EACMLOOKUPENTRIES);
    }
    return None;
  }

  lemma ViolatedNotAccepted(e: Error, f: Facts, final: bool)
    requires WellFormed(f) && Violated(e, f, final)
    ensures !Accepted(f, final)
  {
    if final && StreamsFine(f.vs, f.ties) && SomeStreamViolates(e, f.vs, f.ties) {
      var k :| 0 <= k < |f.vs| && StreamViolated(e, f.vs[k], f.ties[k], true);
      StreamsFineAt(f.vs, f.ties, k, |f.vs|);
      ViolatedNotFine(e, f.vs[k], f.ties[k], true);
    }
  }

  /** The checks one after the other; the first that fails decides. */
  method RunChecks(m: AcmModule, ties: seq<Ties>, final: bool, ghost f: Facts) returns (error: Option<Error>)
    requires Sorted(m.fscList) && WellFormed(f) && f == FactsOf(m, ties)
    ensures error.None? <==> Accepted(f, final)
    ensures error.Some? ==> Violated(error.value, f, final)
  {
    error := ValidateStreams(m.streams, ties, final, f);
    if error.None? {
      if final {
        FineHavePartners(f);
      }
      error := ValidateSchedule(m, final, f);
    }
    if error.None? {
      error := ValidateTables(m.streams, final, f);
    }
    if error.Some? {
      ViolatedNotAccepted(error.value, f, final);
    }
  }

  /** A module is accepted exactly when no condition is violated, and every error code
      names a condition that is. */
  method ValidateModule(m: AcmModule, ties: seq<Ties>, final: bool) returns (error: Option<Error>)
    requires Sorted(m.fscList) && WellFormed(FactsOf(m, ties))
    ensures error.None? <==> Accepted(FactsOf(m, ties), final)
    ensures error.Some? ==> Violated(error.value, FactsOf(m, ties), final)
  {
    ghost var f := FactsOf(m, ties);
    error := RunChecks(m, ties, final, f);
    assert f == FactsOf(m, ties);
  }

  // ---- what acceptance is worth ----

  /** A sender of an accepted module that starts with its header can be sent. */
  lemma AcceptedSenderIsSendable(f: Facts, k: nat)
    requires WellFormed(f) && Accepted(f, true) && k < |f.vs|
    requires Sends(f.vs[k].kind) && HasHeader(f.vs[k].ops)
    ensures Sendable(f.vs[k])
  {
    StreamsFineAt(f.vs, f.ties, k, |f.vs|);
  }

  /** In an accepted module the redundancy indexes given by rank are in 1..31 and distinct. */
  lemma AcceptedRedundancyIndexes(f: Facts, final: bool, i: nat, j: nat)
    requires WellFormed(f) && Accepted(f, final) && i < |f.vs| && j < |f.vs|
    requires IsRedundant(f.vs[i].kind) && IsRedundant(f.vs[j].kind)
    ensures REDUNDANCY_START_IDX <= RankIndex(f.vs, i) < ACM_MAX_REDUNDANT_STREAMS
    ensures RankIndex(f.vs, i) == RankIndex(f.vs, j) <==> i == j
  {
    RankOrder(f.vs, i, j);
  }

  /** The rows of an accepted schedule stay in the table they are written to: reading them
      back gives what was written, and no other table or scheduler changes. */
  lemma AcceptedScheduleStaysInItsTable(f: Facts, final: bool, moduleId: nat, table: nat,
                                        hw: map<RowId, Row>, rows: seq<Row>)
    requires WellFormed(f) && ScheduleAccepted(f, final)
    requires moduleId < SCHEDULER_COUNT && table < SCHED_TBL_COUNT
    requires |rows| == RowCount(f.ticks)
    ensures |rows| <= SCHED_TBL_ROW_COUNT
    ensures FrontHolds(Written(hw, moduleId, table, rows), moduleId, table, rows)
    ensures OthersKept(hw, Written(hw, moduleId, table, rows), moduleId, table, |rows|)
  {
    AcceptedListFitsTable(f.ticks);
    WrittenStaysInTable(hw, moduleId, table, rows);
  }
}
