/** The validation of a single stream: frame length, payload, forwarded offsets, number of
    inserts, and schedule periods. */
module ValidateStream {
  import opened Entities
  import opened Layout
  import opened DmaProgram
  import opened DmaTables

  // ---- one stream ----

  /** Position in the received frame that the first `k` operations have consumed: a FORWARD
      from further behind skips ahead. */
  function IngressPos(ops: seq<Operation>, k: nat): nat
    requires k <= |ops|
  {
    if k == 0 then 0
    else
      var pos, op := IngressPos(ops, k - 1), ops[k - 1];
      match op.opcode
      case FORWARD => (if op.offset > pos then op.offset else pos) + op.length
      case READ => pos
      case FORWARD_ALL => pos
      case _ => pos + op.length
  }

  /** No FORWARD skips more bytes than the hardware can drop. */
  predicate Reachable(ops: seq<Operation>, k: nat)
    requires k < |ops|
  {
    ops[k].opcode.FORWARD? ==> ops[k].offset <= IngressPos(ops, k) + MAX_TRUNC_BYTES
  }

  ghost predicate ForwardsReachable(ops: seq<Operation>) {
    forall k {:trigger Reachable(ops, k)} :: 0 <= k < |ops| ==> Reachable(ops, k)
  }

  /** The module and the configuration a stream was added to, if any. */
  datatype Home = Home(bypass: AcmModule?, config: object?)

  /** Where a stream and its redundant partner belong. */
  datatype Ties = Ties(own: Home, partner: Home)

  /** The condition behind each error code of validate_stream. */
  ghost predicate StreamViolated(e: Error, v: StreamView, ties: Ties, final: bool) {
    match e
    case EACMEGRESSFRAMESIZE => final && Sends(v.kind) && FrameSize(v.ops, |v.ops|) < ACM_MIN_FRAME_SIZE
    case EACMDIFFCONFIG =>
      && IsRedundant(v.kind) && ties.own.config != null && ties.partner.config != null
      && ties.own.config != ties.partner.config
    case EACMSTREAMCONFIG => IsRedundant(v.kind) && final && (ties.own.config == null || ties.partner.config == null)
    case EACMREDSAMEMOD => IsRedundant(v.kind) && ties.own.bypass != null && ties.own.bypass == ties.partner.bypass
    case EACMFWDOFFSET => !ForwardsReachable(v.ops)
    case EACMPAYLOAD => FrameSize(v.ops, |v.ops|) > MAX_PAYLOAD_HEADER_SIZE
    case EACMNUMINSERT => NumOps(v.ops, INSERT, |v.ops|) > ACM_MAX_INSERT_OPERATIONS
    case _ => false
  }

  /** What is left when none of them holds. */
  ghost predicate StreamFine(v: StreamView, ties: Ties, final: bool) {
    && (final && Sends(v.kind) ==> FrameSize(v.ops, |v.ops|) >= ACM_MIN_FRAME_SIZE)
    && (IsRedundant(v.kind) ==> TiesFine(ties, final))
    && ForwardsReachable(v.ops)
    && FrameSize(v.ops, |v.ops|) <= MAX_PAYLOAD_HEADER_SIZE
    && NumOps(v.ops, INSERT, |v.ops|) <= ACM_MAX_INSERT_OPERATIONS
  }

  /** Redundant partners belong to different modules of one configuration, as far as they have
      been added; finally both must have been. */
  predicate TiesFine(ties: Ties, final: bool) {
    && (ties.own.config != null && ties.partner.config != null ==> ties.own.config == ties.partner.config)
    && (final ==> ties.own.config != null && ties.partner.config != null)
    && (ties.own.bypass != null && ties.partner.bypass != null ==> ties.own.bypass != ties.partner.bypass)
  }

  method CheckTies(ties: Ties, final: bool, ghost v: StreamView) returns (error: Option<Error>)
    ensures error.None? <==> TiesFine(ties, final)
    ensures IsRedundant(v.kind) && error.Some? ==> StreamViolated(error.value, v, ties, final)
  {
    if ties.own.config != null && ties.partner.config != null {
      if ties.own.config != ties.partner.config {
        return Some(EACMDIFFCONFIG);
      }
    } else {
      if final && (ties.own.config == null || ties.partner.config == null) {
        return Some(EACMSTREAMCONFIG);
      }
    }
    if ties.own.bypass != null && ties.partner.bypass != null {
      if ties.own.bypass == ties.partner.bypass {
        return Some(EACMREDSAMEMOD);
      }
    }
    return None;
  }

  ghost predicate PayloadViolated(e: Error, ops: seq<Operation>) {
    (e.EACMFWDOFFSET? && !ForwardsReachable(ops)) || (e.EACMPAYLOAD? && FrameSize(ops, |ops|) > MAX_PAYLOAD_HEADER_SIZE)
  }

  method CheckStreamPayload(stream: AcmStream) returns (error: Option<Error>)
    ensures error.None? ==>
      && ForwardsReachable(stream.operations)
      && FrameSize(stream.operations, |stream.operations|) <= MAX_PAYLOAD_HEADER_SIZE
    ensures error.Some? ==> PayloadViolated(error.value, stream.operations)
  {
    var egressPos, ingressPos := 0, 0;
    ghost var ops := stream.operations;
    for i := 0 to |stream.operations|
      invariant egressPos == FrameSize(ops, i) && ingressPos == IngressPos(ops, i)
      invariant forall k {:trigger Reachable(ops, k)} :: 0 <= k < i ==> Reachable(ops, k)
    {
      var op := stream.operations[i];
      match op.opcode {
        case INSERT | INSERT_CONSTANT | PAD =>
          egressPos := egressPos + op.length;
          ingressPos := ingressPos + op.length;
        case FORWARD =>
          if op.offset > ingressPos + MAX_TRUNC_BYTES {
            assert !Reachable(ops, i);
            return Some(EACMFWDOFFSET);
          }
          egressPos := egressPos + op.length;
          if op.offset > ingressPos {
            ingressPos := op.offset;
          }
          ingressPos := ingressPos + op.length;
        case READ | FORWARD_ALL =>
      }
    }
    if egressPos > MAX_PAYLOAD_HEADER_SIZE {
      return Some(EACMPAYLOAD);
    }
    return None;
  }

  /** The checks of a stream on its own. */
  method ValidateStreamAlone(stream: AcmStream, ties: Ties, final: bool, ghost v: StreamView)
    returns (error: Option<Error>)
    requires v == StreamView(stream.kind, stream.operations)
    ensures error.None? ==> StreamFine(v, ties, final)
    ensures error.Some? ==> StreamViolated(error.value, v, ties, final)
  {
    if final {
      if stream.kind == TimeTriggered || stream.kind == EventStream || stream.kind == RecoveryStream
        || stream.kind == RedundantTx {
        var size := CalcStreamEgressFramesize(stream);
        if size < ACM_MIN_FRAME_SIZE {
          return Some(EACMEGRESSFRAMESIZE);
        }
      }
    }
    if stream.kind == RedundantTx || stream.kind == RedundantRx {
      error := CheckTies(ties, final, v);
      if error.Some? {
        return;
      }
    }
    error := CheckStreamPayload(stream);
    if error.Some? {
      return;
    }
    var inserts := StreamNumOperationsX(stream, INSERT);
    if inserts > ACM_MAX_INSERT_OPERATIONS {
      return Some(EACMNUMINSERT);
    }
    return None;
  }

  /** Each error code names a condition that a fine stream does not meet. */
  lemma ViolatedNotFine(e: Error, v: StreamView, ties: Ties, final: bool)
    requires StreamViolated(e, v, ties, final)
    ensures !StreamFine(v, ties, final)
  {
  }

  // ---- periods ----

  function Periods(windows: seq<ScheduleEntry>): (r: seq<nat>)
    ensures |r| == |windows|
    ensures forall k {:trigger r[k]} :: 0 <= k < |r| ==> r[k] == windows[k].periodNs
  {
    if windows == [] then [] else Periods(windows[..|windows| - 1]) + [windows[|windows| - 1].periodNs]
  }

  /** The periods of a stream's schedules, and of its redundant partner's. */
  datatype Plan = Plan(periods: seq<nat>, partner: Option<seq<nat>>)

  ghost function PlanOf(s: AcmStream): Plan
    reads s`windows, s`referenceRedundant, {s.referenceRedundant}`windows
  {
    Plan(Periods(s.windows),
      if s.referenceRedundant == null then None else Some(Periods(s.referenceRedundant.windows)))
  }

  ghost function Plans(streams: seq<AcmStream>): (r: seq<Plan>)
    reads streams`windows, streams`referenceRedundant, (set s | s in streams :: s.referenceRedundant)`windows
    ensures |r| == |streams|
    ensures forall k {:trigger r[k]} :: 0 <= k < |r| ==> r[k] == PlanOf(streams[k])
  {
    if streams == [] then [] else Plans(streams[..|streams| - 1]) + [PlanOf(streams[|streams| - 1])]
  }

  predicate PeriodsDivide(periods: seq<nat>, cycleNs: nat) {
    forall k :: 0 <= k < |periods| ==> periods[k] != 0 && cycleNs % periods[k] == 0
  }

  /** The schedules of redundant partners are aligned: at most one each, as many on either
      side, and with the period of the cycle. */
  predicate Aligned(plan: Plan, cycleNs: nat) {
    plan.partner.Some? ==>
      && |plan.periods| <= 1 && |plan.periods| == |plan.partner.value|
      && (|plan.periods| == 1 ==> cycleNs == plan.periods[0] == plan.partner.value[0])
  }

  predicate PlanFine(kind: StreamType, plan: Plan, cycleNs: nat, final: bool) {
    PeriodsDivide(plan.periods, cycleNs) && (final && IsRedundant(kind) ==> Aligned(plan, cycleNs))
  }

  /** The final checks of a redundant stream; the last error found is returned. */
  method CheckAlignment(stream: AcmStream, partner: AcmStream, cycleNs: nat, before: Option<Error>)
    returns (error: Option<Error>)
    requires before.Some? ==> before.value.EINVAL? || before.value.EACMINCOMPATIBLEPERIOD?
    ensures error.None? <==>
      before.None? && Aligned(Plan(Periods(stream.windows), Some(Periods(partner.windows))), cycleNs)
    ensures error.Some? ==> error.value.EINVAL? || error.value.EACMINCOMPATIBLEPERIOD?
  {
    error := before;
    if |stream.windows| > 1 {
      error := Some(EINVAL);
    }
    if |stream.windows| != |partner.windows| {
      error := Some(EINVAL);
    } else if |stream.windows| == 1 {
      var schedule, other := stream.windows[0], partner.windows[0];
      if cycleNs != schedule.periodNs {
        error := Some(EACMINCOMPATIBLEPERIOD);
      }
      if schedule.periodNs != other.periodNs {
        error := Some(EACMINCOMPATIBLEPERIOD);
      }
    }
  }

  method StreamCheckPeriods(stream: AcmStream, cycleNs: nat, final: bool, ghost kind: StreamType, ghost plan: Plan)
    returns (error: Option<Error>)
    requires kind == stream.kind && plan == PlanOf(stream) && (final && IsRedundant(kind) ==> plan.partner.Some?)
    ensures error.None? <==> PlanFine(kind, plan, cycleNs, final)
    ensures error.Some? ==> error.value.EINVAL? || error.value.EACMINCOMPATIBLEPERIOD?
  {
    error := None;
    ghost var periods := plan.periods;
    var i := 0;
    while i < |stream.windows|
      invariant 0 <= i <= |stream.windows| && error.None?
      invariant forall k :: 0 <= k < i ==> periods[k] != 0 && cycleNs % periods[k] == 0
    {
      var schedule := stream.windows[i];
      assert periods[i] == schedule.periodNs;
      if schedule.periodNs == 0 {
        error := Some(EINVAL);
        break;
      }
      if cycleNs % schedule.periodNs != 0 {
        error := Some(EACMINCOMPATIBLEPERIOD);
        break;
      }
      i := i + 1;
    }
    if final {
      if stream.kind == RedundantTx || stream.kind == RedundantRx {
        error := CheckAlignment(stream, stream.referenceRedundant, cycleNs, error);
      }
    }
  }
}
