/** Table rows and indexes of the streams of a module: counting of commands, the
    calculate functions that assign indexes, and the row budgets of the validation. */
module Layout {
  import opened Entities
  import opened Arith
  import opened DmaProgram

  /** What the layout depends on. */
  datatype StreamView = StreamView(kind: StreamType, ops: seq<Operation>)

  function Views(streams: seq<AcmStream>): (r: seq<StreamView>)
    reads streams`kind, streams`operations
    ensures |r| == |streams|
    ensures forall k {:trigger r[k]} ::
      0 <= k < |streams| ==> r[k] == StreamView(streams[k].kind, streams[k].operations)
  {
    if streams == [] then []
    else
      var n := |streams| - 1;
      Views(streams[..n]) + [StreamView(streams[n].kind, streams[n].operations)]
  }

  // ---- rows a stream needs ----

  function CountGather(ops: seq<Operation>, k: nat): (r: nat)
    requires k <= |ops|
    ensures r <= k
  {
    if k == 0 then 0 else CountGather(ops, k - 1) + if IsGatherOp(ops[k - 1]) then 1 else 0
  }

  function GatherOps(v: StreamView): nat {
    CountGather(v.ops, |v.ops|) + if v.kind.RedundantTx? then 1 else 0
  }

  function PrefetchOps(v: StreamView): nat {
    var inserts := NumOps(v.ops, INSERT, |v.ops|);
    if inserts > 0 then inserts + NUM_PREFETCH_LOCK_COMMANDS else 1
  }

  function ScatterOps(v: StreamView): nat {
    NumOps(v.ops, READ, |v.ops|)
  }

  function RowsNeeded(v: StreamView): nat {
    if GatherOps(v) >= PrefetchOps(v) then GatherOps(v) else PrefetchOps(v)
  }

  predicate HasOp(ops: seq<Operation>, code: Opcode) {
    exists k :: 0 <= k < |ops| && ops[k].opcode == code
  }

  /** Streams without gather commands, or with nothing but a forward-all, share row 0 or 1. */
  predicate OwnRows(v: StreamView) {
    GatherOps(v) > 0 && !(GatherOps(v) == 1 && HasOp(v.ops, FORWARD_ALL))
  }

  // ---- indexes and budgets ----

  /** First free gather row after the first `k` streams. */
  function GatherBase(vs: seq<StreamView>, k: nat): (r: nat)
    requires k <= |vs|
    ensures r >= GATHER_START_IDX
  {
    if k == 0 then GATHER_START_IDX
    else GatherBase(vs, k - 1) + if OwnRows(vs[k - 1]) then RowsNeeded(vs[k - 1]) else 0
  }

  function GatherIndex(vs: seq<StreamView>, k: nat): nat
    requires k < |vs|
  {
    if GatherOps(vs[k]) == 0 then GATHER_NOP_IDX
    else if !OwnRows(vs[k]) then GATHER_FORWARD_IDX
    else GatherBase(vs, k)
  }

  /** Egress rows the validation counts for the first `k` streams. */
  function EgressRows(vs: seq<StreamView>, k: nat): nat
    requires k <= |vs|
  {
    if k == 0 then GATHER_START_IDX else EgressRows(vs, k - 1) + RowsNeeded(vs[k - 1])
  }

  function ScatterBase(vs: seq<StreamView>, k: nat): (r: nat)
    requires k <= |vs|
    ensures r >= SCATTER_START_IDX
  {
    if k == 0 then SCATTER_START_IDX
    else ScatterBase(vs, k - 1) + if IsIngress(vs[k - 1].kind) then ScatterOps(vs[k - 1]) else 0
  }

  function ScatterIndex(vs: seq<StreamView>, k: nat): nat
    requires k < |vs|
  {
    if IsIngress(vs[k].kind) && ScatterOps(vs[k]) > 0 then ScatterBase(vs, k) else SCATTER_NOP_IDX
  }

  /** Ingress rows the validation counts for the first `k` streams. */
  function IngressRows(vs: seq<StreamView>, k: nat): nat
    requires k <= |vs|
  {
    if k == 0 then SCATTER_START_IDX else IngressRows(vs, k - 1) + ScatterOps(vs[k - 1])
  }

  lemma {:induction false} GatherBaseGrows(vs: seq<StreamView>, i: nat, j: nat)
    requires i <= j <= |vs|
    ensures GatherBase(vs, i) <= GatherBase(vs, j)
    ensures GatherBase(vs, j) <= EgressRows(vs, j) <= EgressRows(vs, |vs|)
    decreases |vs| - i
  {
    EgressRowsGrow(vs, j, |vs|);
    BaseWithinBudget(vs, j);
    if i < j {
      GatherBaseGrows(vs, i + 1, j);
    }
  }

  lemma {:induction false} EgressRowsGrow(vs: seq<StreamView>, i: nat, j: nat)
    requires i <= j <= |vs|
    ensures EgressRows(vs, i) <= EgressRows(vs, j)
  {
    if i < j {
      EgressRowsGrow(vs, i, j - 1);
    }
  }

  lemma {:induction false} BaseWithinBudget(vs: seq<StreamView>, j: nat)
    requires j <= |vs|
    ensures GatherBase(vs, j) <= EgressRows(vs, j)
  {
    if j > 0 {
      BaseWithinBudget(vs, j - 1);
    }
  }

  lemma NextBase(vs: seq<StreamView>, i: nat)
    requires i < |vs| && OwnRows(vs[i])
    ensures GATHER_START_IDX <= GatherIndex(vs, i) == GatherBase(vs, i)
    ensures GatherBase(vs, i + 1) == GatherIndex(vs, i) + RowsNeeded(vs[i])
  {
  }

  lemma GatherRangeInBudget(vs: seq<StreamView>, i: nat)
    requires i < |vs| && OwnRows(vs[i])
    ensures GATHER_START_IDX <= GatherIndex(vs, i)
    ensures GatherIndex(vs, i) + RowsNeeded(vs[i]) <= EgressRows(vs, |vs|)
  {
    NextBase(vs, i);
    BaseWithinBudget(vs, i + 1);
    EgressRowsGrow(vs, i + 1, |vs|);
  }

  /** Streams with rows of their own get disjoint ranges behind the two shared rows, in
      list order, and all of them within the budget the validation checks. */
  lemma GatherRangesDisjoint(vs: seq<StreamView>, i: nat, j: nat)
    requires i < |vs| && j < |vs| && i != j && OwnRows(vs[i]) && OwnRows(vs[j])
    ensures GATHER_START_IDX <= GatherIndex(vs, i)
    ensures GatherIndex(vs, i) + RowsNeeded(vs[i]) <= EgressRows(vs, |vs|)
    ensures i < j ==> GatherIndex(vs, i) + RowsNeeded(vs[i]) <= GatherIndex(vs, j)
    ensures j < i ==> GatherIndex(vs, j) + RowsNeeded(vs[j]) <= GatherIndex(vs, i)
  {
    GatherRangeInBudget(vs, i);
    if i < j {
      NextBase(vs, i);
      GatherBaseGrows(vs, i + 1, j);
    } else {
      NextBase(vs, j);
      GatherBaseGrows(vs, j + 1, i);
    }
  }

  lemma {:induction false} ScatterBaseGrows(vs: seq<StreamView>, i: nat, j: nat)
    requires i <= j <= |vs|
    ensures ScatterBase(vs, i) <= ScatterBase(vs, j)
    ensures ScatterBase(vs, j) <= IngressRows(vs, j)
  {
    if i < j {
      ScatterBaseGrows(vs, i, j - 1);
    } else if j > 0 {
      ScatterBaseGrows(vs, j - 1, j - 1);
    }
  }

  lemma ScatterRangeInBudget(vs: seq<StreamView>, i: nat)
    requires i < |vs| && IsIngress(vs[i].kind) && ScatterOps(vs[i]) > 0
    ensures SCATTER_START_IDX <= ScatterIndex(vs, i)
    ensures ScatterIndex(vs, i) + ScatterOps(vs[i]) <= IngressRows(vs, |vs|)
  {
    ScatterBaseGrows(vs, i + 1, |vs|);
  }

  lemma ScatterRangesDisjoint(vs: seq<StreamView>, i: nat, j: nat)
    requires i < j < |vs|
    requires IsIngress(vs[i].kind) && ScatterOps(vs[i]) > 0 && IsIngress(vs[j].kind) && ScatterOps(vs[j]) > 0
    ensures ScatterIndex(vs, i) + ScatterOps(vs[i]) <= ScatterIndex(vs, j)
  {
    ScatterBaseGrows(vs, i + 1, j);
  }

  /** Indexes that were computed before a stream became a redundant sender leave it one
      row short exactly when its gather commands already filled its range; it then
      reaches into the range of the next stream with rows of its own. Only one of the two
      stream lists is recalculated when two senders are paired. */
  lemma UnrefreshedSenderOverlaps(vs: seq<StreamView>, k: nat, next: nat)
    requires k < next < |vs| && vs[k].kind.TimeTriggered? && OwnRows(vs[k]) && OwnRows(vs[next])
    requires forall j :: k < j < next ==> !OwnRows(vs[j])
    ensures GatherIndex(vs, k) + RowsNeeded(vs[k].(kind := RedundantTx)) > GatherIndex(vs, next)
      <==> GatherOps(vs[k]) >= PrefetchOps(vs[k])
  {
    SharedKeepBase(vs, k + 1, next);
  }

  /** The streams after sender `k` has become redundant. */
  function MadeRedundant(vs: seq<StreamView>, k: nat): (r: seq<StreamView>)
    requires k < |vs|
    ensures |r| == |vs|
  {
    vs[k := vs[k].(kind := RedundantTx)]
  }

  /** Rows that a sender needs more for its R-tag. */
  function RowsMore(v: StreamView): nat {
    if GatherOps(v) == 0 then PrefetchOps(v) else if GatherOps(v) >= PrefetchOps(v) then 1 else 0
  }

  lemma {:induction false} MadeRedundantBase(vs: seq<StreamView>, k: nat, j: nat)
    requires k < |vs| && vs[k].kind.TimeTriggered? && !HasOp(vs[k].ops, FORWARD_ALL) && j <= |vs|
    ensures GatherBase(MadeRedundant(vs, k), j) == GatherBase(vs, j) + if k < j then RowsMore(vs[k]) else 0
    ensures ScatterBase(MadeRedundant(vs, k), j) == ScatterBase(vs, j)
  {
    if j > 0 {
      MadeRedundantBase(vs, k, j - 1);
    }
  }

  /** The index of a stream that was computed before sender `k` became redundant is still the
      right one exactly unless it is that of the sender itself, without any operation, or the
      sender needs more rows now and the stream has rows of its own behind it. */
  lemma StaleIndexIsFresh(vs: seq<StreamView>, k: nat, i: nat)
    requires k < |vs| && vs[k].kind.TimeTriggered? && !HasOp(vs[k].ops, FORWARD_ALL) && i < |vs|
    ensures GatherIndex(MadeRedundant(vs, k), i) == GatherIndex(vs, i)
      <==> !(i == k && GatherOps(vs[k]) == 0) && !(i > k && OwnRows(vs[i]) && RowsMore(vs[k]) > 0)
    ensures RowsMore(vs[k]) > 0 <==> GatherOps(vs[k]) == 0 || GatherOps(vs[k]) >= PrefetchOps(vs[k])
    ensures ScatterIndex(MadeRedundant(vs, k), i) == ScatterIndex(vs, i)
  {
    MadeRedundantBase(vs, k, i);
  }

  lemma {:induction false} SharedKeepBase(vs: seq<StreamView>, i: nat, j: nat)
    requires i <= j < |vs| && forall l :: i <= l < j ==> !OwnRows(vs[l])
    ensures GatherBase(vs, j) == GatherBase(vs, i)
  {
    if i < j {
      SharedKeepBase(vs, i, j - 1);
    }
  }

  /** The same streams with the same operation codes: all that the layout depends on. */
  ghost predicate SameShape(vs: seq<StreamView>, ws: seq<StreamView>) {
    && |vs| == |ws|
    && forall k :: 0 <= k < |vs| ==> vs[k].kind == ws[k].kind && SameCodes(vs[k].ops, ws[k].ops)
  }

  ghost predicate SameCodes(a: seq<Operation>, b: seq<Operation>) {
    |a| == |b| && forall j :: 0 <= j < |a| ==> a[j].opcode == b[j].opcode
  }

  lemma {:induction false} SameCounts(a: seq<Operation>, b: seq<Operation>, code: Opcode, k: nat)
    requires SameCodes(a, b) && k <= |a|
    ensures NumOps(a, code, k) == NumOps(b, code, k)
    ensures CountGather(a, k) == CountGather(b, k)
  {
    if k > 0 {
      SameCounts(a, b, code, k - 1);
    }
  }

  lemma SameRows(v: StreamView, w: StreamView)
    requires v.kind == w.kind && SameCodes(v.ops, w.ops)
    ensures GatherOps(v) == GatherOps(w) && PrefetchOps(v) == PrefetchOps(w) && ScatterOps(v) == ScatterOps(w)
    ensures OwnRows(v) == OwnRows(w)
  {
    SameCounts(v.ops, w.ops, INSERT, |v.ops|);
    SameCounts(v.ops, w.ops, READ, |v.ops|);
    assert HasOp(v.ops, FORWARD_ALL) == HasOp(w.ops, FORWARD_ALL) by {
      assert forall j :: 0 <= j < |v.ops| ==> v.ops[j].opcode == w.ops[j].opcode;
    }
  }

  lemma {:induction false} SameBases(vs: seq<StreamView>, ws: seq<StreamView>, k: nat)
    requires SameShape(vs, ws) && k <= |vs|
    ensures GatherBase(vs, k) == GatherBase(ws, k) && EgressRows(vs, k) == EgressRows(ws, k)
    ensures ScatterBase(vs, k) == ScatterBase(ws, k) && IngressRows(vs, k) == IngressRows(ws, k)
  {
    if k > 0 {
      SameBases(vs, ws, k - 1);
      SameRows(vs[k - 1], ws[k - 1]);
    }
  }

  lemma SameLayout(vs: seq<StreamView>, ws: seq<StreamView>, k: nat)
    requires SameShape(vs, ws) && k <= |vs|
    ensures GatherBase(vs, k) == GatherBase(ws, k) && EgressRows(vs, k) == EgressRows(ws, k)
    ensures ScatterBase(vs, k) == ScatterBase(ws, k) && IngressRows(vs, k) == IngressRows(ws, k)
    ensures k < |vs| ==> GatherIndex(vs, k) == GatherIndex(ws, k) && ScatterIndex(vs, k) == ScatterIndex(ws, k)
  {
    SameBases(vs, ws, k);
    if k < |vs| {
      SameRows(vs[k], ws[k]);
    }
  }

  // ---- counting loops ----

  method StreamNumOperationsX(stream: AcmStream, code: Opcode) returns (n: nat)
    ensures n == NumOps(stream.operations, code, |stream.operations|)
  {
    n := 0;
    for i := 0 to |stream.operations|
      invariant n == NumOps(stream.operations, code, i)
    {
      if stream.operations[i].opcode == code {
        n := n + 1;
      }
    }
  }

  method StreamHasOperationX(stream: AcmStream, code: Opcode) returns (b: bool)
    ensures b <==> HasOp(stream.operations, code)
  {
    for i := 0 to |stream.operations|
      invariant forall k :: 0 <= k < i ==> stream.operations[k].opcode != code
    {
      if stream.operations[i].opcode == code {
        return true;
      }
    }
    return false;
  }

  method StreamNumGatherOps(stream: AcmStream) returns (n: nat)
    ensures n == GatherOps(StreamView(stream.kind, stream.operations))
  {
    n := 0;
    for i := 0 to |stream.operations|
      invariant n == CountGather(stream.operations, i)
    {
      var op := stream.operations[i];
      if op.opcode == INSERT || op.opcode == INSERT_CONSTANT || op.opcode == PAD || op.opcode == FORWARD
        || op.opcode == FORWARD_ALL {
        n := n + 1;
      }
    }
    if stream.kind == RedundantTx {
      n := n + 1;
    }
  }

  method StreamNumPrefetchOps(stream: AcmStream) returns (n: nat)
    ensures n == PrefetchOps(StreamView(stream.kind, stream.operations))
  {
    n := StreamNumOperationsX(stream, INSERT);
    if n > 0 {
      n := n + NUM_PREFETCH_LOCK_COMMANDS;
    } else {
      n := n + 1;
    }
  }

  method StreamNumScatterOps(stream: AcmStream) returns (n: nat)
    ensures n == ScatterOps(StreamView(stream.kind, stream.operations))
  {
    n := 0;
    for i := 0 to |stream.operations|
      invariant n == NumOps(stream.operations, READ, i)
    {
      if stream.operations[i].opcode == READ {
        n := n + 1;
      }
    }
  }

  // ---- the calculate functions ----

  /** Index of stream `k` when `base` is the first free row, and the next free row. */
  method PlaceGather(stream: AcmStream, base: nat, ghost vs: seq<StreamView>, ghost k: nat)
    returns (index: nat, next: nat)
    requires k < |vs| && vs[k] == StreamView(stream.kind, stream.operations)
    requires base == GatherBase(vs, k) && base + RowsNeeded(vs[k]) < U16_LIMIT
    ensures index == GatherIndex(vs, k) && next == GatherBase(vs, k + 1)
  {
    next := base;
    var numOps := StreamNumGatherOps(stream);
    var numPrefetchCommands := StreamNumPrefetchOps(stream);
    if numOps == 0 {
      index := GATHER_NOP_IDX;
    } else {
      var forwardAll := StreamHasOperationX(stream, FORWARD_ALL);
      if numOps == 1 && forwardAll {
        index := GATHER_FORWARD_IDX;
      } else {
        index := base;
        if numOps >= numPrefetchCommands {
          next := U16(base + numOps);
        } else {
          next := U16(base + numPrefetchCommands);
        }
      }
    }
  }

  method CalculateGatherIndizes(streams: seq<AcmStream>)
    requires Distinct(streams)
    requires EgressRows(Views(streams), |streams|) < U16_LIMIT
    modifies streams`gatherDmaIndex
    ensures forall k :: 0 <= k < |streams| ==> streams[k].gatherDmaIndex == GatherIndex(old(Views(streams)), k)
  {
    ghost var vs := Views(streams);
    var gatherDmaIndex := GATHER_START_IDX;
    var i := 0;
    while i < |streams|
      invariant 0 <= i <= |streams|
      invariant gatherDmaIndex == GatherBase(vs, i)
      invariant forall k {:trigger GatherIndex(vs, k)} :: 0 <= k < i ==> streams[k].gatherDmaIndex == GatherIndex(vs, k)
    {
      assert vs[i] == StreamView(streams[i].kind, streams[i].operations);
      GatherStepFits(vs, i);
      var index;
      index, gatherDmaIndex := PlaceGather(streams[i], gatherDmaIndex, vs, i);
      assert forall k :: 0 <= k < i ==> streams[k] != streams[i];
      streams[i].gatherDmaIndex := index;
      i := i + 1;
    }
  }

  lemma GatherStepFits(vs: seq<StreamView>, i: nat)
    requires i < |vs|
    ensures GatherBase(vs, i) + RowsNeeded(vs[i]) <= EgressRows(vs, |vs|)
  {
    BaseWithinBudget(vs, i);
    EgressRowsGrow(vs, i + 1, |vs|);
  }

  lemma {:induction false} IngressRowsGrow(vs: seq<StreamView>, i: nat, j: nat)
    requires i <= j <= |vs|
    ensures IngressRows(vs, i) <= IngressRows(vs, j)
  {
    if i < j {
      IngressRowsGrow(vs, i, j - 1);
    }
  }

  /** Index of stream `k` when `base` is the first free row, and the next free row. */
  method PlaceScatter(stream: AcmStream, base: nat, ghost vs: seq<StreamView>, ghost k: nat)
    returns (index: nat, next: nat)
    requires k < |vs| && vs[k] == StreamView(stream.kind, stream.operations)
    requires base == ScatterBase(vs, k) && base + ScatterOps(vs[k]) < U16_LIMIT
    ensures index == ScatterIndex(vs, k) && next == ScatterBase(vs, k + 1)
  {
    next := base;
    if stream.kind == IngressTriggered || stream.kind == RedundantRx {
      var numOps := StreamNumScatterOps(stream);
      if numOps == 0 {
        index := SCATTER_NOP_IDX;
      } else {
        index := base;
        next := U16(base + numOps);
      }
    } else {
      index := SCATTER_NOP_IDX;
    }
  }

  method CalculateScatterIndizes(streams: seq<AcmStream>)
    requires Distinct(streams)
    requires IngressRows(Views(streams), |streams|) < U16_LIMIT
    modifies streams`scatterDmaIndex
    ensures forall k :: 0 <= k < |streams| ==> streams[k].scatterDmaIndex == ScatterIndex(old(Views(streams)), k)
  {
    ghost var vs := Views(streams);
    var scatterDmaIndex := SCATTER_START_IDX;
    var i := 0;
    while i < |streams|
      invariant 0 <= i <= |streams|
      invariant scatterDmaIndex == ScatterBase(vs, i)
      invariant forall k {:trigger ScatterIndex(vs, k)} ::
        0 <= k < i ==> streams[k].scatterDmaIndex == ScatterIndex(vs, k)
    {
      assert vs[i] == StreamView(streams[i].kind, streams[i].operations);
      ScatterStepFits(vs, i);
      var index;
      index, scatterDmaIndex := PlaceScatter(streams[i], scatterDmaIndex, vs, i);
      assert forall k :: 0 <= k < i ==> streams[k] != streams[i];
      streams[i].scatterDmaIndex := index;
      i := i + 1;
    }
  }

  /** The indexes of the streams are those of the views `vs`. */
  ghost predicate IndexesCurrent(streams: seq<AcmStream>, vs: seq<StreamView>)
    reads streams`kind, streams`gatherDmaIndex, streams`scatterDmaIndex
  {
    && |vs| == |streams|
    && forall k {:trigger GatherIndex(vs, k)} :: 0 <= k < |streams| ==>
         && vs[k].kind == streams[k].kind
         && streams[k].gatherDmaIndex == GatherIndex(vs, k) && streams[k].scatterDmaIndex == ScatterIndex(vs, k)
  }

  lemma ScatterStepFits(vs: seq<StreamView>, i: nat)
    requires i < |vs|
    ensures ScatterBase(vs, i) + ScatterOps(vs[i]) <= IngressRows(vs, |vs|)
  {
    ScatterBaseGrows(vs, i, i);
    IngressRowsGrow(vs, i + 1, |vs|);
  }

  // ---- lookup indexes ----

  /** Number of receivers, each of which needs a lookup entry, among the first `k` streams. */
  function Lookups(vs: seq<StreamView>, k: nat): (r: nat)
    requires k <= |vs|
    ensures r <= k
  {
    if k == 0 then 0 else Lookups(vs, k - 1) + if IsIngress(vs[k - 1].kind) then 1 else 0
  }

  /** The lookup entry of receiver `k`. */
  function LookupIndex(vs: seq<StreamView>, k: nat): nat
    requires k < |vs|
  {
    if IsIngress(vs[k].kind) then Lookups(vs, k) else 0
  }

  lemma {:induction false} LookupsGrow(vs: seq<StreamView>, i: nat, j: nat)
    requires i <= j <= |vs|
    ensures Lookups(vs, i) <= Lookups(vs, j)
    ensures i < j && IsIngress(vs[i].kind) ==> Lookups(vs, i) < Lookups(vs, j)
  {
    if i < j {
      LookupsGrow(vs, i, j - 1);
    }
  }

  /** Receivers have different entries, numbered from zero without a gap. */
  lemma LookupOrder(vs: seq<StreamView>, i: nat, j: nat)
    requires i < |vs| && j < |vs| && IsIngress(vs[i].kind) && IsIngress(vs[j].kind)
    ensures LookupIndex(vs, i) < Lookups(vs, |vs|)
    ensures i < j <==> LookupIndex(vs, i) < LookupIndex(vs, j)
  {
    LookupsGrow(vs, i, |vs|);
    if i < j {
      LookupsGrow(vs, i, j);
    } else {
      LookupsGrow(vs, j, i);
    }
  }

  /** Entry of stream `k` when `free` is the first free one, and the next free one. */
  method PlaceLookup(stream: AcmStream, free: nat, ghost vs: seq<StreamView>, ghost k: nat)
    returns (index: nat, next: nat)
    requires k < |vs| && vs[k].kind == stream.kind && free == Lookups(vs, k) && Lookups(vs, k + 1) < U8_LIMIT
    ensures index == LookupIndex(vs, k) && next == Lookups(vs, k + 1)
  {
    if stream.kind == IngressTriggered || stream.kind == RedundantRx {
      U8Fits(free + 1);
      return free, U8(free + 1);
    }
    return 0, free;
  }

  /** calculate_lookup_indizes: entries for the receivers, in list order. */
  method CalculateLookupIndizes(streams: seq<AcmStream>)
    requires Distinct(streams)
    requires Lookups(Views(streams), |streams|) < U8_LIMIT
    modifies streams`lookupIndex
    ensures forall k {:trigger streams[k]} :: 0 <= k < |streams| ==>
      streams[k].lookupIndex == LookupIndex(old(Views(streams)), k)
  {
    ghost var vs := Views(streams);
    var lookupIndex := 0;
    var i := 0;
    while i < |streams|
      invariant 0 <= i <= |streams|
      invariant lookupIndex == Lookups(vs, i)
      invariant forall k {:trigger streams[k]} :: 0 <= k < i ==> streams[k].lookupIndex == LookupIndex(vs, k)
    {
      var index;
      LookupsGrow(vs, i + 1, |vs|);
      index, lookupIndex := PlaceLookup(streams[i], lookupIndex, vs, i);
      assert forall k :: 0 <= k < i ==> streams[k] != streams[i];
      streams[i].lookupIndex := index;
      i := i + 1;
    }
  }

  // ---- redundancy indexes ----

  /** Number of redundant streams among the first `k`. */
  function Redundants(vs: seq<StreamView>, k: nat): (r: nat)
    requires k <= |vs|
    ensures r <= k
  {
    if k == 0 then 0 else Redundants(vs, k - 1) + if IsRedundant(vs[k - 1].kind) then 1 else 0
  }

  /** The index that calculate_redundancy_indizes gives to stream `k`. */
  function RankIndex(vs: seq<StreamView>, k: nat): nat
    requires k < |vs|
  {
    if IsRedundant(vs[k].kind) then REDUNDANCY_START_IDX + Redundants(vs, k) else 0
  }

  lemma {:induction false} RedundantsGrow(vs: seq<StreamView>, i: nat, j: nat)
    requires i <= j <= |vs|
    ensures Redundants(vs, i) <= Redundants(vs, j)
    ensures i < j && IsRedundant(vs[i].kind) ==> Redundants(vs, i) < Redundants(vs, j)
  {
    if i < j {
      RedundantsGrow(vs, i, j - 1);
    }
  }

  /** A redundant stream and a redundant stream of the other list refer to each other. */
  ghost predicate Partnered(s: AcmStream, b: seq<AcmStream>)
    reads s`kind, s`referenceRedundant, b`kind, b`referenceRedundant
  {
    IsRedundant(s.kind) ==>
      && s.referenceRedundant in b
      && IsRedundant(s.referenceRedundant.kind)
      && s.referenceRedundant.referenceRedundant == s
  }

  /** The redundant streams of the two modules refer to each other one to one. */
  ghost predicate Paired(a: seq<AcmStream>, b: seq<AcmStream>)
    reads a`kind, a`referenceRedundant, b`kind, b`referenceRedundant
  {
    && Distinct(a) && Distinct(b)
    && (forall i :: 0 <= i < |a| ==> a[i] !in b && Partnered(a[i], b))
    && (forall i :: 0 <= i < |b| ==> b[i] !in a && Partnered(b[i], a))
  }

  /** Partners share their index, the redundant streams of the list have different ones,
      and all of them are in 1..limit. */
  ghost predicate IndexesAgree(a: seq<AcmStream>, limit: nat)
    reads a, set s | s in a :: s.referenceRedundant
  {
    && (forall i :: 0 <= i < |a| && IsRedundant(a[i].kind) ==>
      && a[i].referenceRedundant != null
      && a[i].redundandIndex == a[i].referenceRedundant.redundandIndex
      && REDUNDANCY_START_IDX <= a[i].redundandIndex <= limit)
    && (forall i, j :: 0 <= i < j < |a| && IsRedundant(a[i].kind) && IsRedundant(a[j].kind) ==>
      a[i].redundandIndex != a[j].redundandIndex)
  }

  /** The partner of each stream of `a`; a stream that is not redundant stands for itself. */
  ghost predicate IsPartnerList(q: seq<AcmStream>, a: seq<AcmStream>)
    reads a`kind, a`referenceRedundant
  {
    && |q| == |a|
    && forall k :: 0 <= k < |a| ==> q[k] == if IsRedundant(a[k].kind) then a[k].referenceRedundant else a[k]
  }

  ghost predicate NoneShared(a: seq<AcmStream>, q: seq<AcmStream>)
    requires |a| == |q|
  {
    forall k, l :: 0 <= k < |a| && 0 <= l < |a| && k != l ==> a[k] != a[l] && q[k] != q[l] && a[k] != q[l]
  }

  lemma PartnersApart(a: seq<AcmStream>, b: seq<AcmStream>) returns (q: seq<AcmStream>)
    requires Paired(a, b)
    ensures IsPartnerList(q, a) && NoneShared(a, q)
    ensures forall k :: 0 <= k < |q| ==> q[k] in a || q[k] in b
  {
    q := [];
    while |q| < |a|
      invariant |q| <= |a|
      invariant forall k :: 0 <= k < |q| ==>
        (q[k] in a || q[k] in b) && q[k] == if IsRedundant(a[k].kind) then a[k].referenceRedundant else a[k]
    {
      assert Partnered(a[|q|], b);
      q := q + [if IsRedundant(a[|q|].kind) then a[|q|].referenceRedundant else a[|q|]];
    }
    forall k, l | 0 <= k < |a| && 0 <= l < |a| && k != l ensures a[k] != a[l] && q[k] != q[l] && a[k] != q[l] {
      assert Partnered(a[k], b) && Partnered(a[l], b);
    }
  }

  /** One pass: a redundant stream and its partner get the index, any other stream none. */
  method AssignIndex(s: AcmStream, ghost partner: AcmStream, redundIndex: nat) returns (next: nat)
    requires partner == (if IsRedundant(s.kind) then s.referenceRedundant else s)
    requires IsRedundant(s.kind) ==> redundIndex < U8_LIMIT - 1
    modifies s`redundandIndex, partner`redundandIndex
    ensures s.redundandIndex == partner.redundandIndex == if IsRedundant(s.kind) then redundIndex else 0
    ensures next == if IsRedundant(s.kind) then redundIndex + 1 else redundIndex
  {
    next := redundIndex;
    if s.kind == RedundantTx || s.kind == RedundantRx {
      s.redundandIndex := redundIndex;
      s.referenceRedundant.redundandIndex := redundIndex;
      next := U8(redundIndex + 1);
    } else {
      s.redundandIndex := 0;
    }
  }

  /** The first `n` streams and their partners have the index of their rank. */
  ghost predicate Ranked(a: seq<AcmStream>, q: seq<AcmStream>, vs: seq<StreamView>, n: nat)
    requires n <= |a| == |q| == |vs|
    reads a`redundandIndex, q`redundandIndex
  {
    forall k {:trigger RankIndex(vs, k)} :: 0 <= k < n ==>
      a[k].redundandIndex == RankIndex(vs, k) && q[k].redundandIndex == RankIndex(vs, k)
  }

  /** Stream `k` does not share with the others. */
  lemma OthersKeepIndex(a: seq<AcmStream>, q: seq<AcmStream>, i: nat)
    requires |a| == |q| && NoneShared(a, q) && i < |a|
    ensures forall k {:trigger a[k]} {:trigger q[k]} :: 0 <= k < |a| && k != i ==>
      a[k] != a[i] && a[k] != q[i] && q[k] != a[i] && q[k] != q[i]
  {
  }

  /** The same pass, seen from the whole list; `q` are the partners of the streams. */
  method AssignNext(a: seq<AcmStream>, i: nat, redundIndex: nat, ghost q: seq<AcmStream>, ghost vs: seq<StreamView>)
    returns (next: nat)
    requires i < |vs| == |a| && vs[i].kind == a[i].kind && IsPartnerList(q, a) && NoneShared(a, q)
    requires redundIndex == REDUNDANCY_START_IDX + Redundants(vs, i) && Redundants(vs, i + 1) < U8_LIMIT - 1
    requires Ranked(a, q, vs, i)
    modifies {a[i], q[i]}`redundandIndex
    ensures Ranked(a, q, vs, i + 1)
    ensures next == REDUNDANCY_START_IDX + Redundants(vs, i + 1)
  {
    OthersKeepIndex(a, q, i);
    next := AssignIndex(a[i], q[i], redundIndex);
  }

  /** The loop of calculate_redundancy_indizes. */
  method AssignRedundancyIndizes(a: seq<AcmStream>, ghost q: seq<AcmStream>, ghost vs: seq<StreamView>)
    requires |vs| == |a| && forall k {:trigger vs[k]} :: 0 <= k < |a| ==> vs[k].kind == a[k].kind
    requires Redundants(vs, |a|) < U8_LIMIT - 1
    requires IsPartnerList(q, a) && NoneShared(a, q)
    modifies a`redundandIndex, q`redundandIndex
    ensures Ranked(a, q, vs, |a|) && IsPartnerList(q, a)
  {
    var redundIndex := REDUNDANCY_START_IDX;
    var i := 0;
    while i < |a|
      invariant 0 <= i <= |a|
      invariant redundIndex == REDUNDANCY_START_IDX + Redundants(vs, i)
      invariant Ranked(a, q, vs, i)
    {
      RedundantsGrow(vs, i + 1, |a|);
      redundIndex := AssignNext(a, i, redundIndex, q, vs);
      i := i + 1;
    }
  }

  lemma RankOrder(vs: seq<StreamView>, i: nat, j: nat)
    requires i < |vs| && j < |vs| && IsRedundant(vs[i].kind) && IsRedundant(vs[j].kind)
    ensures REDUNDANCY_START_IDX <= RankIndex(vs, i) <= Redundants(vs, |vs|)
    ensures i != j ==> RankIndex(vs, i) != RankIndex(vs, j)
  {
    RedundantsGrow(vs, i, |vs|);
    if i < j {
      RedundantsGrow(vs, i, j);
    } else {
      RedundantsGrow(vs, j, i);
    }
  }

  /** Assigning by rank in one list gives both lists agreeing indexes. */
  lemma RanksAgree(a: seq<AcmStream>, b: seq<AcmStream>, q: seq<AcmStream>, vs: seq<StreamView>)
    requires Paired(a, b) && IsPartnerList(q, a)
    requires |vs| == |a| && forall k {:trigger vs[k]} :: 0 <= k < |a| ==> vs[k].kind == a[k].kind
    requires Ranked(a, q, vs, |a|)
    ensures IndexesAgree(a, Redundants(vs, |a|))
    ensures IndexesAgree(b, Redundants(vs, |a|))
  {
    forall i, j | 0 <= i < |a| && 0 <= j < |a| && IsRedundant(a[i].kind) && IsRedundant(a[j].kind)
      ensures REDUNDANCY_START_IDX <= a[i].redundandIndex <= Redundants(vs, |a|)
      ensures a[i].referenceRedundant == q[i] && q[i].redundandIndex == a[i].redundandIndex
      ensures i != j ==> a[i].redundandIndex != a[j].redundandIndex
    {
      RankOrder(vs, i, j);
    }
    forall j | 0 <= j < |b| && IsRedundant(b[j].kind)
      ensures b[j].redundandIndex == b[j].referenceRedundant.redundandIndex
      ensures REDUNDANCY_START_IDX <= b[j].redundandIndex <= Redundants(vs, |a|)
    {
      assert Partnered(b[j], a);
      var i :| 0 <= i < |a| && a[i] == b[j].referenceRedundant;
      assert q[i] == b[j];
    }
    forall i, j | 0 <= i < j < |b| && IsRedundant(b[i].kind) && IsRedundant(b[j].kind)
      ensures b[i].redundandIndex != b[j].redundandIndex
    {
      assert Partnered(b[i], a) && Partnered(b[j], a);
      var i', j' :|
        0 <= i' < |a| && 0 <= j' < |a| && a[i'] == b[i].referenceRedundant && a[j'] == b[j].referenceRedundant;
      assert i' != j' && q[i'] == b[i] && q[j'] == b[j];
      RankOrder(vs, i', j');
    }
  }

  /** Recalculation of either list leaves the indexes of both lists in agreement. */
  method CalculateRedundancyIndizes(a: seq<AcmStream>, ghost b: seq<AcmStream>)
    requires Paired(a, b) && Redundants(Views(a), |a|) < U8_LIMIT - 1
    modifies a`redundandIndex, b`redundandIndex
    ensures IndexesAgree(a, Redundants(old(Views(a)), |a|))
    ensures IndexesAgree(b, Redundants(old(Views(a)), |a|))
    ensures forall k {:trigger a[k]} :: 0 <= k < |a| ==> a[k].redundandIndex == RankIndex(old(Views(a)), k)
  {
    ghost var vs := Views(a);
    ghost var q := PartnersApart(a, b);
    AssignRedundancyIndizes(a, q, vs);
    assert Paired(a, b);
    RanksAgree(a, b, q, vs);
  }
}
