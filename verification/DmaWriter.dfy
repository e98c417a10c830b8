/** The functions that write the DMA tables and the constant buffer of a module. */
module DmaWriter {
  import opened Entities
  import opened DmaProgram
  import opened Layout
  import opened DmaTables

  // ---- one sending stream ----

  /** The lock vector and the position of the last INSERT, -1 if there is none. */
  method FindInserts(stream: AcmStream) returns (lastInsert: int, lockVector: set<nat>)
    requires OpsComplete(stream.operations)
    ensures lockVector == LockVector(stream.operations, |stream.operations|)
    ensures -1 <= lastInsert < |stream.operations|
    ensures lastInsert >= 0 ==> stream.operations[lastInsert].opcode.INSERT?
    ensures NoInsertFrom(stream.operations, lastInsert + 1)
  {
    lastInsert, lockVector := -1, {};
    for i := 0 to |stream.operations|
      invariant lockVector == LockVector(stream.operations, i)
      invariant -1 <= lastInsert < i
      invariant lastInsert >= 0 ==> stream.operations[lastInsert].opcode.INSERT?
      invariant forall j :: lastInsert < j < i ==> !stream.operations[j].opcode.INSERT?
    {
      var op := stream.operations[i];
      if op.opcode == INSERT {
        lastInsert := i;
        lockVector := lockVector + {op.msgBuf.index};
      }
    }
  }

  lemma {:induction false} LockVectorCounts(ops: seq<Operation>, k: nat)
    requires k <= |ops| && OpsComplete(ops)
    ensures LockVector(ops, k) == {} <==> NumOps(ops, INSERT, k) == 0
  {
    if k > 0 {
      LockVectorCounts(ops, k - 1);
    }
  }

  /** The lock command of one group of 16 buffers, unless none of them is to be locked. */
  method WriteLockRow(hw: BypassHw, start: nat, prefetchIndex: nat, vector: set<nat>, dual: bool, i: nat,
                      ghost prefetch: seq<PrefetchCmd>)
    returns (next: nat)
    requires prefetchIndex == start + |LockRows(vector, dual, i)|
    requires start + |LockRows(vector, dual, i + 1)| <= |prefetch|
    requires prefetchIndex <= |prefetch| && hw.prefetch == Put(prefetch, start, LockRows(vector, dual, i))
    modifies hw`prefetch
    ensures next == start + |LockRows(vector, dual, i + 1)|
    ensures hw.prefetch == Put(prefetch, start, LockRows(vector, dual, i + 1))
  {
    next := prefetchIndex;
    var bits := set b | b in vector && 16 * i <= b < 16 * i + 16 :: b - 16 * i;
    assert bits == GroupBits(vector, i);
    if bits == {} {
      assert LockRows(vector, dual, i + 1) == LockRows(vector, dual, i);
    } else {
      PutNext(prefetch, start, LockRows(vector, dual, i), LockBuffers(i, dual, bits));
      hw.prefetch := hw.prefetch[prefetchIndex := LockBuffers(i, dual, bits)];
      next := prefetchIndex + 1;
    }
  }

  /** The lock commands, or a NOP when nothing is to be locked. */
  method WriteLockCommands(hw: BypassHw, start: nat, vector: set<nat>, dual: bool) returns (prefetchIndex: nat)
    requires start + (if vector == {} then 1 else |LockRows(vector, dual, NUM_PREFETCH_LOCK_COMMANDS)|) <= |hw.prefetch|
    modifies hw`prefetch
    ensures hw.prefetch == Put(old(hw.prefetch), start,
      if vector == {} then [PrefetchNop] else LockRows(vector, dual, NUM_PREFETCH_LOCK_COMMANDS))
    ensures prefetchIndex == start + if vector == {} then 0 else |LockRows(vector, dual, NUM_PREFETCH_LOCK_COMMANDS)|
  {
    prefetchIndex := start;
    if vector != {} {
      PutNothing(hw.prefetch, start);
      ghost var prefetch := hw.prefetch;
      var i := 0;
      while i < NUM_PREFETCH_LOCK_COMMANDS
        invariant 0 <= i <= NUM_PREFETCH_LOCK_COMMANDS
        invariant prefetchIndex == start + |LockRows(vector, dual, i)| <= |prefetch|
        invariant hw.prefetch == Put(prefetch, start, LockRows(vector, dual, i))
      {
        LockRowsGrow(vector, dual, i + 1, NUM_PREFETCH_LOCK_COMMANDS);
        prefetchIndex := WriteLockRow(hw, start, prefetchIndex, vector, dual, i, prefetch);
        i := i + 1;
      }
    } else {
      PutNothing(hw.prefetch, start);
      PutNext(hw.prefetch, start, [], PrefetchNop);
      assert [] + [PrefetchNop] == [PrefetchNop];
      hw.prefetch := hw.prefetch[prefetchIndex := PrefetchNop];
    }
  }

  lemma {:induction false} LockRowsGrow(vector: set<nat>, dual: bool, i: nat, n: nat)
    requires i <= n
    ensures |LockRows(vector, dual, i)| <= |LockRows(vector, dual, n)|
  {
    if i < n {
      LockRowsGrow(vector, dual, i, n - 1);
    }
  }

  lemma LastInsertPosition(ops: seq<Operation>, k: nat, lastInsert: int)
    requires k < |ops| && ops[k].opcode.INSERT? && -1 <= lastInsert < |ops|
    requires lastInsert >= 0 ==> ops[lastInsert].opcode.INSERT?
    requires NoInsertFrom(ops, lastInsert + 1)
    ensures NoInsertFrom(ops, k + 1) <==> k == lastInsert
  {
  }

  /** Position of the last INSERT, -1 if there is none. */
  ghost predicate IsLastInsert(ops: seq<Operation>, lastInsert: int) {
    && -1 <= lastInsert < |ops| && (lastInsert >= 0 ==> ops[lastInsert].opcode.INSERT?)
    && NoInsertFrom(ops, lastInsert + 1)
  }

  /** Prefetch command of operation `k`, if it is an INSERT. `front` are the rows before
      the first message. */
  method WriteMoveRow(hw: BypassHw, stream: AcmStream, start: nat, prefetchIndex: nat, k: nat, lastInsert: int,
                      ghost ops: seq<Operation>, ghost prefetch: seq<PrefetchCmd>, ghost front: seq<PrefetchCmd>)
    returns (next: nat)
    requires ops == stream.operations && OpsComplete(ops) && k < |ops| && IsLastInsert(ops, lastInsert)
    requires start + |front| + |MoveRows(ops, |ops|)| <= |prefetch|
    requires start + |front| + |MoveRows(ops, k)| <= |prefetch|
    requires ops[k].opcode.INSERT? ==> prefetchIndex == start + |front| + |MoveRows(ops, k)|
    requires hw.prefetch == Put(prefetch, start, front + MoveRows(ops, k))
    modifies hw`prefetch
    ensures next == prefetchIndex + if ops[k].opcode.INSERT? then 1 else 0
    ensures start + |front| + |MoveRows(ops, k + 1)| <= |prefetch|
    ensures hw.prefetch == Put(prefetch, start, front + MoveRows(ops, k + 1))
  {
    var op := stream.operations[k];
    next := prefetchIndex;
    ghost var rows := front + MoveRows(ops, k);
    NoInsertCount(ops, k + 1);
    if op.opcode == INSERT {
      LastInsertPosition(ops, k, lastInsert);
      var cmd := MoveBuffer(k == lastInsert, op.length, MsgbufId(op.msgBuf.index));
      assert front + MoveRows(ops, k + 1) == rows + [cmd];
      PutNext(prefetch, start, rows, cmd);
      hw.prefetch := hw.prefetch[prefetchIndex := cmd];
      next := prefetchIndex + 1;
    } else {
      assert MoveRows(ops, k + 1) == MoveRows(ops, k);
    }
  }

  /** The command of an operation that builds a part of a frame. */
  method GatherCommand(op: Operation, lastItem: bool) returns (cmd: GatherCmd)
    requires OpComplete(op) && IsFrameOp(op)
    ensures cmd == GatherRow(op, lastItem)
  {
    match op.opcode {
      case INSERT_CONSTANT => cmd := ConstBuff(lastItem, op.length, op.constBuffOffset);
      case PAD => cmd := ConstByte(lastItem, op.length, op.data[0]);
      case FORWARD => cmd := FrameBuff(lastItem, op.length, op.offset);
      case INSERT => cmd := PrefetchData(lastItem);
    }
  }

  /** Gather command of operation `k`, with the R-tag behind the third operation of a
      redundant sender. */
  method WriteGatherRow(hw: BypassHw, stream: AcmStream, start: nat, gatherIndex: nat, k: nat, ghost v: StreamView,
                        ghost gather: seq<GatherCmd>)
    returns (next: nat)
    requires v == StreamView(stream.kind, stream.operations)
    requires OpsComplete(v.ops) && k < |v.ops| && IsFrameOp(v.ops[k])
    requires start + |GatherProgram(v.kind.RedundantTx?, v.ops)| <= |gather|
    requires gatherIndex == start + |GatherRows(v.kind.RedundantTx?, v.ops, k)|
    requires hw.gather == Put(gather, start, GatherRows(v.kind.RedundantTx?, v.ops, k))
    modifies hw`gather
    ensures next == start + |GatherRows(v.kind.RedundantTx?, v.ops, k + 1)| <= |gather|
    ensures hw.gather == Put(gather, start, GatherRows(v.kind.RedundantTx?, v.ops, k + 1))
  {
    var lastItem := k + 1 == |stream.operations|;
    if lastItem && stream.kind == RedundantTx && gatherIndex - start == NUM_AUTOGEN_OPS - 1 {
      // the R-tag follows
      lastItem := false;
    }
    ghost var rows := GatherRows(v.kind.RedundantTx?, v.ops, k);
    assert v.ops[k] == stream.operations[k];
    var cmd := GatherCommand(stream.operations[k], lastItem);
    PutNext(gather, start, rows, cmd);
    hw.gather := hw.gather[gatherIndex := cmd];
    next := gatherIndex + 1;
    if stream.kind == RedundantTx && next - start == NUM_AUTOGEN_OPS {
      PutNext(gather, start, rows + [cmd], RTag);
      hw.gather := hw.gather[next := RTag];
      next := next + 1;
    } else {
      assert rows + [cmd] + [] == rows + [cmd];
    }
  }

  /** One pass of the loop. */
  method WriteOperation(hw: BypassHw, start: nat, stream: AcmStream, gatherIndex: nat, prefetchIndex: nat, k: nat,
                        lastInsert: int, ghost v: StreamView, ghost gather: seq<GatherCmd>,
                        ghost prefetch: seq<PrefetchCmd>, ghost front: seq<PrefetchCmd>)
    returns (ok: bool, gatherIndex': nat, prefetchIndex': nat)
    requires v == StreamView(stream.kind, stream.operations) && OpsComplete(v.ops) && IsLastInsert(v.ops, lastInsert)
    requires k < |v.ops| && start + |GatherProgram(v.kind.RedundantTx?, v.ops)| <= |gather|
    requires start + |front| + |MoveRows(v.ops, |v.ops|)| <= |prefetch|
    requires start + |front| + |MoveRows(v.ops, k)| <= |prefetch|
    requires forall j {:trigger IsFrameOp(v.ops[j])} :: 0 <= j < k ==> IsFrameOp(v.ops[j])
    requires gatherIndex == start + |GatherRows(v.kind.RedundantTx?, v.ops, k)| <= |gather|
    requires v.ops[k].opcode.INSERT? ==> prefetchIndex == start + |front| + |MoveRows(v.ops, k)|
    requires hw.gather == Put(gather, start, GatherRows(v.kind.RedundantTx?, v.ops, k))
    requires hw.prefetch == Put(prefetch, start, front + MoveRows(v.ops, k))
    modifies hw`gather, hw`prefetch
    ensures ok <==> IsFrameOp(v.ops[k])
    ensures prefetchIndex' == prefetchIndex + if v.ops[k].opcode.INSERT? then 1 else 0
    ensures ok ==> gatherIndex' == start + |GatherRows(v.kind.RedundantTx?, v.ops, k + 1)| <= |gather|
    ensures ok ==> start + |front| + |MoveRows(v.ops, k + 1)| <= |prefetch|
    ensures ok ==> hw.gather == Put(gather, start, GatherRows(v.kind.RedundantTx?, v.ops, k + 1))
    ensures ok ==> hw.prefetch == Put(prefetch, start, front + MoveRows(v.ops, k + 1))
  {
    ok, gatherIndex', prefetchIndex' := true, gatherIndex, prefetchIndex;
    var op := stream.operations[k];
    if op.opcode == READ || op.opcode == FORWARD_ALL {
      ok := false;
    } else {
      prefetchIndex' := WriteMoveRow(hw, stream, start, prefetchIndex, k, lastInsert, v.ops, prefetch, front);
      gatherIndex' := WriteGatherRow(hw, stream, start, gatherIndex, k, v, gather);
    }
  }

  /** The operation loop behind the lock commands. */
  method WriteOperations(hw: BypassHw, start: nat, stream: AcmStream, firstMove: nat, lastInsert: int,
                         ghost v: StreamView, ghost gather: seq<GatherCmd>, ghost prefetch: seq<PrefetchCmd>,
                         ghost front: seq<PrefetchCmd>)
    returns (ok: bool)
    requires v == StreamView(stream.kind, stream.operations) && OpsComplete(v.ops) && IsLastInsert(v.ops, lastInsert)
    requires start + |GatherProgram(v.kind.RedundantTx?, v.ops)| <= |gather|
    requires start + |front| + |MoveRows(v.ops, |v.ops|)| <= |prefetch|
    requires lastInsert >= 0 ==> firstMove == start + |front|
    requires hw.gather == gather && hw.prefetch == Put(prefetch, start, front)
    modifies hw`gather, hw`prefetch
    ensures ok <==> FrameOps(v.ops)
    ensures ok ==> hw.gather == Put(gather, start, GatherProgram(v.kind.RedundantTx?, v.ops))
    ensures ok ==> hw.prefetch == Put(prefetch, start, front + MoveRows(v.ops, |v.ops|))
  {
    var gatherIndex, prefetchIndex := start, firstMove;
    PutNothing(gather, start);
    assert front + [] == front;
    var k := 0;
    while k < |stream.operations|
      invariant 0 <= k <= |v.ops|
      invariant forall j {:trigger IsFrameOp(v.ops[j])} :: 0 <= j < k ==> IsFrameOp(v.ops[j])
      invariant gatherIndex == start + |GatherRows(v.kind.RedundantTx?, v.ops, k)| <= |gather|
      invariant start + |front| + |MoveRows(v.ops, k)| <= |prefetch|
      invariant hw.gather == Put(gather, start, GatherRows(v.kind.RedundantTx?, v.ops, k))
      invariant hw.prefetch == Put(prefetch, start, front + MoveRows(v.ops, k))
      invariant prefetchIndex == firstMove + |MoveRows(v.ops, k)|
    {
      MoveRowsGrow(v.ops, k);
      ok, gatherIndex, prefetchIndex :=
        WriteOperation(hw, start, stream, gatherIndex, prefetchIndex, k, lastInsert, v, gather, prefetch, front);
      if !ok {
        return;
      }
      k := k + 1;
    }
    return true;
  }

  lemma MoveRowsGrow(ops: seq<Operation>, k: nat)
    requires OpsComplete(ops) && k < |ops|
    ensures |MoveRows(ops, k + 1)| == |MoveRows(ops, k)| + if ops[k].opcode.INSERT? then 1 else 0
  {
  }

  /** All gather and prefetch commands of a sender, from row `start` on. It fails exactly
      when an operation does not belong to a sender. */
  method WriteGatherEgress(hw: BypassHw, start: nat, stream: AcmStream, ghost v: StreamView) returns (ok: bool)
    requires v == StreamView(stream.kind, stream.operations) && OpsComplete(v.ops)
    requires start + |GatherProgram(v.kind.RedundantTx?, v.ops)| <= |hw.gather|
    requires start + |PrefetchProgram(v.kind.RedundantTx?, v.ops)| <= |hw.prefetch|
    modifies hw`gather, hw`prefetch
    ensures ok <==> FrameOps(v.ops)
    ensures ok ==> hw.gather == Put(old(hw.gather), start, GatherProgram(v.kind.RedundantTx?, v.ops))
    ensures ok ==> hw.prefetch == Put(old(hw.prefetch), start, PrefetchProgram(v.kind.RedundantTx?, v.ops))
  {
    ghost var gather, prefetch, redundant := hw.gather, hw.prefetch, v.kind.RedundantTx?;
    var lastInsert, lockVector := FindInserts(stream);
    LockVectorCounts(v.ops, |v.ops|);
    NoInsertCount(v.ops, 0);
    ghost var front :=
      if lockVector == {} then [PrefetchNop] else LockRows(lockVector, redundant, NUM_PREFETCH_LOCK_COMMANDS);
    assert PrefetchProgram(redundant, v.ops) == front + MoveRows(v.ops, |v.ops|);
    var prefetchIndex := WriteLockCommands(hw, start, lockVector, stream.kind == RedundantTx);
    ok := WriteOperations(hw, start, stream, prefetchIndex, lastInsert, v, gather, prefetch, front);
  }

  // ---- all streams of a module ----

  /** The forward-all command of a receiver goes to the row its index names. */
  method WriteGatherIngress(hw: BypassHw, gatherIndex: nat, stream: AcmStream)
    requires gatherIndex < |hw.gather|
    modifies hw`gather
    ensures hw.gather == if HasOp(stream.operations, FORWARD_ALL)
      then old(hw.gather)[gatherIndex := ForwardFrame] else old(hw.gather)
  {
    var i := 0;
    while i < |stream.operations|
      invariant 0 <= i <= |stream.operations| && hw.gather == old(hw.gather)
      invariant forall j :: 0 <= j < i ==> stream.operations[j].opcode != FORWARD_ALL
    {
      if stream.operations[i].opcode == FORWARD_ALL {
        hw.gather := hw.gather[gatherIndex := ForwardFrame];
        return;
      }
      i := i + 1;
    }
  }

  /** Stream `k` is as the last recalculation of the indexes left it. */
  ghost predicate IndexedAt(stream: AcmStream, vs: seq<StreamView>, k: nat)
    requires k < |vs|
    reads stream
  {
    && vs[k].kind == stream.kind && vs[k].ops == stream.operations
    && stream.gatherDmaIndex == GatherIndex(vs, k) && stream.scatterDmaIndex == ScatterIndex(vs, k)
  }

  ghost predicate Indexed(streams: seq<AcmStream>, vs: seq<StreamView>)
    reads streams`kind, streams`operations, streams`gatherDmaIndex, streams`scatterDmaIndex
  {
    vs == Views(streams) && IndexesCurrent(streams, vs)
  }

  lemma IndexedHere(streams: seq<AcmStream>, vs: seq<StreamView>, k: nat)
    requires Indexed(streams, vs) && k < |streams|
    ensures k < |vs| && IndexedAt(streams[k], vs, k)
  {
    assert vs[k] == StreamView(streams[k].kind, streams[k].operations);
    assert GatherIndex(vs, k) == streams[k].gatherDmaIndex;
  }

  /** One pass of the loop over the streams. */
  method WriteStreamGather(stream: AcmStream, hw: BypassHw, ghost vs: seq<StreamView>, ghost k: nat,
      ghost gather: seq<GatherCmd>, ghost prefetch: seq<PrefetchCmd>)
    returns (ok: bool)
    requires k < |vs| && IndexedAt(stream, vs, k) && Writable(vs)
    requires |gather| == |prefetch| == ACM_MAX_EGRESS_OPERATIONS
    requires hw.gather == GatherImage(vs, gather, k) && hw.prefetch == PrefetchImage(vs, prefetch, k)
    modifies hw`gather, hw`prefetch
    ensures ok
    ensures hw.gather == GatherImage(vs, gather, k + 1) && hw.prefetch == PrefetchImage(vs, prefetch, k + 1)
  {
    ghost var v := vs[k];
    assert WellTyped(v) && OpsComplete(v.ops);
    if stream.kind == IngressTriggered {
      ReceiverSharesRows(v);
      WriteGatherIngress(hw, stream.gatherDmaIndex, stream);
    } else if stream.kind != RedundantRx {
      ProgramsInTable(vs, k);
      SenderHasFrameOps(v);
      ok := WriteGatherEgress(hw, stream.gatherDmaIndex, stream, v);
      assert ok;
    } else {
      ReceiverSharesRows(v);
    }
    ok := true;
  }

  /** The first `n` streams are. */
  ghost predicate IndexedUpTo(streams: seq<AcmStream>, vs: seq<StreamView>, n: nat)
    requires n <= |streams| == |vs|
    reads streams
  {
    n > 0 ==> IndexedUpTo(streams, vs, n - 1) && IndexedAt(streams[n - 1], vs, n - 1)
  }

  lemma {:induction false} IndexedAll(streams: seq<AcmStream>, vs: seq<StreamView>, n: nat)
    requires Indexed(streams, vs) && n <= |streams|
    ensures |streams| == |vs| && IndexedUpTo(streams, vs, n)
  {
    if n > 0 {
      IndexedAll(streams, vs, n - 1);
      IndexedHere(streams, vs, n - 1);
    }
  }

  lemma {:induction false} IndexedOne(streams: seq<AcmStream>, vs: seq<StreamView>, k: nat, n: nat)
    requires k < n <= |streams| == |vs| && IndexedUpTo(streams, vs, n)
    ensures IndexedAt(streams[k], vs, k)
  {
    if k < n - 1 {
      IndexedOne(streams, vs, k, n - 1);
    }
  }

  /** The same for stream `k` of a list. */
  method WriteStreamAt(streams: seq<AcmStream>, k: nat, hw: BypassHw, ghost vs: seq<StreamView>,
                       ghost gather: seq<GatherCmd>, ghost prefetch: seq<PrefetchCmd>)
    returns (ok: bool)
    requires k < |streams| == |vs| && IndexedUpTo(streams, vs, |vs|) && Writable(vs)
    requires |gather| == |prefetch| == ACM_MAX_EGRESS_OPERATIONS
    requires hw.gather == GatherImage(vs, gather, k) && hw.prefetch == PrefetchImage(vs, prefetch, k)
    modifies hw`gather, hw`prefetch
    ensures ok
    ensures hw.gather == GatherImage(vs, gather, k + 1) && hw.prefetch == PrefetchImage(vs, prefetch, k + 1)
  {
    IndexedOne(streams, vs, k, |vs|);
    ok := WriteStreamGather(streams[k], hw, vs, k, gather, prefetch);
  }

  /** The commands of the two rows that streams share. */
  method WriteSharedRows(hw: BypassHw, ghost vs: seq<StreamView>)
    requires |hw.gather| == |hw.prefetch| == ACM_MAX_EGRESS_OPERATIONS && Writable(vs)
    modifies hw`gather, hw`prefetch
    ensures hw.gather == GatherImage(vs, old(hw.gather), 0)
    ensures hw.prefetch == PrefetchImage(vs, old(hw.prefetch), 0)
  {
    hw.gather := hw.gather[GATHER_NOP_IDX := GATHER_NOP];
    hw.prefetch := hw.prefetch[GATHER_NOP_IDX := PrefetchNop];
    hw.gather := hw.gather[GATHER_FORWARD_IDX := ForwardFrame];
    hw.prefetch := hw.prefetch[GATHER_FORWARD_IDX := PrefetchNop];
  }

  /** The loop over the streams. */
  method WriteStreams(streams: seq<AcmStream>, hw: BypassHw, ghost vs: seq<StreamView>, ghost gather: seq<GatherCmd>,
                      ghost prefetch: seq<PrefetchCmd>)
    returns (ok: bool)
    requires |streams| == |vs| && IndexedUpTo(streams, vs, |vs|) && Writable(vs)
    requires |gather| == |prefetch| == ACM_MAX_EGRESS_OPERATIONS
    requires hw.gather == GatherImage(vs, gather, 0) && hw.prefetch == PrefetchImage(vs, prefetch, 0)
    modifies hw`gather, hw`prefetch
    ensures ok
    ensures hw.gather == GatherImage(vs, gather, |vs|) && hw.prefetch == PrefetchImage(vs, prefetch, |vs|)
  {
    var k := 0;
    while k < |streams|
      invariant 0 <= k <= |streams|
      invariant hw.gather == GatherImage(vs, gather, k)
      invariant hw.prefetch == PrefetchImage(vs, prefetch, k)
    {
      ok := WriteStreamAt(streams, k, hw, vs, gather, prefetch);
      if !ok {
        return;
      }
      k := k + 1;
    }
    return true;
  }

  method WritePrefetcherGatherDma(streams: seq<AcmStream>, hw: BypassHw, ghost vs: seq<StreamView>) returns (ok: bool)
    requires Indexed(streams, vs) && Writable(vs) && hw.Sized()
    modifies hw`gather, hw`prefetch
    ensures ok
    ensures hw.gather == GatherImage(vs, old(hw.gather), |vs|)
    ensures hw.prefetch == PrefetchImage(vs, old(hw.prefetch), |vs|)
  {
    ghost var gather, prefetch := hw.gather, hw.prefetch;
    IndexedAll(streams, vs, |streams|);
    WriteSharedRows(hw, vs);
    ok := WriteStreams(streams, hw, vs, gather, prefetch);
  }

  /** Operation `k` is followed by no READ. */
  method IsLastRead(stream: AcmStream, k: nat, ghost ops: seq<Operation>) returns (lastItem: bool)
    requires ops == stream.operations && k < |ops|
    ensures lastItem == NoReadFrom(ops, k + 1)
  {
    var next := k + 1;
    while next < |stream.operations| && stream.operations[next].opcode != READ
      invariant k < next <= |ops|
      invariant forall j :: k < j < next ==> ops[j].opcode != READ
    {
      next := next + 1;
    }
    lastItem := next == |stream.operations|;
  }

  /** Scatter command of operation `k`, if it is a READ. */
  method WriteScatterRow(hw: BypassHw, stream: AcmStream, start: nat, scatterIndex: nat, k: nat,
                         ghost ops: seq<Operation>, ghost scatter: seq<ScatterCmd>)
    returns (next: nat)
    requires ops == stream.operations && OpsComplete(ops) && k < |ops|
    requires start + |ScatterRows(ops, |ops|)| <= |scatter|
    requires scatterIndex == start + |ScatterRows(ops, k)| <= |scatter|
    requires hw.scatter == Put(scatter, start, ScatterRows(ops, k))
    modifies hw`scatter
    ensures next == start + |ScatterRows(ops, k + 1)| <= |scatter|
    ensures hw.scatter == Put(scatter, start, ScatterRows(ops, k + 1))
  {
    next := scatterIndex;
    var op := stream.operations[k];
    if op.opcode == READ {
      var lastItem := IsLastRead(stream, k, ops);
      NoReadCount(ops, k + 1);
      var cmd := StoreData(lastItem, op.offset, op.length, MsgbufId(op.msgBuf.index));
      PutNext(scatter, start, ScatterRows(ops, k), cmd);
      hw.scatter := hw.scatter[scatterIndex := cmd];
      next := scatterIndex + 1;
    } else {
      assert ScatterRows(ops, k + 1) == ScatterRows(ops, k);
    }
  }

  /** The scatter commands of one receiver, from row `start` on. */
  method WriteScatterStream(hw: BypassHw, start: nat, stream: AcmStream, ghost ops: seq<Operation>)
    requires ops == stream.operations && OpsComplete(ops)
    requires start + |ScatterRows(ops, |ops|)| <= |hw.scatter|
    modifies hw`scatter
    ensures hw.scatter == Put(old(hw.scatter), start, ScatterRows(ops, |ops|))
  {
    ghost var scatter := hw.scatter;
    var scatterIndex := start;
    PutNothing(scatter, start);
    var k := 0;
    while k < |stream.operations|
      invariant 0 <= k <= |ops|
      invariant scatterIndex == start + |ScatterRows(ops, k)| <= |scatter|
      invariant hw.scatter == Put(scatter, start, ScatterRows(ops, k))
    {
      scatterIndex := WriteScatterRow(hw, stream, start, scatterIndex, k, ops, scatter);
      k := k + 1;
    }
  }

  method WriteScatterDma(streams: seq<AcmStream>, hw: BypassHw, ghost vs: seq<StreamView>)
    requires Indexed(streams, vs) && Writable(vs) && hw.Sized()
    modifies hw`scatter
    ensures hw.scatter == ScatterImage(vs, old(hw.scatter), |vs|)
  {
    ghost var scatter := hw.scatter;
    hw.scatter := hw.scatter[SCATTER_NOP_IDX := SCATTER_NOP];
    var k := 0;
    while k < |streams|
      invariant 0 <= k <= |streams|
      invariant hw.scatter == ScatterImage(vs, scatter, k)
    {
      IndexedHere(streams, vs, k);
      if streams[k].kind == IngressTriggered || streams[k].kind == RedundantRx {
        ScatterProgramInTable(vs, k);
        WriteScatterStream(hw, streams[k].scatterDmaIndex, streams[k], vs[k].ops);
      }
      k := k + 1;
    }
  }

  // ---- constant buffer ----

  /** The bytes of one constant copied to `offset`. */
  lemma CopiedConstant(op: Operation, before: seq<Byte>, after: seq<Byte>, offset: nat)
    requires op.opcode.INSERT_CONSTANT? && op.constBuffOffset == offset
    requires offset + |op.data| <= |before|
    requires after == before[..offset] + op.data + before[offset + |op.data|..]
    ensures |after| == |before| && after[..offset] == before[..offset]
    ensures before[..offset] <= after[..offset + |op.data|]
    ensures ConstantPlaced(op, after[..offset + |op.data|])
  {
    assert after[..offset + |op.data|][offset..] == op.data;
  }

  lemma AllPlacedStay(ops: seq<Operation>, front: seq<Byte>, buffer: seq<Byte>)
    requires ConstantsPlaced(ops, front) && front <= buffer
    ensures ConstantsPlaced(ops, buffer)
  {
    forall k | 0 <= k < |ops| ensures ConstantPlaced(ops[k], buffer) {
      PlacedStays(ops[k], front, buffer);
    }
  }

  /** A constant is copied to `offset`, and the operation remembers where. */
  method CopyConstant(op: Operation, buffer: seq<Byte>, offset: nat)
    returns (op': Operation, buffer': seq<Byte>, offset': nat)
    requires OpComplete(op) && offset <= |buffer|
    requires op.opcode.INSERT_CONSTANT? ==> offset + |op.data| <= |buffer|
    ensures SameButOffset(op, op') && |buffer'| == |buffer|
    ensures offset' == offset + (if op.opcode.INSERT_CONSTANT? then op.length else 0) <= |buffer|
    ensures buffer[..offset] <= buffer'[..offset'] && ConstantPlaced(op', buffer'[..offset'])
  {
    op', buffer', offset' := op, buffer, offset;
    if op.opcode == INSERT_CONSTANT {
      buffer' := buffer[..offset] + op.data + buffer[offset + |op.data|..];
      op' := op.(constBuffOffset := offset);
      CopiedConstant(op', buffer, buffer', offset);
      offset' := offset + |op.data|;
    }
  }

  /** The first `k` operations of `ops` differ from those of `before` in their offsets only
      and are placed in `front`; the others are the same. */
  ghost predicate CopiedUpTo(before: seq<Operation>, ops: seq<Operation>, k: nat, front: seq<Byte>) {
    && SameButOffsets(before, ops) && k <= |ops| && ops[k..] == before[k..]
    && ConstantsPlaced(ops[..k], front)
  }

  lemma OneMoreCopied(before: seq<Operation>, ops: seq<Operation>, k: nat, front: seq<Byte>, op: Operation,
                      front': seq<Byte>)
    requires CopiedUpTo(before, ops, k, front) && k < |ops| && front <= front'
    requires SameButOffset(ops[k], op) && ConstantPlaced(op, front')
    ensures CopiedUpTo(before, ops[k := op], k + 1, front')
  {
    AllPlacedStay(ops[..k], front, front');
    var ops' := ops[k := op];
    assert ops'[..k + 1] == ops[..k] + [op];
    assert ops'[k + 1..] == ops[k..][1..];
    assert ops[k] == ops[k..][0] == before[k];
  }

  /** The constants of one stream are copied into `buffer` from `offset` on. */
  method CopyConstants(stream: AcmStream, buffer: seq<Byte>, offset: nat, ghost ops: seq<Operation>)
    returns (buffer': seq<Byte>, offset': nat)
    requires ops == stream.operations && OpsComplete(ops)
    requires offset + SumConstBuffer(ops, |ops|) <= |buffer|
    modifies stream`operations
    ensures SameButOffsets(ops, stream.operations)
    ensures offset' == offset + SumConstBuffer(ops, |ops|) <= |buffer| == |buffer'|
    ensures buffer[..offset] <= buffer'[..offset']
    ensures ConstantsPlaced(stream.operations, buffer'[..offset'])
  {
    buffer', offset' := buffer, offset;
    var k := 0;
    while k < |stream.operations|
      invariant 0 <= k <= |ops| == |stream.operations|
      invariant offset <= offset' == offset + SumConstBuffer(ops, k) <= |buffer| == |buffer'|
      invariant buffer[..offset] <= buffer'[..offset']
      invariant CopiedUpTo(ops, stream.operations, k, buffer'[..offset'])
    {
      SumConstBufferGrows(ops, k + 1, |ops|);
      ghost var front, before := buffer'[..offset'], stream.operations;
      assert before[k] == before[k..][0] == ops[k] && OpComplete(ops[k]);
      var op;
      op, buffer', offset' := CopyConstant(stream.operations[k], buffer', offset');
      OneMoreCopied(ops, before, k, front, op, buffer'[..offset']);
      stream.operations := stream.operations[k := op];
      k := k + 1;
    }
    assert stream.operations[..k] == stream.operations;
  }

  /** The constants of the first `k` streams are placed in `front`. */
  ghost predicate StreamsCopied(streams: seq<AcmStream>, vs: seq<StreamView>, k: nat, front: seq<Byte>)
    requires |streams| == |vs|
    reads streams`operations
  {
    && (forall j {:trigger streams[j]} :: 0 <= j < |vs| && j >= k ==> streams[j].operations == vs[j].ops)
    && (forall j {:trigger streams[j]} :: 0 <= j < |vs| && j < k ==>
          SameButOffsets(vs[j].ops, streams[j].operations) && ConstantsPlaced(streams[j].operations, front))
  }

  lemma NothingCopied(streams: seq<AcmStream>, vs: seq<StreamView>, front: seq<Byte>)
    requires vs == Views(streams)
    ensures StreamsCopied(streams, vs, 0, front)
  {
  }

  lemma StillCopied(streams: seq<AcmStream>, vs: seq<StreamView>, k: nat, front: seq<Byte>, buffer: seq<Byte>)
    requires |streams| == |vs| && StreamsCopied(streams, vs, k, front) && front <= buffer
    ensures StreamsCopied(streams, vs, k, buffer)
  {
    forall j {:trigger streams[j]} | 0 <= j < |vs| && j < k ensures ConstantsPlaced(streams[j].operations, buffer) {
      AllPlacedStay(streams[j].operations, front, buffer);
    }
  }

  /** One pass of the loop over the streams. */
  method CopyStream(streams: seq<AcmStream>, k: nat, buffer: seq<Byte>, offset: nat, ghost vs: seq<StreamView>)
    returns (buffer': seq<Byte>, offset': nat)
    requires Distinct(streams) && k < |vs| == |streams| && OpsComplete(vs[k].ops)
    requires offset == ModuleConstBuffer(vs, k) && ModuleConstBuffer(vs, k + 1) <= |buffer|
    requires StreamsCopied(streams, vs, k, buffer[..offset])
    modifies {streams[k]}`operations
    ensures |buffer'| == |buffer| && offset' == ModuleConstBuffer(vs, k + 1)
    ensures StreamsCopied(streams, vs, k + 1, buffer'[..offset'])
  {
    assert streams[k].operations == vs[k].ops;
    assert forall j :: 0 <= j < |vs| && j != k ==> streams[j] != streams[k];
    ghost var front := buffer[..offset];
    buffer', offset' := CopyConstants(streams[k], buffer, offset, vs[k].ops);
    forall j {:trigger streams[j]} | 0 <= j < k ensures ConstantsPlaced(streams[j].operations, buffer'[..offset']) {
      AllPlacedStay(streams[j].operations, front, buffer'[..offset']);
    }
  }

  /** Collect the constants of all streams and write them to the constant buffer. */
  method WriteDataConstantBuffer(streams: seq<AcmStream>, hw: BypassHw, ghost vs: seq<StreamView>)
    requires Distinct(streams) && |vs| == |streams| && StreamsCopied(streams, vs, 0, [])
    requires forall k {:trigger vs[k]} :: 0 <= k < |vs| ==> OpsComplete(vs[k].ops)
    requires ModuleConstBuffer(vs, |vs|) <= ACM_MAX_CONST_BUFFER_SIZE
    modifies hw`constBuffer, streams`operations
    ensures |hw.constBuffer| == ACM_MAX_CONST_BUFFER_SIZE
    ensures StreamsCopied(streams, vs, |vs|, hw.constBuffer)
  {
    var buffer: seq<Byte> := seq(ACM_MAX_CONST_BUFFER_SIZE, _ => 0);
    var offset := 0;
    var k := 0;
    assert buffer[..0] == [];
    while k < |streams|
      invariant 0 <= k <= |streams| && |buffer| == ACM_MAX_CONST_BUFFER_SIZE
      invariant offset == ModuleConstBuffer(vs, k) <= |buffer|
      invariant StreamsCopied(streams, vs, k, buffer[..offset])
    {
      ModuleConstBufferGrows(vs, k + 1, |vs|);
      buffer, offset := CopyStream(streams, k, buffer, offset, vs);
      k := k + 1;
    }
    StillCopied(streams, vs, |vs|, buffer[..offset], buffer);
    hw.constBuffer := buffer;
  }

  // ---- the whole module ----

  lemma {:induction false} SameParts(a: seq<Operation>, b: seq<Operation>)
    requires SameButOffsets(a, b) && FrameOps(a) && OpsComplete(a)
    ensures FrameOps(b) && OpsComplete(b) && Parts(a) == Parts(b)
  {
    if a != [] {
      SameParts(a[..|a| - 1], b[..|b| - 1]);
    }
  }

  lemma {:induction false} SameLocks(a: seq<Operation>, b: seq<Operation>, k: nat)
    requires SameButOffsets(a, b) && OpsComplete(a) && OpsComplete(b) && k <= |a|
    ensures LockVector(a, k) == LockVector(b, k)
    ensures Reads(a, k) == Reads(b, k)
  {
    if k > 0 {
      SameLocks(a, b, k - 1);
    }
  }

  lemma SameIntended(v: StreamView, w: StreamView)
    requires v.kind == w.kind && SameButOffsets(v.ops, w.ops) && FrameOps(v.ops) && OpsComplete(v.ops)
    ensures FrameOps(w.ops) && OpsComplete(w.ops) && Intended(v) == Intended(w)
  {
    SameParts(v.ops, w.ops);
    SameLocks(v.ops, w.ops, |v.ops|);
    if v.kind.RedundantTx? && |v.ops| >= NUM_AUTOGEN_OPS {
      SameParts(v.ops[..NUM_AUTOGEN_OPS], w.ops[..NUM_AUTOGEN_OPS]);
      SameParts(v.ops[NUM_AUTOGEN_OPS..], w.ops[NUM_AUTOGEN_OPS..]);
    }
  }

  lemma {:induction false} SameFrameSize(a: seq<Operation>, b: seq<Operation>, k: nat)
    requires SameButOffsets(a, b) && k <= |a|
    ensures FrameSize(a, k) == FrameSize(b, k)
  {
    if k > 0 {
      SameFrameSize(a, b, k - 1);
    }
  }

  lemma {:induction false} SameGatherCount(a: seq<Operation>, b: seq<Operation>, k: nat)
    requires SameButOffsets(a, b) && k <= |a|
    ensures CountGather(a, k) == CountGather(b, k)
  {
    if k > 0 {
      SameGatherCount(a, b, k - 1);
    }
  }

  lemma KeptWellTyped(v: StreamView, w: StreamView)
    requires v.kind == w.kind && SameButOffsets(v.ops, w.ops) && WellTyped(v) && OpsComplete(v.ops)
    ensures WellTyped(w) && OpsComplete(w.ops)
  {
    SameGatherCount(v.ops, w.ops, |v.ops|);
    forall j | 0 <= j < |w.ops| ensures AllowedOp(w.kind, w.ops[j]) && OpComplete(w.ops[j]) {
      assert SameButOffset(v.ops[j], w.ops[j]);
      assert AllowedOp(v.kind, v.ops[j]);
    }
  }

  /** The streams after their constants are placed. */
  ghost predicate PlacedViews(vs: seq<StreamView>, ws: seq<StreamView>) {
    |vs| == |ws| && forall k :: 0 <= k < |vs| ==> vs[k].kind == ws[k].kind && SameButOffsets(vs[k].ops, ws[k].ops)
  }

  lemma PlacingKeepsWritable(vs: seq<StreamView>, ws: seq<StreamView>)
    requires PlacedViews(vs, ws) && Writable(vs)
    ensures SameShape(vs, ws) && Writable(ws)
  {
    forall k | 0 <= k < |vs| ensures SameCodes(vs[k].ops, ws[k].ops) && WellTyped(ws[k]) && OpsComplete(ws[k].ops) {
      assert SameButOffsets(vs[k].ops, ws[k].ops);
      assert forall j :: 0 <= j < |vs[k].ops| ==> SameButOffset(vs[k].ops[j], ws[k].ops[j]);
      KeptWellTyped(vs[k], ws[k]);
    }
    SameLayout(vs, ws, |vs|);
  }

  lemma PlacedSendable(v: StreamView, w: StreamView)
    requires v.kind == w.kind && SameButOffsets(v.ops, w.ops) && Sendable(v)
    ensures Sendable(w)
  {
    SameFrameSize(v.ops, w.ops, |v.ops|);
  }

  /** The tables of a module written from the streams `vs` over the tables `before`; `ws`
      are the streams with the offsets of their constants. */
  ghost predicate ModuleWritten(vs: seq<StreamView>, ws: seq<StreamView>, before: Tables, after: Tables) {
    && Writable(vs) && Writable(ws) && PlacedViews(vs, ws) && SameShape(vs, ws)
    && before.Sized()
    && after.gather == GatherImage(ws, before.gather, |ws|)
    && after.prefetch == PrefetchImage(ws, before.prefetch, |ws|)
    && after.scatter == ScatterImage(ws, before.scatter, |ws|)
    && forall k {:trigger ws[k]} :: 0 <= k < |ws| ==> ConstantsPlaced(ws[k].ops, after.constants)
  }

  lemma SameObtained(v: StreamView, w: StreamView)
    requires v.kind == w.kind && SameButOffsets(v.ops, w.ops) && FrameOps(v.ops) && OpsComplete(v.ops)
    ensures FrameOps(w.ops) && OpsComplete(w.ops) && Obtained(v) == Obtained(w)
  {
    SameIntended(v, w);
  }

  /** After a module is written, every sender of at least 64 bytes that is triggered
      through its gather index locks exactly its message buffers and sends the frame it was
      configured with, from its own buffers if and only if their indexes are below 32. */
  lemma TriggeredSenderSendsItsFrame(vs: seq<StreamView>, ws: seq<StreamView>, before: Tables, after: Tables, k: nat)
    requires ModuleWritten(vs, ws, before, after)
    requires k < |vs| && Sendable(vs[k])
    ensures FrameOps(vs[k].ops) && OpsComplete(vs[k].ops)
    ensures GatherIndex(vs, k) <= |after.gather| == |after.prefetch|
    ensures Send(after, GatherIndex(vs, k)) == Some(Obtained(vs[k]))
    ensures Send(after, GatherIndex(vs, k)) == Some(Intended(vs[k])) <==> Nameable(vs[k].ops, INSERT)
  {
    SameLayout(vs, ws, k);
    assert SameButOffsets(vs[k].ops, ws[k].ops);
    PlacedSendable(vs[k], ws[k]);
    SenderHasFrameOps(vs[k]);
    SameObtained(vs[k], ws[k]);
    IntendedIfNameable(vs[k]);
    assert ConstantsPlaced(ws[k].ops, after.constants);
    SenderProducesItsFrame(ws, before, after, k);
  }

  lemma SameAsked(v: StreamView, w: StreamView)
    requires v.kind == w.kind && SameButOffsets(v.ops, w.ops) && OpsComplete(v.ops) && OpsComplete(w.ops)
    requires SameCodes(v.ops, w.ops)
    ensures Asked(v) == Asked(w)
  {
    SameRows(v, w);
    SameLocks(v.ops, w.ops, |v.ops|);
  }

  /** After a module is written, every receiver that is triggered through its scatter
      index performs exactly its READ operations, in order, on its own buffers if and only if
      their indexes are below 32. */
  lemma TriggeredReceiverStoresItsReads(vs: seq<StreamView>, ws: seq<StreamView>, before: Tables, after: Tables, k: nat)
    requires ModuleWritten(vs, ws, before, after)
    requires k < |vs| && IsIngress(vs[k].kind)
    ensures OpsComplete(vs[k].ops) && ScatterIndex(vs, k) < |after.scatter|
    ensures RunScatter(after.scatter[ScatterIndex(vs, k)..])
      == Some(StoresWithIds(Asked(vs[k])))
    ensures RunScatter(after.scatter[ScatterIndex(vs, k)..]) == Some(Asked(vs[k])) <==> Nameable(vs[k].ops, READ)
  {
    SameLayout(vs, ws, k);
    assert SameButOffsets(vs[k].ops, ws[k].ops);
    SameAsked(vs[k], ws[k]);
    AskedIfNameable(vs[k]);
    ReceiverStoresItsReads(ws, before.scatter, k);
  }

  lemma PlacedIndexed(streams: seq<AcmStream>, vs: seq<StreamView>, ws: seq<StreamView>)
    requires IndexesCurrent(streams, vs) && SameShape(vs, ws) && ws == Views(streams)
    ensures Indexed(streams, ws)
  {
    forall k {:trigger GatherIndex(ws, k)} | 0 <= k < |streams|
      ensures ws[k].kind == streams[k].kind
        && streams[k].gatherDmaIndex == GatherIndex(ws, k) && streams[k].scatterDmaIndex == ScatterIndex(ws, k)
    {
      assert GatherIndex(vs, k) == streams[k].gatherDmaIndex;
      SameLayout(vs, ws, k);
    }
    assert IndexesCurrent(streams, ws);
  }

  /** Constants first, because they set the offsets that the gather commands use; `ws` are
      the streams with these offsets. */
  method PlaceConstants(streams: seq<AcmStream>, hw: BypassHw, ghost vs: seq<StreamView>)
    returns (ghost ws: seq<StreamView>)
    requires Distinct(streams) && Indexed(streams, vs) && Writable(vs) && hw.Sized()
    requires ModuleConstBuffer(vs, |vs|) <= ACM_MAX_CONST_BUFFER_SIZE
    modifies hw`constBuffer, streams`operations
    ensures Indexed(streams, ws) && Writable(ws) && PlacedViews(vs, ws) && SameShape(vs, ws) && hw.Sized()
    ensures forall k :: 0 <= k < |ws| ==> ConstantsPlaced(ws[k].ops, hw.constBuffer)
  {
    NothingCopied(streams, vs, []);
    WriteDataConstantBuffer(streams, hw, vs);
    ws := Views(streams);
    PlacingKeepsWritable(vs, ws);
    PlacedIndexed(streams, vs, ws);
  }

  /** Write constants, scatter and gather commands of a module, in this order. */
  method WriteModuleDataToHw(streams: seq<AcmStream>, hw: BypassHw, ghost vs: seq<StreamView>)
    returns (ok: bool, ghost ws: seq<StreamView>)
    requires Distinct(streams) && Indexed(streams, vs) && Writable(vs) && hw.Sized()
    requires ModuleConstBuffer(vs, |vs|) <= ACM_MAX_CONST_BUFFER_SIZE
    modifies hw, streams`operations
    ensures ok && Indexed(streams, ws)
    ensures ModuleWritten(vs, ws, old(hw.Image()), hw.Image())
  {
    ws := PlaceConstants(streams, hw, vs);
    WriteScatterDma(streams, hw, ws);
    ok := WritePrefetcherGatherDma(streams, hw, ws);
  }
}
