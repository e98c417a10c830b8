/** Writing the DMA tables of a module, and what the hardware finds in them. */
module DmaTables {
  import opened Entities
  import opened DmaProgram
  import opened Layout

  // ---- tables ----

  /** The DMA tables and the constant buffer of one module. */
  datatype Tables = Tables(
    gather: seq<GatherCmd>,
    prefetch: seq<PrefetchCmd>,
    scatter: seq<ScatterCmd>,
    constants: seq<Byte>) {
    predicate Sized() {
      && |gather| == |prefetch| == ACM_MAX_EGRESS_OPERATIONS
      && |scatter| == ACM_MAX_INGRESS_OPERATIONS
      && |constants| == ACM_MAX_CONST_BUFFER_SIZE
    }
  }

  class BypassHw {
    var gather: seq<GatherCmd>
    var prefetch: seq<PrefetchCmd>
    var scatter: seq<ScatterCmd>
    var constBuffer: seq<Byte>

    function Image(): Tables
      reads this
    {
      Tables(gather, prefetch, scatter, constBuffer)
    }

    predicate Sized()
      reads this
    {
      Image().Sized()
    }

    constructor ()
      ensures Sized()
    {
      gather := seq(ACM_MAX_EGRESS_OPERATIONS, _ => GATHER_NOP);
      prefetch := seq(ACM_MAX_EGRESS_OPERATIONS, _ => PrefetchNop);
      scatter := seq(ACM_MAX_INGRESS_OPERATIONS, _ => SCATTER_NOP);
      constBuffer := seq(ACM_MAX_CONST_BUFFER_SIZE, _ => 0);
    }
  }

  /** The table with `rows` written from `start` on. */
  function Put<T>(table: seq<T>, start: nat, rows: seq<T>): (r: seq<T>)
    requires start + |rows| <= |table|
    ensures |r| == |table|
    ensures forall j :: 0 <= j < |table| ==> r[j] == if start <= j < start + |rows| then rows[j - start] else table[j]
  {
    table[..start] + rows + table[start + |rows|..]
  }

  lemma PutNext<T>(table: seq<T>, start: nat, rows: seq<T>, row: T)
    requires start + |rows| < |table|
    ensures Put(table, start, rows + [row]) == Put(table, start, rows)[start + |rows| := row]
  {
  }

  lemma PutNothing<T>(table: seq<T>, start: nat)
    requires start <= |table|
    ensures Put(table, start, []) == table
  {
  }

  /** The program found at a position of a table that holds it there. */
  lemma ProgramAt<T>(table: seq<T>, start: nat, rows: seq<T>)
    requires start + |rows| <= |table|
    requires forall j :: 0 <= j < |rows| ==> table[start + j] == rows[j]
    ensures table[start..] == rows + table[start + |rows|..]
  {
  }

  // ---- operations a stream may hold ----

  /** The operations stream_add_operation lets in, by stream type. */
  predicate AllowedOp(kind: StreamType, op: Operation) {
    match kind
    case EventStream => IsFrameOp(op)
    case IngressTriggered => op.opcode.READ? || op.opcode.FORWARD_ALL?
    case RedundantRx => op.opcode.READ?
    case _ => IsFrameOp(op) && !op.opcode.FORWARD?
  }

  /** All operations are allowed, and at most one of them forwards everything. */
  predicate WellTyped(v: StreamView) {
    && (forall k :: 0 <= k < |v.ops| ==> AllowedOp(v.kind, v.ops[k]))
    && (IsIngress(v.kind) ==> CountGather(v.ops, |v.ops|) <= 1)
  }

  /** Streams whose operations build a frame to send. */
  predicate Sends(kind: StreamType) {
    !IsIngress(kind)
  }

  lemma SenderHasFrameOps(v: StreamView)
    requires WellTyped(v) && Sends(v.kind)
    ensures FrameOps(v.ops)
  {
    forall k | 0 <= k < |v.ops| ensures IsFrameOp(v.ops[k]) {
      assert AllowedOp(v.kind, v.ops[k]);
    }
  }

  lemma {:induction false} CountGatherAll(ops: seq<Operation>, k: nat)
    requires k <= |ops|
    ensures FrameOps(ops) ==> CountGather(ops, k) == k
    ensures (forall j :: 0 <= j < |ops| ==> ops[j].opcode.READ?) ==> CountGather(ops, k) == 0
    ensures (forall j :: 0 <= j < |ops| ==> ops[j].opcode.READ? || ops[j].opcode.FORWARD_ALL?) ==>
      (CountGather(ops, k) > 0 <==> exists j :: 0 <= j < k && ops[j].opcode.FORWARD_ALL?)
  {
    if k > 0 {
      CountGatherAll(ops, k - 1);
    }
  }

  lemma {:induction false} CountGatherSingle(ops: seq<Operation>, k: nat, j: nat)
    requires j < k <= |ops| && IsGatherOp(ops[j])
    ensures CountGather(ops, k) >= 1
  {
    if j < k - 1 {
      CountGatherSingle(ops, k - 1, j);
    }
  }

  lemma {:induction false} CountGatherAppend(ops: seq<Operation>, op: Operation, k: nat)
    requires k <= |ops|
    ensures CountGather(ops + [op], k) == CountGather(ops, k)
  {
    if k > 0 {
      CountGatherAppend(ops, op, k - 1);
    }
  }

  // ---- table images ----

  /** What the table writers rely on: the streams are well typed, their operations are
      complete, and the egress budget of the validation holds. */
  ghost predicate Writable(vs: seq<StreamView>) {
    && (forall k :: 0 <= k < |vs| ==> WellTyped(vs[k]) && OpsComplete(vs[k].ops))
    && EgressRows(vs, |vs|) <= ACM_MAX_EGRESS_OPERATIONS
    && IngressRows(vs, |vs|) <= ACM_MAX_INGRESS_OPERATIONS
  }

  lemma {:induction false} NumOpsWithinGather(ops: seq<Operation>, k: nat)
    requires k <= |ops|
    ensures NumOps(ops, INSERT, k) <= CountGather(ops, k)
  {
    if k > 0 {
      NumOpsWithinGather(ops, k - 1);
    }
  }

  /** The programs of a sender fit the rows that the layout reserves. */
  lemma ProgramsFit(v: StreamView)
    requires WellTyped(v) && OpsComplete(v.ops) && Sends(v.kind)
    ensures |GatherProgram(v.kind.RedundantTx?, v.ops)| <= GatherOps(v)
    ensures |PrefetchProgram(v.kind.RedundantTx?, v.ops)| <= PrefetchOps(v)
    ensures OwnRows(v) <==> GatherOps(v) > 0
    ensures !OwnRows(v) ==> v.ops == []
    ensures GatherOps(v) <= RowsNeeded(v) && PrefetchOps(v) <= RowsNeeded(v)
  {
    SenderHasFrameOps(v);
    CountGatherAll(v.ops, |v.ops|);
    forall k | 0 <= k < |v.ops| ensures v.ops[k].opcode != FORWARD_ALL {
      assert IsFrameOp(v.ops[k]);
    }
  }

  /** A receiver has no rows of its own; it uses row 1 exactly if it forwards everything. */
  lemma ReceiverSharesRows(v: StreamView)
    requires WellTyped(v) && IsIngress(v.kind)
    ensures !OwnRows(v)
    ensures HasOp(v.ops, FORWARD_ALL) <==> GatherOps(v) > 0
    ensures v.kind.RedundantRx? ==> !HasOp(v.ops, FORWARD_ALL)
  {
    forall k | 0 <= k < |v.ops| ensures v.ops[k].opcode.READ? || v.ops[k].opcode.FORWARD_ALL? {
      assert AllowedOp(v.kind, v.ops[k]);
    }
    CountGatherAll(v.ops, |v.ops|);
    if v.kind.RedundantRx? {
      forall k | 0 <= k < |v.ops| ensures v.ops[k].opcode.READ? {
        assert AllowedOp(v.kind, v.ops[k]);
      }
    }
  }

  lemma ProgramsInTable(vs: seq<StreamView>, k: nat)
    requires Writable(vs) && k < |vs| && Sends(vs[k].kind)
    ensures GatherIndex(vs, k) + |GatherProgram(vs[k].kind.RedundantTx?, vs[k].ops)| <= ACM_MAX_EGRESS_OPERATIONS
    ensures GatherIndex(vs, k) + |PrefetchProgram(vs[k].kind.RedundantTx?, vs[k].ops)| <= ACM_MAX_EGRESS_OPERATIONS
  {
    ProgramsFit(vs[k]);
    if OwnRows(vs[k]) {
      GatherRangeInBudget(vs, k);
    }
  }

  /** The gather table after the first `k` streams are written over table `base`. */
  function GatherImage(vs: seq<StreamView>, base: seq<GatherCmd>, k: nat): (r: seq<GatherCmd>)
    requires Writable(vs) && k <= |vs| && |base| == ACM_MAX_EGRESS_OPERATIONS
    ensures |r| == |base|
  {
    if k == 0 then base[GATHER_NOP_IDX := GATHER_NOP][GATHER_FORWARD_IDX := ForwardFrame]
    else
      var before := GatherImage(vs, base, k - 1);
      var v := vs[k - 1];
      if Sends(v.kind) then
        ProgramsInTable(vs, k - 1);
        Put(before, GatherIndex(vs, k - 1), GatherProgram(v.kind.RedundantTx?, v.ops))
      else if HasOp(v.ops, FORWARD_ALL) then
        ReceiverSharesRows(v);
        before[GatherIndex(vs, k - 1) := ForwardFrame]
      else before
  }

  /** The prefetch table after the first `k` streams are written over table `base`. */
  function PrefetchImage(vs: seq<StreamView>, base: seq<PrefetchCmd>, k: nat): (r: seq<PrefetchCmd>)
    requires Writable(vs) && k <= |vs| && |base| == ACM_MAX_EGRESS_OPERATIONS
    ensures |r| == |base|
  {
    if k == 0 then base[GATHER_NOP_IDX := PrefetchNop][GATHER_FORWARD_IDX := PrefetchNop]
    else
      var before := PrefetchImage(vs, base, k - 1);
      var v := vs[k - 1];
      if Sends(v.kind) then
        ProgramsInTable(vs, k - 1);
        Put(before, GatherIndex(vs, k - 1), PrefetchProgram(v.kind.RedundantTx?, v.ops))
      else before
  }

  /** A sender leaves the shared rows alone; without operations it writes a NOP to row 0. */
  lemma SenderKeepsSharedRows(vs: seq<StreamView>, m: nat, gather: seq<GatherCmd>, prefetch: seq<PrefetchCmd>)
    requires Writable(vs) && m < |vs| && Sends(vs[m].kind) && |gather| == |prefetch| == ACM_MAX_EGRESS_OPERATIONS
    ensures GatherIndex(vs, m) + |GatherProgram(vs[m].kind.RedundantTx?, vs[m].ops)| <= |gather|
    ensures GatherIndex(vs, m) + |PrefetchProgram(vs[m].kind.RedundantTx?, vs[m].ops)| <= |prefetch|
    ensures Put(gather, GatherIndex(vs, m), GatherProgram(vs[m].kind.RedundantTx?, vs[m].ops))[..GATHER_START_IDX]
      == gather[..GATHER_START_IDX]
    ensures var after := Put(prefetch, GatherIndex(vs, m), PrefetchProgram(vs[m].kind.RedundantTx?, vs[m].ops));
      after[GATHER_FORWARD_IDX] == prefetch[GATHER_FORWARD_IDX]
      && (after[GATHER_NOP_IDX] == prefetch[GATHER_NOP_IDX] || after[GATHER_NOP_IDX] == PrefetchNop)
  {
    ProgramsFit(vs[m]);
    ProgramsInTable(vs, m);
    if OwnRows(vs[m]) {
      GatherRangeInBudget(vs, m);
    } else {
      assert PrefetchProgram(vs[m].kind.RedundantTx?, vs[m].ops) == [PrefetchNop];
    }
  }

  /** The shared gather rows keep their commands through every later write. */
  lemma {:induction false} SharedGatherRowsKept(vs: seq<StreamView>, base: seq<GatherCmd>, k: nat)
    requires Writable(vs) && k <= |vs| && |base| == ACM_MAX_EGRESS_OPERATIONS
    ensures GatherImage(vs, base, k)[..GATHER_START_IDX] == [GATHER_NOP, ForwardFrame]
  {
    if k > 0 {
      SharedGatherRowsKept(vs, base, k - 1);
      if Sends(vs[k - 1].kind) {
        SenderKeepsSharedRows(vs, k - 1, GatherImage(vs, base, k - 1), seq(|base|, _ => PrefetchNop));
      } else {
        ReceiverKeepsSharedRows(vs, base, k - 1);
      }
    }
  }

  lemma ReceiverKeepsSharedRows(vs: seq<StreamView>, base: seq<GatherCmd>, m: nat)
    requires Writable(vs) && m < |vs| && !Sends(vs[m].kind) && |base| == ACM_MAX_EGRESS_OPERATIONS
    requires GatherImage(vs, base, m)[..GATHER_START_IDX] == [GATHER_NOP, ForwardFrame]
    ensures GatherImage(vs, base, m + 1)[..GATHER_START_IDX] == [GATHER_NOP, ForwardFrame]
  {
    ReceiverSharesRows(vs[m]);
    var before := GatherImage(vs, base, m);
    assert before[..GATHER_START_IDX][GATHER_FORWARD_IDX] == ForwardFrame;
  }

  /** And so do the prefetch rows beside them. */
  lemma {:induction false} SharedPrefetchRowsKept(vs: seq<StreamView>, base: seq<PrefetchCmd>, k: nat)
    requires Writable(vs) && k <= |vs| && |base| == ACM_MAX_EGRESS_OPERATIONS
    ensures PrefetchImage(vs, base, k)[GATHER_NOP_IDX] == PrefetchNop
    ensures PrefetchImage(vs, base, k)[GATHER_FORWARD_IDX] == PrefetchNop
  {
    if k > 0 {
      SharedPrefetchRowsKept(vs, base, k - 1);
      if Sends(vs[k - 1].kind) {
        SenderKeepsSharedRows(vs, k - 1, seq(|base|, _ => GATHER_NOP), PrefetchImage(vs, base, k - 1));
      }
    }
  }

  /** A table holds `rows` from `start` on. */
  ghost predicate Holds<T>(table: seq<T>, start: nat, rows: seq<T>) {
    start + |rows| <= |table| && forall j :: 0 <= j < |rows| ==> table[start + j] == rows[j]
  }

  lemma PutHolds<T>(table: seq<T>, start: nat, rows: seq<T>)
    requires start + |rows| <= |table|
    ensures Holds(Put(table, start, rows), start, rows)
  {
  }

  lemma PutElsewhere<T>(table: seq<T>, start: nat, rows: seq<T>, other: nat, written: seq<T>)
    requires Holds(table, start, rows) && other + |written| <= |table|
    requires start + |rows| <= other || other + |written| <= start
    ensures Holds(Put(table, other, written), start, rows)
  {
  }

  /** The programs of a sender are where its index says. */
  ghost predicate ProgramsInPlace(v: StreamView, start: nat, gather: seq<GatherCmd>, prefetch: seq<PrefetchCmd>)
    requires OpsComplete(v.ops)
  {
    && Holds(gather, start, GatherProgram(v.kind.RedundantTx?, v.ops))
    && Holds(prefetch, start, PrefetchProgram(v.kind.RedundantTx?, v.ops))
  }

  /** Writing another stream does not touch them. */
  lemma WriteKeepsPrograms(vs: seq<StreamView>, k: nat, m: nat, gather: seq<GatherCmd>, prefetch: seq<PrefetchCmd>)
    requires Writable(vs) && k < m < |vs| && |gather| == |prefetch| == ACM_MAX_EGRESS_OPERATIONS
    requires Sends(vs[k].kind) && OwnRows(vs[k]) && Sends(vs[m].kind)
    requires ProgramsInPlace(vs[k], GatherIndex(vs, k), gather, prefetch)
    ensures GatherIndex(vs, m) + |GatherProgram(vs[m].kind.RedundantTx?, vs[m].ops)| <= ACM_MAX_EGRESS_OPERATIONS
    ensures GatherIndex(vs, m) + |PrefetchProgram(vs[m].kind.RedundantTx?, vs[m].ops)| <= ACM_MAX_EGRESS_OPERATIONS
    ensures ProgramsInPlace(vs[k], GatherIndex(vs, k),
      Put(gather, GatherIndex(vs, m), GatherProgram(vs[m].kind.RedundantTx?, vs[m].ops)),
      Put(prefetch, GatherIndex(vs, m), PrefetchProgram(vs[m].kind.RedundantTx?, vs[m].ops)))
  {
    ProgramsInTable(vs, m);
    ProgramsFit(vs[k]);
    ProgramsFit(vs[m]);
    if OwnRows(vs[m]) {
      GatherRangesDisjoint(vs, k, m);
    } else {
      GatherRangeInBudget(vs, k);
    }
    PutElsewhere(gather, GatherIndex(vs, k), GatherProgram(vs[k].kind.RedundantTx?, vs[k].ops),
      GatherIndex(vs, m), GatherProgram(vs[m].kind.RedundantTx?, vs[m].ops));
    PutElsewhere(prefetch, GatherIndex(vs, k), PrefetchProgram(vs[k].kind.RedundantTx?, vs[k].ops),
      GatherIndex(vs, m), PrefetchProgram(vs[m].kind.RedundantTx?, vs[m].ops));
  }

  lemma ReceiverKeepsPrograms(vs: seq<StreamView>, gbase: seq<GatherCmd>, pbase: seq<PrefetchCmd>, k: nat, m: nat)
    requires Writable(vs) && k < m < |vs| && |gbase| == |pbase| == ACM_MAX_EGRESS_OPERATIONS
    requires Sends(vs[k].kind) && OwnRows(vs[k]) && !Sends(vs[m].kind)
    requires ProgramsInPlace(vs[k], GatherIndex(vs, k), GatherImage(vs, gbase, m), PrefetchImage(vs, pbase, m))
    ensures ProgramsInPlace(vs[k], GatherIndex(vs, k), GatherImage(vs, gbase, m + 1), PrefetchImage(vs, pbase, m + 1))
  {
    ReceiverSharesRows(vs[m]);
    GatherRangeInBudget(vs, k);
  }

  lemma SenderKeepsPrograms(vs: seq<StreamView>, gbase: seq<GatherCmd>, pbase: seq<PrefetchCmd>, k: nat, m: nat)
    requires Writable(vs) && k < m < |vs| && |gbase| == |pbase| == ACM_MAX_EGRESS_OPERATIONS
    requires Sends(vs[k].kind) && OwnRows(vs[k]) && Sends(vs[m].kind)
    requires ProgramsInPlace(vs[k], GatherIndex(vs, k), GatherImage(vs, gbase, m), PrefetchImage(vs, pbase, m))
    ensures ProgramsInPlace(vs[k], GatherIndex(vs, k), GatherImage(vs, gbase, m + 1), PrefetchImage(vs, pbase, m + 1))
  {
    WriteKeepsPrograms(vs, k, m, GatherImage(vs, gbase, m), PrefetchImage(vs, pbase, m));
  }

  lemma OwnProgramsInPlace(vs: seq<StreamView>, gbase: seq<GatherCmd>, pbase: seq<PrefetchCmd>, k: nat)
    requires Writable(vs) && k < |vs| && |gbase| == |pbase| == ACM_MAX_EGRESS_OPERATIONS && Sends(vs[k].kind)
    ensures ProgramsInPlace(vs[k], GatherIndex(vs, k), GatherImage(vs, gbase, k + 1), PrefetchImage(vs, pbase, k + 1))
  {
    ProgramsInTable(vs, k);
    PutHolds(GatherImage(vs, gbase, k), GatherIndex(vs, k), GatherProgram(vs[k].kind.RedundantTx?, vs[k].ops));
    PutHolds(PrefetchImage(vs, pbase, k), GatherIndex(vs, k), PrefetchProgram(vs[k].kind.RedundantTx?, vs[k].ops));
  }

  /** No later stream overwrites the programs of a sender. */
  lemma {:induction false} ProgramsStay(vs: seq<StreamView>, gbase: seq<GatherCmd>, pbase: seq<PrefetchCmd>, k: nat,
                                        m: nat)
    requires Writable(vs) && k < m <= |vs| && |gbase| == |pbase| == ACM_MAX_EGRESS_OPERATIONS
    requires Sends(vs[k].kind) && OwnRows(vs[k])
    ensures ProgramsInPlace(vs[k], GatherIndex(vs, k), GatherImage(vs, gbase, m), PrefetchImage(vs, pbase, m))
  {
    if k == m - 1 {
      OwnProgramsInPlace(vs, gbase, pbase, k);
    } else {
      ProgramsStay(vs, gbase, pbase, k, m - 1);
      if Sends(vs[m - 1].kind) {
        SenderKeepsPrograms(vs, gbase, pbase, k, m - 1);
      } else {
        ReceiverKeepsPrograms(vs, gbase, pbase, k, m - 1);
      }
    }
  }

  // ---- stale indexes ----

  lemma FrameRowsCounted(ops: seq<Operation>)
    requires FrameOps(ops)
    ensures CountGather(ops, |ops|) == |ops|
  {
    CountGatherAll(ops, |ops|);
  }

  /** A sender whose range was laid out before it became redundant, and whose gather commands
      already filled it, writes one row more than reserved; that row, the one with the last
      flag, is the first row of the next stream, which overwrites it. */
  lemma UnrefreshedSenderLosesLastRow(vs: seq<StreamView>, k: nat, next: nat, table: seq<GatherCmd>,
                                      rows: seq<GatherCmd>)
    requires k < next < |vs| && vs[k].kind.TimeTriggered? && OwnRows(vs[k]) && OwnRows(vs[next])
    requires forall j :: k < j < next ==> !OwnRows(vs[j])
    requires FrameOps(vs[k].ops) && OpsComplete(vs[k].ops) && |vs[k].ops| > NUM_AUTOGEN_OPS
    requires GatherOps(vs[k]) >= PrefetchOps(vs[k])
    requires GatherIndex(vs, next) + |rows| <= |table| && rows != []
    ensures var program := GatherProgram(true, vs[k].ops);
      && |program| == RowsNeeded(vs[k]) + 1
      && IsLast(program[|program| - 1])
      && GatherIndex(vs, k) + |program| - 1 == GatherIndex(vs, next)
      && GatherIndex(vs, k) + |program| <= |table|
      && Put(Put(table, GatherIndex(vs, k), program), GatherIndex(vs, next), rows)[GatherIndex(vs, next)] == rows[0]
  {
    FrameRowsCounted(vs[k].ops);
    SharedKeepBase(vs, k + 1, next);
    LastFlagOnFinalRowOnly(true, vs[k].ops, |vs[k].ops|);
  }

  lemma {:induction false} AssembledLength(rows: seq<GatherCmd>, moves: seq<Move>, constants: seq<Byte>)
    ensures var frame := Assemble(rows, moves, constants); frame.Some? ==> |frame.value| == |rows|
  {
    if rows != [] {
      AssembledLength(rows[..|rows| - 1], moves, constants);
    }
  }

  lemma OverwrittenLast<T>(table: seq<T>, start: nat, program: seq<T>, other: seq<T>)
    requires program != [] && start + |program| <= |table| && start + |program| - 1 + |other| <= |table|
    ensures var after := Put(Put(table, start, program), start + |program| - 1, other);
      Holds(after, start, program[..|program| - 1] + other)
  {
  }

  /** Rows without the last flag, then a program that stops. */
  lemma RunsIntoNext(front: seq<GatherCmd>, other: seq<GatherCmd>, rest: seq<GatherCmd>)
    requires forall j :: 0 <= j < |front| ==> !IsLast(front[j])
    requires RunGather(other + rest) == Some(other)
    ensures RunGather(front + other + rest) == Some(front + other)
  {
    RunsPast(front, other + rest);
    assert front + other + rest == front + (other + rest);
  }

  /** The gather table in which sender `k` was written after it became redundant, and then
      stream `next`, both to the rows of the old indexes. */
  function StaleTable(vs: seq<StreamView>, k: nat, next: nat, table: seq<GatherCmd>): (r: seq<GatherCmd>)
    requires k < |vs| && next < |vs| && OpsComplete(vs[k].ops) && OpsComplete(vs[next].ops)
    requires GatherIndex(vs, k) + |GatherProgram(true, vs[k].ops)| <= |table|
    requires GatherIndex(vs, next) + |GatherProgram(vs[next].kind.RedundantTx?, vs[next].ops)| <= |table|
  {
    Put(Put(table, GatherIndex(vs, k), GatherProgram(true, vs[k].ops)), GatherIndex(vs, next),
      GatherProgram(vs[next].kind.RedundantTx?, vs[next].ops))
  }

  /** Triggered through its old index, the sender does not stop: its last part is missing, and
      the frame of the next stream follows instead. */
  lemma UnrefreshedSenderRunsOn(vs: seq<StreamView>, k: nat, next: nat, table: seq<GatherCmd>)
    requires k < next < |vs| && vs[k].kind.TimeTriggered? && OwnRows(vs[k]) && OwnRows(vs[next])
    requires forall j :: k < j < next ==> !OwnRows(vs[j])
    requires FrameOps(vs[k].ops) && OpsComplete(vs[k].ops) && |vs[k].ops| > NUM_AUTOGEN_OPS
    requires OpsComplete(vs[next].ops) && |vs[next].ops| > NUM_AUTOGEN_OPS
    requires GatherOps(vs[k]) >= PrefetchOps(vs[k])
    requires GatherIndex(vs, k) + |GatherProgram(true, vs[k].ops)| <= |table|
    requires GatherIndex(vs, next) + |GatherProgram(vs[next].kind.RedundantTx?, vs[next].ops)| <= |table|
    ensures var program := GatherProgram(true, vs[k].ops);
      var other := GatherProgram(vs[next].kind.RedundantTx?, vs[next].ops);
      RunGather(StaleTable(vs, k, next, table)[GatherIndex(vs, k)..]) == Some(program[..|program| - 1] + other)
  {
    var program := GatherProgram(true, vs[k].ops);
    var other := GatherProgram(vs[next].kind.RedundantTx?, vs[next].ops);
    UnrefreshedSenderLosesLastRow(vs, k, next, table, other);
    LastFlagOnFinalRowOnly(true, vs[k].ops, |vs[k].ops|);
    var front, start, after := program[..|program| - 1], GatherIndex(vs, k), StaleTable(vs, k, next, table);
    OverwrittenLast(table, start, program, other);
    ProgramAt(after, start, front + other);
    var rest := after[start + |front + other|..];
    GatherProgramStops(vs[next].kind.RedundantTx?, vs[next].ops);
    assert RunGather(other + rest) == Some(other);
    RunsIntoNext(front, other, rest);
  }

  /** So what is sent is not what the redundant sender asks for, whatever the other tables hold. */
  lemma UnrefreshedSenderSendsOtherFrame(vs: seq<StreamView>, k: nat, next: nat, table: seq<GatherCmd>, t: Tables)
    requires k < next < |vs| && vs[k].kind.TimeTriggered? && OwnRows(vs[k]) && OwnRows(vs[next])
    requires forall j :: k < j < next ==> !OwnRows(vs[j])
    requires FrameOps(vs[k].ops) && OpsComplete(vs[k].ops) && |vs[k].ops| > NUM_AUTOGEN_OPS
    requires OpsComplete(vs[next].ops) && |vs[next].ops| > NUM_AUTOGEN_OPS
    requires GatherOps(vs[k]) >= PrefetchOps(vs[k])
    requires GatherIndex(vs, k) + |GatherProgram(true, vs[k].ops)| <= |table|
    requires GatherIndex(vs, next) + |GatherProgram(vs[next].kind.RedundantTx?, vs[next].ops)| <= |table|
    requires t.gather == StaleTable(vs, k, next, table)
    requires GatherIndex(vs, k) <= |t.gather| && GatherIndex(vs, k) <= |t.prefetch|
    ensures Send(t, GatherIndex(vs, k)) != Some(Intended(MadeRedundant(vs, k)[k]))
  {
    UnrefreshedSenderRunsOn(vs, k, next, table);
    var fetched := RunPrefetch(t.prefetch[GatherIndex(vs, k)..]);
    if fetched.Some? {
      AssembledLength(RunGather(t.gather[GatherIndex(vs, k)..]).value, fetched.value.moves, t.constants);
    }
  }

  /** Such an input: two senders of three header constants and a PAD, the first of which
      becomes redundant. Its five rows start at 2 and the next sender's at 6. */
  lemma UnrefreshedSenderExample()
    ensures var ops := PlainHeader() + [Operation(PAD, 0, 48, "", [0], null, 0)];
      var v := StreamView(TimeTriggered, ops);
      && WellTyped(v) && OpsComplete(ops) && FrameSize(ops, |ops|) == ACM_MIN_FRAME_SIZE
      && GatherIndex([v, v], 0) == 2 && GatherIndex([v, v], 1) == 6
      && |GatherProgram(true, ops)| == 5
  {
    var ops := PlainHeader() + [Operation(PAD, 0, 48, "", [0], null, 0)];
    var v := StreamView(TimeTriggered, ops);
    assert FrameOps(ops);
    FrameRowsCounted(ops);
    NoInserts(ops, |ops|);
    assert GatherBase([v, v], 1) == GatherBase([v, v], 0) + 4;
    assert FrameSize(ops, 1) == 6;
    assert FrameSize(ops, 2) == 12;
    assert FrameSize(ops, 3) == 16;
  }

  lemma {:induction false} NoInserts(ops: seq<Operation>, k: nat)
    requires k <= |ops| && forall j :: 0 <= j < |ops| ==> !ops[j].opcode.INSERT?
    ensures NumOps(ops, INSERT, k) == 0
  {
    if k > 0 {
      NoInserts(ops, k - 1);
    }
  }

  // ---- frames ----

  /** Bytes of the frame that the first `k` operations build. */
  function FrameSize(ops: seq<Operation>, k: nat): nat
    requires k <= |ops|
  {
    if k == 0 then 0 else FrameSize(ops, k - 1) + if IsFrameOp(ops[k - 1]) then ops[k - 1].length else 0
  }

  method CalcStreamEgressFramesize(stream: AcmStream) returns (n: nat)
    ensures n == FrameSize(stream.operations, |stream.operations|)
  {
    n := 0;
    for i := 0 to |stream.operations|
      invariant n == FrameSize(stream.operations, i)
    {
      var op := stream.operations[i];
      if op.opcode == INSERT || op.opcode == INSERT_CONSTANT || op.opcode == PAD || op.opcode == FORWARD {
        n := n + op.length;
      }
    }
  }

  /** Every sender starts with the two addresses and the VLAN tag. */
  predicate HasHeader(ops: seq<Operation>) {
    |ops| >= NUM_AUTOGEN_OPS && ops[0].length == 6 && ops[1].length == 6 && ops[2].length == 4
  }

  lemma HeaderSize(ops: seq<Operation>)
    requires HasHeader(ops)
    ensures FrameSize(ops, NUM_AUTOGEN_OPS) <= 16
  {
    assert FrameSize(ops, 2) <= 12 by {
      assert FrameSize(ops, 1) <= 6;
    }
  }

  /** A frame of 64 bytes needs operations beyond the 16 bytes of the header. */
  lemma MinimumFrameHasMoreOps(ops: seq<Operation>)
    requires HasHeader(ops) && FrameSize(ops, |ops|) >= ACM_MIN_FRAME_SIZE
    ensures |ops| > NUM_AUTOGEN_OPS
  {
    HeaderSize(ops);
  }

  /** What the hardware sends for a gather index: the frame, and the buffers it locks. */
  datatype Sent = Sent(frame: seq<Part>, locked: set<(nat, bool)>)

  function Send(t: Tables, index: nat): Option<Sent>
    requires index <= |t.gather| && index <= |t.prefetch|
  {
    match (RunGather(t.gather[index..]), RunPrefetch(t.prefetch[index..]))
    case (Some(rows), Some(fetched)) =>
      (match Assemble(rows, fetched.moves, t.constants)
       case Some(frame) => Some(Sent(frame, fetched.locked))
       case None => None)
    case (_, _) => None
  }

  /** What a sender asks for. */
  function Intended(v: StreamView): Sent
    requires FrameOps(v.ops) && OpsComplete(v.ops)
  {
    Sent(IntendedFrame(v.kind.RedundantTx?, v.ops), LockedAs(LockVector(v.ops, |v.ops|), v.kind.RedundantTx?))
  }

  /** What it gets: its messages come from the buffers that five bits name. */
  function Obtained(v: StreamView): Sent
    requires FrameOps(v.ops) && OpsComplete(v.ops)
  {
    Intended(v).(frame := PartsWithIds(Intended(v).frame))
  }

  /** That is what it asks for exactly when five bits can name all of them. */
  lemma IntendedIfNameable(v: StreamView)
    requires FrameOps(v.ops) && OpsComplete(v.ops)
    ensures Obtained(v) == Intended(v) <==> Nameable(v.ops, INSERT)
  {
    FrameNameable(v.kind.RedundantTx?, v.ops);
  }

  /** A sender of an accepted module: 64 bytes, header first. */
  predicate Sendable(v: StreamView) {
    Sends(v.kind) && HasHeader(v.ops) && FrameSize(v.ops, |v.ops|) >= ACM_MIN_FRAME_SIZE
  }

  lemma RowsBuildObtained(v: StreamView, constants: seq<Byte>)
    requires FrameOps(v.ops) && OpsComplete(v.ops) && ConstantsPlaced(v.ops, constants)
    ensures Assemble(GatherProgram(v.kind.RedundantTx?, v.ops), MovesWithIds(Messages(v.ops, |v.ops|)), constants)
      == Some(Obtained(v).frame)
  {
    GatherProgramBuildsFrame(v.kind.RedundantTx?, v.ops, constants);
    AssembleWithIds(GatherProgram(v.kind.RedundantTx?, v.ops), Messages(v.ops, |v.ops|), constants);
  }

  /** Programs in place produce the frame, whatever the rest of the tables holds. */
  lemma ProgramsProduceFrame(v: StreamView, start: nat, t: Tables)
    requires Sendable(v) && FrameOps(v.ops) && OpsComplete(v.ops) && ConstantsPlaced(v.ops, t.constants)
    requires ProgramsInPlace(v, start, t.gather, t.prefetch)
    ensures Send(t, start) == Some(Obtained(v))
  {
    var redundant := v.kind.RedundantTx?;
    var g, p := GatherProgram(redundant, v.ops), PrefetchProgram(redundant, v.ops);
    MinimumFrameHasMoreOps(v.ops);
    GatherProgramStops(redundant, v.ops);
    ProgramAt(t.gather, start, g);
    assert RunGather(t.gather[start..]) == Some(g);
    ProgramAt(t.prefetch, start, p);
    PrefetchProgramFetchesMessages(redundant, v.ops, t.prefetch[start + |p|..]);
    RowsBuildObtained(v, t.constants);
  }

  /** Once all streams are written, triggering the gather index of any sender locks exactly
      its message buffers and produces its frame; it does so from its own buffers if and only
      if their indexes are below 32. */
  lemma SenderProducesItsFrame(vs: seq<StreamView>, base: Tables, t: Tables, k: nat)
    requires Writable(vs) && k < |vs| && base.Sized()
    requires t.gather == GatherImage(vs, base.gather, |vs|) && t.prefetch == PrefetchImage(vs, base.prefetch, |vs|)
    requires Sendable(vs[k]) && ConstantsPlaced(vs[k].ops, t.constants)
    ensures FrameOps(vs[k].ops) && GatherIndex(vs, k) <= ACM_MAX_EGRESS_OPERATIONS
    ensures Send(t, GatherIndex(vs, k)) == Some(Obtained(vs[k]))
    ensures Send(t, GatherIndex(vs, k)) == Some(Intended(vs[k])) <==> Nameable(vs[k].ops, INSERT)
  {
    SenderHasFrameOps(vs[k]);
    IntendedIfNameable(vs[k]);
    ProgramsFit(vs[k]);
    ProgramsInTable(vs, k);
    ProgramsStay(vs, base.gather, base.prefetch, k, |vs|);
    ProgramsProduceFrame(vs[k], GatherIndex(vs, k), t);
  }

  // ---- streams that send nothing of their own ----

  /** A stream without gather commands: a receiver that does not forward everything, or a
      sender without operations that gets no R-tag. */
  predicate Idle(v: StreamView) {
    if IsIngress(v.kind) then !HasOp(v.ops, FORWARD_ALL) else v.ops == [] && !v.kind.RedundantTx?
  }

  lemma IdleHasNopIndex(vs: seq<StreamView>, k: nat)
    requires k < |vs| && WellTyped(vs[k]) && Idle(vs[k])
    ensures GatherIndex(vs, k) == 0
  {
    if IsIngress(vs[k].kind) {
      ReceiverSharesRows(vs[k]);
    }
  }

  /** What is sent for row 0: the first zero bytes of the received frame, and no buffer is
      locked. */
  lemma NopSendsNothing(t: Tables)
    requires |t.gather| > 0 && |t.prefetch| > 0 && t.gather[0] == GATHER_NOP && t.prefetch[0] == PrefetchNop
    ensures Send(t, 0) == Some(Sent([FrameSlice(0, 0)], {}))
  {
    assert t.gather[0..][0] == GATHER_NOP && t.prefetch[0..][0] == PrefetchNop;
    AssembleStep([], GATHER_NOP, [], t.constants, [], FrameSlice(0, 0));
    assert [] + [GATHER_NOP] == [GATHER_NOP] && [] + [FrameSlice(0, 0)] == [FrameSlice(0, 0)];
  }

  /** In the finished tables, the gather index of a stream that has nothing to send makes the
      hardware append nothing and lock nothing. */
  lemma IdleSendsNothing(vs: seq<StreamView>, base: Tables, t: Tables, k: nat)
    requires Writable(vs) && k < |vs| && base.Sized()
    requires t.gather == GatherImage(vs, base.gather, |vs|) && t.prefetch == PrefetchImage(vs, base.prefetch, |vs|)
    requires Idle(vs[k])
    ensures GatherIndex(vs, k) <= |t.gather| == |t.prefetch|
    ensures Send(t, GatherIndex(vs, k)) == Some(Sent([FrameSlice(0, 0)], {}))
  {
    IdleHasNopIndex(vs, k);
    SharedGatherRowsKept(vs, base.gather, |vs|);
    SharedPrefetchRowsKept(vs, base.prefetch, |vs|);
    assert t.gather[..GATHER_START_IDX][GATHER_NOP_IDX] == GATHER_NOP;
    NopSendsNothing(t);
  }

  // ---- scatter table ----

  lemma ScatterProgramInTable(vs: seq<StreamView>, k: nat)
    requires Writable(vs) && k < |vs| && IsIngress(vs[k].kind)
    ensures ScatterIndex(vs, k) + |ScatterRows(vs[k].ops, |vs[k].ops|)| <= ACM_MAX_INGRESS_OPERATIONS
  {
    if ScatterOps(vs[k]) > 0 {
      ScatterRangeInBudget(vs, k);
    }
  }

  /** The scatter table after the first `k` streams are written over table `base`. */
  function ScatterImage(vs: seq<StreamView>, base: seq<ScatterCmd>, k: nat): (r: seq<ScatterCmd>)
    requires Writable(vs) && k <= |vs| && |base| == ACM_MAX_INGRESS_OPERATIONS
    ensures |r| == |base|
  {
    if k == 0 then base[SCATTER_NOP_IDX := SCATTER_NOP]
    else
      var before := ScatterImage(vs, base, k - 1);
      if IsIngress(vs[k - 1].kind) then
        ScatterProgramInTable(vs, k - 1);
        Put(before, ScatterIndex(vs, k - 1), ScatterRows(vs[k - 1].ops, |vs[k - 1].ops|))
      else before
  }

  lemma {:induction false} ScatterNopKept(vs: seq<StreamView>, base: seq<ScatterCmd>, k: nat)
    requires Writable(vs) && k <= |vs| && |base| == ACM_MAX_INGRESS_OPERATIONS
    ensures ScatterImage(vs, base, k)[SCATTER_NOP_IDX] == SCATTER_NOP
  {
    if k > 0 {
      ScatterNopKept(vs, base, k - 1);
      if IsIngress(vs[k - 1].kind) && ScatterOps(vs[k - 1]) > 0 {
        ScatterRangeInBudget(vs, k - 1);
      }
    }
  }

  lemma {:induction false} ScatterProgramsStay(vs: seq<StreamView>, base: seq<ScatterCmd>, k: nat, m: nat)
    requires Writable(vs) && k < m <= |vs| && |base| == ACM_MAX_INGRESS_OPERATIONS
    requires IsIngress(vs[k].kind) && ScatterOps(vs[k]) > 0
    ensures Holds(ScatterImage(vs, base, m), ScatterIndex(vs, k), ScatterRows(vs[k].ops, |vs[k].ops|))
  {
    ScatterProgramInTable(vs, k);
    if k < m - 1 {
      ScatterProgramsStay(vs, base, k, m - 1);
      if IsIngress(vs[m - 1].kind) {
        ScatterProgramInTable(vs, m - 1);
        if ScatterOps(vs[m - 1]) > 0 {
          ScatterRangesDisjoint(vs, k, m - 1);
        }
        PutElsewhere(ScatterImage(vs, base, m - 1), ScatterIndex(vs, k), ScatterRows(vs[k].ops, |vs[k].ops|),
          ScatterIndex(vs, m - 1), ScatterRows(vs[m - 1].ops, |vs[m - 1].ops|));
      }
    }
  }

  /** What a receiver asks for: its READs, or the NOP. */
  function Asked(v: StreamView): seq<Store>
    requires OpsComplete(v.ops)
  {
    if ScatterOps(v) > 0 then Reads(v.ops, |v.ops|) else [Store(0, 0, 0)]
  }

  lemma AskedIfNameable(v: StreamView)
    requires OpsComplete(v.ops)
    ensures StoresWithIds(Asked(v)) == Asked(v) <==> Nameable(v.ops, READ)
  {
    if ScatterOps(v) > 0 {
      ReadsNameable(v.ops);
    } else {
      NoReadCount(v.ops, 0);
      SameStoresIfIdsFit([Store(0, 0, 0)]);
    }
  }

  /** Once all streams are written, triggering the scatter index of a receiver performs
      exactly its READ operations in order; without READ it runs the NOP of row 0. It stores
      in its own buffers if and only if their indexes are below 32. */
  lemma ReceiverStoresItsReads(vs: seq<StreamView>, base: seq<ScatterCmd>, k: nat)
    requires Writable(vs) && k < |vs| && |base| == ACM_MAX_INGRESS_OPERATIONS && IsIngress(vs[k].kind)
    ensures ScatterIndex(vs, k) < ACM_MAX_INGRESS_OPERATIONS
    ensures RunScatter(ScatterImage(vs, base, |vs|)[ScatterIndex(vs, k)..])
      == Some(StoresWithIds(Asked(vs[k])))
    ensures RunScatter(ScatterImage(vs, base, |vs|)[ScatterIndex(vs, k)..]) == Some(Asked(vs[k]))
      <==> Nameable(vs[k].ops, READ)
  {
    AskedIfNameable(vs[k]);
    var table := ScatterImage(vs, base, |vs|);
    if ScatterOps(vs[k]) > 0 {
      var rows := ScatterRows(vs[k].ops, |vs[k].ops|);
      ScatterProgramInTable(vs, k);
      ScatterProgramsStay(vs, base, k, |vs|);
      ProgramAt(table, ScatterIndex(vs, k), rows);
      ScatterProgramStoresReads(vs[k].ops, table[ScatterIndex(vs, k) + |rows|..]);
    } else {
      ScatterNopKept(vs, base, |vs|);
      assert table[0..][0] == SCATTER_NOP;
      SameStoresIfIdsFit([Store(0, 0, 0)]);
    }
  }

  /** The scatter index of a sender runs the NOP of row 0. */
  lemma SenderStoresNothing(vs: seq<StreamView>, base: seq<ScatterCmd>, k: nat)
    requires Writable(vs) && k < |vs| && |base| == ACM_MAX_INGRESS_OPERATIONS && Sends(vs[k].kind)
    ensures ScatterIndex(vs, k) < ACM_MAX_INGRESS_OPERATIONS
    ensures RunScatter(ScatterImage(vs, base, |vs|)[ScatterIndex(vs, k)..]) == Some([Store(0, 0, 0)])
  {
    ScatterNopKept(vs, base, |vs|);
    assert ScatterImage(vs, base, |vs|)[0..][0] == SCATTER_NOP;
  }

  // ---- constant buffer ----

  /** Constants the validation counts for the first `k` operations. */
  function SumConstBuffer(ops: seq<Operation>, k: nat): nat
    requires k <= |ops|
  {
    if k == 0 then 0
    else SumConstBuffer(ops, k - 1) + if ops[k - 1].opcode.INSERT_CONSTANT? then ops[k - 1].length else 0
  }

  function ModuleConstBuffer(vs: seq<StreamView>, k: nat): nat
    requires k <= |vs|
  {
    if k == 0 then 0 else ModuleConstBuffer(vs, k - 1) + SumConstBuffer(vs[k - 1].ops, |vs[k - 1].ops|)
  }

  lemma {:induction false} SumConstBufferGrows(ops: seq<Operation>, j: nat, k: nat)
    requires j <= k <= |ops|
    ensures SumConstBuffer(ops, j) <= SumConstBuffer(ops, k)
  {
    if j < k {
      SumConstBufferGrows(ops, j, k - 1);
    }
  }

  lemma {:induction false} ModuleConstBufferGrows(vs: seq<StreamView>, j: nat, k: nat)
    requires j <= k <= |vs|
    ensures ModuleConstBuffer(vs, j) <= ModuleConstBuffer(vs, k)
  {
    if j < k {
      ModuleConstBufferGrows(vs, j, k - 1);
    }
  }

  /** Operations that differ at most in the recorded constant buffer offset. */
  ghost predicate SameButOffset(a: Operation, b: Operation) {
    b == a.(constBuffOffset := b.constBuffOffset)
  }

  ghost predicate SameButOffsets(a: seq<Operation>, b: seq<Operation>) {
    |a| == |b| && forall j :: 0 <= j < |a| ==> SameButOffset(a[j], b[j])
  }

  /** What is placed stays placed while the buffer grows behind it. */
  lemma PlacedStays(op: Operation, front: seq<Byte>, buffer: seq<Byte>)
    requires ConstantPlaced(op, front) && front <= buffer
    ensures ConstantPlaced(op, buffer)
  {
    if op.opcode.INSERT_CONSTANT? {
      var lo, hi := op.constBuffOffset, op.constBuffOffset + |op.data|;
      assert buffer[..|front|] == front;
      assert buffer[lo..hi] == front[lo..hi];
    }
  }
}
