/** The DMA commands the library emits for one stream, and how the hardware runs them:
    the gather commands build the frame to send, the prefetch commands lock and fetch the
    message buffers it takes data from, the scatter commands store received data. */
module DmaProgram {
  import opened Entities

  // ---- commands ----

  datatype GatherCmd =
    | ConstBuff(last: bool, length: nat, offset: nat)
    | ConstByte(last: bool, length: nat, value: Byte)
    | FrameBuff(last: bool, length: nat, offset: nat)
    | PrefetchData(last: bool)
    | ForwardFrame
    | RTag

  /** A forward-all or R-tag command has no last flag. */
  predicate IsLast(c: GatherCmd) {
    match c
    case ConstBuff(last, _, _) => last
    case ConstByte(last, _, _) => last
    case FrameBuff(last, _, _) => last
    case PrefetchData(last) => last
    case ForwardFrame => false
    case RTag => false
  }

  datatype PrefetchCmd =
    | PrefetchNop
    | MoveBuffer(last: bool, length: nat, buf: nat)
    | LockBuffers(group: nat, dual: bool, bits: set<nat>)

  datatype ScatterCmd = StoreData(last: bool, offset: nat, length: nat, buf: nat)

  /** The field for a message buffer in a move or store command has five bits. */
  function MsgbufId(index: nat): (id: nat)
    ensures id < MSGBUF_ID_LIMIT
    ensures id == index <==> index < MSGBUF_ID_LIMIT
  {
    index % MSGBUF_ID_LIMIT
  }

  const GATHER_NOP := FrameBuff(true, 0, 0)
  const SCATTER_NOP := StoreData(true, 0, 0, 0)

  // ---- operations ----

  /** Operations that append to the frame to send. */
  predicate IsFrameOp(op: Operation) {
    op.opcode.INSERT? || op.opcode.INSERT_CONSTANT? || op.opcode.PAD? || op.opcode.FORWARD?
  }

  predicate IsGatherOp(op: Operation) {
    IsFrameOp(op) || op.opcode.FORWARD_ALL?
  }

  /** What the creation functions of operations guarantee, and for READ and INSERT the
      link to a message buffer that the allocator sets. */
  predicate OpComplete(op: Operation) {
    && (op.opcode.INSERT_CONSTANT? ==> |op.data| == op.length)
    && (op.opcode.PAD? ==> |op.data| == 1)
    && (UsesBuffer(op) ==> op.msgBuf != null && op.msgBuf.index < LOCK_CTRL_MAXSIZE)
  }

  predicate OpsComplete(ops: seq<Operation>) {
    forall k :: 0 <= k < |ops| ==> OpComplete(ops[k])
  }

  predicate FrameOps(ops: seq<Operation>) {
    forall k :: 0 <= k < |ops| ==> IsFrameOp(ops[k])
  }

  function BufferOf(op: Operation): nat
    requires UsesBuffer(op) && OpComplete(op)
  {
    op.msgBuf.index
  }

  // ---- what a stream wants to send ----

  datatype Part =
    | Message(buf: nat, length: nat)
    | Bytes(data: seq<Byte>)
    | Fill(length: nat, value: Byte)
    | FrameSlice(offset: nat, length: nat)
    | RedundancyTag

  function PartOf(op: Operation): Part
    requires IsFrameOp(op) && OpComplete(op)
  {
    match op.opcode
    case INSERT => Message(BufferOf(op), op.length)
    case INSERT_CONSTANT => Bytes(op.data)
    case PAD => Fill(op.length, op.data[0])
    case _ => FrameSlice(op.offset, op.length)
  }

  function Parts(ops: seq<Operation>): (r: seq<Part>)
    requires FrameOps(ops) && OpsComplete(ops)
    ensures |r| == |ops|
  {
    if ops == [] then [] else Parts(ops[..|ops| - 1]) + [PartOf(ops[|ops| - 1])]
  }

  /** The frame of a sending stream: its operations in order, and for a redundant sender
      the redundancy tag after the three header operations. */
  function IntendedFrame(redundant: bool, ops: seq<Operation>): seq<Part>
    requires FrameOps(ops) && OpsComplete(ops)
  {
    if redundant && |ops| >= NUM_AUTOGEN_OPS
    then Parts(ops[..NUM_AUTOGEN_OPS]) + [RedundancyTag] + Parts(ops[NUM_AUTOGEN_OPS..])
    else Parts(ops)
  }

  // ---- running gather commands ----

  /** The commands from the first row up to the first one with the last flag. */
  function RunGather(rows: seq<GatherCmd>): Option<seq<GatherCmd>> {
    if rows == [] then None
    else if IsLast(rows[0]) then Some([rows[0]])
    else
      match RunGather(rows[1..])
      case Some(r) => Some([rows[0]] + r)
      case None => None
  }

  datatype Move = Move(buf: nat, length: nat)

  function PrefetchUses(rows: seq<GatherCmd>): nat {
    if rows == [] then 0
    else PrefetchUses(rows[..|rows| - 1]) + if rows[|rows| - 1].PrefetchData? then 1 else 0
  }

  /** What one command appends to the frame; `used` messages have been taken before. */
  function Emits(c: GatherCmd, moves: seq<Move>, used: nat, constants: seq<Byte>): Option<Part> {
    match c
    case ConstBuff(_, length, offset) =>
      if offset + length <= |constants| then Some(Bytes(constants[offset..offset + length])) else None
    case ConstByte(_, length, value) => Some(Fill(length, value))
    case FrameBuff(_, length, offset) => Some(FrameSlice(offset, length))
    case PrefetchData(_) =>
      if used < |moves| then Some(Message(moves[used].buf, moves[used].length)) else None
    case ForwardFrame => None
    case RTag => Some(RedundancyTag)
  }

  /** The frame that the commands build from the fetched messages and the constant buffer. */
  function Assemble(rows: seq<GatherCmd>, moves: seq<Move>, constants: seq<Byte>): Option<seq<Part>> {
    if rows == [] then Some([])
    else
      var n := |rows| - 1;
      var before := Assemble(rows[..n], moves, constants);
      var part := Emits(rows[n], moves, PrefetchUses(rows[..n]), constants);
      if before.Some? && part.Some? then Some(before.value + [part.value]) else None
  }

  // ---- running prefetch commands ----

  datatype Fetched = Fetched(locked: set<(nat, bool)>, moves: seq<Move>)

  /** Locks (buffer and whether locked twice) and moves up to the last move or a NOP. */
  function RunPrefetch(rows: seq<PrefetchCmd>): Option<Fetched> {
    if rows == [] then None
    else
      match rows[0]
      case PrefetchNop => Some(Fetched({}, []))
      case MoveBuffer(true, length, buf) => Some(Fetched({}, [Move(buf, length)]))
      case MoveBuffer(false, length, buf) =>
        (match RunPrefetch(rows[1..])
         case Some(f) => Some(f.(moves := [Move(buf, length)] + f.moves))
         case None => None)
      case LockBuffers(group, dual, bits) =>
        (match RunPrefetch(rows[1..])
         case Some(f) => Some(f.(locked := (set b | b in bits :: (16 * group + b, dual)) + f.locked))
         case None => None)
  }

  // ---- emission for one sending stream ----

  function GatherRow(op: Operation, last: bool): GatherCmd
    requires OpComplete(op)
  {
    match op.opcode
    case INSERT => PrefetchData(last)
    case INSERT_CONSTANT => ConstBuff(last, op.length, op.constBuffOffset)
    case PAD => ConstByte(last, op.length, op.data[0])
    case _ => FrameBuff(last, op.length, op.offset)
  }

  /** Gather rows written for the first `k` operations. */
  function GatherRows(redundant: bool, ops: seq<Operation>, k: nat): (r: seq<GatherCmd>)
    requires k <= |ops| && OpsComplete(ops)
    ensures |r| == k + if redundant && k >= NUM_AUTOGEN_OPS then 1 else 0
  {
    if k == 0 then []
    else
      GatherRows(redundant, ops, k - 1)
      + [GatherRow(ops[k - 1], k == |ops| && !(redundant && k == NUM_AUTOGEN_OPS))]
      + if redundant && k == NUM_AUTOGEN_OPS then [RTag] else []
  }

  function GatherProgram(redundant: bool, ops: seq<Operation>): seq<GatherCmd>
    requires OpsComplete(ops)
  {
    GatherRows(redundant, ops, |ops|)
  }

  function LockVector(ops: seq<Operation>, k: nat): (r: set<nat>)
    requires k <= |ops| && OpsComplete(ops)
    ensures forall b :: b in r ==> b < LOCK_CTRL_MAXSIZE
  {
    if k == 0 then {}
    else LockVector(ops, k - 1) + if ops[k - 1].opcode.INSERT? then {BufferOf(ops[k - 1])} else {}
  }

  function LockedAs(vector: set<nat>, dual: bool): set<(nat, bool)> {
    set b | b in vector :: (b, dual)
  }

  /** The 16 bits of one group of the lock vector. */
  function GroupBits(vector: set<nat>, group: nat): set<nat> {
    set b | b in vector && 16 * group <= b < 16 * group + 16 :: b - 16 * group
  }

  function LockRows(vector: set<nat>, dual: bool, groups: nat): (r: seq<PrefetchCmd>)
    ensures |r| <= groups
    ensures forall k :: 0 <= k < |r| ==> r[k].LockBuffers?
  {
    if groups == 0 then []
    else
      LockRows(vector, dual, groups - 1)
      + if GroupBits(vector, groups - 1) == {} then []
        else [LockBuffers(groups - 1, dual, GroupBits(vector, groups - 1))]
  }

  /** Number of operations with the given code among the first `k`. */
  function NumOps(ops: seq<Operation>, code: Opcode, k: nat): (r: nat)
    requires k <= |ops|
    ensures r <= k
  {
    if k == 0 then 0 else NumOps(ops, code, k - 1) + if ops[k - 1].opcode == code then 1 else 0
  }

  predicate NoInsertFrom(ops: seq<Operation>, k: nat) {
    forall j :: k <= j < |ops| ==> !ops[j].opcode.INSERT?
  }

  function MoveRows(ops: seq<Operation>, k: nat): (r: seq<PrefetchCmd>)
    requires k <= |ops| && OpsComplete(ops)
    ensures |r| == NumOps(ops, INSERT, k)
    ensures forall j :: 0 <= j < |r| ==> r[j].MoveBuffer?
  {
    if k == 0 then []
    else
      MoveRows(ops, k - 1)
      + if ops[k - 1].opcode.INSERT?
        then [MoveBuffer(NoInsertFrom(ops, k), ops[k - 1].length, MsgbufId(BufferOf(ops[k - 1])))] else []
  }

  function PrefetchProgram(redundant: bool, ops: seq<Operation>): (r: seq<PrefetchCmd>)
    requires OpsComplete(ops)
  {
    if NumOps(ops, INSERT, |ops|) == 0 then [PrefetchNop]
    else LockRows(LockVector(ops, |ops|), redundant, NUM_PREFETCH_LOCK_COMMANDS) + MoveRows(ops, |ops|)
  }

  /** The messages of a stream, in the order of its INSERT operations. */
  function Messages(ops: seq<Operation>, k: nat): (r: seq<Move>)
    requires k <= |ops| && OpsComplete(ops)
    ensures |r| == NumOps(ops, INSERT, k)
  {
    if k == 0 then []
    else
      Messages(ops, k - 1) + if ops[k - 1].opcode.INSERT? then [Move(BufferOf(ops[k - 1]), ops[k - 1].length)] else []
  }

  /** The constant of an operation lies in the constant buffer at its recorded offset. */
  predicate ConstantPlaced(op: Operation, constants: seq<Byte>) {
    op.opcode.INSERT_CONSTANT? ==>
      && op.constBuffOffset + |op.data| <= |constants|
      && constants[op.constBuffOffset..op.constBuffOffset + |op.data|] == op.data
  }

  predicate ConstantsPlaced(ops: seq<Operation>, constants: seq<Byte>) {
    forall k :: 0 <= k < |ops| ==> ConstantPlaced(ops[k], constants)
  }

  // ---- the gather program builds the intended frame ----

  lemma {:induction false} RunReachesLast(rows: seq<GatherCmd>, rest: seq<GatherCmd>)
    requires rows != [] && IsLast(rows[|rows| - 1])
    requires forall j :: 0 <= j < |rows| - 1 ==> !IsLast(rows[j])
    ensures RunGather(rows + rest) == Some(rows)
  {
    if |rows| > 1 {
      assert (rows + rest)[1..] == rows[1..] + rest;
      RunReachesLast(rows[1..], rest);
      assert [rows[0]] + rows[1..] == rows;
    } else {
      assert (rows + rest)[0] == rows[0];
      assert [rows[0]] == rows;
    }
  }

  /** Only the final row of a program carries the last flag. It does so exactly unless the
      program is empty or the stream is a redundant sender with just the three header
      operations, whose program ends with the R-tag. */
  lemma {:induction false} LastFlagOnFinalRowOnly(redundant: bool, ops: seq<Operation>, k: nat)
    requires k <= |ops| && OpsComplete(ops)
    ensures var r := GatherRows(redundant, ops, k);
      && (forall j :: 0 <= j < |r| - 1 ==> !IsLast(r[j]))
      && (r != [] ==> (IsLast(r[|r| - 1]) <==> k == |ops| && !(redundant && |ops| == NUM_AUTOGEN_OPS)))
  {
    if k > 0 {
      LastFlagOnFinalRowOnly(redundant, ops, k - 1);
    }
  }

  /** Running a stream's gather rows stops at their end, whatever follows them in the
      table, exactly when the stream has operations and is not a redundant sender with
      only the header. Otherwise no row of the program carries the last flag. */
  lemma GatherProgramStops(redundant: bool, ops: seq<Operation>)
    requires OpsComplete(ops)
    ensures var program := GatherProgram(redundant, ops);
      && ((exists j :: 0 <= j < |program| && IsLast(program[j])) <==>
          ops != [] && !(redundant && |ops| == NUM_AUTOGEN_OPS))
      && (ops != [] && !(redundant && |ops| == NUM_AUTOGEN_OPS) ==>
        forall rest :: RunGather(program + rest) == Some(program))
  {
    var program := GatherProgram(redundant, ops);
    LastFlagOnFinalRowOnly(redundant, ops, |ops|);
    if ops != [] && !(redundant && |ops| == NUM_AUTOGEN_OPS) {
      assert IsLast(program[|program| - 1]);
      forall rest ensures RunGather(program + rest) == Some(program) {
        RunReachesLast(program, rest);
      }
    }
  }

  lemma {:induction false} RunsPast(rows: seq<GatherCmd>, rest: seq<GatherCmd>)
    requires forall j :: 0 <= j < |rows| ==> !IsLast(rows[j])
    ensures RunGather(rows + rest) == match RunGather(rest)
      case Some(r) => Some(rows + r)
      case None => None
  {
    if rows == [] {
      assert rows + rest == rest;
      assert RunGather(rest).Some? ==> rows + RunGather(rest).value == RunGather(rest).value;
    } else {
      RunsPast(rows[1..], rest);
      assert (rows + rest)[1..] == rows[1..] + rest;
      assert RunGather(rest).Some? ==> [rows[0]] + (rows[1..] + RunGather(rest).value) == rows + RunGather(rest).value;
    }
  }

  /** A redundant sender with exactly the three header operations does not stop at its R-tag:
      the hardware goes on with whatever rows follow. */
  lemma HeaderOnlySenderRunsOn(ops: seq<Operation>, rest: seq<GatherCmd>)
    requires OpsComplete(ops) && |ops| == NUM_AUTOGEN_OPS
    ensures RunGather(GatherProgram(true, ops) + rest) == match RunGather(rest)
      case Some(r) => Some(GatherProgram(true, ops) + r)
      case None => None
  {
    GatherProgramStops(true, ops);
    RunsPast(GatherProgram(true, ops), rest);
  }

  function Constant(data: seq<Byte>): Operation {
    Operation(INSERT_CONSTANT, 0, |data|, "", data, null, 0)
  }

  /** Two addresses and a VLAN tag, as constants. */
  function PlainHeader(): (r: seq<Operation>)
    ensures |r| == NUM_AUTOGEN_OPS
  {
    [Constant([1, 0x80, 0xC2, 0, 0, 1]), Constant([0, 1, 2, 3, 4, 5]), Constant([0x81, 0, 0, 1])]
  }

  /** Such an input: a redundant sender holding only its header, behind which the rows of
      another sender lie, sends the frame of that sender too. */
  lemma HeaderOnlySenderExample()
    ensures OpsComplete(PlainHeader())
    ensures RunGather(GatherProgram(true, PlainHeader())) == None
    ensures var g := GatherProgram(true, PlainHeader());
      RunGather(g + [ConstByte(true, 46, 0)]) == Some(g + [ConstByte(true, 46, 0)])
  {
    var g := GatherProgram(true, PlainHeader());
    HeaderOnlySenderRunsOn(PlainHeader(), []);
    HeaderOnlySenderRunsOn(PlainHeader(), [ConstByte(true, 46, 0)]);
    assert g + [] == g;
  }

  /** The intended frame of the first `k` operations, built up one operation at a time. */
  function FrameSoFar(redundant: bool, ops: seq<Operation>, k: nat): seq<Part>
    requires k <= |ops| && FrameOps(ops) && OpsComplete(ops)
  {
    if k == 0 then []
    else
      FrameSoFar(redundant, ops, k - 1) + [PartOf(ops[k - 1])]
      + if redundant && k == NUM_AUTOGEN_OPS then [RedundancyTag] else []
  }

  lemma {:induction false} FrameSoFarIsIntended(redundant: bool, ops: seq<Operation>, k: nat)
    requires k <= |ops| && FrameOps(ops) && OpsComplete(ops)
    ensures FrameSoFar(redundant, ops, k) == IntendedFrame(redundant, ops[..k])
  {
    if k > 0 {
      FrameSoFarIsIntended(redundant, ops, k - 1);
      assert ops[..k][..k - 1] == ops[..k - 1];
      if redundant && k >= NUM_AUTOGEN_OPS {
        assert ops[..k][..NUM_AUTOGEN_OPS] == ops[..NUM_AUTOGEN_OPS];
        if k > NUM_AUTOGEN_OPS {
          assert ops[..k - 1][..NUM_AUTOGEN_OPS] == ops[..NUM_AUTOGEN_OPS];
          var tail := ops[..k][NUM_AUTOGEN_OPS..];
          assert tail[..|tail| - 1] == ops[..k - 1][NUM_AUTOGEN_OPS..];
        } else {
          assert ops[..k][NUM_AUTOGEN_OPS..] == [];
        }
      }
    }
  }

  lemma AssembleStep(rows: seq<GatherCmd>, c: GatherCmd, moves: seq<Move>, constants: seq<Byte>, frame: seq<Part>,
                     part: Part)
    requires Assemble(rows, moves, constants) == Some(frame)
    requires Emits(c, moves, PrefetchUses(rows), constants) == Some(part)
    ensures PrefetchUses(rows + [c]) == PrefetchUses(rows) + if c.PrefetchData? then 1 else 0
    ensures Assemble(rows + [c], moves, constants) == Some(frame + [part])
  {
    assert (rows + [c])[..|rows|] == rows;
  }

  lemma {:induction false} MessageAt(ops: seq<Operation>, k: nat, j: nat)
    requires k < j <= |ops| && OpsComplete(ops) && ops[k].opcode.INSERT?
    ensures NumOps(ops, INSERT, k) < NumOps(ops, INSERT, j)
    ensures Messages(ops, j)[NumOps(ops, INSERT, k)] == Move(BufferOf(ops[k]), ops[k].length)
  {
    if k + 1 < j {
      MessageAt(ops, k, j - 1);
    }
  }

  /** The row of operation `k` appends what the operation asks for. */
  ghost predicate RowEmits(ops: seq<Operation>, k: nat, moves: seq<Move>, constants: seq<Byte>)
    requires k < |ops| && IsFrameOp(ops[k]) && OpComplete(ops[k])
  {
    && Emits(GatherRow(ops[k], true), moves, NumOps(ops, INSERT, k), constants) == Some(PartOf(ops[k]))
    && Emits(GatherRow(ops[k], false), moves, NumOps(ops, INSERT, k), constants) == Some(PartOf(ops[k]))
  }

  lemma ConstantEmitsBytes(op: Operation, last: bool, moves: seq<Move>, used: nat, constants: seq<Byte>)
    requires op.opcode.INSERT_CONSTANT? && OpComplete(op) && ConstantPlaced(op, constants)
    ensures Emits(GatherRow(op, last), moves, used, constants) == Some(Bytes(op.data))
  {
  }

  lemma RowEmitsPart(ops: seq<Operation>, k: nat, constants: seq<Byte>)
    requires k < |ops| && FrameOps(ops) && OpsComplete(ops) && ConstantsPlaced(ops, constants)
    ensures RowEmits(ops, k, Messages(ops, |ops|), constants)
  {
    var moves, used := Messages(ops, |ops|), NumOps(ops, INSERT, k);
    forall last ensures Emits(GatherRow(ops[k], last), moves, used, constants) == Some(PartOf(ops[k])) {
      if ops[k].opcode.INSERT? {
        MessageAt(ops, k, |ops|);
      } else if ops[k].opcode.INSERT_CONSTANT? {
        ConstantEmitsBytes(ops[k], last, moves, used, constants);
      }
    }
  }

  /** The rows of one operation, with the redundancy tag behind them or not. */
  lemma AssembleOperation(rows: seq<GatherCmd>, c: GatherCmd, tag: bool, moves: seq<Move>, constants: seq<Byte>,
                          frame: seq<Part>, part: Part)
    requires Assemble(rows, moves, constants) == Some(frame)
    requires Emits(c, moves, PrefetchUses(rows), constants) == Some(part)
    ensures var next := rows + [c] + if tag then [RTag] else [];
      && PrefetchUses(next) == PrefetchUses(rows) + (if c.PrefetchData? then 1 else 0)
      && Assemble(next, moves, constants) == Some(frame + [part] + if tag then [RedundancyTag] else [])
  {
    AssembleStep(rows, c, moves, constants, frame, part);
    if tag {
      AssembleStep(rows + [c], RTag, moves, constants, frame + [part], RedundancyTag);
    } else {
      assert rows + [c] + [] == rows + [c];
      assert frame + [part] + [] == frame + [part];
    }
  }

  lemma RowsNext(redundant: bool, ops: seq<Operation>, k: nat)
    requires 0 < k <= |ops| && FrameOps(ops) && OpsComplete(ops)
    ensures var tag := redundant && k == NUM_AUTOGEN_OPS;
      var row := GatherRow(ops[k - 1], k == |ops| && !tag);
      && (row == GatherRow(ops[k - 1], true) || row == GatherRow(ops[k - 1], false))
      && NumOps(ops, INSERT, k) == NumOps(ops, INSERT, k - 1) + (if row.PrefetchData? then 1 else 0)
      && GatherRows(redundant, ops, k) == GatherRows(redundant, ops, k - 1) + [row] + (if tag then [RTag] else [])
      && FrameSoFar(redundant, ops, k)
         == FrameSoFar(redundant, ops, k - 1) + [PartOf(ops[k - 1])] + if tag then [RedundancyTag] else []
  {
  }

  lemma NextRowAssembles(redundant: bool, ops: seq<Operation>, k: nat, moves: seq<Move>, constants: seq<Byte>)
    requires 0 < k <= |ops| && FrameOps(ops) && OpsComplete(ops) && RowEmits(ops, k - 1, moves, constants)
    requires PrefetchUses(GatherRows(redundant, ops, k - 1)) == NumOps(ops, INSERT, k - 1)
    requires Assemble(GatherRows(redundant, ops, k - 1), moves, constants) == Some(FrameSoFar(redundant, ops, k - 1))
    ensures PrefetchUses(GatherRows(redundant, ops, k)) == NumOps(ops, INSERT, k)
    ensures Assemble(GatherRows(redundant, ops, k), moves, constants) == Some(FrameSoFar(redundant, ops, k))
  {
    var tag := redundant && k == NUM_AUTOGEN_OPS;
    RowsNext(redundant, ops, k);
    AssembleOperation(GatherRows(redundant, ops, k - 1), GatherRow(ops[k - 1], k == |ops| && !tag), tag, moves,
      constants, FrameSoFar(redundant, ops, k - 1), PartOf(ops[k - 1]));
  }

  lemma {:induction false} RowsAssembleFrame(redundant: bool, ops: seq<Operation>, k: nat, moves: seq<Move>,
                                             constants: seq<Byte>)
    requires k <= |ops| && FrameOps(ops) && OpsComplete(ops)
    requires forall j {:trigger RowEmits(ops, j, moves, constants)} ::
      0 <= j < |ops| ==> RowEmits(ops, j, moves, constants)
    ensures PrefetchUses(GatherRows(redundant, ops, k)) == NumOps(ops, INSERT, k)
    ensures Assemble(GatherRows(redundant, ops, k), moves, constants) == Some(FrameSoFar(redundant, ops, k))
  {
    if k > 0 {
      RowsAssembleFrame(redundant, ops, k - 1, moves, constants);
      assert RowEmits(ops, k - 1, moves, constants);
      NextRowAssembles(redundant, ops, k, moves, constants);
    }
  }

  // ---- five bits for a buffer ----

  /** The part as it comes from the buffer that the command names. */
  function PartWithId(p: Part): Part {
    if p.Message? then Message(MsgbufId(p.buf), p.length) else p
  }

  function PartsWithIds(ps: seq<Part>): (r: seq<Part>)
    ensures |r| == |ps|
    ensures forall j {:trigger r[j]} {:trigger ps[j]} :: 0 <= j < |ps| ==> r[j] == PartWithId(ps[j])
  {
    if ps == [] then [] else PartsWithIds(ps[..|ps| - 1]) + [PartWithId(ps[|ps| - 1])]
  }

  function MovesWithIds(ms: seq<Move>): (r: seq<Move>)
    ensures |r| == |ms|
    ensures forall j {:trigger r[j]} {:trigger ms[j]} ::
      0 <= j < |ms| ==> r[j] == Move(MsgbufId(ms[j].buf), ms[j].length)
  {
    if ms == [] then []
    else MovesWithIds(ms[..|ms| - 1]) + [Move(MsgbufId(ms[|ms| - 1].buf), ms[|ms| - 1].length)]
  }

  /** The buffers of the first `k` operations with this code can be named in a command. */
  predicate Nameable(ops: seq<Operation>, code: Opcode, k: nat := |ops|)
    requires k <= |ops| && OpsComplete(ops)
  {
    forall j {:trigger ops[j]} :: 0 <= j < k && ops[j].opcode == code && UsesBuffer(ops[j]) ==>
      BufferOf(ops[j]) < MSGBUF_ID_LIMIT
  }

  /** Fetched from the buffers that the commands name, the rows assemble the same parts from
      these buffers. */
  lemma {:induction false} AssembleWithIds(rows: seq<GatherCmd>, moves: seq<Move>, constants: seq<Byte>)
    ensures Assemble(rows, MovesWithIds(moves), constants) == match Assemble(rows, moves, constants)
      case Some(frame) => Some(PartsWithIds(frame))
      case None => None
  {
    if rows != [] {
      AssembleWithIds(rows[..|rows| - 1], moves, constants);
    }
  }

  predicate IdsFit(ps: seq<Part>) {
    forall j {:trigger ps[j]} :: 0 <= j < |ps| ==> PartWithId(ps[j]) == ps[j]
  }

  lemma SamePartsIfIdsFit(ps: seq<Part>)
    ensures PartsWithIds(ps) == ps <==> IdsFit(ps)
  {
  }

  lemma IdsFitAppend(ps: seq<Part>, p: Part)
    ensures IdsFit(ps + [p]) <==> IdsFit(ps) && PartWithId(p) == p
  {
    assert (ps + [p])[|ps|] == p;
    assert forall j :: 0 <= j < |ps| ==> (ps + [p])[j] == ps[j];
  }

  lemma {:induction false} FrameSoFarNameable(redundant: bool, ops: seq<Operation>, k: nat)
    requires k <= |ops| && FrameOps(ops) && OpsComplete(ops)
    ensures IdsFit(FrameSoFar(redundant, ops, k)) <==> Nameable(ops, INSERT, k)
  {
    if k > 0 {
      FrameSoFarNameable(redundant, ops, k - 1);
      var before, part := FrameSoFar(redundant, ops, k - 1), PartOf(ops[k - 1]);
      IdsFitAppend(before, part);
      IdsFitAppend(before + [part], RedundancyTag);
      assert before + [part] + [] == before + [part];
    }
  }

  /** The frame comes from the intended buffers exactly when five bits can name them all. */
  lemma FrameNameable(redundant: bool, ops: seq<Operation>)
    requires FrameOps(ops) && OpsComplete(ops)
    ensures PartsWithIds(IntendedFrame(redundant, ops)) == IntendedFrame(redundant, ops) <==> Nameable(ops, INSERT)
  {
    FrameSoFarIsIntended(redundant, ops, |ops|);
    assert ops[..|ops|] == ops;
    FrameSoFarNameable(redundant, ops, |ops|);
    SamePartsIfIdsFit(IntendedFrame(redundant, ops));
  }

  /** Run on the stream's own messages and the constant buffer, the gather program builds
      exactly the intended frame. */
  lemma GatherProgramBuildsFrame(redundant: bool, ops: seq<Operation>, constants: seq<Byte>)
    requires FrameOps(ops) && OpsComplete(ops) && ConstantsPlaced(ops, constants)
    ensures Assemble(GatherProgram(redundant, ops), Messages(ops, |ops|), constants)
      == Some(IntendedFrame(redundant, ops))
  {
    forall j | 0 <= j < |ops| ensures RowEmits(ops, j, Messages(ops, |ops|), constants) {
      RowEmitsPart(ops, j, constants);
    }
    RowsAssembleFrame(redundant, ops, |ops|, Messages(ops, |ops|), constants);
    FrameSoFarIsIntended(redundant, ops, |ops|);
    assert ops[..|ops|] == ops;
  }

  // ---- the prefetch program ----

  /** Buffers that a sequence of lock rows locks. */
  function Locks(rows: seq<PrefetchCmd>): set<(nat, bool)>
    requires forall k :: 0 <= k < |rows| ==> rows[k].LockBuffers?
  {
    if rows == [] then {}
    else (set b | b in rows[0].bits :: (16 * rows[0].group + b, rows[0].dual)) + Locks(rows[1..])
  }

  lemma {:induction false} RunLocks(locks: seq<PrefetchCmd>, rest: seq<PrefetchCmd>)
    requires forall k :: 0 <= k < |locks| ==> locks[k].LockBuffers?
    ensures RunPrefetch(locks + rest) == match RunPrefetch(rest)
      case Some(f) => Some(Fetched(Locks(locks) + f.locked, f.moves))
      case None => None
  {
    if locks == [] {
      assert locks + rest == rest;
      match RunPrefetch(rest)
      case Some(f) => assert Locks(locks) + f.locked == f.locked;
      case None =>
    } else {
      assert (locks + rest)[1..] == locks[1..] + rest;
      RunLocks(locks[1..], rest);
      match RunPrefetch(rest)
      case Some(f) =>
        var own := set b | b in locks[0].bits :: (16 * locks[0].group + b, locks[0].dual);
        assert own + (Locks(locks[1..]) + f.locked) == Locks(locks) + f.locked;
      case None =>
    }
  }

  function MovesOf(rows: seq<PrefetchCmd>): seq<Move>
    requires forall k :: 0 <= k < |rows| ==> rows[k].MoveBuffer?
  {
    if rows == [] then []
    else MovesOf(rows[..|rows| - 1]) + [Move(rows[|rows| - 1].buf, rows[|rows| - 1].length)]
  }

  lemma {:induction false} MovesOfFront(rows: seq<PrefetchCmd>)
    requires rows != [] && forall k :: 0 <= k < |rows| ==> rows[k].MoveBuffer?
    ensures MovesOf(rows) == [Move(rows[0].buf, rows[0].length)] + MovesOf(rows[1..])
  {
    if |rows| > 1 {
      var n := |rows| - 1;
      MovesOfFront(rows[..n]);
      assert rows[..n][1..] == rows[1..][..n - 1];
    }
  }

  lemma {:induction false} RunMoves(rows: seq<PrefetchCmd>, rest: seq<PrefetchCmd>)
    requires rows != [] && forall k :: 0 <= k < |rows| ==> rows[k].MoveBuffer?
    requires forall k :: 0 <= k < |rows| ==> (rows[k].last <==> k == |rows| - 1)
    ensures RunPrefetch(rows + rest) == Some(Fetched({}, MovesOf(rows)))
  {
    MovesOfFront(rows);
    if |rows| > 1 {
      assert (rows + rest)[1..] == rows[1..] + rest;
      RunMoves(rows[1..], rest);
      assert !(rows + rest)[0].last;
    } else {
      assert (rows + rest)[0] == rows[0];
      assert MovesOf(rows) == [Move(rows[0].buf, rows[0].length)];
    }
  }

  lemma {:induction false} LocksAppend(a: seq<PrefetchCmd>, c: PrefetchCmd)
    requires forall k :: 0 <= k < |a| ==> a[k].LockBuffers?
    requires c.LockBuffers?
    ensures Locks(a + [c]) == Locks(a) + set b | b in c.bits :: (16 * c.group + b, c.dual)
  {
    if a == [] {
      assert a + [c] == [c];
      assert [c][1..] == [];
    } else {
      assert (a + [c])[1..] == a[1..] + [c];
      LocksAppend(a[1..], c);
    }
  }

  /** The buffers of the vector from `lo` up to `hi`, as they are locked. */
  function LockedBetween(vector: set<nat>, dual: bool, lo: nat, hi: nat): set<(nat, bool)> {
    set b | b in vector && lo <= b < hi :: (b, dual)
  }

  lemma GroupLocks(vector: set<nat>, dual: bool, g: nat)
    ensures (set b | b in GroupBits(vector, g) :: (16 * g + b, dual))
      == LockedBetween(vector, dual, 16 * g, 16 * g + 16)
  {
    var own := set b | b in GroupBits(vector, g) :: (16 * g + b, dual);
    forall p | p in LockedBetween(vector, dual, 16 * g, 16 * g + 16) ensures p in own {
      assert p.0 - 16 * g in GroupBits(vector, g);
    }
  }

  lemma LockedInTwo(vector: set<nat>, dual: bool, mid: nat, hi: nat)
    requires mid <= hi
    ensures LockedBetween(vector, dual, 0, hi)
      == LockedBetween(vector, dual, 0, mid) + LockedBetween(vector, dual, mid, hi)
  {
  }

  /** The lock rows of the first groups lock exactly the buffers of those groups. */
  lemma {:induction false} LockRowsLockVector(vector: set<nat>, dual: bool, groups: nat)
    ensures Locks(LockRows(vector, dual, groups)) == LockedBetween(vector, dual, 0, 16 * groups)
  {
    if groups > 0 {
      var g := groups - 1;
      LockRowsLockVector(vector, dual, g);
      GroupLocks(vector, dual, g);
      LockedInTwo(vector, dual, 16 * g, 16 * groups);
      if GroupBits(vector, g) != {} {
        LocksAppend(LockRows(vector, dual, g), LockBuffers(g, dual, GroupBits(vector, g)));
      } else {
        assert LockRows(vector, dual, groups) == LockRows(vector, dual, g);
        assert (set b | b in GroupBits(vector, g) :: (16 * g + b, dual)) == {};
      }
    }
  }

  lemma {:induction false} NoInsertCount(ops: seq<Operation>, k: nat)
    requires k <= |ops|
    ensures NumOps(ops, INSERT, k) == NumOps(ops, INSERT, |ops|) <==> NoInsertFrom(ops, k)
    ensures NumOps(ops, INSERT, k) <= NumOps(ops, INSERT, |ops|)
    decreases |ops| - k
  {
    if k < |ops| {
      NoInsertCount(ops, k + 1);
    }
  }

  lemma {:induction false} MoveRowsFetchMessages(ops: seq<Operation>, k: nat)
    requires k <= |ops| && OpsComplete(ops)
    ensures MovesOf(MoveRows(ops, k)) == MovesWithIds(Messages(ops, k))
  {
    if k > 0 {
      MoveRowsFetchMessages(ops, k - 1);
      if ops[k - 1].opcode.INSERT? {
        var before := MoveRows(ops, k - 1);
        assert MoveRows(ops, k)[..|before|] == before;
      } else {
        assert MoveRows(ops, k) == MoveRows(ops, k - 1) && Messages(ops, k) == Messages(ops, k - 1);
      }
    }
  }

  /** Only the row of the last INSERT has the last flag. */
  lemma {:induction false} LastMoveOnly(ops: seq<Operation>, k: nat)
    requires k <= |ops| && OpsComplete(ops)
    ensures forall j :: 0 <= j < |MoveRows(ops, k)| ==>
      (MoveRows(ops, k)[j].last <==> j == NumOps(ops, INSERT, |ops|) - 1)
  {
    if k > 0 {
      LastMoveOnly(ops, k - 1);
      NoInsertCount(ops, k);
      if !ops[k - 1].opcode.INSERT? {
        assert MoveRows(ops, k) == MoveRows(ops, k - 1);
      }
    }
  }

  /** Whatever follows them in the table, the prefetch rows of a stream lock exactly the
      buffers of its INSERT operations (doubly for a redundant sender) and fetch in order the
      messages of the buffers that five bits name; without INSERT they do nothing. */
  lemma PrefetchProgramFetchesMessages(redundant: bool, ops: seq<Operation>, rest: seq<PrefetchCmd>)
    requires OpsComplete(ops)
    ensures RunPrefetch(PrefetchProgram(redundant, ops) + rest)
      == Some(Fetched(LockedAs(LockVector(ops, |ops|), redundant), MovesWithIds(Messages(ops, |ops|))))
  {
    var vector := LockVector(ops, |ops|);
    if NumOps(ops, INSERT, |ops|) == 0 {
      LockVectorEmpty(ops, |ops|);
      assert LockedAs(vector, redundant) == {};
      assert ([PrefetchNop] + rest)[0] == PrefetchNop;
      assert Messages(ops, |ops|) == [];
    } else {
      var locks := LockRows(vector, redundant, NUM_PREFETCH_LOCK_COMMANDS);
      var moves := MoveRows(ops, |ops|);
      MoveRowsFetchMessages(ops, |ops|);
      LastMoveOnly(ops, |ops|);
      RunMoves(moves, rest);
      RunLocks(locks, moves + rest);
      LockRowsLockVector(vector, redundant, NUM_PREFETCH_LOCK_COMMANDS);
      assert locks + moves + rest == locks + (moves + rest);
      AllGroupsLocked(vector, redundant);
      assert LockedAs(vector, redundant) + {} == LockedAs(vector, redundant);
    }
  }

  /** Four groups of 16 are all the buffers there are. */
  lemma AllGroupsLocked(vector: set<nat>, dual: bool)
    requires forall b :: b in vector ==> b < LOCK_CTRL_MAXSIZE
    ensures LockedBetween(vector, dual, 0, 16 * NUM_PREFETCH_LOCK_COMMANDS) == LockedAs(vector, dual)
  {
  }

  lemma {:induction false} LockVectorEmpty(ops: seq<Operation>, k: nat)
    requires k <= |ops| && OpsComplete(ops) && NumOps(ops, INSERT, k) == 0
    ensures LockVector(ops, k) == {}
  {
    if k > 0 {
      LockVectorEmpty(ops, k - 1);
    }
  }

  /** The lock vector is the set of buffers of the INSERT operations. */
  lemma {:induction false} LockVectorIsInsertBuffers(ops: seq<Operation>, k: nat, b: nat)
    requires k <= |ops| && OpsComplete(ops)
    ensures b in LockVector(ops, k) <==> exists j :: 0 <= j < k && ops[j].opcode.INSERT? && BufferOf(ops[j]) == b
  {
    if k > 0 {
      LockVectorIsInsertBuffers(ops, k - 1, b);
    }
  }

  lemma LockedSingle(b: nat, dual: bool)
    ensures LockedAs({b}, dual) == {(b, dual)}
  {
  }

  lemma SingleInsert(op: Operation)
    requires op.opcode.INSERT? && OpComplete(op)
    ensures LockVector([op], 1) == {BufferOf(op)} && Messages([op], 1) == [Move(BufferOf(op), op.length)]
  {
    assert LockVector([op], 1) == LockVector([op], 0) + {BufferOf(op)};
    assert Messages([op], 1) == Messages([op], 0) + [Move(BufferOf(op), op.length)];
  }

  /** An input with 33 buffers: the message of the last one is taken from buffer 0, while
      buffer 32 is locked. */
  lemma Buffer32FetchedFromBuffer0(op: Operation, rest: seq<PrefetchCmd>)
    requires op.opcode.INSERT? && OpComplete(op) && BufferOf(op) == 32
    ensures RunPrefetch(PrefetchProgram(false, [op]) + rest) == Some(Fetched({(32, false)}, [Move(0, op.length)]))
    ensures Messages([op], 1) == [Move(32, op.length)]
  {
    SingleInsert(op);
    LockedSingle(32, false);
    PrefetchProgramFetchesMessages(false, [op], rest);
    assert MovesWithIds([Move(32, op.length)]) == [Move(0, op.length)];
  }

  // ---- emission for one receiving stream ----

  predicate NoReadFrom(ops: seq<Operation>, k: nat) {
    forall j :: k <= j < |ops| ==> !ops[j].opcode.READ?
  }

  /** Scatter rows written for the READ operations among the first `k` operations. */
  function ScatterRows(ops: seq<Operation>, k: nat): (r: seq<ScatterCmd>)
    requires k <= |ops| && OpsComplete(ops)
    ensures |r| == NumOps(ops, READ, k)
  {
    if k == 0 then []
    else
      var op := ops[k - 1];
      ScatterRows(ops, k - 1)
      + if op.opcode.READ? then [StoreData(NoReadFrom(ops, k), op.offset, op.length, MsgbufId(BufferOf(op)))]
        else []
  }

  datatype Store = Store(offset: nat, length: nat, buf: nat)

  /** What a receiving stream wants to keep of a frame. */
  function Reads(ops: seq<Operation>, k: nat): seq<Store>
    requires k <= |ops| && OpsComplete(ops)
  {
    if k == 0 then []
    else
      var op := ops[k - 1];
      Reads(ops, k - 1) + if op.opcode.READ? then [Store(op.offset, op.length, BufferOf(op))] else []
  }

  function StoresWithIds(ss: seq<Store>): (r: seq<Store>)
    ensures |r| == |ss|
    ensures forall j {:trigger r[j]} {:trigger ss[j]} ::
      0 <= j < |ss| ==> r[j] == ss[j].(buf := MsgbufId(ss[j].buf))
  {
    if ss == [] then [] else StoresWithIds(ss[..|ss| - 1]) + [ss[|ss| - 1].(buf := MsgbufId(ss[|ss| - 1].buf))]
  }

  predicate StoreIdsFit(ss: seq<Store>) {
    forall j {:trigger ss[j]} :: 0 <= j < |ss| ==> ss[j].buf < MSGBUF_ID_LIMIT
  }

  lemma SameStoresIfIdsFit(ss: seq<Store>)
    ensures StoresWithIds(ss) == ss <==> StoreIdsFit(ss)
  {
    if StoresWithIds(ss) == ss {
      forall j {:trigger ss[j]} | 0 <= j < |ss| ensures ss[j].buf < MSGBUF_ID_LIMIT {
        assert ss[j] == ss[j].(buf := MsgbufId(ss[j].buf));
      }
    }
  }

  lemma StoreIdsFitAppend(ss: seq<Store>, s: Store)
    ensures StoreIdsFit(ss + [s]) <==> StoreIdsFit(ss) && s.buf < MSGBUF_ID_LIMIT
  {
    assert (ss + [s])[|ss|] == s;
    assert forall j :: 0 <= j < |ss| ==> (ss + [s])[j] == ss[j];
  }

  lemma {:induction false} ReadIdsFit(ops: seq<Operation>, k: nat)
    requires k <= |ops| && OpsComplete(ops)
    ensures StoreIdsFit(Reads(ops, k)) <==> Nameable(ops, READ, k)
  {
    if k > 0 {
      ReadIdsFit(ops, k - 1);
      if ops[k - 1].opcode.READ? {
        StoreIdsFitAppend(Reads(ops, k - 1), Store(ops[k - 1].offset, ops[k - 1].length, BufferOf(ops[k - 1])));
      } else {
        assert Reads(ops, k) == Reads(ops, k - 1);
      }
    }
  }

  /** A receiver stores in its own buffers exactly when five bits can name them all. */
  lemma ReadsNameable(ops: seq<Operation>)
    requires OpsComplete(ops)
    ensures StoresWithIds(Reads(ops, |ops|)) == Reads(ops, |ops|) <==> Nameable(ops, READ)
  {
    ReadIdsFit(ops, |ops|);
    SameStoresIfIdsFit(Reads(ops, |ops|));
  }

  function RunScatter(rows: seq<ScatterCmd>): Option<seq<Store>> {
    if rows == [] then None
    else
      var first := Store(rows[0].offset, rows[0].length, rows[0].buf);
      if rows[0].last then Some([first])
      else
        match RunScatter(rows[1..])
        case Some(r) => Some([first] + r)
        case None => None
  }

  lemma {:induction false} NoReadCount(ops: seq<Operation>, k: nat)
    requires k <= |ops|
    ensures NumOps(ops, READ, k) == NumOps(ops, READ, |ops|) <==> NoReadFrom(ops, k)
    ensures NumOps(ops, READ, k) <= NumOps(ops, READ, |ops|)
    decreases |ops| - k
  {
    if k < |ops| {
      NoReadCount(ops, k + 1);
    }
  }

  function StoresOf(rows: seq<ScatterCmd>): seq<Store> {
    if rows == [] then [] else [Store(rows[0].offset, rows[0].length, rows[0].buf)] + StoresOf(rows[1..])
  }

  lemma {:induction false} StoresOfAppend(rows: seq<ScatterCmd>, c: ScatterCmd)
    ensures StoresOf(rows + [c]) == StoresOf(rows) + [Store(c.offset, c.length, c.buf)]
  {
    if rows == [] {
      assert rows + [c] == [c];
      assert [c][1..] == [];
    } else {
      assert (rows + [c])[1..] == rows[1..] + [c];
      StoresOfAppend(rows[1..], c);
    }
  }

  lemma {:induction false} ScatterRowsStoreReads(ops: seq<Operation>, k: nat)
    requires k <= |ops| && OpsComplete(ops)
    ensures StoresOf(ScatterRows(ops, k)) == StoresWithIds(Reads(ops, k))
  {
    if k > 0 {
      ScatterRowsStoreReads(ops, k - 1);
      var op := ops[k - 1];
      if op.opcode.READ? {
        StoresOfAppend(ScatterRows(ops, k - 1),
          StoreData(NoReadFrom(ops, k), op.offset, op.length, MsgbufId(BufferOf(op))));
      } else {
        assert ScatterRows(ops, k) == ScatterRows(ops, k - 1) && Reads(ops, k) == Reads(ops, k - 1);
      }
    }
  }

  /** Only the row of the last READ has the last flag. */
  lemma {:induction false} LastStoreOnly(ops: seq<Operation>, k: nat)
    requires k <= |ops| && OpsComplete(ops)
    ensures forall j :: 0 <= j < |ScatterRows(ops, k)| ==>
      (ScatterRows(ops, k)[j].last <==> j == NumOps(ops, READ, |ops|) - 1)
  {
    if k > 0 {
      LastStoreOnly(ops, k - 1);
      NoReadCount(ops, k);
      if !ops[k - 1].opcode.READ? {
        assert ScatterRows(ops, k) == ScatterRows(ops, k - 1);
      }
    }
  }

  lemma {:induction false} RunScatterReachesLast(rows: seq<ScatterCmd>, rest: seq<ScatterCmd>)
    requires rows != []
    requires forall j :: 0 <= j < |rows| ==> (rows[j].last <==> j == |rows| - 1)
    ensures RunScatter(rows + rest) == Some(StoresOf(rows))
  {
    assert (rows + rest)[0] == rows[0];
    if |rows| > 1 {
      assert (rows + rest)[1..] == rows[1..] + rest;
      RunScatterReachesLast(rows[1..], rest);
    } else {
      assert StoresOf(rows) == [Store(rows[0].offset, rows[0].length, rows[0].buf)];
    }
  }

  /** The same input with a READ: the data of buffer 32 go to buffer 0. */
  lemma Buffer32StoredInBuffer0(op: Operation, rest: seq<ScatterCmd>)
    requires op.opcode.READ? && OpComplete(op) && BufferOf(op) == 32
    ensures RunScatter(ScatterRows([op], 1) + rest) == Some([Store(op.offset, op.length, 0)])
    ensures Reads([op], 1) == [Store(op.offset, op.length, 32)]
  {
    assert NumOps([op], READ, 1) == NumOps([op], READ, 0) + 1;
    ScatterProgramStoresReads([op], rest);
    assert Reads([op], 1) == Reads([op], 0) + [Store(op.offset, op.length, 32)];
    assert StoresWithIds([Store(op.offset, op.length, 32)]) == [Store(op.offset, op.length, 0)];
  }

  /** The scatter rows of a stream perform its READ operations in order, on the buffers that
      five bits name, and stop there. */
  lemma ScatterProgramStoresReads(ops: seq<Operation>, rest: seq<ScatterCmd>)
    requires OpsComplete(ops) && NumOps(ops, READ, |ops|) > 0
    ensures RunScatter(ScatterRows(ops, |ops|) + rest) == Some(StoresWithIds(Reads(ops, |ops|)))
  {
    ScatterRowsStoreReads(ops, |ops|);
    LastStoreOnly(ops, |ops|);
    RunScatterReachesLast(ScatterRows(ops, |ops|), rest);
  }
}
