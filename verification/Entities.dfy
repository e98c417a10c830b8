/** The entities of the configuration library: the constants of its headers, the
    values it computes with, and the objects whose fields it updates in place. */
module Entities {

  // hwconfig_def.h
  const SIZE_TIMESTAMP := 4
  const ANZ_MIN_TICKS := 8
  const UINT16_T_MAX := 0xFFFF
  const NOP_DELTA_CYCLE := 60000

  // sysfs.h, operation.h
  const REDUNDANCY_START_IDX := 1
  const SCATTER_NOP_IDX := 0
  const SCATTER_START_IDX := 1
  const GATHER_NOP_IDX := 0
  const GATHER_FORWARD_IDX := 1
  const GATHER_START_IDX := 2
  const NUM_PREFETCH_LOCK_COMMANDS := 4
  const NUM_AUTOGEN_OPS := 3

  // libacmconfig_def.h, acmdrv.h
  const ACM_MIN_FRAME_SIZE := 64
  const ACM_MAX_FRAME_SIZE := 1528
  const MAX_PAYLOAD_HEADER_SIZE := 1518
  const MAX_TRUNC_BYTES := 19
  const ACM_MAX_INSERT_OPERATIONS := 8
  const ACM_MAX_EGRESS_OPERATIONS := 256
  const ACM_MAX_INGRESS_OPERATIONS := 256
  const ACM_MAX_SCHEDULE_EVENTS := 1024
  const ACM_MAX_CONST_BUFFER_SIZE := 4096
  const ACM_MAX_REDUNDANT_STREAMS := 32
  const ACM_MAX_LOOKUP_ITEMS := 16
  const LOCK_CTRL_MAXSIZE := 64
  const MSGBUF_ID_LIMIT := 32
  const SCHEDULER_COUNT := 2
  const SCHED_TBL_COUNT := 2
  const SCHED_TBL_ROW_COUNT := 1024

  const U32_LIMIT := 0x1_0000_0000
  const U16_LIMIT := 0x1_0000
  const U8_LIMIT := 0x100

  datatype Option<+T> = None | Some(value: T)

  /** The negative return codes of the library that the model distinguishes. */
  datatype Error =
    | EINVAL
    | EPERM
    | ENODEV
    | EACMINTERNAL
    | EACMEGRESSFRAMESIZE
    | EACMDIFFCONFIG
    | EACMSTREAMCONFIG
    | EACMREDSAMEMOD
    | EACMPAYLOAD
    | EACMFWDOFFSET
    | EACMNUMINSERT
    | EACMNUMMESSBUFF
    | EACMOPMISSING
    | EACMCONSTBUFFER
    | EACMREDUNDANDSTREAMS
    | EACMSCHEDULEEVENTS
    | EACMMODCYCLE
    | EACMINCOMPATIBLEPERIOD
    | EACMSCHEDTIME
    | EACMEGRESSOPERATIONS
    | EACMINGRESSOPERATIONS
    | EACMLOOKUPENTRIES

  type Byte = x: int | 0 <= x < 256

  datatype StreamType =
    | TimeTriggered
    | IngressTriggered
    | EventStream
    | RecoveryStream
    | RedundantTx
    | RedundantRx

  /** Streams that are looked up on reception; all others are sent. */
  predicate IsIngress(kind: StreamType) {
    kind.IngressTriggered? || kind.RedundantRx?
  }

  predicate IsRedundant(kind: StreamType) {
    kind.RedundantTx? || kind.RedundantRx?
  }

  datatype Opcode = INSERT | INSERT_CONSTANT | PAD | FORWARD | READ | FORWARD_ALL

  /** One operation of a stream. `msgBuf` is the link the allocator sets,
      `constBuffOffset` is set when the constant buffer is written. */
  datatype Operation = Operation(
    opcode: Opcode,
    offset: nat,
    length: nat,
    bufferName: string,
    data: seq<Byte>,
    msgBuf: SysfsBuffer?,
    constBuffOffset: nat)

  /** The lengths and data that the creation functions of operations let through. */
  predicate Created(op: Operation) {
    match op.opcode
    case INSERT => 3 <= op.length <= 1500
    case INSERT_CONSTANT => 1 <= op.length <= 1500 && |op.data| == op.length
    case PAD => 1 <= op.length <= 1500 && |op.data| == 1
    case FORWARD => 2 <= op.length <= 1508 && op.offset + op.length <= ACM_MAX_FRAME_SIZE
    case READ => 4 <= op.length <= 1528 && op.offset + op.length <= ACM_MAX_FRAME_SIZE
    case FORWARD_ALL => true
  }

  ghost predicate AllCreated(ops: seq<Operation>) {
    forall j {:trigger ops[j]} :: 0 <= j < |ops| ==> Created(ops[j])
  }

  /** READ and INSERT are the operations that use a message buffer. */
  predicate UsesBuffer(op: Operation) {
    op.opcode.READ? || op.opcode.INSERT?
  }

  /** A hardware message buffer: a contiguous run of blocks. */
  class SysfsBuffer {
    const name: string
    const receive: bool
    const index: nat
    var offset: nat
    var size: nat

    constructor (name: string, receive: bool, index: nat, offset: nat, size: nat)
      ensures this.name == name && this.receive == receive
      ensures this.index == index && this.offset == offset && this.size == size
    {
      this.name, this.receive := name, receive;
      this.index, this.offset, this.size := index, offset, size;
    }
  }

  /** A periodic schedule; `owner` is the stream whose window list holds it. */
  class ScheduleEntry {
    const timeStartNs: nat
    const timeEndNs: nat
    const sendTimeNs: nat
    const periodNs: nat
    var owner: AcmStream?

    constructor (timeStartNs: nat, timeEndNs: nat, sendTimeNs: nat, periodNs: nat)
      requires periodNs > 0
    {
      this.timeStartNs, this.timeEndNs := timeStartNs, timeEndNs;
      this.sendTimeNs, this.periodNs := sendTimeNs, periodNs;
      this.owner := null;
    }
  }

  class AcmStream {
    var kind: StreamType
    var operations: seq<Operation>
    var windows: seq<ScheduleEntry>
    var reference: AcmStream?
    var referenceRedundant: AcmStream?
    var gatherDmaIndex: nat
    var scatterDmaIndex: nat
    var redundandIndex: nat
    var lookupIndex: nat

    constructor (kind: StreamType)
      ensures this.kind == kind && operations == [] && windows == []
      ensures reference == null && referenceRedundant == null
    {
      this.kind := kind;
      operations, windows := [], [];
      reference, referenceRedundant := null, null;
      gatherDmaIndex, scatterDmaIndex, redundandIndex, lookupIndex := 0, 0, 0, 0;
    }
  }

  datatype Trigger = NoTrigger | StandAlone | FirstStage

  /** A scheduler command word, field by field. */
  datatype SchedCmd = SchedCmd(
    dmaIndex: nat,
    ruleId: nat,
    redundGroup: nat,
    trigger: Trigger,
    winClose: bool,
    winOpen: bool,
    ngnDisable: bool,
    ngnEnable: bool)

  const NOP_CMD := SchedCmd(0, 0, 0, NoTrigger, false, false, false, false)

  /** A command that makes the scheduler do something when its row is reached. */
  predicate Active(cmd: SchedCmd) {
    !cmd.trigger.NoTrigger? || cmd.winClose || cmd.winOpen || cmd.ngnDisable || cmd.ngnEnable
  }

  /** A scheduler command at an absolute tick of the module's cycle. */
  datatype FscCommand = FscCommand(absCycle: nat, cmd: SchedCmd, schedule: ScheduleEntry?)

  /** Delays of one link speed, in nanoseconds. */
  datatype Delays = Delays(chipIn: nat, chipEg: nat, phyIn: nat, phyEg: nat, serSwitch: nat)

  datatype ConnectionMode = Serial | Parallel

  class AcmModule {
    const moduleId: nat
    var mode: ConnectionMode
    var cycleNs: nat
    var delays: Delays
    var streams: seq<AcmStream>
    var fscList: seq<FscCommand>

    constructor (moduleId: nat, mode: ConnectionMode, delays: Delays)
      ensures this.moduleId == moduleId && this.mode == mode && this.delays == delays
      ensures cycleNs == 0 && streams == [] && fscList == []
    {
      this.moduleId, this.mode, this.delays := moduleId, mode, delays;
      cycleNs, streams, fscList := 0, [], [];
    }
  }

  /** The list macros of the library refuse to add an element twice. */
  ghost predicate Distinct<T>(s: seq<T>) {
    forall i, j :: 0 <= i < j < |s| ==> s[i] != s[j]
  }
}
