/** Adding operations to a stream: what its type allows, the validation from the stream
    upwards, the header every sender starts with, and the removal of the user's operations. */
module Operations {
  import opened Arith
  import opened Entities
  import opened FscList
  import opened DmaProgram
  import opened DmaTables
  import opened Layout
  import opened SchedTable
  import opened ValidateStream
  import opened Validate
  import opened ValidateConfig
  import opened BufferAlloc
  import opened MsgBuffers
  import opened Linking

  /** What every stream keeps: operations that its type allows and that are well-formed. */
  ghost predicate StreamOk(v: StreamView) {
    WellTyped(v) && AllCreated(v.ops)
  }

  /** The stream's type lets the operation in. */
  predicate Admits(kind: StreamType, hasReference: bool, ops: seq<Operation>, op: Operation) {
    AllowedOp(kind, op) && (op.opcode.FORWARD_ALL? ==> !hasReference && !HasOp(ops, FORWARD_ALL))
  }

  /** A stream with view `v` takes the operation, as far as it is judged on its own. */
  ghost predicate Takes(v: StreamView, hasReference: bool, op: Operation, ties: Ties) {
    Admits(v.kind, hasReference, v.ops, op) && StreamFine(v.(ops := v.ops + [op]), ties, false)
  }

  method CheckOperationType(stream: AcmStream, op: Operation) returns (error: Option<Error>)
    ensures error.None? <==> Admits(stream.kind, stream.reference != null, stream.operations, op)
  {
    match stream.kind {
      case RedundantTx | TimeTriggered | RecoveryStream =>
        if op.opcode == FORWARD || op.opcode == READ || op.opcode == FORWARD_ALL {
          return Some(EINVAL);
        }
      case EventStream =>
        if op.opcode == READ || op.opcode == FORWARD_ALL {
          return Some(EINVAL);
        }
      case IngressTriggered =>
        if op.opcode != FORWARD_ALL && op.opcode != READ {
          return Some(EINVAL);
        }
        if op.opcode == FORWARD_ALL && stream.reference != null {
          return Some(EPERM);
        }
        if op.opcode == FORWARD_ALL {
          var present := StreamHasOperationX(stream, FORWARD_ALL);
          if present {
            return Some(EPERM);
          }
        }
      case RedundantRx =>
        if op.opcode != READ {
          return Some(EINVAL);
        }
    }
    return None;
  }

  /** Senders take what adds to their frame, of the incoming frame only if there is one; receivers
      take what uses the incoming frame, and with a partner only what stores it. */
  lemma OpcodesByType(kind: StreamType, op: Operation)
    ensures AllowedOp(kind, op) <==>
      match kind
      case EventStream => op.opcode in {INSERT, INSERT_CONSTANT, PAD, FORWARD}
      case IngressTriggered => op.opcode in {READ, FORWARD_ALL}
      case RedundantRx => op.opcode in {READ}
      case _ => op.opcode in {INSERT, INSERT_CONSTANT, PAD}
  {
  }

  /** Everything is forwarded at most once, and not beside an event stream that uses the frame. */
  lemma AdmitsMeans(kind: StreamType, hasReference: bool, ops: seq<Operation>, op: Operation)
    ensures Admits(kind, hasReference, ops, op) <==>
      && AllowedOp(kind, op)
      && (op.opcode == FORWARD_ALL ==> !hasReference && NumOps(ops, FORWARD_ALL, |ops|) == 0)
  {
    NoneCounted(ops, FORWARD_ALL, |ops|);
  }

  lemma {:induction false} NoneCounted(ops: seq<Operation>, code: Opcode, k: nat)
    requires k <= |ops|
    ensures NumOps(ops, code, k) == 0 <==> forall j :: 0 <= j < k ==> ops[j].opcode != code
  {
    if k > 0 {
      NoneCounted(ops, code, k - 1);
    }
  }

  lemma AddingKeepsStreamOk(v: StreamView, hasReference: bool, op: Operation)
    requires StreamOk(v) && Created(op) && Admits(v.kind, hasReference, v.ops, op)
    ensures StreamOk(v.(ops := v.ops + [op]))
    ensures HasHeader(v.ops) ==> HasHeader(v.ops + [op])
  {
    CountGatherAppend(v.ops, op, |v.ops|);
    CountGatherAll(v.ops, |v.ops|);
  }

  /** Adds an operation to a stream that is not in a module yet. A rejected operation leaves
      the list as it was. */
  method StreamAddOperation(stream: AcmStream, op: Operation, ties: Ties, ghost ops: seq<Operation>)
    returns (error: Option<Error>)
    requires ops == stream.operations && StreamOk(StreamView(stream.kind, ops)) && Created(op)
    modifies stream`operations
    ensures stream.operations == if error.None? then ops + [op] else ops
    ensures error.None? <==> old(Takes(StreamView(stream.kind, ops), stream.reference != null, op, ties))
    ensures StreamOk(StreamView(stream.kind, stream.operations))
    ensures HasHeader(ops) ==> HasHeader(stream.operations)
  {
    error := CheckOperationType(stream, op);
    if error.Some? {
      return;
    }
    AddingKeepsStreamOk(StreamView(stream.kind, ops), stream.reference != null, op);
    stream.operations := stream.operations + [op];
    error := ValidateStreamAlone(stream, ties, false, StreamView(stream.kind, ops + [op]));
    if error.Some? {
      ViolatedNotFine(error.value, StreamView(stream.kind, ops + [op]), ties, false);
      stream.operations := stream.operations[..|stream.operations| - 1];
      assert stream.operations == ops;
    }
  }

  /** The views of `streams` when `s` holds `ops`. */
  ghost predicate Replaced(streams: seq<AcmStream>, s: AcmStream, ops: seq<Operation>, vs: seq<StreamView>)
    reads streams`kind, streams`operations
  {
    && |vs| == |streams|
    && forall k {:trigger streams[k]} {:trigger vs[k]} :: 0 <= k < |vs| ==>
         vs[k] == StreamView(streams[k].kind, if streams[k] == s then ops else streams[k].operations)
  }

  lemma ReplacedIsPresent(streams: seq<AcmStream>, s: AcmStream, ops: seq<Operation>, vs: seq<StreamView>)
    requires Replaced(streams, s, ops, vs) && s.operations == ops
    ensures vs == Views(streams)
  {
  }

  /** The same, noting that the schedules of streams `all` stay as they are. */
  method AddBesideSchedules(stream: AcmStream, op: Operation, ties: Ties, ghost ops: seq<Operation>,
                            ghost all: seq<AcmStream>, ghost plans: seq<Plan>)
    returns (error: Option<Error>)
    requires ops == stream.operations && StreamOk(StreamView(stream.kind, ops)) && Created(op)
    requires plans == Plans(all)
    modifies stream`operations
    ensures stream.operations == if error.None? then ops + [op] else ops
    ensures error.None? <==> old(Takes(StreamView(stream.kind, ops), stream.reference != null, op, ties))
    ensures StreamOk(StreamView(stream.kind, stream.operations)) && (HasHeader(ops) ==> HasHeader(stream.operations))
    ensures plans == Plans(all)
  {
    error := StreamAddOperation(stream, op, ties, ops);
  }

  /** The operation is at the end of the list, which differs from the old one in links only. */
  ghost predicate Appended(ops: seq<Operation>, op: Operation, ops': seq<Operation>) {
    SameButLinks(ops + [op], ops')
  }

  lemma LastRemoved(ops: seq<Operation>, op: Operation, ops': seq<Operation>)
    requires Appended(ops, op, ops')
    ensures SameButLinks(ops, ops'[..|ops'| - 1])
  {
    forall j | 0 <= j < |ops| ensures SameButLink(ops[j], ops'[j]) {
      assert SameButLink((ops + [op])[j], ops'[j]);
    }
  }

  lemma CarriedOperations(stream: AcmStream, ops: seq<Operation>, streams: seq<AcmStream>, vs: seq<StreamView>)
    requires stream in streams && Carries(streams, vs)
    requires forall k {:trigger vs[k]} :: 0 <= k < |vs| && streams[k] == stream ==> vs[k].ops == ops
    ensures SameButLinks(ops, stream.operations)
  {
    var k :| 0 <= k < |streams| && streams[k] == stream;
  }

  /** The check of the message buffers, after which the stream's operations differ in links. */
  method ValidateBuffersAround(stream: AcmStream, config: AcmConfig, limits: Limits, ghost ops: seq<Operation>,
                               ghost lists: Lists, ghost vss: seq<seq<StreamView>>)
    returns (error: Option<Error>)
    requires stream.operations == ops && (stream in lists.first || stream in lists.second)
    requires Allocatable(config, lists, vss, limits)
    modifies config`msgBuffs, lists.first`operations, lists.second`operations
    ensures error.None? <==> BuffersAccepted(vss, limits, AnyModule(config.bypass, |config.bypass|))
    ensures SameButLinks(ops, stream.operations) && BothCarry(lists, vss)
  {
    ghost var placed;
    error, placed := ValidateBuffers(config, limits, lists, vss);
    if stream in lists.first {
      CarriedOperations(stream, ops, lists.first, vss[0]);
    } else {
      CarriedOperations(stream, ops, lists.second, vss[1]);
    }
  }

  lemma LinksUnchanged(ops: seq<Operation>)
    ensures SameButLinks(ops, ops)
  {
  }

  lemma StaysOk(kind: StreamType, ops: seq<Operation>, ops': seq<Operation>)
    requires StreamOk(StreamView(kind, ops)) && SameButLinks(ops, ops')
    ensures StreamOk(StreamView(kind, ops')) && (HasHeader(ops) ==> HasHeader(ops'))
  {
    LinksKeepTypes(StreamView(kind, ops), StreamView(kind, ops'));
  }

  /** `us` are the views `vs` with the operations `ops` in stream `s`. */
  ghost predicate Instead(streams: seq<AcmStream>, s: AcmStream, ops: seq<Operation>, vs: seq<StreamView>,
                          us: seq<StreamView>) {
    && |us| == |vs| == |streams|
    && forall k {:trigger us[k]} {:trigger streams[k]} :: 0 <= k < |us| ==>
         us[k] == if streams[k] == s then vs[k].(ops := ops) else vs[k]
  }

  ghost predicate BothInstead(lists: Lists, s: AcmStream, ops: seq<Operation>, vss: seq<seq<StreamView>>,
                              uss: seq<seq<StreamView>>) {
    && |vss| == |uss| == ACM_MODULES_COUNT
    && Instead(lists.first, s, ops, vss[0], uss[0]) && Instead(lists.second, s, ops, vss[1], uss[1])
  }

  /** Takes the last operation out again; `uss` are the views without it. */
  method RemoveLast(stream: AcmStream, op: Operation, ghost ops: seq<Operation>, ghost lists: Lists,
                    ghost vss: seq<seq<StreamView>>, ghost uss: seq<seq<StreamView>>)
    requires SameButLinks(ops + [op], stream.operations)
    requires BothInstead(lists, stream, ops, vss, uss) && BothCarry(lists, vss)
    modifies stream`operations
    ensures SameButLinks(ops, stream.operations) && BothCarry(lists, uss)
  {
    LastRemoved(ops, op, stream.operations);
    stream.operations := stream.operations[..|stream.operations| - 1];
  }

  /** The checks above the stream and, if they fail, the removal of the operation. */
  method ValidateAboveOrRemove(stream: AcmStream, op: Operation, m: AcmModule, config: AcmConfig, limits: Limits,
                               ghost ops: seq<Operation>, ghost facts: Facts, ghost lists: Lists,
                               ghost vss: seq<seq<StreamView>>, ghost uss: seq<seq<StreamView>>)
    returns (error: Option<Error>)
    requires BothInstead(lists, stream, ops, vss, uss)
    requires stream.operations == ops + [op] && (stream in lists.first || stream in lists.second)
    requires Sorted(m.fscList) && WellFormed(facts) && facts == FactsOf(m, NoTies(|m.streams|))
    requires Allocatable(config, lists, vss, limits)
    modifies config`msgBuffs, stream`operations, lists.first`operations, lists.second`operations
    ensures error.None? <==>
      Accepted(facts, false) && BuffersAccepted(vss, limits, AnyModule(config.bypass, |config.bypass|))
    ensures SameButLinks(if error.None? then ops + [op] else ops, stream.operations)
    ensures BothCarry(lists, if error.None? then vss else uss)
  {
    error := RunChecks(m, NoTies(|m.streams|), false, facts);
    NothingLinked(lists, vss, []);
    LinksUnchanged(ops + [op]);
    if error.None? {
      error := ValidateBuffersAround(stream, config, limits, ops + [op], lists, vss);
    }
    if error.Some? {
      RemoveLast(stream, op, ops, lists, vss, uss);
    }
  }

  /** `facts` are those of the module except for the views of its streams. */
  ghost predicate Belongs(facts: Facts, m: AcmModule)
    reads m`streams, m`fscList, m`cycleNs
    reads m.streams`windows, m.streams`referenceRedundant
    reads (set s | s in m.streams :: s.referenceRedundant)`windows
  {
    && facts.ties == NoTies(|m.streams|) && facts.plans == Plans(m.streams)
    && facts.ticks == Ticks(m.fscList) && facts.cycleNs == m.cycleNs
  }

  /** `facts` and `vss` are what module and configuration come to when the stream holds `ops`. */
  ghost predicate Prospect(stream: AcmStream, m: AcmModule, ops: seq<Operation>, facts: Facts, lists: Lists,
                           vss: seq<seq<StreamView>>)
    reads m`streams
    reads m.streams`kind, m.streams`operations
    reads lists.first`kind, lists.first`operations, lists.second`kind, lists.second`operations
  {
    && Replaced(m.streams, stream, ops, facts.vs) && |vss| == ACM_MODULES_COUNT
    && Replaced(lists.first, stream, ops, vss[0]) && Replaced(lists.second, stream, ops, vss[1])
  }

  lemma ProspectIsPresent(stream: AcmStream, m: AcmModule, ops: seq<Operation>, facts: Facts, lists: Lists,
                          vss: seq<seq<StreamView>>)
    requires Prospect(stream, m, ops, facts, lists, vss) && stream.operations == ops && Belongs(facts, m)
    ensures facts == FactsOf(m, NoTies(|m.streams|))
    ensures vss[0] == Views(lists.first) && vss[1] == Views(lists.second)
  {
    ReplacedIsPresent(m.streams, stream, ops, facts.vs);
    ReplacedIsPresent(lists.first, stream, ops, vss[0]);
    ReplacedIsPresent(lists.second, stream, ops, vss[1]);
  }

  /** With its old operations, the stream leaves both modules with the views `uss`. */
  ghost predicate WithOld(stream: AcmStream, ops: seq<Operation>, lists: Lists, uss: seq<seq<StreamView>>)
    reads lists.first`kind, lists.first`operations, lists.second`kind, lists.second`operations
  {
    && |uss| == ACM_MODULES_COUNT
    && Replaced(lists.first, stream, ops, uss[0]) && Replaced(lists.second, stream, ops, uss[1])
  }

  lemma OldAreCarried(stream: AcmStream, ops: seq<Operation>, lists: Lists, uss: seq<seq<StreamView>>)
    requires WithOld(stream, ops, lists, uss) && stream.operations == ops
    ensures BothCarry(lists, uss)
  {
    ReplacedIsPresent(lists.first, stream, ops, uss[0]);
    ReplacedIsPresent(lists.second, stream, ops, uss[1]);
    NothingLinked(lists, uss, []);
  }

  lemma OldInsteadOfNew(stream: AcmStream, m: AcmModule, op: Operation, ops: seq<Operation>, facts: Facts,
                        lists: Lists, vss: seq<seq<StreamView>>, uss: seq<seq<StreamView>>)
    requires WithOld(stream, ops, lists, uss) && Prospect(stream, m, ops + [op], facts, lists, vss)
    ensures BothInstead(lists, stream, ops, vss, uss)
  {
  }

  /** The same, seen from the module and the configuration. */
  method AddToModule(stream: AcmStream, op: Operation, ties: Ties, ghost ops: seq<Operation>, ghost m: AcmModule,
                     ghost facts: Facts, ghost lists: Lists, ghost vss: seq<seq<StreamView>>,
                     ghost uss: seq<seq<StreamView>>)
    returns (error: Option<Error>)
    requires WithOld(stream, ops, lists, uss)
    requires ops == stream.operations && StreamOk(StreamView(stream.kind, ops)) && Created(op)
    requires Prospect(stream, m, ops + [op], facts, lists, vss) && Belongs(facts, m)
    modifies stream`operations
    ensures stream.operations == if error.None? then ops + [op] else ops
    ensures error.None? <==> old(Takes(StreamView(stream.kind, ops), stream.reference != null, op, ties))
    ensures error.None? ==> vss[0] == Views(lists.first) && vss[1] == Views(lists.second)
    ensures error.None? ==> facts == FactsOf(m, NoTies(|m.streams|))
    ensures error.Some? ==> BothCarry(lists, uss)
  {
    error := AddBesideSchedules(stream, op, ties, ops, m.streams, facts.plans);
    if error.None? {
      ProspectIsPresent(stream, m, ops + [op], facts, lists, vss);
    } else {
      OldAreCarried(stream, ops, lists, uss);
    }
  }

  /** And what the allocator can be given then. */
  method AddToConfig(stream: AcmStream, op: Operation, ties: Ties, ghost ops: seq<Operation>, ghost m: AcmModule,
                     ghost facts: Facts, ghost lists: Lists, ghost vss: seq<seq<StreamView>>,
                     ghost uss: seq<seq<StreamView>>, ghost config: AcmConfig, ghost limits: Limits)
    returns (error: Option<Error>)
    requires WithOld(stream, ops, lists, uss)
    requires ops == stream.operations && StreamOk(StreamView(stream.kind, ops)) && Created(op)
    requires Prospect(stream, m, ops + [op], facts, lists, vss) && Belongs(facts, m)
    requires OfConfig(config, lists) && lists.StreamsDistinct() && OffsetsFit(limits)
    requires StreamsCreated(vss[0]) && StreamsCreated(vss[1])
    modifies stream`operations
    ensures stream.operations == if error.None? then ops + [op] else ops
    ensures error.None? <==> old(Takes(StreamView(stream.kind, ops), stream.reference != null, op, ties))
    ensures error.None? ==> Allocatable(config, lists, vss, limits)
    ensures error.None? ==> facts == FactsOf(m, NoTies(|m.streams|))
    ensures error.Some? ==> BothCarry(lists, uss)
  {
    error := AddToModule(stream, op, ties, ops, m, facts, lists, vss, uss);
  }

  /** Addition and validation, and removal if that fails. */
  method AddOrRemove(stream: AcmStream, op: Operation, ties: Ties, m: AcmModule, config: AcmConfig, limits: Limits,
                     ghost ops: seq<Operation>, ghost facts: Facts, ghost lists: Lists,
                     ghost vss: seq<seq<StreamView>>, ghost uss: seq<seq<StreamView>>)
    returns (error: Option<Error>)
    requires WithOld(stream, ops, lists, uss)
    requires ops == stream.operations && StreamOk(StreamView(stream.kind, ops)) && Created(op) && Sorted(m.fscList)
    requires (stream in lists.first || stream in lists.second) && OfConfig(config, lists) && lists.StreamsDistinct()
    requires Prospect(stream, m, ops + [op], facts, lists, vss) && WellFormed(facts) && Belongs(facts, m)
    requires StreamsCreated(vss[0]) && StreamsCreated(vss[1]) && OffsetsFit(limits)
    modifies config`msgBuffs, stream`operations, lists.first`operations, lists.second`operations
    ensures error.None? <==>
      && old(Takes(StreamView(stream.kind, ops), stream.reference != null, op, ties)) && Accepted(facts, false)
      && BuffersAccepted(vss, limits, AnyModule(config.bypass, |config.bypass|))
    ensures SameButLinks(if error.None? then ops + [op] else ops, stream.operations)
    ensures BothCarry(lists, if error.None? then vss else uss)
  {
    OldInsteadOfNew(stream, m, op, ops, facts, lists, vss, uss);
    error := AddToConfig(stream, op, ties, ops, m, facts, lists, vss, uss, config, limits);
    LinksUnchanged(ops);
    if error.None? {
      error := ValidateAboveOrRemove(stream, op, m, config, limits, ops, facts, lists, vss, uss);
    }
  }

  /** Adds an operation to a stream of a module of a configuration: stream, module and message
      buffers are validated with it, and a rejected operation is taken out again. The buffers
      may have been allocated anew even then, so links may differ; all operations of all streams
      are kept otherwise. `facts` and `vss` are what module and configuration come to with the
      operation, `uss` what the configuration is without it. */
  method ConfigAddOperation(stream: AcmStream, op: Operation, ties: Ties, m: AcmModule, config: AcmConfig,
                            limits: Limits, ghost ops: seq<Operation>, ghost facts: Facts, ghost lists: Lists,
                            ghost vss: seq<seq<StreamView>>, ghost uss: seq<seq<StreamView>>)
    returns (error: Option<Error>)
    requires WithOld(stream, ops, lists, uss)
    requires ops == stream.operations && StreamOk(StreamView(stream.kind, ops)) && Created(op) && Sorted(m.fscList)
    requires (stream in lists.first || stream in lists.second) && OfConfig(config, lists) && lists.StreamsDistinct()
    requires Prospect(stream, m, ops + [op], facts, lists, vss) && WellFormed(facts) && Belongs(facts, m)
    requires StreamsCreated(vss[0]) && StreamsCreated(vss[1]) && OffsetsFit(limits)
    modifies config`msgBuffs, stream`operations, lists.first`operations, lists.second`operations
    ensures error.None? <==>
      && old(Takes(StreamView(stream.kind, ops), stream.reference != null, op, ties)) && Accepted(facts, false)
      && BuffersAccepted(vss, limits, AnyModule(config.bypass, |config.bypass|))
    ensures SameButLinks(if error.None? then ops + [op] else ops, stream.operations)
    ensures BothCarry(lists, if error.None? then vss else uss)
    ensures StreamOk(StreamView(stream.kind, stream.operations)) && (HasHeader(ops) ==> HasHeader(stream.operations))
  {
    ghost var kind := stream.kind;
    if Admits(kind, stream.reference != null, ops, op) {
      AddingKeepsStreamOk(StreamView(kind, ops), stream.reference != null, op);
    }
    error := AddOrRemove(stream, op, ties, m, config, limits, ops, facts, lists, vss, uss);
    StaysOk(kind, if error.None? then ops + [op] else ops, stream.operations);
  }

  // ---- the header of a sender ----

  const ETHER_ADDR_LEN := 6
  const ACM_VLAN_ID_MAX := 4095
  const ALL_ONES: seq<Byte> := [0xFF, 0xFF, 0xFF, 0xFF, 0xFF, 0xFF]

  /** "sw0p23", replaced by the address of the port once the stream is added to a module. */
  const LOCAL_SMAC: seq<Byte> := [0x73, 0x77, 0x30, 0x70, 0x32, 0x33]

  function Slice(offset: nat, length: nat): Operation {
    Operation(FORWARD, offset, length, "", [], null, 0)
  }

  /** Tag protocol identifier, priority and identifier, whose excess bits are lost. */
  function VlanTag(vlan: nat, prio: nat): (r: seq<Byte>)
    ensures |r| == 4 && r[0] as int == 0x81 && r[1] as int == 0
    ensures r[2] as int * 0x100 + r[3] as int == (0x2000 * prio) % 0x1_0000 + vlan % 0x1000
  {
    var help := U16(0x2000 * prio) + vlan % 0x1000;
    [0x81, 0, help / 0x100, help % 0x100]
  }

  /** An address as a constant, or the incoming frame's for an event stream told so by ones. */
  function AddressOp(kind: StreamType, mac: seq<Byte>, offset: nat, constant: seq<Byte>): (op: Operation)
    requires |constant| == ETHER_ADDR_LEN && offset <= 6
    ensures Created(op) && op.length == ETHER_ADDR_LEN && (IsIngress(kind) || AllowedOp(kind, op))
  {
    if mac == ALL_ONES && kind.EventStream? then Slice(offset, ETHER_ADDR_LEN) else Constant(constant)
  }

  function VlanOp(kind: StreamType, vlan: nat, prio: nat): (op: Operation)
    ensures Created(op) && op.length == 4 && (IsIngress(kind) || AllowedOp(kind, op))
  {
    if vlan == ACM_VLAN_ID_MAX && kind.EventStream? then Slice(12, 4) else Constant(VlanTag(vlan, prio))
  }

  /** The source address of a header; zeros stand for the port's own. */
  function SourceMac(smac: seq<Byte>): (r: seq<Byte>)
    requires |smac| == ETHER_ADDR_LEN
    ensures |r| == ETHER_ADDR_LEN
  {
    if smac == [0, 0, 0, 0, 0, 0] then LOCAL_SMAC else smac
  }

  /** The operations of the header: the two addresses and the VLAN tag. */
  function HeaderOps(kind: StreamType, dmac: seq<Byte>, smac: seq<Byte>, vlan: nat, prio: nat): (r: seq<Operation>)
    requires |dmac| == |smac| == ETHER_ADDR_LEN
    ensures |r| == NUM_AUTOGEN_OPS && HasHeader(r)
  {
    [AddressOp(kind, dmac, 0, dmac), AddressOp(kind, smac, 6, SourceMac(smac)), VlanOp(kind, vlan, prio)]
  }

  /** Bytes 12 to 15 of a tagged frame: the tag protocol identifier 0x8100, three bits of priority,
      a zero bit and twelve bits of VLAN identifier. */
  predicate IsVlanTag(tag: seq<Byte>, vlan: nat, prio: nat) {
    && |tag| == 4 && tag[0] as int == 0x81 && tag[1] as int == 0
    && tag[2] as int / 32 == prio % 8 && tag[2] as int % 32 < 16
    && tag[2] as int % 32 * 256 + tag[3] as int == vlan % 4096
  }

  /** The frame starts with the addresses and the tag given: destination, source (by "sw0p23" for
      zeros) and VLAN tag. An event stream takes from the incoming frame what is given as ones. */
  predicate StartsWithHeader(frame: seq<Part>, kind: StreamType, dmac: seq<Byte>, smac: seq<Byte>, vlan: nat,
                             prio: nat)
  {
    var ones: seq<Byte>, zeros: seq<Byte> := [0xFF, 0xFF, 0xFF, 0xFF, 0xFF, 0xFF], [0, 0, 0, 0, 0, 0];
    && |frame| >= 3
    && frame[0] == (if kind.EventStream? && dmac == ones then FrameSlice(0, 6) else Bytes(dmac))
    && frame[1] == (if kind.EventStream? && smac == ones then FrameSlice(6, 6)
                    else Bytes(if smac == zeros then [0x73, 0x77, 0x30, 0x70, 0x32, 0x33] else smac))
    && (if kind.EventStream? && vlan == 4095 then frame[2] == FrameSlice(12, 4)
        else frame[2].Bytes? && IsVlanTag(frame[2].data, vlan, prio))
  }

  lemma VlanTagBits(vlan: nat, prio: nat)
    ensures IsVlanTag(VlanTag(vlan, prio), vlan, prio)
  {
    var tag, p, v := VlanTag(vlan, prio), prio % 8, vlan % 0x1000;
    PriorityBits(prio);
    assert tag[2] as int * 0x100 + tag[3] as int == 0x2000 * p + v;
    assert tag[2] as int == 32 * p + v / 0x100 && tag[3] as int == v % 0x100;
  }

  lemma PriorityBits(prio: nat)
    ensures (0x2000 * prio) % 0x1_0000 == 0x2000 * (prio % 8)
  {
    assert 0x2000 * prio == 0x2000 * (prio % 8) + 0x1_0000 * (prio / 8);
    ModUnique(0x2000 * prio, 0x1_0000, -(prio / 8));
  }

  /** The header operations of a sender build the start of its frame. */
  lemma HeaderBuildsFrame(kind: StreamType, dmac: seq<Byte>, smac: seq<Byte>, vlan: nat, prio: nat)
    requires |dmac| == |smac| == ETHER_ADDR_LEN && Sends(kind)
    ensures var ops := HeaderOps(kind, dmac, smac, vlan, prio);
      FrameOps(ops) && OpsComplete(ops) && StartsWithHeader(Parts(ops), kind, dmac, smac, vlan, prio)
  {
    var ops := HeaderOps(kind, dmac, smac, vlan, prio);
    assert ops[..2][..1] == [ops[0]] && ops[..2][1] == ops[1] && [ops[0]][..0] == [];
    assert Parts([ops[0]]) == [PartOf(ops[0])];
    assert Parts(ops[..2]) == Parts([ops[0]]) + [PartOf(ops[1])];
    assert Parts(ops) == Parts(ops[..2]) + [PartOf(ops[2])];
    VlanTagBits(vlan, prio);
  }

  /** A sender without operations takes a header unless a VLAN identifier is missing or its
      partner is not where it may be. */
  predicate HeaderFits(kind: StreamType, vlan: nat, ties: Ties) {
    && Sends(kind) && (vlan == ACM_VLAN_ID_MAX ==> kind.EventStream?)
    && (kind.RedundantTx? ==> TiesFine(ties, false))
  }

  lemma HeaderStepFits(kind: StreamType, hasReference: bool, ops: seq<Operation>, op: Operation, ties: Ties)
    requires Sends(kind) && |ops| < NUM_AUTOGEN_OPS && HeaderPart(op, 6 * |ops|)
    requires forall k :: 0 <= k < |ops| ==> HeaderPart(ops[k], 6 * k)
    ensures Takes(StreamView(kind, ops), hasReference, op, ties) <==>
      AllowedOp(kind, op) && (kind.RedundantTx? ==> TiesFine(ties, false))
  {
    var all := ops + [op];
    HeaderPositions(all, |all|);
    forall k {:trigger Reachable(all, k)} | 0 <= k < |all| ensures Reachable(all, k) {
      HeaderPositions(all, k);
    }
  }

  /** An operation of the header: six bytes (the tag: four) at its offset in the frame. */
  predicate HeaderPart(op: Operation, offset: nat) {
    && (op.opcode.INSERT_CONSTANT? || (op.opcode.FORWARD? && op.offset == offset))
    && op.length <= 6 && (offset < 12 ==> op.length == 6)
  }

  lemma {:induction false} HeaderPositions(ops: seq<Operation>, k: nat)
    requires k <= |ops| <= NUM_AUTOGEN_OPS
    requires forall j :: 0 <= j < |ops| ==> HeaderPart(ops[j], 6 * j)
    ensures k < 3 ==> IngressPos(ops, k) == 6 * k
    ensures FrameSize(ops, k) <= 6 * k && NumOps(ops, INSERT, k) == 0
  {
    if k > 0 {
      HeaderPositions(ops, k - 1);
    }
  }

  method AddVlanTag(stream: AcmStream, vlan: nat, prio: nat, ties: Ties, ghost ops: seq<Operation>)
    returns (error: Option<Error>)
    requires ops == stream.operations && StreamOk(StreamView(stream.kind, ops))
    modifies stream`operations
    ensures StreamOk(StreamView(stream.kind, stream.operations))
    ensures error.None? <==>
      && (vlan == ACM_VLAN_ID_MAX ==> stream.kind.EventStream?)
      && old(Takes(StreamView(stream.kind, ops), stream.reference != null, VlanOp(stream.kind, vlan, prio), ties))
    ensures stream.operations == if error.None? then ops + [VlanOp(stream.kind, vlan, prio)] else ops
  {
    if vlan == ACM_VLAN_ID_MAX && stream.kind != EventStream {
      return Some(EINVAL);
    }
    error := StreamAddOperation(stream, VlanOp(stream.kind, vlan, prio), ties, ops);
  }

  lemma ThreeAppended(ops: seq<Operation>, a: Operation, b: Operation, c: Operation)
    ensures ops + [a] + [b] + [c] == ops + [a, b, c]
  {
  }

  lemma Prefixes(ops: seq<Operation>, a: Operation, b: Operation)
    ensures ops[..|ops|] == (ops + [a])[..|ops|] == (ops + [a] + [b])[..|ops|] == ops
  {
  }

  /** What a stream holds after a successful call: three more operations, and if there were none
      before, they build the start of the frame. */
  ghost predicate HeaderAdded(now: seq<Operation>, ops: seq<Operation>, kind: StreamType, dmac: seq<Byte>,
                              smac: seq<Byte>, vlan: nat, prio: nat)
  {
    && |now| == |ops| + NUM_AUTOGEN_OPS && now[..|ops|] == ops
    && FrameOps(now[|ops|..]) && OpsComplete(now[|ops|..])
    && StartsWithHeader(Parts(now[|ops|..]), kind, dmac, smac, vlan, prio)
  }

  lemma HeaderIsAdded(ops: seq<Operation>, kind: StreamType, dmac: seq<Byte>, smac: seq<Byte>, vlan: nat, prio: nat)
    requires |dmac| == |smac| == ETHER_ADDR_LEN && Sends(kind)
    ensures HeaderAdded(ops + HeaderOps(kind, dmac, smac, vlan, prio), ops, kind, dmac, smac, vlan, prio)
  {
    HeaderBuildsFrame(kind, dmac, smac, vlan, prio);
    assert (ops + HeaderOps(kind, dmac, smac, vlan, prio))[|ops|..] == HeaderOps(kind, dmac, smac, vlan, prio);
  }

  /** The stream takes the first `n` operations of `more` one after the other. */
  ghost predicate TakesAll(v: StreamView, hasReference: bool, more: seq<Operation>, ties: Ties, n: nat := |more|)
    requires n <= |more|
  {
    n > 0 ==>
      && TakesAll(v, hasReference, more, ties, n - 1)
      && Takes(v.(ops := v.ops + more[..n - 1]), hasReference, more[n - 1], ties)
  }

  lemma TakesThree(v: StreamView, hasReference: bool, a: Operation, b: Operation, c: Operation, ties: Ties)
    ensures TakesAll(v, hasReference, [a, b, c], ties) <==>
      && Takes(v, hasReference, a, ties)
      && Takes(v.(ops := v.ops + [a]), hasReference, b, ties)
      && Takes(v.(ops := v.ops + [a] + [b]), hasReference, c, ties)
  {
    var more := [a, b, c];
    assert v.ops + more[..0] == v.ops && v.ops + more[..1] == v.ops + [a];
    assert v.ops + more[..2] == v.ops + [a] + [b];
    assert TakesAll(v, hasReference, more, ties, 1) <==> Takes(v, hasReference, a, ties);
  }

  lemma FreshHeaderFits(kind: StreamType, hasReference: bool, dmac: seq<Byte>, smac: seq<Byte>, vlan: nat, prio: nat,
                        ties: Ties)
    requires |dmac| == |smac| == ETHER_ADDR_LEN
    requires Sends(kind) && (vlan == ACM_VLAN_ID_MAX ==> kind.EventStream?)
    ensures var ops := HeaderOps(kind, dmac, smac, vlan, prio);
      TakesAll(StreamView(kind, []), hasReference, ops, ties) <==> HeaderFits(kind, vlan, ties)
  {
    var ops := HeaderOps(kind, dmac, smac, vlan, prio);
    TakesThree(StreamView(kind, []), hasReference, ops[0], ops[1], ops[2], ties);
    assert [] + [ops[0]] == [ops[0]];
    HeaderStepFits(kind, hasReference, [], ops[0], ties);
    HeaderStepFits(kind, hasReference, [ops[0]], ops[1], ties);
    HeaderStepFits(kind, hasReference, [ops[0]] + [ops[1]], ops[2], ties);
  }

  /** One of the additions. */
  method AddHeaderOp(stream: AcmStream, op: Operation, ties: Ties, ghost v: StreamView, ghost hasReference: bool)
    returns (error: Option<Error>)
    requires v == StreamView(stream.kind, stream.operations) && hasReference == (stream.reference != null)
    requires StreamOk(v) && Created(op)
    modifies stream`operations
    ensures stream.operations == if error.None? then v.ops + [op] else v.ops
    ensures error.None? <==> Takes(v, hasReference, op, ties)
    ensures StreamOk(StreamView(stream.kind, stream.operations))
  {
    error := StreamAddOperation(stream, op, ties, v.ops);
  }

  /** The three additions; the list is as it was if one fails. */
  method AddHeader(stream: AcmStream, dmac: seq<Byte>, smac: seq<Byte>, vlan: nat, prio: nat, ties: Ties,
                   ghost ops: seq<Operation>)
    returns (error: Option<Error>)
    requires |dmac| == |smac| == ETHER_ADDR_LEN
    requires ops == stream.operations && StreamOk(StreamView(stream.kind, ops))
    modifies stream`operations
    ensures StreamOk(StreamView(stream.kind, stream.operations))
    ensures stream.operations == if error.None? then ops + HeaderOps(stream.kind, dmac, smac, vlan, prio) else ops
    ensures error.None? <==>
      && (vlan == ACM_VLAN_ID_MAX ==> stream.kind.EventStream?)
      && TakesAll(StreamView(stream.kind, ops), stream.reference != null,
           HeaderOps(stream.kind, dmac, smac, vlan, prio), ties)
  {
    var n := |stream.operations|;
    var dest := AddressOp(stream.kind, dmac, 0, dmac);
    var source := AddressOp(stream.kind, smac, 6, SourceMac(smac));
    TakesThree(StreamView(stream.kind, ops), stream.reference != null, dest, source, VlanOp(stream.kind, vlan, prio),
      ties);
    ghost var v, hasReference := StreamView(stream.kind, ops), stream.reference != null;
    error := AddHeaderOp(stream, dest, ties, v, hasReference);
    if error.None? {
      error := AddHeaderOp(stream, source, ties, v.(ops := ops + [dest]), hasReference);
    }
    if error.None? {
      error := AddVlanTag(stream, vlan, prio, ties, ops + [dest] + [source]);
    }
    if error.Some? {
      Prefixes(ops, dest, source);
      stream.operations := stream.operations[..n];
    } else {
      ThreeAppended(ops, dest, source, VlanOp(stream.kind, vlan, prio));
    }
  }

  /** Appends the header. A sender without operations takes every header that is complete, and
      its frame then starts with it; if anything fails the list is as it was. */
  method StreamSetEgressHeader(stream: AcmStream, dmac: seq<Byte>, smac: seq<Byte>, vlan: nat, prio: nat, ties: Ties,
                               ghost ops: seq<Operation>)
    returns (error: Option<Error>)
    requires |dmac| == |smac| == ETHER_ADDR_LEN
    requires ops == stream.operations && StreamOk(StreamView(stream.kind, ops))
    modifies stream`operations
    ensures StreamOk(StreamView(stream.kind, stream.operations))
    ensures error.None? ==> Sends(stream.kind) && (vlan == ACM_VLAN_ID_MAX ==> stream.kind.EventStream?)
    ensures ops == [] ==> (error.None? <==> HeaderFits(stream.kind, vlan, ties))
    ensures error.None? ==> HeaderAdded(stream.operations, ops, stream.kind, dmac, smac, vlan, prio)
    ensures error.None? && ops == [] ==> HasHeader(stream.operations)
    ensures error.Some? ==> stream.operations == ops
  {
    if stream.kind == IngressTriggered || stream.kind == RedundantRx {
      return Some(EINVAL);
    }
    ghost var hasReference := stream.reference != null;
    error := AddHeader(stream, dmac, smac, vlan, prio, ties, ops);
    if vlan == ACM_VLAN_ID_MAX ==> stream.kind.EventStream? {
      FreshHeaderFits(stream.kind, hasReference, dmac, smac, vlan, prio, ties);
    }
    HeaderIsAdded(ops, stream.kind, dmac, smac, vlan, prio);
    ghost var header := HeaderOps(stream.kind, dmac, smac, vlan, prio);
    assert [] + header == header;
  }

  /** Removes all operations but the header. */
  method OperationListFlushUser(stream: AcmStream, ghost ops: seq<Operation>)
    requires ops == stream.operations && StreamOk(StreamView(stream.kind, ops)) && Sends(stream.kind)
    modifies stream`operations
    ensures stream.operations == if |ops| <= NUM_AUTOGEN_OPS then ops else ops[..NUM_AUTOGEN_OPS]
    ensures StreamOk(StreamView(stream.kind, stream.operations))
    ensures HasHeader(ops) ==> HasHeader(stream.operations)
  {
    if |stream.operations| <= NUM_AUTOGEN_OPS {
      return;
    }
    while |stream.operations| > NUM_AUTOGEN_OPS
      invariant NUM_AUTOGEN_OPS <= |stream.operations| <= |ops|
      invariant stream.operations[..NUM_AUTOGEN_OPS] == ops[..NUM_AUTOGEN_OPS]
    {
      stream.operations := stream.operations[..NUM_AUTOGEN_OPS] + stream.operations[NUM_AUTOGEN_OPS + 1..];
    }
    assert stream.operations == ops[..NUM_AUTOGEN_OPS];
  }
}
