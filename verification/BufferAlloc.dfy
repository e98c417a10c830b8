/** Creation of the message buffer list: the allocator that walks over the operations of
    all streams of both modules, shares or appends buffers, and links the operations. */
module BufferAlloc {
  import opened Entities
  import opened Arith
  import opened Layout
  import opened MsgBuffers

  const ACM_MODULES_COUNT := 2

  class AcmConfig {
    const bypass: seq<AcmModule?>
    var msgBuffs: seq<SysfsBuffer>

    constructor (bypass: seq<AcmModule?>)
      requires |bypass| == ACM_MODULES_COUNT
      ensures this.bypass == bypass && msgBuffs == []
    {
      this.bypass := bypass;
      msgBuffs := [];
    }
  }

  /** The module, if there is one. */
  ghost function Here(bypass: AcmModule?): set<AcmModule> {
    if bypass == null then {} else {bypass}
  }

  ghost function Streams(bypass: AcmModule?): seq<AcmStream>
    reads Here(bypass)`streams
  {
    if bypass == null then [] else bypass.streams
  }

  /** The streams of both modules. */
  datatype Lists = Lists(first: seq<AcmStream>, second: seq<AcmStream>) {
    /** No stream belongs to two modules, or twice to one. */
    ghost predicate StreamsDistinct() {
      Distinct(first) && Distinct(second) && forall s :: s in first ==> s !in second
    }
  }

  /** Module `i` of a configuration, if there is one. */
  ghost function ModuleOf(config: AcmConfig, i: nat): set<AcmModule> {
    if |config.bypass| <= i then {} else Here(config.bypass[i])
  }

  /** `lists` are the streams of the modules of a configuration. */
  ghost predicate OfConfig(config: AcmConfig, lists: Lists)
    reads ModuleOf(config, 0)`streams, ModuleOf(config, 1)`streams
  {
    && |config.bypass| == ACM_MODULES_COUNT
    && Streams(config.bypass[0]) == lists.first && Streams(config.bypass[1]) == lists.second
  }

  // ---- the list and what it stands for ----

  /** Indexes count the buffers in list order, in eight bits. */
  ghost predicate Numbered(list: seq<SysfsBuffer>) {
    forall k {:trigger list[k].index} :: 0 <= k < |list| ==> list[k].index == U8(k)
  }

  /** The list holds the buffers `bufs`, one per name. The first `n` offsets are the sums of
      the sizes before them, in 16 bits, and so is what is `used`. */
  ghost predicate Represents(config: AcmConfig, bufs: seq<Buf>, n: nat, used: nat)
    reads config, config.msgBuffs`size, config.msgBuffs`offset
  {
    var list := config.msgBuffs;
    && |list| == |bufs| && used == U16(Total(bufs, |bufs|)) && NamesDistinct(bufs) && Numbered(list)
    && (forall k {:trigger list[k].size} {:trigger list[k].name} ::
         0 <= k < |list| ==> bufs[k] == Buf(list[k].name, list[k].receive, list[k].size))
    && (forall k {:trigger list[k].offset} :: 0 <= k < |list| && k < n ==> list[k].offset == U16(Total(bufs, k)))
  }

  ghost predicate SameButLink(a: Operation, b: Operation) {
    b == a.(msgBuf := b.msgBuf)
  }

  ghost predicate SameButLinks(a: seq<Operation>, b: seq<Operation>) {
    |a| == |b| && forall j :: 0 <= j < |a| ==> SameButLink(a[j], b[j])
  }

  /** A READ or INSERT holds the list's buffer of its own name and direction. */
  ghost predicate Linked(op: Operation, list: seq<SysfsBuffer>) {
    UsesBuffer(op) ==>
      && op.msgBuf != null && op.msgBuf in list
      && op.msgBuf.name == op.bufferName && op.msgBuf.receive == op.opcode.READ?
  }

  /** The first `n` operations are linked, and behind them the ones that have a link at all. */
  ghost predicate LinkedUpTo(ops: seq<Operation>, list: seq<SysfsBuffer>, n: nat) {
    forall j {:trigger ops[j]} :: 0 <= j < |ops| && (j < n || ops[j].msgBuf != null) ==> Linked(ops[j], list)
  }

  ghost predicate AllLinked(ops: seq<Operation>, list: seq<SysfsBuffer>) {
    LinkedUpTo(ops, list, |ops|)
  }

  /** The new list extends the old one by new buffers. */
  twostate predicate Extends(list: seq<SysfsBuffer>, new list': seq<SysfsBuffer>) {
    list <= list' && forall k :: |list| <= k < |list'| ==> fresh(list'[k])
  }

  // ---- one operation ----

  lemma NextOffset(bufs: seq<Buf>, k: nat)
    requires k < |bufs|
    ensures U16(U16(Total(bufs, k)) + bufs[k].size) == U16(Total(bufs, k + 1))
  {
    U16Sum(Total(bufs, k), bufs[k].size);
  }

  lemma SamePosition(config: AcmConfig, bufs: seq<Buf>, n: nat, used: nat, i: nat, j: nat)
    requires Represents(config, bufs, n, used) && i < |bufs| && j < |bufs|
    ensures |config.msgBuffs| == |bufs| && config.msgBuffs[i].size == bufs[i].size
    ensures config.msgBuffs[i] == config.msgBuffs[j] <==> i == j
  {
    assert config.msgBuffs[i].name == bufs[i].name && config.msgBuffs[j].name == bufs[j].name;
  }

  /** Corrects the offsets behind the buffer at position `at`, which has grown. */
  method UpdateOffsetAfterBuffer(config: AcmConfig, buffer: SysfsBuffer, ghost bufs: seq<Buf>, ghost at: nat)
    requires Represents(config, bufs, at + 1, U16(Total(bufs, |bufs|)))
    requires at < |config.msgBuffs| && config.msgBuffs[at] == buffer
    modifies config.msgBuffs`offset
    ensures Represents(config, bufs, |bufs|, U16(Total(bufs, |bufs|)))
  {
    var bufferFound, changedOffset := false, 0;
    var k := 0;
    while k < |config.msgBuffs|
      invariant 0 <= k <= |config.msgBuffs|
      invariant bufferFound <==> at < k
      invariant bufferFound ==> changedOffset == U16(Total(bufs, k))
      invariant Represents(config, bufs, if bufferFound then k else at + 1, U16(Total(bufs, |bufs|)))
    {
      NextOffset(bufs, k);
      SamePosition(config, bufs, if bufferFound then k else at + 1, U16(Total(bufs, |bufs|)), k, at);
      if bufferFound {
        config.msgBuffs[k].offset := changedOffset;
        changedOffset := U16(changedOffset + config.msgBuffs[k].size);
      } else if config.msgBuffs[k] == buffer {
        bufferFound := true;
        changedOffset := U16(config.msgBuffs[k].offset + config.msgBuffs[k].size);
      }
      k := k + 1;
    }
  }

  /** Looks for a buffer of the same name; one of the other direction is an error. */
  method BufferNameCheck(config: AcmConfig, buffer: SysfsBuffer, ghost bufs: seq<Buf>)
    returns (error: Option<Error>, reuse: SysfsBuffer?)
    requires Represents(config, bufs, |bufs|, U16(Total(bufs, |bufs|)))
    ensures var k := Find(bufs, buffer.name);
      if k == |bufs| then error.None? && reuse == null
      else if bufs[k].receive != buffer.receive then error == Some(EPERM) && reuse == null
      else error.None? && reuse == config.msgBuffs[k]
  {
    error, reuse := None, null;
    var k := 0;
    while k < |config.msgBuffs|
      invariant 0 <= k <= |config.msgBuffs| && error.None? && reuse == null
      invariant forall j :: 0 <= j < k ==> bufs[j].name != buffer.name
    {
      if config.msgBuffs[k].name == buffer.name {
        if config.msgBuffs[k].receive != buffer.receive {
          error := Some(EPERM);
        } else {
          reuse := config.msgBuffs[k];
        }
        return;
      }
      k := k + 1;
    }
  }

  lemma SizeChanges(bufs: seq<Buf>, at: nat, size: nat, after: seq<Buf>)
    requires at < |bufs| && after == bufs[at := bufs[at].(size := size)] && NamesDistinct(bufs)
    ensures NamesDistinct(after) && Total(after, |after|) == Total(bufs, |bufs|) + size - bufs[at].size
    ensures forall j :: 0 <= j <= at ==> Total(after, j) == Total(bufs, j)
  {
    TotalUpdate(bufs, at, after[at], |bufs|);
    forall j | 0 <= j <= at ensures Total(after, j) == Total(bufs, j) {
      TotalPrefix(after, bufs, j);
    }
  }

  /** A reused buffer grows to the new size and everything behind it moves up. */
  method GrowBuffer(config: AcmConfig, buffer: SysfsBuffer, size: nat, offset: nat, ghost bufs: seq<Buf>,
                    ghost after: seq<Buf>, ghost at: nat) returns (offset': nat)
    requires Represents(config, bufs, |bufs|, offset)
    requires at < |config.msgBuffs| && config.msgBuffs[at] == buffer && size > buffer.size
    requires after == bufs[at := bufs[at].(size := size)]
    modifies config.msgBuffs`offset, buffer`size
    ensures Represents(config, after, |after|, offset')
  {
    SizeChanges(bufs, at, size, after);
    U16Sum(Total(bufs, |bufs|), size - buffer.size);
    offset' := U16(offset + (size - buffer.size));
    assert forall k {:trigger config.msgBuffs[k].name} :: 0 <= k < |config.msgBuffs| && k != at ==>
      config.msgBuffs[k] != buffer by {
      assert config.msgBuffs[at].name == bufs[at].name;
    }
    buffer.size := size;
    UpdateOffsetAfterBuffer(config, buffer, after, at);
  }

  /** Sharing a buffer: it grows only when the new message is larger. */
  method ReuseBuffer(config: AcmConfig, buffer: SysfsBuffer, size: nat, offset: nat, ghost bufs: seq<Buf>,
                     ghost after: seq<Buf>, ghost at: nat) returns (offset': nat)
    requires Represents(config, bufs, |bufs|, offset)
    requires at < |config.msgBuffs| && config.msgBuffs[at] == buffer
    requires after == bufs[at := bufs[at].(size := if size > bufs[at].size then size else bufs[at].size)]
    modifies config.msgBuffs`offset, buffer`size
    ensures Represents(config, after, |after|, offset')
  {
    offset' := offset;
    assert config.msgBuffs[at].size == bufs[at].size;
    if size > buffer.size {
      offset' := GrowBuffer(config, buffer, size, offset, bufs, after, at);
    } else {
      assert after == bufs;
    }
  }

  /** A new buffer goes to the end of the list and of the used memory. */
  method AddBuffer(config: AcmConfig, buffer: SysfsBuffer, index: nat, offset: nat, ghost bufs: seq<Buf>,
                   ghost after: seq<Buf>)
    returns (index': nat, offset': nat)
    requires Represents(config, bufs, |bufs|, offset)
    requires buffer.index == index == U8(|bufs|) && buffer.offset == offset
    requires after == bufs + [Buf(buffer.name, buffer.receive, buffer.size)] && NamesDistinct(after)
    modifies config`msgBuffs
    ensures config.msgBuffs == old(config.msgBuffs) + [buffer]
    ensures Represents(config, after, |after|, offset') && index' == U8(|after|)
  {
    forall j | 0 <= j <= |bufs| ensures Total(after, j) == Total(bufs, j) {
      TotalPrefix(after, bufs, j);
    }
    U16Sum(Total(bufs, |bufs|), buffer.size);
    U8Next(|bufs|);
    index', offset' := U8(index + 1), U16(offset + buffer.size);
    config.msgBuffs := config.msgBuffs + [buffer];
  }

  /** A last block that is not full counts as well. */
  method CountBlocks(op: Operation, granularity: nat) returns (bufferSize: nat)
    requires granularity > 0
    ensures bufferSize == Blocks(op, granularity)
  {
    BlocksForQuotient(GetOplen(op), granularity);
    bufferSize := GetOplen(op) / granularity;
    if GetOplen(op) % granularity > 0 {
      bufferSize := bufferSize + 1;
    }
  }

  /** Places the buffer of one READ or INSERT operation. */
  method PlaceBuffer(config: AcmConfig, op: Operation, granularity: nat, index: nat, offset: nat, ghost bufs: seq<Buf>)
    returns (error: Option<Error>, index': nat, offset': nat, link: SysfsBuffer?)
    requires UsesBuffer(op) && granularity > 0
    requires Represents(config, bufs, |bufs|, offset) && index == U8(|bufs|)
    modifies config`msgBuffs, config.msgBuffs`offset, config.msgBuffs`size
    ensures error.Some? <==> Place(bufs, RequestOf(op, granularity)).None?
    ensures error.Some? ==> Represents(config, bufs, |bufs|, offset)
    ensures error.None? ==> (var after := Place(bufs, RequestOf(op, granularity)).value;
      Represents(config, after, |after|, offset') && index' == U8(|after|))
    ensures Extends(old(config.msgBuffs), config.msgBuffs)
    ensures error.None? ==> Linked(op.(msgBuf := link), config.msgBuffs)
  {
    ghost var placed := Place(bufs, RequestOf(op, granularity));
    index', offset', link := index, offset, null;
    var bufferSize := CountBlocks(op, granularity);
    var newBuf := new SysfsBuffer(op.bufferName, op.opcode.READ?, index, offset, bufferSize);
    var reuse;
    error, reuse := BufferNameCheck(config, newBuf, bufs);
    if error.Some? {
      return;
    }
    if reuse != null {
      offset' := ReuseBuffer(config, reuse, newBuf.size, offset, bufs, placed.value, Find(bufs, op.bufferName));
      link := reuse;
    } else {
      PlaceKeepsNames(bufs, RequestOf(op, granularity));
      index', offset' := AddBuffer(config, newBuf, index, offset, bufs, placed.value);
      link := newBuf;
    }
  }

  // ---- the operations of a stream ----

  /** One step of the loop over a stream's operations. */
  method VisitOperation(config: AcmConfig, stream: AcmStream, k: nat, granularity: nat, index: nat, offset: nat,
                        ghost bufs: seq<Buf>)
    returns (error: Option<Error>, index': nat, offset': nat, ghost after: seq<Buf>)
    requires granularity > 0 && k < |stream.operations|
    requires Represents(config, bufs, |bufs|, offset) && index == U8(|bufs|)
    modifies config`msgBuffs, config.msgBuffs`offset, config.msgBuffs`size, stream`operations
    ensures PlaceOp(bufs, old(stream.operations[k]), granularity) == if error.None? then Some(after) else None
    ensures error.None? ==> (Represents(config, after, |after|, offset') && index' == U8(|after|))
    ensures Extends(old(config.msgBuffs), config.msgBuffs)
    ensures |stream.operations| == |old(stream.operations)|
    ensures stream.operations == old(stream.operations)[k := stream.operations[k]]
    ensures SameButLink(old(stream.operations[k]), stream.operations[k])
    ensures error.None? ==> Linked(stream.operations[k], config.msgBuffs)
    ensures error.Some? ==> stream.operations == old(stream.operations)
  {
    error, index', offset', after := None, index, offset, bufs;
    var op := stream.operations[k];
    if op.opcode != READ && op.opcode != INSERT {
      return;
    }
    var link;
    error, index', offset', link := PlaceBuffer(config, op, granularity, index, offset, bufs);
    if error.None? {
      after := Place(bufs, RequestOf(op, granularity)).value;
      stream.operations := stream.operations[k := op.(msgBuf := link)];
    }
  }

  lemma NextOperation(bufs: seq<Buf>, ops: seq<Operation>, granularity: nat, k: nat, placed: seq<Buf>, op: Operation)
    requires granularity > 0 && k < |ops| && SameButLink(ops[k], op)
    requires PlaceOps(bufs, ops, granularity, k) == Some(placed)
    ensures PlaceOps(bufs, ops, granularity, k + 1) == PlaceOp(placed, op, granularity)
    ensures PlaceOp(placed, op, granularity).None? ==> PlaceOps(bufs, ops, granularity, |ops|).None?
  {
    assert PlaceOp(placed, ops[k], granularity) == PlaceOp(placed, op, granularity);
    if PlaceOp(placed, op, granularity).None? {
      PlaceOpsStaysFailed(bufs, ops, granularity, k + 1, |ops|);
    }
  }

  lemma StillLinked(ops: seq<Operation>, list: seq<SysfsBuffer>, k: nat, ops': seq<Operation>, list': seq<SysfsBuffer>)
    requires k < |ops| == |ops'| && LinkedUpTo(ops, list, k) && list <= list'
    requires ops' == ops[k := ops'[k]] && Linked(ops'[k], list')
    ensures LinkedUpTo(ops', list', k + 1)
  {
  }

  lemma LinkedInLongerList(ops: seq<Operation>, list: seq<SysfsBuffer>, list': seq<SysfsBuffer>, n: nat)
    requires LinkedUpTo(ops, list, n) && list <= list'
    ensures LinkedUpTo(ops, list', n) && LinkedUpTo(ops, list', 0)
  {
  }

  /** One round of the loop, seen from the stream's first operation. */
  method NextStep(config: AcmConfig, stream: AcmStream, k: nat, granularity: nat, index: nat, offset: nat,
                  ghost bufs: seq<Buf>, ghost ops: seq<Operation>, ghost placed: seq<Buf>)
    returns (error: Option<Error>, index': nat, offset': nat, ghost after: seq<Buf>)
    requires granularity > 0 && k < |ops| && SameButLinks(ops, stream.operations)
    requires PlaceOps(bufs, ops, granularity, k) == Some(placed)
    requires Represents(config, placed, |placed|, offset) && index == U8(|placed|)
    requires LinkedUpTo(stream.operations, config.msgBuffs, k)
    modifies config`msgBuffs, config.msgBuffs`offset, config.msgBuffs`size, stream`operations
    ensures error.None? ==> PlaceOps(bufs, ops, granularity, k + 1) == Some(after)
    ensures error.Some? ==> PlaceOps(bufs, ops, granularity, |ops|).None?
    ensures error.None? ==> (Represents(config, after, |after|, offset') && index' == U8(|after|))
    ensures Extends(old(config.msgBuffs), config.msgBuffs)
    ensures SameButLinks(ops, stream.operations)
    ensures LinkedUpTo(stream.operations, config.msgBuffs, if error.None? then k + 1 else 0)
  {
    ghost var before, list := stream.operations, config.msgBuffs;
    NextOperation(bufs, ops, granularity, k, placed, stream.operations[k]);
    error, index', offset', after := VisitOperation(config, stream, k, granularity, index, offset, placed);
    if error.None? {
      StillLinked(before, list, k, stream.operations, config.msgBuffs);
    } else {
      LinkedInLongerList(before, list, config.msgBuffs, k);
    }
  }

  /** Allocates for the operations `ops` of a stream, whose links may be stale. */
  method AllocateStream(config: AcmConfig, stream: AcmStream, granularity: nat, index: nat, offset: nat,
                        ghost bufs: seq<Buf>, ghost ops: seq<Operation>)
    returns (error: Option<Error>, index': nat, offset': nat, ghost after: seq<Buf>)
    requires granularity > 0 && SameButLinks(ops, stream.operations)
    requires LinkedUpTo(stream.operations, config.msgBuffs, 0)
    requires Represents(config, bufs, |bufs|, offset) && index == U8(|bufs|)
    modifies config`msgBuffs, config.msgBuffs`offset, config.msgBuffs`size, stream`operations
    ensures PlaceOps(bufs, ops, granularity, |ops|) == if error.None? then Some(after) else None
    ensures error.None? ==> (Represents(config, after, |after|, offset') && index' == U8(|after|))
    ensures Extends(old(config.msgBuffs), config.msgBuffs)
    ensures SameButLinks(ops, stream.operations)
    ensures LinkedUpTo(stream.operations, config.msgBuffs, if error.None? then |ops| else 0)
  {
    error, index', offset', after := None, index, offset, bufs;
    var k := 0;
    while k < |stream.operations|
      invariant 0 <= k <= |ops| && error.None?
      invariant PlaceOps(bufs, ops, granularity, k) == Some(after)
      invariant Represents(config, after, |after|, offset') && index' == U8(|after|)
      invariant Extends(old(config.msgBuffs), config.msgBuffs)
      invariant SameButLinks(ops, stream.operations)
      invariant LinkedUpTo(stream.operations, config.msgBuffs, k)
    {
      error, index', offset', after := NextStep(config, stream, k, granularity, index', offset', bufs, ops, after);
      if error.Some? {
        return;
      }
      k := k + 1;
    }
  }

  // ---- the streams of a module ----

  /** The streams hold the operations of the views, up to links. */
  ghost predicate Carries(streams: seq<AcmStream>, vs: seq<StreamView>)
    reads streams`operations
  {
    && |streams| == |vs|
    && forall k {:trigger streams[k]} :: 0 <= k < |streams| ==> SameButLinks(vs[k].ops, streams[k].operations)
  }

  /** The first `n` streams are linked, and what links the others have are right. */
  ghost predicate StreamsLinked(streams: seq<AcmStream>, list: seq<SysfsBuffer>, n: nat)
    reads streams`operations
  {
    forall k {:trigger streams[k]} :: 0 <= k < |streams| ==>
      LinkedUpTo(streams[k].operations, list, if k < n then |streams[k].operations| else 0)
  }

  lemma NextStream(bufs: seq<Buf>, vs: seq<StreamView>, granularity: nat, k: nat, placed: seq<Buf>)
    requires granularity > 0 && k < |vs| && PlaceStreams(bufs, vs, granularity, k) == Some(placed)
    ensures PlaceStreams(bufs, vs, granularity, k + 1) == PlaceOps(placed, vs[k].ops, granularity, |vs[k].ops|)
    ensures PlaceOps(placed, vs[k].ops, granularity, |vs[k].ops|).None? ==>
      PlaceStreams(bufs, vs, granularity, |vs|).None?
  {
    if PlaceStreams(bufs, vs, granularity, k + 1).None? {
      PlaceStreamsStaysFailed(bufs, vs, granularity, k + 1, |vs|);
    }
  }

  /** One round of the loop over the streams of a module. */
  method VisitStream(config: AcmConfig, streams: seq<AcmStream>, k: nat, granularity: nat, index: nat, offset: nat,
                     ghost bufs: seq<Buf>, ghost vs: seq<StreamView>, ghost placed: seq<Buf>)
    returns (error: Option<Error>, index': nat, offset': nat, ghost after: seq<Buf>)
    requires granularity > 0 && k < |streams| && Distinct(streams) && Carries(streams, vs)
    requires PlaceStreams(bufs, vs, granularity, k) == Some(placed)
    requires Represents(config, placed, |placed|, offset) && index == U8(|placed|)
    requires StreamsLinked(streams, config.msgBuffs, k)
    modifies config`msgBuffs, config.msgBuffs`offset, config.msgBuffs`size, streams`operations
    ensures error.None? ==> PlaceStreams(bufs, vs, granularity, k + 1) == Some(after)
    ensures error.Some? ==> PlaceStreams(bufs, vs, granularity, |vs|).None?
    ensures error.None? ==> (Represents(config, after, |after|, offset') && index' == U8(|after|))
    ensures Extends(old(config.msgBuffs), config.msgBuffs)
    ensures Carries(streams, vs) && StreamsLinked(streams, config.msgBuffs, if error.None? then k + 1 else 0)
  {
    NextStream(bufs, vs, granularity, k, placed);
    error, index', offset', after := AllocateStream(config, streams[k], granularity, index, offset, placed, vs[k].ops);
  }

  method AllocateStreams(config: AcmConfig, streams: seq<AcmStream>, granularity: nat, index: nat, offset: nat,
                         ghost bufs: seq<Buf>, ghost vs: seq<StreamView>)
    returns (error: Option<Error>, index': nat, offset': nat, ghost after: seq<Buf>)
    requires granularity > 0 && Distinct(streams) && Carries(streams, vs) && StreamsLinked(streams, config.msgBuffs, 0)
    requires Represents(config, bufs, |bufs|, offset) && index == U8(|bufs|)
    modifies config`msgBuffs, config.msgBuffs`offset, config.msgBuffs`size, streams`operations
    ensures PlaceStreams(bufs, vs, granularity, |vs|) == if error.None? then Some(after) else None
    ensures error.None? ==> (Represents(config, after, |after|, offset') && index' == U8(|after|))
    ensures Extends(old(config.msgBuffs), config.msgBuffs)
    ensures Carries(streams, vs) && StreamsLinked(streams, config.msgBuffs, if error.None? then |streams| else 0)
  {
    error, index', offset', after := None, index, offset, bufs;
    var k := 0;
    while k < |streams|
      invariant 0 <= k <= |vs| && error.None?
      invariant PlaceStreams(bufs, vs, granularity, k) == Some(after)
      invariant Represents(config, after, |after|, offset') && index' == U8(|after|)
      invariant Extends(old(config.msgBuffs), config.msgBuffs)
      invariant Carries(streams, vs)
      invariant StreamsLinked(streams, config.msgBuffs, k)
    {
      error, index', offset', after := VisitStream(config, streams, k, granularity, index', offset', bufs, vs, after);
      if error.Some? {
        return;
      }
      k := k + 1;
    }
  }

  /** A module that is there must leave a block free, in 16 bits. */
  predicate StaysFree(placed: Option<seq<Buf>>, bypass: AcmModule?, granularity: nat, memory: int) {
    placed.Some? && (bypass != null ==> BlockFree(U16(Total(placed.value, |placed.value|)), granularity, memory))
  }

  /** Allocates for the streams of one module; a module that is not there is skipped, and
      one whose streams leave no block of the memory free is refused. */
  method CreateHwMsgBufListModule(config: AcmConfig, bypass: AcmModule?, granularity: nat, memory: int, index: nat,
                                  offset: nat, ghost bufs: seq<Buf>, ghost streams: seq<AcmStream>,
                                  ghost vs: seq<StreamView>)
    returns (error: Option<Error>, index': nat, offset': nat, ghost after: seq<Buf>)
    requires streams == Streams(bypass) && granularity > 0 && Distinct(streams) && Carries(streams, vs)
    requires StreamsLinked(streams, config.msgBuffs, 0)
    requires Represents(config, bufs, |bufs|, offset) && index == U8(|bufs|)
    modifies config`msgBuffs, config.msgBuffs`offset, config.msgBuffs`size, streams`operations
    ensures error.None? ==> PlaceStreams(bufs, vs, granularity, |vs|) == Some(after)
    ensures error.None? ==> (Represents(config, after, |after|, offset') && index' == U8(|after|))
    ensures error.None? <==> StaysFree(PlaceStreams(bufs, vs, granularity, |vs|), bypass, granularity, memory)
    ensures Extends(old(config.msgBuffs), config.msgBuffs)
    ensures Carries(streams, vs) && StreamsLinked(streams, config.msgBuffs, if error.None? then |vs| else 0)
  {
    error, index', offset', after := None, index, offset, bufs;
    if bypass == null {
      return;
    }
    error, index', offset', after := AllocateStreams(config, bypass.streams, granularity, index, offset, bufs, vs);
    if error.None? && (offset' + 1) * granularity >= memory {
      error := Some(EPERM);
    }
  }

  // ---- the modules of a configuration ----

  predicate AnyModule(bypass: seq<AcmModule?>, n: nat)
    requires n <= |bypass|
  {
    exists j :: 0 <= j < n && bypass[j] != null
  }

  /** The first `k` modules get their buffers: no name is used in both directions, and after
      each of them that is there a block is left, as far as 16 bits tell. */
  ghost predicate Allocates(bypass: seq<AcmModule?>, vss: seq<seq<StreamView>>, granularity: nat, memory: int, k: nat)
    requires granularity > 0 && k <= |vss| == |bypass|
  {
    k > 0 ==>
      && Allocates(bypass, vss, granularity, memory, k - 1)
      && StaysFree(PlaceModules(vss, granularity, k), bypass[k - 1], granularity, memory)
  }

  /** A module that is not there has no streams. */
  ghost predicate AbsentEmpty(bypass: seq<AcmModule?>, vss: seq<seq<StreamView>>) {
    |bypass| == |vss| && forall i :: 0 <= i < |vss| && bypass[i] == null ==> vss[i] == []
  }

  lemma {:induction false} AllocatesIfEnough(bypass: seq<AcmModule?>, vss: seq<seq<StreamView>>, granularity: nat,
                                             memory: int, k: nat)
    requires granularity > 0 && AbsentEmpty(bypass, vss) && k <= |vss| && PlaceModules(vss, granularity, k).Some?
    requires var placed := PlaceModules(vss, granularity, k).value; Total(placed, |placed|) < U16_LIMIT
    ensures Allocates(bypass, vss, granularity, memory, k) <==>
      (AnyModule(bypass, k) ==> MemorySuffices(PlaceModules(vss, granularity, k).value, granularity, memory))
  {
    if k > 0 {
      var before, after := PlaceModules(vss, granularity, k - 1).value, PlaceModules(vss, granularity, k).value;
      PlaceStreamsGrows(before, vss[k - 1], granularity);
      AllocatesIfEnough(bypass, vss, granularity, memory, k - 1);
      MulLe(Total(before, |before|) + 1, Total(after, |after|) + 1, granularity);
      assert AnyModule(bypass, k) <==> AnyModule(bypass, k - 1) || bypass[k - 1] != null;
    }
  }

  lemma {:induction false} AllocatesPlaces(bypass: seq<AcmModule?>, vss: seq<seq<StreamView>>, granularity: nat,
                                           memory: int)
    requires granularity > 0 && |bypass| == |vss| > 0 && Allocates(bypass, vss, granularity, memory, |vss|)
    ensures PlaceModules(vss, granularity, |vss|).Some?
  {
  }

  /** While the buffers fit the 16 bits of an offset, a configuration gets its buffers if and
      only if no name is used in both directions and, with any module there, memory suffices. */
  lemma AllocationVerdict(bypass: seq<AcmModule?>, vss: seq<seq<StreamView>>, granularity: nat, memory: int)
    requires granularity > 0 && AbsentEmpty(bypass, vss) && |vss| > 0
    requires var placed := PlaceAll([], ConfigRequests(vss, granularity, |vss|));
      placed.Some? ==> Total(placed.value, |placed.value|) < U16_LIMIT
    ensures var rs := ConfigRequests(vss, granularity, |vss|);
      Allocates(bypass, vss, granularity, memory, |vss|) <==>
        && !Conflict(rs) && PlaceAll([], rs).Some?
        && (AnyModule(bypass, |bypass|) ==> MemorySuffices(PlaceAll([], rs).value, granularity, memory))
  {
    PlaceModulesPlacesRequests(vss, granularity, |vss|);
    PlacementFailsOnConflict(ConfigRequests(vss, granularity, |vss|));
    if PlaceModules(vss, granularity, |vss|).Some? {
      AllocatesIfEnough(bypass, vss, granularity, memory, |vss|);
    }
  }

  /** Behind 65536 blocks the 16 bits start again at zero, and a memory far too small seems to
      have a block left. */
  lemma WrappedTotalSeemsFree(bypass: AcmModule, placed: seq<Buf>, granularity: nat, memory: int)
    requires Total(placed, |placed|) == U16_LIMIT && granularity < memory <= U16_LIMIT * granularity
    ensures StaysFree(Some(placed), bypass, granularity, memory) && !MemorySuffices(placed, granularity, memory)
  {
  }

  /** Both modules carry their operations; those of the first `n` modules are linked. */
  ghost predicate Modules(lists: Lists, vss: seq<seq<StreamView>>, list: seq<SysfsBuffer>, n: int)
    requires |vss| == ACM_MODULES_COUNT
    reads lists.first`operations, lists.second`operations
  {
    && Carries(lists.first, vss[0]) && Carries(lists.second, vss[1])
    && (n > 0 ==> StreamsLinked(lists.first, list, |vss[0]|))
    && (n > 1 ==> StreamsLinked(lists.second, list, |vss[1]|))
  }

  /** No operation of either module holds anything but the list's buffer for it. */
  ghost predicate BothSound(lists: Lists, list: seq<SysfsBuffer>)
    reads lists.first`operations, lists.second`operations
  {
    StreamsLinked(lists.first, list, 0) && StreamsLinked(lists.second, list, 0)
  }

  lemma LinkedInLonger(streams: seq<AcmStream>, list: seq<SysfsBuffer>, list': seq<SysfsBuffer>, n: nat)
    requires StreamsLinked(streams, list, n) && list <= list'
    ensures StreamsLinked(streams, list', n) && StreamsLinked(streams, list', 0)
  {
    forall k {:trigger streams[k]} | 0 <= k < |streams|
      ensures LinkedUpTo(streams[k].operations, list', if k < n then |streams[k].operations| else 0)
      ensures LinkedUpTo(streams[k].operations, list', 0)
    {
      LinkedInLongerList(streams[k].operations, list, list', if k < n then |streams[k].operations| else 0);
    }
  }

  /** One module, with the streams of the other one. */
  method CreateBeside(config: AcmConfig, bypass: AcmModule?, granularity: nat, memory: int, index: nat, offset: nat,
                      ghost bufs: seq<Buf>, ghost streams: seq<AcmStream>, ghost vs: seq<StreamView>,
                      ghost others: seq<AcmStream>, ghost ws: seq<StreamView>, ghost n: nat)
    returns (error: Option<Error>, index': nat, offset': nat, ghost after: seq<Buf>)
    requires streams == Streams(bypass) && granularity > 0 && Distinct(streams) && Carries(streams, vs)
    requires Represents(config, bufs, |bufs|, offset) && index == U8(|bufs|)
    requires forall s :: s in streams ==> s !in others
    requires Carries(others, ws) && StreamsLinked(others, config.msgBuffs, n)
    requires StreamsLinked(streams, config.msgBuffs, 0)
    modifies config`msgBuffs, config.msgBuffs`offset, config.msgBuffs`size, streams`operations
    ensures error.None? ==> PlaceStreams(bufs, vs, granularity, |vs|) == Some(after)
    ensures error.None? ==> (Represents(config, after, |after|, offset') && index' == U8(|after|))
    ensures error.None? <==> StaysFree(PlaceStreams(bufs, vs, granularity, |vs|), bypass, granularity, memory)
    ensures Extends(old(config.msgBuffs), config.msgBuffs)
    ensures Carries(streams, vs) && Carries(others, ws) && StreamsLinked(others, config.msgBuffs, n)
    ensures StreamsLinked(streams, config.msgBuffs, if error.None? then |vs| else 0)
  {
    ghost var list := config.msgBuffs;
    assert forall k {:trigger others[k]} :: 0 <= k < |others| ==> others[k] !in streams;
    error, index', offset', after :=
      CreateHwMsgBufListModule(config, bypass, granularity, memory, index, offset, bufs, streams, vs);
    assert StreamsLinked(others, list, n);
    LinkedInLonger(others, list, config.msgBuffs, n);
  }

  /** One round of the loop over the modules. */
  method VisitModule(config: AcmConfig, i: nat, granularity: nat, memory: int, index: nat, offset: nat,
                     ghost lists: Lists, ghost vss: seq<seq<StreamView>>, ghost placed: seq<Buf>)
    returns (error: Option<Error>, index': nat, offset': nat, ghost after: seq<Buf>)
    requires OfConfig(config, lists) && lists.StreamsDistinct()
    requires i < |vss| == ACM_MODULES_COUNT && Modules(lists, vss, config.msgBuffs, i)
    requires BothSound(lists, config.msgBuffs)
    requires granularity > 0 && PlaceModules(vss, granularity, i) == Some(placed)
    requires Represents(config, placed, |placed|, offset) && index == U8(|placed|)
    requires Allocates(config.bypass, vss, granularity, memory, i)
    modifies config`msgBuffs, config.msgBuffs`offset, config.msgBuffs`size
    modifies lists.first`operations, lists.second`operations
    ensures Extends(old(config.msgBuffs), config.msgBuffs)
    ensures Modules(lists, vss, config.msgBuffs, if error.None? then i + 1 else 0) && BothSound(lists, config.msgBuffs)
    ensures error.None? ==> PlaceModules(vss, granularity, i + 1) == Some(after)
    ensures error.None? ==> (Represents(config, after, |after|, offset') && index' == U8(|after|))
    ensures error.None? <==> Allocates(config.bypass, vss, granularity, memory, i + 1)
  {
    if i == 0 {
      error, index', offset', after :=
        CreateBeside(config, config.bypass[i], granularity, memory, index, offset, placed,
          lists.first, vss[i], lists.second, vss[1], 0);
    } else {
      error, index', offset', after :=
        CreateBeside(config, config.bypass[i], granularity, memory, index, offset, placed,
          lists.second, vss[i], lists.first, vss[0], |vss[0]|);
    }
  }

  /** A module that fails, fails the configuration. */
  lemma {:induction false} FailureIsFinal(bypass: seq<AcmModule?>, vss: seq<seq<StreamView>>, granularity: nat,
                                          memory: int, i: nat, j: nat)
    requires granularity > 0 && i <= j <= |vss| == |bypass| && !Allocates(bypass, vss, granularity, memory, i)
    ensures !Allocates(bypass, vss, granularity, memory, j)
  {
    if i < j {
      FailureIsFinal(bypass, vss, granularity, memory, i, j - 1);
    }
  }

  /** The loop over the modules. */
  method VisitModules(config: AcmConfig, granularity: nat, memory: int, ghost lists: Lists,
                      ghost vss: seq<seq<StreamView>>)
    returns (error: Option<Error>, ghost placed: seq<Buf>)
    requires OfConfig(config, lists) && lists.StreamsDistinct() && config.msgBuffs == []
    requires |vss| == ACM_MODULES_COUNT && Modules(lists, vss, [], 0) && BothSound(lists, []) && granularity > 0
    modifies config`msgBuffs, lists.first`operations, lists.second`operations
    ensures error.None? <==> Allocates(config.bypass, vss, granularity, memory, |vss|)
    ensures error.None? ==> PlaceModules(vss, granularity, |vss|) == Some(placed)
    ensures error.None? ==> Represents(config, placed, |placed|, U16(Total(placed, |placed|)))
    ensures Modules(lists, vss, config.msgBuffs, if error.None? then |vss| else 0)
    ensures BothSound(lists, config.msgBuffs)
  {
    error, placed := None, [];
    var index, offset := 0, 0;
    var i := 0;
    while i < ACM_MODULES_COUNT
      invariant 0 <= i <= ACM_MODULES_COUNT && error.None?
      invariant PlaceModules(vss, granularity, i) == Some(placed)
      invariant Represents(config, placed, |placed|, offset) && index == U8(|placed|)
      invariant Allocates(config.bypass, vss, granularity, memory, i)
      invariant fresh(config.msgBuffs)
      invariant Modules(lists, vss, config.msgBuffs, i) && BothSound(lists, config.msgBuffs)
    {
      error, index, offset, placed := VisitModule(config, i, granularity, memory, index, offset, lists, vss, placed);
      i := i + 1;
      if error.Some? {
        FailureIsFinal(config.bypass, vss, granularity, memory, i, |vss|);
        return;
      }
    }
  }

  /** Creates the buffer list of a configuration whose list is empty. */
  method CreateHwMsgBufList(config: AcmConfig, granularity: int, memory: int, ghost lists: Lists,
                            ghost vss: seq<seq<StreamView>>)
    returns (error: Option<Error>, ghost placed: seq<Buf>)
    requires OfConfig(config, lists) && lists.StreamsDistinct() && config.msgBuffs == []
    requires |vss| == ACM_MODULES_COUNT && Modules(lists, vss, [], 0) && BothSound(lists, [])
    modifies config`msgBuffs, lists.first`operations, lists.second`operations
    ensures granularity <= 0 ==> error == Some(ENODEV)
    ensures error.None? <==> granularity > 0 && Allocates(config.bypass, vss, granularity, memory, |vss|)
    ensures error.None? ==> PlaceAll([], ConfigRequests(vss, granularity, |vss|)) == Some(placed)
    ensures error.None? ==> IsAllocation(placed, ConfigRequests(vss, granularity, |vss|))
    ensures error.None? ==> Represents(config, placed, |placed|, U16(Total(placed, |placed|)))
    ensures Modules(lists, vss, config.msgBuffs, if error.None? then |vss| else 0)
    ensures BothSound(lists, config.msgBuffs)
  {
    if granularity <= 0 {
      return Some(ENODEV), [];
    }
    error, placed := VisitModules(config, granularity, memory, lists, vss);
    if error.None? {
      PlaceModulesPlacesRequests(vss, granularity, |vss|);
      PlacementIsAllocation(ConfigRequests(vss, granularity, |vss|));
    }
  }

  // ---- recalculation ----

  method StreamCleanMsgBuffLinks(stream: AcmStream)
    modifies stream`operations
    ensures SameButLinks(old(stream.operations), stream.operations)
    ensures forall j :: 0 <= j < |stream.operations| && UsesBuffer(stream.operations[j]) ==>
      stream.operations[j].msgBuf == null
  {
    ghost var ops := stream.operations;
    var k := 0;
    while k < |stream.operations|
      invariant 0 <= k <= |ops| && SameButLinks(ops, stream.operations)
      invariant forall j :: 0 <= j < k && UsesBuffer(stream.operations[j]) ==> stream.operations[j].msgBuf == null
    {
      var op := stream.operations[k];
      assert SameButLink(ops[k], op);
      if op.opcode == READ || op.opcode == INSERT {
        stream.operations := stream.operations[k := op.(msgBuf := null)];
      }
      k := k + 1;
    }
  }

  method ModuleCleanMsgBuffLinks(bypass: AcmModule?, ghost list: seq<AcmStream>, ghost vs: seq<StreamView>)
    requires list == Streams(bypass) && Distinct(list) && Carries(list, vs)
    modifies list`operations
    ensures Carries(list, vs) && StreamsLinked(list, [], 0)
  {
    if bypass == null {
      return;
    }
    var streams := bypass.streams;
    var k := 0;
    while k < |streams|
      invariant 0 <= k <= |streams| && Carries(streams, vs)
      invariant forall j {:trigger streams[j]} :: 0 <= j < k ==> LinkedUpTo(streams[j].operations, [], 0)
    {
      ghost var before := streams[k].operations;
      StreamCleanMsgBuffLinks(streams[k]);
      LinksDiffer(vs[k].ops, before, streams[k].operations);
      k := k + 1;
    }
  }

  lemma LinksDiffer(a: seq<Operation>, b: seq<Operation>, c: seq<Operation>)
    requires SameButLinks(a, b) && SameButLinks(b, c)
    ensures SameButLinks(a, c)
  {
    forall j | 0 <= j < |a| ensures SameButLink(a[j], c[j]) {
      assert SameButLink(a[j], b[j]) && SameButLink(b[j], c[j]);
    }
  }

  method CleanLinks(config: AcmConfig, ghost lists: Lists, ghost vss: seq<seq<StreamView>>)
    requires OfConfig(config, lists) && lists.StreamsDistinct()
    requires |vss| == ACM_MODULES_COUNT && Carries(lists.first, vss[0]) && Carries(lists.second, vss[1])
    modifies lists.first`operations, lists.second`operations
    ensures Carries(lists.first, vss[0]) && Carries(lists.second, vss[1]) && BothSound(lists, [])
  {
    var i := 0;
    while i < ACM_MODULES_COUNT
      invariant 0 <= i <= ACM_MODULES_COUNT
      invariant Carries(lists.first, vss[0]) && Carries(lists.second, vss[1])
      invariant i > 0 ==> StreamsLinked(lists.first, [], 0)
      invariant i > 1 ==> StreamsLinked(lists.second, [], 0)
    {
      ModuleCleanMsgBuffLinks(config.bypass[i], if i == 0 then lists.first else lists.second, vss[i]);
      i := i + 1;
    }
  }

  /** Drops all links and buffers and allocates anew; what was there before does not matter. */
  method CleanAndRecalculateHwMsgBuffs(config: AcmConfig, granularity: int, memory: int, ghost lists: Lists,
                                       ghost vss: seq<seq<StreamView>>)
    returns (error: Option<Error>, ghost placed: seq<Buf>)
    requires OfConfig(config, lists) && lists.StreamsDistinct()
    requires |vss| == ACM_MODULES_COUNT && Carries(lists.first, vss[0]) && Carries(lists.second, vss[1])
    modifies config`msgBuffs, lists.first`operations, lists.second`operations
    ensures granularity <= 0 ==> error == Some(ENODEV)
    ensures error.None? <==> granularity > 0 && Allocates(config.bypass, vss, granularity, memory, |vss|)
    ensures error.None? ==> PlaceAll([], ConfigRequests(vss, granularity, |vss|)) == Some(placed)
    ensures error.None? ==> IsAllocation(placed, ConfigRequests(vss, granularity, |vss|))
    ensures error.None? ==> Represents(config, placed, |placed|, U16(Total(placed, |placed|)))
    ensures Modules(lists, vss, config.msgBuffs, if error.None? then |vss| else 0)
    // even after a failure no link is left to anything but the list's buffer for the operation
    ensures BothSound(lists, config.msgBuffs)
  {
    CleanLinks(config, lists, vss);
    config.msgBuffs := [];
    error, placed := CreateHwMsgBufList(config, granularity, memory, lists, vss);
  }

  // ---- what the operations find ----

  /** A linked operation finds a buffer that holds its message. */
  lemma BufferServes(config: AcmConfig, placed: seq<Buf>, rs: seq<Request>, granularity: nat, op: Operation)
    requires granularity > 0 && IsAllocation(placed, rs)
    requires Represents(config, placed, |placed|, U16(Total(placed, |placed|)))
    requires UsesBuffer(op) && Created(op) && Linked(op, config.msgBuffs) && RequestOf(op, granularity) in rs
    ensures MessageSize(op) <= granularity * op.msgBuf.size
  {
    var i :| 0 <= i < |config.msgBuffs| && config.msgBuffs[i] == op.msgBuf;
    assert placed[i] == Buf(op.bufferName, op.opcode.READ?, op.msgBuf.size);
    NamedBufferServes(placed, rs, RequestOf(op, granularity), i);
    BlocksHoldMessage(op, granularity);
    MulLe(Blocks(op, granularity), op.msgBuf.size, granularity);
  }

  lemma LinkedOperation(streams: seq<AcmStream>, vs: seq<StreamView>, list: seq<SysfsBuffer>, k: nat, j: nat)
    requires Carries(streams, vs) && StreamsLinked(streams, list, |vs|) && k < |vs| && j < |vs[k].ops|
    ensures |vs| == |streams| && |vs[k].ops| == |streams[k].operations|
    ensures SameButLink(vs[k].ops[j], streams[k].operations[j]) && Linked(streams[k].operations[j], list)
  {
    assert SameButLinks(vs[k].ops, streams[k].operations) && AllLinked(streams[k].operations, list);
  }

  /** After a successful allocation every READ and INSERT of every stream of either module is
      linked to the buffer of its own name and direction, and its message fits there. */
  lemma OperationHasItsBuffer(config: AcmConfig, streams: seq<AcmStream>, vss: seq<seq<StreamView>>, granularity: nat,
                              placed: seq<Buf>, m: nat, k: nat, j: nat)
    requires m < |vss| && granularity > 0
    requires Carries(streams, vss[m]) && StreamsLinked(streams, config.msgBuffs, |vss[m]|)
    requires IsAllocation(placed, ConfigRequests(vss, granularity, |vss|))
    requires Represents(config, placed, |placed|, U16(Total(placed, |placed|)))
    requires k < |vss[m]| && j < |vss[m][k].ops|
    requires UsesBuffer(vss[m][k].ops[j]) && Created(vss[m][k].ops[j])
    ensures var op := streams[k].operations[j];
      && op == vss[m][k].ops[j].(msgBuf := op.msgBuf)
      && op.msgBuf != null && op.msgBuf in config.msgBuffs
      && op.msgBuf.name == op.bufferName && op.msgBuf.receive == op.opcode.READ?
      && op.length + (if op.opcode.READ? then 4 else 0) <= granularity * op.msgBuf.size
  {
    LinkedOperation(streams, vss[m], config.msgBuffs, k, j);
    OperationIsRequested(vss, granularity, m, k, j);
    BufferServes(config, placed, ConfigRequests(vss, granularity, |vss|), granularity, streams[k].operations[j]);
  }

  lemma OffsetIsTotal(config: AcmConfig, placed: seq<Buf>, k: nat)
    requires Represents(config, placed, |placed|, U16(Total(placed, |placed|)))
    requires Total(placed, |placed|) < U16_LIMIT && k < |placed|
    ensures |config.msgBuffs| == |placed| && config.msgBuffs[k].size == placed[k].size
    ensures config.msgBuffs[k].offset == Total(placed, k)
  {
    BufferEndsBefore(placed, k, |placed|);
    U16Fits(Total(placed, k));
  }

  /** The buffers lie one behind the other within the memory: no two overlap. */
  lemma BuffersDoNotOverlap(config: AcmConfig, placed: seq<Buf>, granularity: nat, memory: int, i: nat, j: nat)
    requires granularity > 0 && Represents(config, placed, |placed|, U16(Total(placed, |placed|)))
    requires MemorySuffices(placed, granularity, memory) && Total(placed, |placed|) < U16_LIMIT
    requires i < j < |config.msgBuffs|
    ensures config.msgBuffs[i].offset + config.msgBuffs[i].size <= config.msgBuffs[j].offset
    ensures (config.msgBuffs[j].offset + config.msgBuffs[j].size) * granularity < memory
  {
    OffsetIsTotal(config, placed, i);
    OffsetIsTotal(config, placed, j);
    BufferEndsBefore(placed, i, j);
    BufferEndsBefore(placed, j, |placed|);
    MulLe(config.msgBuffs[j].offset + config.msgBuffs[j].size, Total(placed, |placed|) + 1, granularity);
  }
}
