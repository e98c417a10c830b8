/** From a validated configuration to the frames it sends: acceptance of a module, the
    allocation of its message buffers and the writing of its tables, taken together. */
module Apply {
  import opened Entities
  import opened Layout
  import opened DmaProgram
  import opened DmaTables
  import opened DmaWriter
  import opened ValidateStream
  import opened Validate
  import opened ValidateConfig
  import opened MsgBuffers
  import opened BufferAlloc
  import opened Linking
  import opened Operations

  /** All streams are as their creation and the adding of operations left them. */
  ghost predicate AllOk(vs: seq<StreamView>) {
    forall k {:trigger vs[k]} :: 0 <= k < |vs| ==> StreamOk(vs[k])
  }

  lemma AcceptedBudgets(f: Facts)
    requires WellFormed(f) && Accepted(f, true)
    ensures EgressRows(f.vs, |f.vs|) <= ACM_MAX_EGRESS_OPERATIONS
    ensures IngressRows(f.vs, |f.vs|) <= ACM_MAX_INGRESS_OPERATIONS
    ensures ModuleConstBuffer(f.vs, |f.vs|) <= ACM_MAX_CONST_BUFFER_SIZE
  {
  }

  /** A module that passed the final validation and whose buffers are allocated meets
      everything the writers of its tables require. */
  lemma AllocatedModuleIsWritable(f: Facts, ws: seq<StreamView>, list: seq<SysfsBuffer>)
    requires WellFormed(f) && Accepted(f, true)
    requires LinkedViews(f.vs, ws, list) && Lockable(list)
    requires AllOk(f.vs)
    ensures SameShape(f.vs, ws) && Writable(ws)
    ensures ModuleConstBuffer(ws, |ws|) <= ACM_MAX_CONST_BUFFER_SIZE
  {
    AcceptedBudgets(f);
    LinkedIsWritable(f.vs, ws, list);
  }

  /** In the tables written for an accepted module with allocated buffers, the gather index
      computed before the validation makes every sender that starts with its header lock
      exactly its buffers and send its frame, from them if and only if their indexes are below
      32. */
  lemma AppliedSenderSendsItsFrame(f: Facts, ws: seq<StreamView>, list: seq<SysfsBuffer>, placed: seq<StreamView>,
                                   before: Tables, after: Tables, k: nat)
    requires WellFormed(f) && Accepted(f, true) && LinkedViews(f.vs, ws, list)
    requires ModuleWritten(ws, placed, before, after) && SameShape(f.vs, ws)
    requires k < |f.vs| && Sends(f.vs[k].kind) && HasHeader(f.vs[k].ops)
    ensures FrameOps(ws[k].ops) && OpsComplete(ws[k].ops)
    ensures GatherIndex(f.vs, k) <= |after.gather| == |after.prefetch|
    ensures Send(after, GatherIndex(f.vs, k)) == Some(Obtained(ws[k]))
    ensures Send(after, GatherIndex(f.vs, k)) == Some(Intended(ws[k])) <==> Nameable(ws[k].ops, INSERT)
  {
    AcceptedSenderIsSendable(f, k);
    LinksKeepSizes(f.vs[k].ops, ws[k].ops, |ws[k].ops|);
    assert SameButLink(f.vs[k].ops[0], ws[k].ops[0]) && SameButLink(f.vs[k].ops[1], ws[k].ops[1])
      && SameButLink(f.vs[k].ops[2], ws[k].ops[2]);
    assert Sendable(ws[k]);
    SameLayout(f.vs, ws, k);
    TriggeredSenderSendsItsFrame(ws, placed, before, after, k);
  }

  /** And every receiver stores exactly its READs, under the same condition. */
  lemma AppliedReceiverStoresItsReads(f: Facts, ws: seq<StreamView>, placed: seq<StreamView>,
                                      before: Tables, after: Tables, k: nat)
    requires SameShape(f.vs, ws) && ModuleWritten(ws, placed, before, after)
    requires k < |f.vs| && IsIngress(f.vs[k].kind)
    ensures OpsComplete(ws[k].ops) && ScatterIndex(f.vs, k) < |after.scatter|
    ensures RunScatter(after.scatter[ScatterIndex(f.vs, k)..])
      == Some(StoresWithIds(Asked(ws[k])))
    ensures RunScatter(after.scatter[ScatterIndex(f.vs, k)..]) == Some(Asked(ws[k])) <==> Nameable(ws[k].ops, READ)
  {
    SameLayout(f.vs, ws, k);
    TriggeredReceiverStoresItsReads(ws, placed, before, after, k);
  }

  // ---- one module ----

  /** `w` is `v` with links to buffers and the offsets of its constants. */
  ghost predicate SameRequest(v: StreamView, w: StreamView) {
    && v.kind == w.kind && |v.ops| == |w.ops|
    && forall j {:trigger w.ops[j]} :: 0 <= j < |w.ops| ==>
         w.ops[j] == v.ops[j].(msgBuf := w.ops[j].msgBuf, constBuffOffset := w.ops[j].constBuffOffset)
  }

  /** Triggering the gather index of a sender that starts with its header sends its frame and
      locks its buffers; triggering the scatter index of a receiver performs its READs, and the
      gather index of one that forwards everything names the row that does so. Messages come
      from their own buffers and go there exactly where five bits can name these. Nothing is
      sent for an idle stream, and nothing is stored for a sender. */
  ghost predicate Works(w: StreamView, gatherIndex: nat, scatterIndex: nat, t: Tables) {
    && OpsComplete(w.ops)
    && (Sends(w.kind) && HasHeader(w.ops) ==>
          && FrameOps(w.ops) && gatherIndex <= |t.gather| == |t.prefetch|
          && Send(t, gatherIndex) == Some(Obtained(w))
          && (Send(t, gatherIndex) == Some(Intended(w)) <==> Nameable(w.ops, INSERT)))
    && (IsIngress(w.kind) ==>
          && scatterIndex <= |t.scatter|
          && RunScatter(t.scatter[scatterIndex..]) == Some(StoresWithIds(Asked(w)))
          && (RunScatter(t.scatter[scatterIndex..]) == Some(Asked(w)) <==> Nameable(w.ops, READ)))
    && (IsIngress(w.kind) && HasOp(w.ops, FORWARD_ALL) ==>
          && gatherIndex < |t.gather| == |t.prefetch|
          && t.gather[gatherIndex] == ForwardFrame && t.prefetch[gatherIndex] == PrefetchNop)
    && (Idle(w) ==>
          && gatherIndex <= |t.gather| == |t.prefetch|
          && Send(t, gatherIndex) == Some(Sent([FrameSlice(0, 0)], {})))
    && (Sends(w.kind) ==>
          && scatterIndex <= |t.scatter|
          && RunScatter(t.scatter[scatterIndex..]) == Some([Store(0, 0, 0)]))
  }

  lemma RequestKept(v: StreamView, linked: StreamView, w: StreamView)
    requires v.kind == linked.kind == w.kind
    requires SameButLinks(v.ops, linked.ops) && SameButOffsets(linked.ops, w.ops)
    ensures SameRequest(v, w) && (HasHeader(w.ops) ==> HasHeader(v.ops))
  {
    forall j {:trigger w.ops[j]} | 0 <= j < |w.ops|
      ensures w.ops[j] == v.ops[j].(msgBuf := w.ops[j].msgBuf, constBuffOffset := w.ops[j].constBuffOffset)
    {
      assert SameButLink(v.ops[j], linked.ops[j]) && SameButOffset(linked.ops[j], w.ops[j]);
    }
  }

  lemma OffsetsKeepLinks(a: seq<Operation>, b: seq<Operation>, list: seq<SysfsBuffer>)
    requires SameButOffsets(a, b) && AllLinked(a, list)
    ensures AllLinked(b, list)
  {
    forall j | 0 <= j < |b| ensures Linked(b[j], list) {
      assert SameButOffset(a[j], b[j]) && Linked(a[j], list);
    }
  }

  lemma SenderWorks(f: Facts, ws: seq<StreamView>, list: seq<SysfsBuffer>, placed: seq<StreamView>,
                    before: Tables, after: Tables, k: nat)
    requires WellFormed(f) && Accepted(f, true) && LinkedViews(f.vs, ws, list)
    requires ModuleWritten(ws, placed, before, after) && SameShape(f.vs, ws)
    requires k < |placed| && Sends(placed[k].kind) && HasHeader(placed[k].ops)
    ensures FrameOps(placed[k].ops) && OpsComplete(placed[k].ops)
    ensures GatherIndex(placed, k) <= |after.gather| == |after.prefetch|
    ensures Send(after, GatherIndex(placed, k)) == Some(Obtained(placed[k]))
  {
    RequestKept(f.vs[k], ws[k], placed[k]);
    AppliedSenderSendsItsFrame(f, ws, list, placed, before, after, k);
    SameObtained(ws[k], placed[k]);
    SameLayout(f.vs, ws, k);
    SameLayout(ws, placed, k);
  }

  lemma ReceiverWorks(f: Facts, ws: seq<StreamView>, placed: seq<StreamView>, before: Tables, after: Tables, k: nat)
    requires SameShape(f.vs, ws) && ModuleWritten(ws, placed, before, after)
    requires k < |placed| && IsIngress(placed[k].kind)
    ensures OpsComplete(placed[k].ops) && ScatterIndex(placed, k) <= |after.scatter|
    ensures RunScatter(after.scatter[ScatterIndex(placed, k)..])
      == Some(StoresWithIds(Asked(placed[k])))
  {
    AppliedReceiverStoresItsReads(f, ws, placed, before, after, k);
    SameLayout(f.vs, ws, k);
    SameLayout(ws, placed, k);
    SameAsked(ws[k], placed[k]);
  }

  lemma ForwarderWorks(ws: seq<StreamView>, placed: seq<StreamView>, before: Tables, after: Tables, k: nat)
    requires ModuleWritten(ws, placed, before, after)
    requires k < |placed| && IsIngress(placed[k].kind) && HasOp(placed[k].ops, FORWARD_ALL)
    ensures GatherIndex(placed, k) < |after.gather| == |after.prefetch|
    ensures after.gather[GatherIndex(placed, k)] == ForwardFrame
    ensures after.prefetch[GatherIndex(placed, k)] == PrefetchNop
  {
    ReceiverSharesRows(placed[k]);
    SharedGatherRowsKept(placed, before.gather, |placed|);
    SharedPrefetchRowsKept(placed, before.prefetch, |placed|);
    assert after.gather[..GATHER_START_IDX][GATHER_FORWARD_IDX] == ForwardFrame;
  }

  lemma RestingWorks(ws: seq<StreamView>, placed: seq<StreamView>, before: Tables, after: Tables, k: nat)
    requires ModuleWritten(ws, placed, before, after) && k < |placed|
    ensures Idle(placed[k]) ==> GatherIndex(placed, k) <= |after.gather| == |after.prefetch|
    ensures Idle(placed[k]) ==> Send(after, GatherIndex(placed, k)) == Some(Sent([FrameSlice(0, 0)], {}))
    ensures Sends(placed[k].kind) ==> ScatterIndex(placed, k) <= |after.scatter|
    ensures Sends(placed[k].kind) ==> RunScatter(after.scatter[ScatterIndex(placed, k)..]) == Some([Store(0, 0, 0)])
  {
    if Idle(placed[k]) {
      IdleSendsNothing(placed, before, after, k);
    }
    if Sends(placed[k].kind) {
      SenderStoresNothing(placed, before.scatter, k);
    }
  }

  lemma WrittenWorks(f: Facts, ws: seq<StreamView>, list: seq<SysfsBuffer>, placed: seq<StreamView>,
                     before: Tables, after: Tables, k: nat)
    requires WellFormed(f) && Accepted(f, true) && LinkedViews(f.vs, ws, list)
    requires ModuleWritten(ws, placed, before, after) && SameShape(f.vs, ws)
    requires k < |placed|
    ensures SameRequest(f.vs[k], placed[k]) && AllLinked(placed[k].ops, list)
    ensures Works(placed[k], GatherIndex(placed, k), ScatterIndex(placed, k), after)
  {
    RequestKept(f.vs[k], ws[k], placed[k]);
    OffsetsKeepLinks(ws[k].ops, placed[k].ops, list);
    RestingWorks(ws, placed, before, after, k);
    assert OpsComplete(placed[k].ops);
    if Sends(placed[k].kind) && HasHeader(placed[k].ops) {
      SenderWorks(f, ws, list, placed, before, after, k);
      IntendedIfNameable(placed[k]);
    }
    if IsIngress(placed[k].kind) {
      ReceiverWorks(f, ws, placed, before, after, k);
      AskedIfNameable(placed[k]);
      if HasOp(placed[k].ops, FORWARD_ALL) {
        ForwarderWorks(ws, placed, before, after, k);
      }
    }
  }

  /** The streams still ask for what `vs` say, each READ and INSERT is linked to the buffer of
      its own name and direction in `list`, and in the tables `t` each stream works. */
  ghost predicate ModuleWorks(vs: seq<StreamView>, streams: seq<AcmStream>, list: seq<SysfsBuffer>, t: Tables)
    reads streams`kind, streams`operations, streams`gatherDmaIndex, streams`scatterDmaIndex
  {
    && |vs| == |streams|
    && forall k {:trigger streams[k]} :: 0 <= k < |streams| ==>
         var w := StreamView(streams[k].kind, streams[k].operations);
         && SameRequest(vs[k], w) && AllLinked(w.ops, list)
         && Works(w, streams[k].gatherDmaIndex, streams[k].scatterDmaIndex, t)
  }

  lemma AllWork(streams: seq<AcmStream>, f: Facts, ws: seq<StreamView>, list: seq<SysfsBuffer>, placed: seq<StreamView>,
                before: Tables, after: Tables)
    requires WellFormed(f) && Accepted(f, true) && LinkedViews(f.vs, ws, list)
    requires ModuleWritten(ws, placed, before, after) && SameShape(f.vs, ws) && Indexed(streams, placed)
    ensures ModuleWorks(f.vs, streams, list, after)
  {
    forall k {:trigger streams[k]} | 0 <= k < |streams|
      ensures var w := StreamView(streams[k].kind, streams[k].operations);
        && SameRequest(f.vs[k], w) && AllLinked(w.ops, list)
        && Works(w, streams[k].gatherDmaIndex, streams[k].scatterDmaIndex, after)
    {
      IndexedHere(streams, placed, k);
      WrittenWorks(f, ws, list, placed, before, after, k);
    }
  }

  /** Writes a module that was accepted and whose operations are linked to the buffers `list`. */
  method ApplyModule(streams: seq<AcmStream>, hw: BypassHw, ghost f: Facts, ghost ws: seq<StreamView>,
                     ghost list: seq<SysfsBuffer>)
    returns (ok: bool)
    requires Distinct(streams) && Indexed(streams, ws) && hw.Sized()
    requires WellFormed(f) && Accepted(f, true) && AllOk(f.vs)
    requires LinkedViews(f.vs, ws, list) && Lockable(list)
    modifies hw, streams`operations
    ensures ok && ModuleWorks(f.vs, streams, list, hw.Image())
  {
    ghost var placed;
    AllocatedModuleIsWritable(f, ws, list);
    ghost var before := hw.Image();
    ok, placed := WriteModuleDataToHw(streams, hw, ws);
    AllWork(streams, f, ws, list, placed, before, hw.Image());
  }

  // ---- a configuration ----

  lemma LinkedAfterAllocation(streams: seq<AcmStream>, vs: seq<StreamView>, list: seq<SysfsBuffer>)
    returns (ws: seq<StreamView>)
    requires Carries(streams, vs) && StreamsLinked(streams, list, |vs|)
    requires IndexesCurrent(streams, vs)
    ensures ws == Views(streams) && LinkedViews(vs, ws, list)
  {
    ws := Views(streams);
    forall k {:trigger ws[k]} | 0 <= k < |vs|
      ensures vs[k].kind == ws[k].kind && SameButLinks(vs[k].ops, ws[k].ops) && AllLinked(ws[k].ops, list)
    {
      assert ws[k] == StreamView(streams[k].kind, streams[k].operations);
      assert GatherIndex(vs, k) == streams[k].gatherDmaIndex;
    }
  }

  lemma IndexedAfterAllocation(streams: seq<AcmStream>, vs: seq<StreamView>, ws: seq<StreamView>)
    requires IndexesCurrent(streams, vs) && ws == Views(streams) && SameShape(vs, ws)
    ensures Indexed(streams, ws)
  {
    PlacedIndexed(streams, vs, ws);
  }

  /** What is to be written for a module: its streams, what it was judged by, and the buffers
      of the configuration. */
  datatype Job = Job(streams: seq<AcmStream>, facts: Facts, list: seq<SysfsBuffer>)

  /** The streams are as allocation and validation left them. */
  ghost predicate Ready(job: Job)
    reads job.streams`kind, job.streams`operations, job.streams`gatherDmaIndex, job.streams`scatterDmaIndex
  {
    && Distinct(job.streams) && AllOk(job.facts.vs) && IndexesCurrent(job.streams, job.facts.vs)
    && Carries(job.streams, job.facts.vs) && StreamsLinked(job.streams, job.list, |job.facts.vs|)
    && Lockable(job.list)
  }

  /** Writes a module, if it is there, after the buffers were allocated. */
  method ApplyPresent(bypass: AcmModule?, hw: BypassHw, ghost job: Job) returns (ok: bool)
    requires job.streams == Streams(bypass) && hw.Sized() && Passes(bypass, job.facts) && Ready(job)
    modifies hw, job.streams`operations
    ensures ok && ModuleWorks(job.facts.vs, job.streams, job.list, hw.Image())
  {
    ok := true;
    if bypass != null {
      ghost var ws := LinkedAfterAllocation(job.streams, job.facts.vs, job.list);
      AllocatedModuleIsWritable(job.facts, ws, job.list);
      IndexedAfterAllocation(job.streams, job.facts.vs, ws);
      ok := ApplyModule(bypass.streams, hw, job.facts, ws, job.list);
    }
  }

  /** The same with another module still to be written. */
  method ApplyBefore(bypass: AcmModule?, hw: BypassHw, ghost job: Job, ghost next: Job) returns (ok: bool)
    requires job.streams == Streams(bypass) && hw.Sized() && Passes(bypass, job.facts) && Ready(job)
    requires Lists(job.streams, next.streams).StreamsDistinct() && Ready(next)
    modifies hw, job.streams`operations
    ensures ok && ModuleWorks(job.facts.vs, job.streams, job.list, hw.Image()) && Ready(next)
  {
    assert forall k {:trigger next.streams[k]} :: 0 <= k < |next.streams| ==> next.streams[k] !in job.streams;
    ok := ApplyPresent(bypass, hw, job);
  }

  /** The same with another module written before to the tables `t`. */
  method ApplyAfter(bypass: AcmModule?, hw: BypassHw, ghost job: Job, ghost done: Job, ghost t: Tables)
    returns (ok: bool)
    requires job.streams == Streams(bypass) && hw.Sized() && Passes(bypass, job.facts) && Ready(job)
    requires Lists(done.streams, job.streams).StreamsDistinct()
    requires ModuleWorks(done.facts.vs, done.streams, done.list, t)
    modifies hw, job.streams`operations
    ensures ok && ModuleWorks(job.facts.vs, job.streams, job.list, hw.Image())
    ensures ModuleWorks(done.facts.vs, done.streams, done.list, t)
  {
    assert forall k {:trigger done.streams[k]} :: 0 <= k < |done.streams| ==> done.streams[k] !in job.streams;
    ok := ApplyPresent(bypass, hw, job);
  }

  /** Both modules. */
  method ApplyConfiguration(config: AcmConfig, hw0: BypassHw, hw1: BypassHw, ghost job0: Job, ghost job1: Job)
    returns (ok: bool)
    requires OfConfig(config, Lists(job0.streams, job1.streams)) && Lists(job0.streams, job1.streams).StreamsDistinct()
    requires hw0 != hw1 && hw0.Sized() && hw1.Sized()
    requires Passes(config.bypass[0], job0.facts) && Passes(config.bypass[1], job1.facts) && Ready(job0) && Ready(job1)
    modifies hw0, hw1, job0.streams`operations, job1.streams`operations
    ensures ok && ModuleWorks(job0.facts.vs, job0.streams, job0.list, hw0.Image())
    ensures ModuleWorks(job1.facts.vs, job1.streams, job1.list, hw1.Image())
  {
    ok := ApplyBefore(config.bypass[0], hw0, job0, job1);
    if ok {
      ok := ApplyAfter(config.bypass[1], hw1, job1, job0, hw0.Image());
    }
  }

  /** The first `n` modules work: with the tables `t0` and `t1` and the message buffers `list`. */
  ghost predicate ModulesWork(lists: Lists, vss: seq<seq<StreamView>>, list: seq<SysfsBuffer>, t0: Tables, t1: Tables,
                              n: nat := ACM_MODULES_COUNT)
    requires |vss| == ACM_MODULES_COUNT
    reads lists.first`kind, lists.first`operations, lists.first`gatherDmaIndex, lists.first`scatterDmaIndex
    reads lists.second`kind, lists.second`operations, lists.second`gatherDmaIndex, lists.second`scatterDmaIndex
  {
    && (n > 0 ==> ModulesWork(lists, vss, list, t0, t1, n - 1))
    && (n == 1 ==> ModuleWorks(vss[0], lists.first, list, t0))
    && (n == 2 ==> ModuleWorks(vss[1], lists.second, list, t1))
  }

  /** The same, said of the configuration. */
  method ApplyModules(config: AcmConfig, hw0: BypassHw, hw1: BypassHw, ghost job0: Job, ghost job1: Job,
                      ghost lists: Lists, ghost vss: seq<seq<StreamView>>)
    returns (ok: bool)
    requires OfConfig(config, lists) && lists.StreamsDistinct() && lists == Lists(job0.streams, job1.streams)
    requires |vss| == ACM_MODULES_COUNT && vss[0] == job0.facts.vs && vss[1] == job1.facts.vs
    requires job0.list == job1.list == config.msgBuffs
    requires hw0 != hw1 && hw0.Sized() && hw1.Sized()
    requires Passes(config.bypass[0], job0.facts) && Passes(config.bypass[1], job1.facts) && Ready(job0) && Ready(job1)
    modifies hw0, hw1, job0.streams`operations, job1.streams`operations
    ensures ok && ModulesWork(lists, vss, config.msgBuffs, hw0.Image(), hw1.Image())
  {
    ok := ApplyConfiguration(config, hw0, hw1, job0, job1);
  }

  /** The message buffers stay as they are. */
  method ApplyBesideBuffers(config: AcmConfig, hw0: BypassHw, hw1: BypassHw, ghost job0: Job, ghost job1: Job,
                            ghost lists: Lists, ghost limits: Limits, ghost vss: seq<seq<StreamView>>,
                            ghost placed: seq<Buf>)
    returns (ok: bool)
    requires OfConfig(config, lists) && lists.StreamsDistinct() && lists == Lists(job0.streams, job1.streams)
    requires |vss| == ACM_MODULES_COUNT && vss[0] == job0.facts.vs && vss[1] == job1.facts.vs
    requires job0.list == job1.list == config.msgBuffs
    requires hw0 != hw1 && hw0.Sized() && hw1.Sized()
    requires Passes(config.bypass[0], job0.facts) && Passes(config.bypass[1], job1.facts) && Ready(job0) && Ready(job1)
    requires Allocated(config, limits, vss, placed)
    modifies hw0, hw1, job0.streams`operations, job1.streams`operations
    ensures ok && ModulesWork(lists, vss, config.msgBuffs, hw0.Image(), hw1.Image())
    ensures Allocated(config, limits, vss, placed)
  {
    ok := ApplyModules(config, hw0, hw1, job0, job1, lists, vss);
  }

  /** What is known of a module before a configuration is enabled: its indexes are those of
      its present streams `vs`, and these are what it is judged by. */
  ghost predicate Prepared(streams: seq<AcmStream>, vs: seq<StreamView>, f: Facts)
    reads streams`kind, streams`gatherDmaIndex, streams`scatterDmaIndex
  {
    AllOk(vs) && IndexesCurrent(streams, vs) && f.vs == vs
  }

  lemma JobsReady(lists: Lists, vss: seq<seq<StreamView>>, fs: seq<Facts>, list: seq<SysfsBuffer>)
    requires |vss| == |fs| == ACM_MODULES_COUNT && Lockable(list)
    requires lists.StreamsDistinct() && Modules(lists, vss, list, |vss|)
    requires Prepared(lists.first, vss[0], fs[0]) && Prepared(lists.second, vss[1], fs[1])
    ensures Ready(Job(lists.first, fs[0], list)) && Ready(Job(lists.second, fs[1], list))
  {
  }

  /** The final validation, after which both modules are ready to be written. */
  method ValidateAll(config: AcmConfig, limits: Limits, ties: seq<seq<Ties>>, ghost fs: seq<Facts>, ghost lists: Lists,
                     ghost vss: seq<seq<StreamView>>)
    returns (error: Option<Error>, ghost placed: seq<Buf>)
    requires Allocatable(config, lists, vss, limits) && |ties| == |fs| == ACM_MODULES_COUNT
    requires Judged(config.bypass[0], ties[0], fs[0]) && Judged(config.bypass[1], ties[1], fs[1])
    requires Prepared(lists.first, vss[0], fs[0]) && Prepared(lists.second, vss[1], fs[1])
    requires limits.buffers <= LOCK_CTRL_MAXSIZE
    modifies config`msgBuffs, lists.first`operations, lists.second`operations
    ensures error.None? <==>
      old(ContentsPass(config, fs, lists)) && BuffersAccepted(vss, limits, AnyModule(config.bypass, |config.bypass|))
    ensures OfConfig(config, lists) && BothCarry(lists, vss)
    ensures error.None? ==> |config.msgBuffs| <= limits.buffers && Allocated(config, limits, vss, placed)
    ensures error.None? ==> Passes(config.bypass[0], fs[0]) && Passes(config.bypass[1], fs[1])
    ensures error.None? ==> Ready(Job(lists.first, fs[0], config.msgBuffs))
    ensures error.None? ==> Ready(Job(lists.second, fs[1], config.msgBuffs))
  {
    error, placed := ValidateConfigFinal(config, limits, ties, fs, lists, vss);
    assert IndexesCurrent(lists.first, vss[0]);
    assert IndexesCurrent(lists.second, vss[1]);
    if error.None? {
      JobsReady(lists, vss, fs, config.msgBuffs);
    }
  }

  /** Validation comes before the first table is written. */
  method ValidateBesideTables(config: AcmConfig, limits: Limits, ties: seq<seq<Ties>>, hw0: BypassHw, hw1: BypassHw,
                              ghost fs: seq<Facts>, ghost lists: Lists, ghost vss: seq<seq<StreamView>>)
    returns (error: Option<Error>, ghost placed: seq<Buf>)
    requires Allocatable(config, lists, vss, limits) && |ties| == |fs| == ACM_MODULES_COUNT
    requires Judged(config.bypass[0], ties[0], fs[0]) && Judged(config.bypass[1], ties[1], fs[1])
    requires Prepared(lists.first, vss[0], fs[0]) && Prepared(lists.second, vss[1], fs[1])
    requires limits.buffers <= LOCK_CTRL_MAXSIZE && hw0.Sized() && hw1.Sized()
    modifies config`msgBuffs, lists.first`operations, lists.second`operations
    ensures error.None? <==>
      old(ContentsPass(config, fs, lists)) && BuffersAccepted(vss, limits, AnyModule(config.bypass, |config.bypass|))
    ensures OfConfig(config, lists) && BothCarry(lists, vss)
    ensures error.None? ==> |config.msgBuffs| <= limits.buffers && Allocated(config, limits, vss, placed)
    ensures error.None? ==> Passes(config.bypass[0], fs[0]) && Passes(config.bypass[1], fs[1])
    ensures error.None? ==> Ready(Job(lists.first, fs[0], config.msgBuffs))
    ensures error.None? ==> Ready(Job(lists.second, fs[1], config.msgBuffs))
    ensures unchanged(hw0) && unchanged(hw1) && hw0.Sized() && hw1.Sized()
  {
    error, placed := ValidateAll(config, limits, ties, fs, lists, vss);
  }

  /** Enabling a configuration: the final validation, which allocates the message buffers, and
      the writing of both modules. It succeeds exactly when everything is valid. Then every
      sender that starts with its header sends its frame and every receiver stores its READs,
      and the buffers are the allocation of what the streams ask for. */
  method ConfigEnable(config: AcmConfig, limits: Limits, ties: seq<seq<Ties>>, hw0: BypassHw, hw1: BypassHw,
                      ghost fs: seq<Facts>, ghost lists: Lists, ghost vss: seq<seq<StreamView>>)
    returns (error: Option<Error>, ghost placed: seq<Buf>)
    requires Allocatable(config, lists, vss, limits) && |ties| == |fs| == ACM_MODULES_COUNT
    requires Judged(config.bypass[0], ties[0], fs[0]) && Judged(config.bypass[1], ties[1], fs[1])
    requires Prepared(lists.first, vss[0], fs[0]) && Prepared(lists.second, vss[1], fs[1])
    requires hw0 != hw1 && hw0.Sized() && hw1.Sized() && limits.buffers <= LOCK_CTRL_MAXSIZE
    modifies config`msgBuffs, lists.first`operations, lists.second`operations, hw0, hw1
    ensures error.None? <==>
      old(ContentsPass(config, fs, lists)) && BuffersAccepted(vss, limits, AnyModule(config.bypass, |config.bypass|))
    ensures error.None? ==> |config.msgBuffs| <= limits.buffers && Allocated(config, limits, vss, placed)
    ensures error.None? ==> ModulesWork(lists, vss, config.msgBuffs, hw0.Image(), hw1.Image())
    ensures error.Some? ==> unchanged(hw0) && unchanged(hw1)
    ensures error.Some? ==> BothCarry(lists, vss)
  {
    error, placed := ValidateBesideTables(config, limits, ties, hw0, hw1, fs, lists, vss);
    if error.None? {
      ghost var list := config.msgBuffs;
      ghost var job0, job1 := Job(lists.first, fs[0], list), Job(lists.second, fs[1], list);
      var ok := ApplyBesideBuffers(config, hw0, hw1, job0, job1, lists, limits, vss, placed);
    }
  }

  /** What is enabled with up to 32 buffers sends exactly its frames and stores exactly its
      READs, from and to its own buffers. */
  lemma EnabledStreamIsServed(vs: seq<StreamView>, streams: seq<AcmStream>, list: seq<SysfsBuffer>, t: Tables, k: nat)
    requires ModuleWorks(vs, streams, list, t) && k < |streams|
    requires Numbered(list) && |list| <= MSGBUF_ID_LIMIT
    ensures var w := StreamView(streams[k].kind, streams[k].operations);
      && OpsComplete(w.ops)
      && (Sends(w.kind) && HasHeader(w.ops) ==>
            && FrameOps(w.ops) && streams[k].gatherDmaIndex <= |t.gather| == |t.prefetch|
            && Send(t, streams[k].gatherDmaIndex) == Some(Intended(w)))
      && (IsIngress(w.kind) ==>
            && streams[k].scatterDmaIndex <= |t.scatter|
            && RunScatter(t.scatter[streams[k].scatterDmaIndex..]) == Some(Asked(w)))
  {
    FewBuffersNameable(streams[k].operations, list, INSERT);
    FewBuffersNameable(streams[k].operations, list, READ);
  }

  lemma RequestedInEnabled(v: StreamView, w: StreamView, granularity: nat, j: nat)
    requires SameRequest(v, w) && j < |w.ops| && granularity > 0
    ensures RequestOf(w.ops[j], granularity) == RequestOf(v.ops[j], granularity)
    ensures UsesBuffer(w.ops[j]) == UsesBuffer(v.ops[j]) && Created(w.ops[j]) == Created(v.ops[j])
  {
  }

  /** In an enabled configuration every READ and INSERT of every stream uses the buffer of its
      own name and direction, and its message fits there. */
  lemma EnabledOperationHasItsBuffer(config: AcmConfig, limits: Limits, streams: seq<AcmStream>,
                                     vss: seq<seq<StreamView>>, placed: seq<Buf>, t: Tables, m: nat, k: nat, j: nat)
    requires m < |vss| && StreamsCreated(vss[m]) && Allocated(config, limits, vss, placed)
    requires ModuleWorks(vss[m], streams, config.msgBuffs, t)
    requires k < |streams| && j < |streams[k].operations| && UsesBuffer(streams[k].operations[j])
    ensures var op := streams[k].operations[j];
      && op.msgBuf != null && op.msgBuf in config.msgBuffs
      && op.msgBuf.name == op.bufferName && op.msgBuf.receive == op.opcode.READ?
      && op.length + (if op.opcode.READ? then 4 else 0) <= limits.granularity * op.msgBuf.size
  {
    var op := streams[k].operations[j];
    assert AllLinked(streams[k].operations, config.msgBuffs) && Linked(op, config.msgBuffs);
    RequestedInEnabled(vss[m][k], StreamView(streams[k].kind, streams[k].operations), limits.granularity, j);
    assert AllCreated(vss[m][k].ops) && Created(vss[m][k].ops[j]);
    OperationIsRequested(vss, limits.granularity, m, k, j);
    BufferServes(config, placed, ConfigRequests(vss, limits.granularity, |vss|), limits.granularity, op);
  }

  /** The row counts fit the type of the indexes. */
  predicate RowsFit(vs: seq<StreamView>) {
    EgressRows(vs, |vs|) < U16_LIMIT && IngressRows(vs, |vs|) < U16_LIMIT
  }

  /** The indexes of streams, as they are recalculated whenever the list changes. */
  method RefreshIndexes(streams: seq<AcmStream>, ghost vs: seq<StreamView>)
    requires Distinct(streams) && vs == Views(streams)
    requires RowsFit(vs)
    modifies streams`gatherDmaIndex, streams`scatterDmaIndex
    ensures IndexesCurrent(streams, vs)
  {
    CalculateScatterIndizes(streams);
    CalculateGatherIndizes(streams);
  }

  /** What modules are judged by does not depend on indexes. */
  method RefreshBesideFacts(streams: seq<AcmStream>, ghost vs: seq<StreamView>, ghost m0: AcmModule?,
                            ghost m1: AcmModule?, ghost ties: seq<seq<Ties>>, ghost fs: seq<Facts>)
    requires Distinct(streams) && vs == Views(streams) && |ties| == |fs| == ACM_MODULES_COUNT
    requires Judged(m0, ties[0], fs[0]) && Judged(m1, ties[1], fs[1])
    requires RowsFit(vs)
    modifies streams`gatherDmaIndex, streams`scatterDmaIndex
    ensures IndexesCurrent(streams, vs) && Judged(m0, ties[0], fs[0]) && Judged(m1, ties[1], fs[1])
  {
    RefreshIndexes(streams, vs);
  }

  /** Nor do the streams of a configuration and whether all of them have work. */
  method RefreshInConfig(streams: seq<AcmStream>, config: AcmConfig, ghost vs: seq<StreamView>,
                         ghost ties: seq<seq<Ties>>, ghost fs: seq<Facts>, ghost lists: Lists,
                         ghost vss: seq<seq<StreamView>>, ghost work: bool)
    requires Distinct(streams) && vs == Views(streams) && |vss| == |ties| == |fs| == ACM_MODULES_COUNT
    requires OfConfig(config, lists) && vss[0] == Views(lists.first) && vss[1] == Views(lists.second)
    requires Judged(config.bypass[0], ties[0], fs[0]) && Judged(config.bypass[1], ties[1], fs[1])
    requires work == (AllHaveWork(lists.first) && AllHaveWork(lists.second))
    requires RowsFit(vs)
    modifies streams`gatherDmaIndex, streams`scatterDmaIndex
    ensures IndexesCurrent(streams, vs)
    ensures OfConfig(config, lists) && vss[0] == Views(lists.first) && vss[1] == Views(lists.second)
    ensures Judged(config.bypass[0], ties[0], fs[0]) && Judged(config.bypass[1], ties[1], fs[1])
    ensures work == (AllHaveWork(lists.first) && AllHaveWork(lists.second))
  {
    RefreshBesideFacts(streams, vs, config.bypass[0], config.bypass[1], ties, fs);
  }

  /** The indexes of both modules. */
  method RefreshAllIndexes(config: AcmConfig, ghost ties: seq<seq<Ties>>, ghost fs: seq<Facts>, ghost lists: Lists,
                           ghost vss: seq<seq<StreamView>>, ghost work: bool)
    requires |vss| == |ties| == |fs| == ACM_MODULES_COUNT && lists.StreamsDistinct()
    requires OfConfig(config, lists) && vss[0] == Views(lists.first) && vss[1] == Views(lists.second)
    requires Judged(config.bypass[0], ties[0], fs[0]) && Judged(config.bypass[1], ties[1], fs[1])
    requires work == (AllHaveWork(lists.first) && AllHaveWork(lists.second))
    requires RowsFit(vss[0]) && RowsFit(vss[1])
    modifies lists.first`gatherDmaIndex, lists.first`scatterDmaIndex
    modifies lists.second`gatherDmaIndex, lists.second`scatterDmaIndex
    ensures IndexesCurrent(lists.first, vss[0]) && IndexesCurrent(lists.second, vss[1])
    ensures OfConfig(config, lists) && vss[0] == Views(lists.first) && vss[1] == Views(lists.second)
    ensures Judged(config.bypass[0], ties[0], fs[0]) && Judged(config.bypass[1], ties[1], fs[1])
    ensures work == (AllHaveWork(lists.first) && AllHaveWork(lists.second))
  {
    assert forall k {:trigger lists.first[k]} :: 0 <= k < |lists.first| ==> lists.first[k] !in lists.second;
    if config.bypass[0] != null {
      RefreshInConfig(config.bypass[0].streams, config, vss[0], ties, fs, lists, vss, work);
    }
    if config.bypass[1] != null {
      RefreshInConfig(config.bypass[1].streams, config, vss[1], ties, fs, lists, vss, work);
    }
  }

  /** Both together, with nothing asked of the indexes. */
  method RefreshAndEnable(config: AcmConfig, limits: Limits, ties: seq<seq<Ties>>, hw0: BypassHw, hw1: BypassHw,
                          ghost fs: seq<Facts>, ghost lists: Lists, ghost vss: seq<seq<StreamView>>)
    returns (error: Option<Error>, ghost placed: seq<Buf>)
    requires Allocatable(config, lists, vss, limits) && |ties| == |fs| == ACM_MODULES_COUNT
    requires Judged(config.bypass[0], ties[0], fs[0]) && Judged(config.bypass[1], ties[1], fs[1])
    requires AllOk(vss[0]) && fs[0].vs == vss[0] && AllOk(vss[1]) && fs[1].vs == vss[1]
    requires RowsFit(vss[0]) && RowsFit(vss[1])
    requires hw0 != hw1 && hw0.Sized() && hw1.Sized() && limits.buffers <= LOCK_CTRL_MAXSIZE
    modifies config`msgBuffs, lists.first`operations, lists.second`operations, hw0, hw1
    modifies lists.first`gatherDmaIndex, lists.first`scatterDmaIndex
    modifies lists.second`gatherDmaIndex, lists.second`scatterDmaIndex
    ensures error.None? <==>
      old(ContentsPass(config, fs, lists)) && BuffersAccepted(vss, limits, AnyModule(config.bypass, |config.bypass|))
    ensures error.None? ==> |config.msgBuffs| <= limits.buffers && Allocated(config, limits, vss, placed)
    ensures error.None? ==> ModulesWork(lists, vss, config.msgBuffs, hw0.Image(), hw1.Image())
    ensures error.Some? ==> hw0.Image() == old(hw0.Image()) && hw1.Image() == old(hw1.Image())
    ensures error.Some? ==> BothCarry(lists, vss)
  {
    ghost var pass := ContentsPass(config, fs, lists);
    RefreshAllIndexes(config, ties, fs, lists, vss, AllHaveWork(lists.first) && AllHaveWork(lists.second));
    assert pass == ContentsPass(config, fs, lists);
    error, placed := ConfigEnable(config, limits, ties, hw0, hw1, fs, lists, vss);
  }
}
