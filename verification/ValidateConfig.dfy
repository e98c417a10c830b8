/** The validation of a configuration, and the way up to it: a changed stream is validated on
    its own, then its module, then the message buffers of the configuration. */
module ValidateConfig {
  import opened Entities
  import opened FscList
  import opened Layout
  import opened ValidateStream
  import opened Validate
  import opened Arith
  import opened MsgBuffers
  import opened BufferAlloc

  /** What the driver reports of the message memory: block size, bytes, number of buffers. */
  datatype Limits = Limits(granularity: int, memory: int, buffers: int)

  /** The message buffers of these streams can be allocated: no name is used in both
      directions, the memory suffices, and there are not too many of them. */
  ghost predicate BuffersAccepted(vss: seq<seq<StreamView>>, limits: Limits, anyModule: bool) {
    limits.granularity > 0 &&
    var rs := ConfigRequests(vss, limits.granularity, |vss|);
    && !Conflict(rs) && PlaceAll([], rs).Some?
    && (anyModule ==> MemorySuffices(PlaceAll([], rs).value, limits.granularity, limits.memory))
    && |PlaceAll([], rs).value| <= limits.buffers
  }

  /** As many buffers as the hardware has, each with the longest message, have offsets of 16
      bits: 64 buffers with blocks of 4 bytes need 24512 blocks. */
  predicate OffsetsFit(limits: Limits) {
    limits.granularity > 0 ==>
      limits.buffers * BlocksFor(MAX_MESSAGE_SIZE, limits.granularity) < U16_LIMIT
  }

  /** The driver reports blocks of 4 bytes and, in seven bits, the number of buffers. */
  lemma DeviceOffsetsFit(limits: Limits)
    requires limits.granularity == 4 && limits.buffers < 128
    ensures OffsetsFit(limits)
  {
    BlocksForQuotient(MAX_MESSAGE_SIZE, 4);
  }

  /** What the allocator is given: the streams of both modules, none of them twice, with their
      views, and operations that were created by the library. */
  ghost predicate Allocatable(config: AcmConfig, lists: Lists, vss: seq<seq<StreamView>>, limits: Limits)
    reads ModuleOf(config, 0)`streams, ModuleOf(config, 1)`streams
    reads lists.first`kind, lists.first`operations, lists.second`kind, lists.second`operations
  {
    && OfConfig(config, lists) && lists.StreamsDistinct()
    && |vss| == ACM_MODULES_COUNT && vss[0] == Views(lists.first) && vss[1] == Views(lists.second)
    && StreamsCreated(vss[0]) && StreamsCreated(vss[1]) && OffsetsFit(limits)
  }

  /** The buffers of the configuration are `placed`: one per name, as large as the largest
      message of that name, one behind the other. */
  ghost predicate Allocated(config: AcmConfig, limits: Limits, vss: seq<seq<StreamView>>, placed: seq<Buf>)
    reads config, config.msgBuffs`size, config.msgBuffs`offset
  {
    && limits.granularity > 0 && IsAllocation(placed, ConfigRequests(vss, limits.granularity, |vss|))
    && Total(placed, |placed|) < U16_LIMIT && Represents(config, placed, |placed|, Total(placed, |placed|))
  }

  lemma ViewsAreCarried(streams: seq<AcmStream>, vs: seq<StreamView>)
    requires vs == Views(streams)
    ensures Carries(streams, vs)
  {
  }

  /** The first `n` modules hold the operations of `vss`, up to links. */
  ghost predicate BothCarry(lists: Lists, vss: seq<seq<StreamView>>, n: nat := ACM_MODULES_COUNT)
    requires |vss| == ACM_MODULES_COUNT
    reads lists.first`operations, lists.second`operations
  {
    && (n > 0 ==> BothCarry(lists, vss, n - 1))
    && (n == 1 ==> Carries(lists.first, vss[0])) && (n == 2 ==> Carries(lists.second, vss[1]))
  }

  /** After links have changed, the configuration can be given to the allocator again. */
  lemma StillAllocatable(config: AcmConfig, lists: Lists, vss: seq<seq<StreamView>>, limits: Limits)
    requires |vss| == ACM_MODULES_COUNT && StreamsCreated(vss[0]) && StreamsCreated(vss[1]) && BothCarry(lists, vss)
    requires OfConfig(config, lists) && lists.StreamsDistinct() && OffsetsFit(limits)
    ensures Allocatable(config, lists, [Views(lists.first), Views(lists.second)], limits)
  {
    CreatedStill(lists.first, vss[0]);
    CreatedStill(lists.second, vss[1]);
  }

  lemma CreatedStill(streams: seq<AcmStream>, vs: seq<StreamView>)
    requires Carries(streams, vs) && StreamsCreated(vs)
    ensures StreamsCreated(Views(streams))
  {
    var ws := Views(streams);
    forall k {:trigger ws[k]} | 0 <= k < |ws| ensures AllCreated(ws[k].ops) {
      assert ws[k].ops == streams[k].operations && SameButLinks(vs[k].ops, ws[k].ops) && AllCreated(vs[k].ops);
      forall j {:trigger ws[k].ops[j]} | 0 <= j < |ws[k].ops| ensures Created(ws[k].ops[j]) {
        assert SameButLink(vs[k].ops[j], ws[k].ops[j]);
      }
    }
  }

  lemma NothingLinked(lists: Lists, vss: seq<seq<StreamView>>, list: seq<SysfsBuffer>)
    requires |vss| == ACM_MODULES_COUNT && vss[0] == Views(lists.first) && vss[1] == Views(lists.second)
    ensures Modules(lists, vss, list, 0) && BothCarry(lists, vss)
  {
    ViewsAreCarried(lists.first, vss[0]);
    ViewsAreCarried(lists.second, vss[1]);
  }

  /** More buffers than the hardware has are refused whatever their offsets come to; fewer
      have offsets of 16 bits. */
  lemma BuffersVerdict(bypass: seq<AcmModule?>, limits: Limits, vss: seq<seq<StreamView>>)
    requires limits.granularity > 0 && OffsetsFit(limits) && AbsentEmpty(bypass, vss) && |vss| == ACM_MODULES_COUNT
    requires StreamsCreated(vss[0]) && StreamsCreated(vss[1])
    ensures BuffersAccepted(vss, limits, AnyModule(bypass, |bypass|)) <==>
      Allocates(bypass, vss, limits.granularity, limits.memory, |vss|) && Enough(vss, limits)
    ensures Enough(vss, limits) ==>
      var placed := PlaceAll([], ConfigRequests(vss, limits.granularity, |vss|)).value;
      Total(placed, |placed|) < U16_LIMIT
  {
    if Enough(vss, limits) {
      EnoughFits(vss, limits);
      AllocationVerdict(bypass, vss, limits.granularity, limits.memory);
    }
  }

  /** There are no more names than buffers. */
  ghost predicate Enough(vss: seq<seq<StreamView>>, limits: Limits) {
    limits.granularity > 0 &&
    var placed := PlaceAll([], ConfigRequests(vss, limits.granularity, |vss|));
    placed.Some? && |placed.value| <= limits.buffers
  }

  lemma EnoughFits(vss: seq<seq<StreamView>>, limits: Limits)
    requires OffsetsFit(limits) && |vss| == ACM_MODULES_COUNT && StreamsCreated(vss[0]) && StreamsCreated(vss[1])
    requires Enough(vss, limits)
    ensures var placed := PlaceAll([], ConfigRequests(vss, limits.granularity, |vss|)).value;
      Total(placed, |placed|) < U16_LIMIT
  {
    var rs := ConfigRequests(vss, limits.granularity, |vss|);
    var placed := PlaceAll([], rs).value;
    PlacementIsAllocation(rs);
    AllocationAtMost(placed, vss, limits.granularity);
    MulLe(|placed|, limits.buffers, BlocksFor(MAX_MESSAGE_SIZE, limits.granularity));
  }

  lemma NowAllocated(config: AcmConfig, limits: Limits, vss: seq<seq<StreamView>>, placed: seq<Buf>)
    requires limits.granularity > 0 && PlaceAll([], ConfigRequests(vss, limits.granularity, |vss|)) == Some(placed)
    requires Total(placed, |placed|) < U16_LIMIT && Represents(config, placed, |placed|, U16(Total(placed, |placed|)))
    ensures Allocated(config, limits, vss, placed)
  {
    PlacementIsAllocation(ConfigRequests(vss, limits.granularity, |vss|));
    U16Fits(Total(placed, |placed|));
  }

  lemma ModulesAbsentEmpty(config: AcmConfig, limits: Limits, lists: Lists, vss: seq<seq<StreamView>>)
    requires Allocatable(config, lists, vss, limits)
    ensures AbsentEmpty(config.bypass, vss)
  {
  }

  /** The checks of the configuration itself: message buffers are allocated anew. */
  method ValidateBuffers(config: AcmConfig, limits: Limits, ghost lists: Lists, ghost vss: seq<seq<StreamView>>)
    returns (error: Option<Error>, ghost placed: seq<Buf>)
    requires Allocatable(config, lists, vss, limits)
    modifies config`msgBuffs, lists.first`operations, lists.second`operations
    ensures error.None? <==> BuffersAccepted(vss, limits, AnyModule(config.bypass, |config.bypass|))
    ensures OfConfig(config, lists)
    ensures Modules(lists, vss, config.msgBuffs, if error.None? then |vss| else 0)
    ensures error.None? ==> |config.msgBuffs| <= limits.buffers && Allocated(config, limits, vss, placed)
  {
    NothingLinked(lists, vss, config.msgBuffs);
    if limits.granularity > 0 {
      ModulesAbsentEmpty(config, limits, lists, vss);
      BuffersVerdict(config.bypass, limits, vss);
    }
    error, placed := CleanAndRecalculateHwMsgBuffs(config, limits.granularity, limits.memory, lists, vss);
    if error.None? && |config.msgBuffs| > limits.buffers {
      error := Some(EACMNUMMESSBUFF);
    } else if error.None? {
      NowAllocated(config, limits, vss, placed);
    }
  }

  /** Before the final validation nobody asks where the other streams belong. */
  function NoTies(n: nat): (r: seq<Ties>)
    ensures |r| == n
  {
    seq(n, _ => Ties(Home(null, null), Home(null, null)))
  }

  // ---- the final validation ----

  /** Only a receiver whose reference does the work may be without operations. */
  predicate HasWork(s: AcmStream)
    reads s`operations, s`kind, s`reference
  {
    s.operations != [] || (s.kind.IngressTriggered? && s.reference != null)
  }

  ghost predicate AllHaveWork(streams: seq<AcmStream>)
    reads streams`operations, streams`kind, streams`reference
  {
    forall k {:trigger streams[k]} :: 0 <= k < |streams| ==> HasWork(streams[k])
  }

  method CheckModuleOpExists(bypass: AcmModule?, ghost streams: seq<AcmStream>) returns (operationExists: bool)
    requires streams == Streams(bypass)
    ensures operationExists <==> AllHaveWork(streams)
  {
    operationExists := true;
    if bypass == null {
      return;
    }
    for k := 0 to |bypass.streams|
      invariant operationExists
      invariant forall j {:trigger streams[j]} :: 0 <= j < k ==> HasWork(streams[j])
    {
      var stream := bypass.streams[k];
      if |stream.operations| == 0 {
        operationExists := stream.kind == IngressTriggered && stream.reference != null;
      }
      if !operationExists {
        assert !HasWork(streams[k]);
        return;
      }
    }
  }

  /** No module has a stream that does nothing. */
  method CheckOperationsExist(config: AcmConfig, ghost lists: Lists) returns (exist: bool)
    requires OfConfig(config, lists)
    ensures exist <==> AllHaveWork(lists.first) && AllHaveWork(lists.second)
  {
    exist := true;
    var i := 0;
    while i < ACM_MODULES_COUNT && exist
      invariant 0 <= i <= ACM_MODULES_COUNT
      invariant exist <==> (i > 0 ==> AllHaveWork(lists.first)) && (i > 1 ==> AllHaveWork(lists.second))
    {
      exist := CheckModuleOpExists(config.bypass[i], if i == 0 then lists.first else lists.second);
      i := i + 1;
    }
  }

  /** What a module, if it is there, is judged by finally. */
  ghost predicate Judged(bypass: AcmModule?, ties: seq<Ties>, f: Facts)
    reads bypass, if bypass == null then [] else bypass.streams
    reads (set s | bypass != null && s in bypass.streams :: s.referenceRedundant)`windows
  {
    bypass != null ==> Sorted(bypass.fscList) && WellFormed(f) && f == FactsOf(bypass, ties)
  }

  ghost predicate Passes(bypass: AcmModule?, f: Facts) {
    bypass != null ==> WellFormed(f) && Accepted(f, true)
  }

  /** The final validation of every module that is there. */
  method ValidateModules(bypass: seq<AcmModule?>, ties: seq<seq<Ties>>, ghost fs: seq<Facts>)
    returns (error: Option<Error>)
    requires |bypass| == |ties| == |fs| == ACM_MODULES_COUNT
    requires Judged(bypass[0], ties[0], fs[0]) && Judged(bypass[1], ties[1], fs[1])
    ensures error.None? <==> Passes(bypass[0], fs[0]) && Passes(bypass[1], fs[1])
  {
    error := None;
    var i := 0;
    while i < ACM_MODULES_COUNT && error.None?
      invariant 0 <= i <= ACM_MODULES_COUNT
      invariant error.None? <==> (i > 0 ==> Passes(bypass[0], fs[0])) && (i > 1 ==> Passes(bypass[1], fs[1]))
    {
      if bypass[i] != null {
        error := RunChecks(bypass[i], ties[i], true, fs[i]);
      }
      i := i + 1;
    }
  }

  /** The checks of modules and operations. */
  method ValidateContents(config: AcmConfig, ties: seq<seq<Ties>>, ghost fs: seq<Facts>, ghost lists: Lists)
    returns (error: Option<Error>)
    requires OfConfig(config, lists) && |ties| == |fs| == ACM_MODULES_COUNT
    requires Judged(config.bypass[0], ties[0], fs[0]) && Judged(config.bypass[1], ties[1], fs[1])
    ensures error.None? <==> ContentsPass(config, fs, lists)
  {
    error := ValidateModules(config.bypass, ties, fs);
    if error.None? {
      var exist := CheckOperationsExist(config, lists);
      if !exist {
        error := Some(EACMOPMISSING);
      }
    }
  }

  /** Both modules, if they are there, pass, and no stream does nothing. */
  ghost predicate ContentsPass(config: AcmConfig, fs: seq<Facts>, lists: Lists)
    requires |config.bypass| == |fs| == ACM_MODULES_COUNT
    reads lists.first`operations, lists.first`kind, lists.first`reference
    reads lists.second`operations, lists.second`kind, lists.second`reference
  {
    && Passes(config.bypass[0], fs[0]) && Passes(config.bypass[1], fs[1])
    && AllHaveWork(lists.first) && AllHaveWork(lists.second)
  }

  /** The final validation from the top down: modules, operations, and the message buffers,
      which are allocated anew. */
  method ValidateConfigFinal(config: AcmConfig, limits: Limits, ties: seq<seq<Ties>>, ghost fs: seq<Facts>,
                             ghost lists: Lists, ghost vss: seq<seq<StreamView>>)
    returns (error: Option<Error>, ghost placed: seq<Buf>)
    requires Allocatable(config, lists, vss, limits) && |ties| == |fs| == ACM_MODULES_COUNT
    requires Judged(config.bypass[0], ties[0], fs[0]) && Judged(config.bypass[1], ties[1], fs[1])
    modifies config`msgBuffs, lists.first`operations, lists.second`operations
    ensures error.None? <==>
      old(ContentsPass(config, fs, lists)) && BuffersAccepted(vss, limits, AnyModule(config.bypass, |config.bypass|))
    ensures OfConfig(config, lists)
    ensures Modules(lists, vss, config.msgBuffs, if error.None? then |vss| else 0)
    ensures error.None? ==> |config.msgBuffs| <= limits.buffers && Allocated(config, limits, vss, placed)
    ensures error.None? ==> Passes(config.bypass[0], fs[0]) && Passes(config.bypass[1], fs[1])
  {
    ghost var pass := ContentsPass(config, fs, lists);
    placed := [];
    error := ValidateContents(config, ties, fs, lists);
    assert error.None? <==> pass;
    if error.None? {
      error, placed := ValidateBuffers(config, limits, lists, vss);
    } else {
      NothingLinked(lists, vss, config.msgBuffs);
    }
  }
}
