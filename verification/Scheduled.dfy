/** The scheduler table and the DMA tables of a module together: what is sent at which tick. */
module Scheduled {
  import opened Entities
  import opened FscList
  import opened Actions
  import opened Expansion
  import opened Windows
  import opened ReceptionWindows
  import opened SchedTable
  import opened Layout
  import opened DmaProgram
  import opened DmaTables
  import opened Apply

  /** The stream whose frame a command triggers: its own, or the recovery stream behind the
      receiver whose window it is. */
  function Target(item: FscCommand): AcmStream?
    reads {item.schedule}`owner, {Owner(item)}`reference, {Reference(Owner(item))}`reference
  {
    match item.cmd.trigger
    case NoTrigger => null
    case StandAlone => Owner(item)
    case FirstStage => Reference(Reference(Owner(item)))
  }

  /** What a command of stream `owner` asks for: a window edge is one of the rule that looks up
      the stream, an event runs the stream's program with its redundancy group, if it is a
      redundant sender, and a conditional trigger runs the program of the recovery stream. */
  predicate AskedFor(cmd: SchedCmd, owner: AcmStream, a: Action)
    reads owner`kind, owner`reference, owner`gatherDmaIndex, owner`lookupIndex, owner`redundandIndex
    reads {Reference(owner)}`reference, {Reference(Reference(owner))}`gatherDmaIndex
  {
    match a
    case OpenWindow(rule) => cmd.winOpen && rule == if cmd.trigger.StandAlone? then 0 else owner.lookupIndex
    case CloseWindow(rule) => cmd.winClose && rule == if cmd.trigger.StandAlone? then 0 else owner.lookupIndex
    case RunProgram(program, group) =>
      && cmd.trigger.StandAlone? && program == owner.gatherDmaIndex
      && group == if owner.kind.RedundantTx? then owner.redundandIndex else 0
    case RunConditionally(program, rule) =>
      && cmd.trigger.FirstStage? && Reference(Reference(owner)) != null
      && program == Reference(Reference(owner)).gatherDmaIndex && rule == owner.lookupIndex
    case EnableNgn => cmd.ngnEnable
    case DisableNgn => cmd.ngnDisable
  }

  /** With current indexes it does exactly that. */
  lemma ResolvedDoesAsAsked(item: FscCommand, cmd: SchedCmd)
    requires Resolved(item) == Some(cmd)
    ensures Owner(item.(cmd := cmd)) == Owner(item) != null
    ensures forall a :: Does(cmd, a) <==> AskedFor(item.cmd, Owner(item), a)
    ensures cmd.winOpen == item.cmd.winOpen && cmd.winClose == item.cmd.winClose
  {
  }

  /** A command with current indexes names the program of its target. */
  lemma ResolvedNamesTarget(item: FscCommand, cmd: SchedCmd)
    requires Resolved(item) == Some(cmd) && !item.cmd.trigger.NoTrigger?
    ensures Target(item.(cmd := cmd)) == Target(item) != null
    ensures cmd.dmaIndex == Target(item).gatherDmaIndex
  {
  }

  /** The command makes the tables `t` lock the buffers of its target `s` and send its frame,
      if it starts with a header. */
  ghost predicate TriggersFrame(cmd: SchedCmd, s: AcmStream, t: Tables)
    reads s`kind, s`operations
  {
    Sends(s.kind) && HasHeader(s.operations) ==>
      var w := StreamView(s.kind, s.operations);
      && OpsComplete(w.ops) && FrameOps(w.ops) && cmd.dmaIndex <= |t.gather| == |t.prefetch|
      && Send(t, cmd.dmaIndex) == Some(Obtained(w))
      && (Send(t, cmd.dmaIndex) == Some(Intended(w)) <==> Nameable(w.ops, INSERT))
  }

  lemma TargetSends(vs: seq<StreamView>, streams: seq<AcmStream>, list: seq<SysfsBuffer>, t: Tables, s: AcmStream,
                    cmd: SchedCmd)
    requires ModuleWorks(vs, streams, list, t) && s in streams && cmd.dmaIndex == s.gatherDmaIndex
    ensures TriggersFrame(cmd, s, t)
  {
    var k :| 0 <= k < |streams| && streams[k] == s;
    assert Works(StreamView(streams[k].kind, streams[k].operations), s.gatherDmaIndex, streams[k].scatterDmaIndex, t);
  }

  lemma {:induction false} CommandAt(l: seq<FscCommand>, k: nat, n: nat)
    requires k < n <= |l|
    ensures |Commands(l, n)| == n && Commands(l, n)[k] == (l[k].absCycle, l[k].cmd)
  {
    CommandsCount(l, n - 1);
    if k < n - 1 {
      CommandAt(l, k, n - 1);
    }
  }

  lemma {:induction false} CommandsCount(l: seq<FscCommand>, n: nat)
    requires n <= |l|
    ensures |Commands(l, n)| == n
  {
    if n > 0 {
      CommandsCount(l, n - 1);
    }
  }

  lemma {:induction false} CompleteAt(resolved: seq<Option<SchedCmd>>, k: nat, n: nat)
    requires k < n <= |resolved| && Complete(resolved, n)
    ensures resolved[k].Some?
  {
    if k < n - 1 {
      CompleteAt(resolved, k, n - 1);
    }
  }

  /** Command `k` of the list is executed at its tick, and if it triggers a stream of the
      module, this stream's frame is sent then. */
  ghost predicate Served(l: seq<FscCommand>, k: nat, streams: seq<AcmStream>, rows: seq<Row>, t: Tables)
    requires k < |l|
    reads {l[k].schedule}`owner, {Owner(l[k])}`reference, {Reference(Owner(l[k]))}`reference
    reads streams`kind, streams`operations
  {
    && k < |Timeline(rows)| && Timeline(rows)[k] == (l[k].absCycle, l[k].cmd)
    && (Target(l[k]) != null && Target(l[k]) in streams ==> TriggersFrame(l[k].cmd, Target(l[k]), t))
  }

  lemma ServedAt(before: seq<FscCommand>, resolved: seq<Option<SchedCmd>>, k: nat, vs: seq<StreamView>,
                 streams: seq<AcmStream>, list: seq<SysfsBuffer>, rows: seq<Row>, t: Tables)
    requires k < |before| == |resolved| && Complete(resolved) && resolved[k] == Resolved(before[k])
    requires Timeline(rows) == Commands(WithIndexes(before, resolved)) && ModuleWorks(vs, streams, list, t)
    ensures Served(WithIndexes(before, resolved), k, streams, rows, t)
  {
    var l := WithIndexes(before, resolved);
    CommandAt(l, k, |l|);
    CompleteAt(resolved, k, |resolved|);
    if !before[k].cmd.trigger.NoTrigger? {
      ResolvedNamesTarget(before[k], resolved[k].value);
      if Target(before[k]) in streams {
        TargetSends(vs, streams, list, t, Target(before[k]), resolved[k].value);
      }
    }
  }

  /** Every command of `l` does what the one of `before` asks for, with the indexes its stream
      has now. */
  ghost predicate DoesAsAsked(before: FscCommand, now: FscCommand)
    reads {now.schedule}`owner
    reads {Owner(now)}`kind, {Owner(now)}`reference
    reads {Owner(now)}`gatherDmaIndex, {Owner(now)}`lookupIndex, {Owner(now)}`redundandIndex
    reads {Reference(Owner(now))}`reference, {Reference(Reference(Owner(now)))}`gatherDmaIndex
  {
    && now.schedule == before.schedule && now.absCycle == before.absCycle && Owner(now) != null
    && now.cmd.winOpen == before.cmd.winOpen && now.cmd.winClose == before.cmd.winClose
    && forall a :: Does(now.cmd, a) <==> AskedFor(before.cmd, Owner(now), a)
  }

  /** All commands are served, at the ticks of the list `before`. */
  ghost predicate AllServed(before: seq<FscCommand>, l: seq<FscCommand>, streams: seq<AcmStream>, rows: seq<Row>,
                            t: Tables)
    reads set k | 0 <= k < |l| :: l[k].schedule
    reads set k | 0 <= k < |l| :: Owner(l[k])
    reads set k | 0 <= k < |l| :: Reference(Owner(l[k]))
    reads set k | 0 <= k < |l| :: Reference(Reference(Owner(l[k])))
    reads streams`kind, streams`operations
  {
    && |Timeline(rows)| == |l| == |before|
    && forall k {:trigger l[k]} :: 0 <= k < |l| ==>
         DoesAsAsked(before[k], l[k]) && Served(l, k, streams, rows, t)
  }

  /** The first `n` commands come to `resolved` with the indexes of their streams. */
  ghost predicate AreResolved(before: seq<FscCommand>, resolved: seq<Option<SchedCmd>>, n: nat := |before|)
    requires n <= |before| == |resolved|
    reads set k | 0 <= k < |before| :: before[k].schedule
    reads set k | 0 <= k < |before| :: Owner(before[k])
    reads set k | 0 <= k < |before| :: Reference(Owner(before[k]))
    reads set k | 0 <= k < |before| :: Reference(Reference(Owner(before[k])))
  {
    n > 0 ==> AreResolved(before, resolved, n - 1) && resolved[n - 1] == Resolved(before[n - 1])
  }

  lemma {:induction false} AllAreResolved(before: seq<FscCommand>, resolved: seq<Option<SchedCmd>>, n: nat)
    requires n <= |before| == |resolved|
    requires forall k {:trigger resolved[k]} :: 0 <= k < |before| ==> resolved[k] == Resolved(before[k])
    ensures AreResolved(before, resolved, n)
  {
    if n > 0 {
      AllAreResolved(before, resolved, n - 1);
    }
  }

  lemma {:induction false} ResolvedAt(before: seq<FscCommand>, resolved: seq<Option<SchedCmd>>, k: nat, n: nat)
    requires k < n <= |before| == |resolved| && AreResolved(before, resolved, n)
    ensures resolved[k] == Resolved(before[k])
  {
    if k < n - 1 {
      ResolvedAt(before, resolved, k, n - 1);
    }
  }

  lemma AllServedNow(before: seq<FscCommand>, resolved: seq<Option<SchedCmd>>, l: seq<FscCommand>,
                     vs: seq<StreamView>, streams: seq<AcmStream>, list: seq<SysfsBuffer>, rows: seq<Row>, t: Tables)
    requires |before| == |resolved| && Complete(resolved) && l == WithIndexes(before, resolved)
    requires AreResolved(before, resolved)
    requires Timeline(rows) == Commands(l) && ModuleWorks(vs, streams, list, t)
    ensures AllServed(before, l, streams, rows, t)
  {
    CommandsCount(l, |l|);
    forall k {:trigger l[k]} | 0 <= k < |l|
      ensures DoesAsAsked(before[k], l[k]) && Served(l, k, streams, rows, t)
    {
      ResolvedAt(before, resolved, k, |before|);
      CompleteAt(resolved, k, |resolved|);
      ResolvedDoesAsAsked(before[k], resolved[k].value);
      ServedAt(before, resolved, k, vs, streams, list, rows, t);
    }
  }

  /** Writing the table changes no index of a stream. */
  method WriteResolved(m: AcmModule, table: nat, driver: SchedDriver, ghost before: seq<FscCommand>,
                       ghost resolved: seq<Option<SchedCmd>>)
    returns (ok: bool, ghost rows: seq<Row>)
    requires m.moduleId < SCHEDULER_COUNT && table < SCHED_TBL_COUNT
    requires Sorted(m.fscList) && AllActive(m.fscList)
    requires before == m.fscList && resolved == ResolvedAll(m)
    modifies driver`rows, m`fscList
    ensures driver.rows == Written(old(driver.rows), m.moduleId, table, rows)
    ensures RowCount(Ticks(before)) <= SCHED_TBL_ROW_COUNT ==> (ok <==> Complete(resolved))
    ensures ok ==> Complete(resolved) && m.fscList == WithIndexes(before, resolved)
    ensures ok ==> Timeline(rows) == Commands(m.fscList)
    ensures AreResolved(before, resolved)
  {
    ok, rows := WriteFscSchedulesToHw(m, table, driver);
    forall k {:trigger resolved[k]} | 0 <= k < |before| ensures resolved[k] == Resolved(before[k]) {
      assert resolved[k] == old(Resolved(before[k]));
    }
    AllAreResolved(before, resolved, |before|);
  }

  /** Writes the schedule of a module whose other tables are written. Every command of the list
      is executed at its tick, and each one that triggers a stream of the module sends it. */
  method ApplySchedule(m: AcmModule, table: nat, driver: SchedDriver, ghost vs: seq<StreamView>,
                       ghost list: seq<SysfsBuffer>, ghost t: Tables)
    returns (ok: bool, ghost rows: seq<Row>)
    requires m.moduleId < SCHEDULER_COUNT && table < SCHED_TBL_COUNT
    requires Sorted(m.fscList) && AllActive(m.fscList) && ModuleWorks(vs, m.streams, list, t)
    modifies driver`rows, m`fscList
    ensures driver.rows == Written(old(driver.rows), m.moduleId, table, rows)
    ensures RowCount(old(Ticks(m.fscList))) <= SCHED_TBL_ROW_COUNT ==> (ok <==> Complete(old(ResolvedAll(m))))
    ensures ok ==> AllServed(old(m.fscList), m.fscList, m.streams, rows, t)
  {
    ghost var before, resolved := m.fscList, ResolvedAll(m);
    ok, rows := WriteResolved(m, table, driver, before, resolved);
    if ok {
      AllServedNow(before, resolved, m.fscList, vs, m.streams, list, rows, t);
    }
  }

  // ---- one schedule in the tables ----

  /** No other command of the list is an edge of the rule's window. */
  predicate OthersElsewhere(before: seq<FscCommand>, e: ScheduleEntry, rule: nat)
    reads set k | 0 <= k < |before| :: before[k].schedule
    reads set k | 0 <= k < |before| :: Owner(before[k])
    reads set k | 0 <= k < |before| :: Reference(Owner(before[k]))
    reads set k | 0 <= k < |before| :: Reference(Reference(Owner(before[k])))
  {
    forall k {:trigger before[k]} :: 0 <= k < |before| && before[k].schedule != e && Owner(before[k]) != null ==>
      && !AskedFor(before[k].cmd, Owner(before[k]), OpenWindow(rule))
      && !AskedFor(before[k].cmd, Owner(before[k]), CloseWindow(rule))
  }

  predicate NoEdge(cmd: SchedCmd) {
    !cmd.winOpen && !cmd.winClose
  }

  /** A command of another schedule that is a window edge: of another receiver of the module. */
  predicate EdgeOfOther(item: FscCommand, e: ScheduleEntry, streams: seq<AcmStream>)
    reads {item.schedule}`owner, {Owner(item)}`kind, e`owner
  {
    && !item.cmd.trigger.StandAlone? && Owner(item) != null
    && Owner(item) in streams && IsIngress(Owner(item).kind) && Owner(item) != e.owner
  }

  /** With lookup indexes as the calculate function leaves them, edges of other receivers are
      edges of other rules. */
  lemma OtherReceiversElsewhere(before: seq<FscCommand>, e: ScheduleEntry, streams: seq<AcmStream>)
    requires e.owner != null && e.owner in streams && IsIngress(e.owner.kind)
    requires forall k {:trigger streams[k]} :: 0 <= k < |streams| ==>
      streams[k].lookupIndex == LookupIndex(Views(streams), k)
    requires forall k {:trigger before[k]} :: 0 <= k < |before| ==>
      before[k].schedule == e || NoEdge(before[k].cmd) || EdgeOfOther(before[k], e, streams)
    ensures OthersElsewhere(before, e, e.owner.lookupIndex)
  {
    forall k {:trigger before[k]} | 0 <= k < |before| && before[k].schedule != e && Owner(before[k]) != null
      ensures !AskedFor(before[k].cmd, Owner(before[k]), OpenWindow(e.owner.lookupIndex))
      ensures !AskedFor(before[k].cmd, Owner(before[k]), CloseWindow(e.owner.lookupIndex))
    {
      if !NoEdge(before[k].cmd) {
        RulesDiffer(streams, e.owner, Owner(before[k]));
      }
    }
  }

  lemma {:induction false} RulesDiffer(streams: seq<AcmStream>, r: AcmStream, s: AcmStream)
    requires r in streams && s in streams && IsIngress(r.kind) && IsIngress(s.kind) && r != s
    requires forall k {:trigger streams[k]} :: 0 <= k < |streams| ==>
      streams[k].lookupIndex == LookupIndex(Views(streams), k)
    ensures r.lookupIndex != s.lookupIndex
  {
    var i :| 0 <= i < |streams| && streams[i] == r;
    var j :| 0 <= j < |streams| && streams[j] == s;
    EntriesDiffer(streams, Views(streams), i, j);
  }

  lemma {:induction false} EntriesDiffer(streams: seq<AcmStream>, vs: seq<StreamView>, i: nat, j: nat)
    requires vs == Views(streams) && i < |streams| && j < |streams| && i != j
    requires IsIngress(streams[i].kind) && IsIngress(streams[j].kind)
    ensures LookupIndex(vs, i) != LookupIndex(vs, j)
  {
    assert vs[i].kind == streams[i].kind && vs[j].kind == streams[j].kind;
    LookupOrder(vs, i, j);
    LookupOrder(vs, j, i);
  }

  lemma TimelineExecutes(before: seq<FscCommand>, l: seq<FscCommand>, streams: seq<AcmStream>, rows: seq<Row>,
                         t: Tables, list: seq<FscCommand>, e: ScheduleEntry, s: Setting, lookup: nat,
                         recoveryGather: Option<nat>, n: nat)
    requires AllServed(before, l, streams, rows, t) && e.owner != null
    requires s.tick > 0 && Added(before, list, e, s, lookup, recoveryGather, n)
    requires OthersElsewhere(before, e, e.owner.lookupIndex)
    ensures Executes(Timeline(rows), before, e, e.owner.lookupIndex)
  {
    var tl, rule := Timeline(rows), e.owner.lookupIndex;
    forall k | 0 <= k < |before| ensures ExecutesOne(tl[k], before[k], e, rule) {
      assert DoesAsAsked(before[k], l[k]) && Served(l, k, streams, rows, t);
      assert Does(l[k].cmd, OpenWindow(rule)) <==> AskedFor(before[k].cmd, Owner(l[k]), OpenWindow(rule));
      assert Does(l[k].cmd, CloseWindow(rule)) <==> AskedFor(before[k].cmd, Owner(l[k]), CloseWindow(rule));
      if before[k].schedule == e {
        OwnCommand(before, list, e, s, lookup, recoveryGather, n, k);
      }
    }
  }

  /** With all tables written, the hardware keeps the window of the rule that looks up the
      schedule's stream open in exactly the ticks that a requested window reaches into, unless
      the only window of the cycle ends and starts again within the cycle's last tick. */
  lemma WindowsServed(before: seq<FscCommand>, l: seq<FscCommand>, streams: seq<AcmStream>, rows: seq<Row>,
                      t: Tables, list: seq<FscCommand>, e: ScheduleEntry, s: Setting, lookup: nat,
                      recoveryGather: Option<nat>, n: nat)
    requires AllServed(before, l, streams, rows, t) && e.owner != null
    requires Fits(e, s, n) && Added(before, list, e, s, lookup, recoveryGather, n)
    requires OthersElsewhere(before, e, e.owner.lookupIndex)
    ensures (forall x: nat :: x < s.cycleTicks ==>
               (OpenAt(Timeline(rows), e.owner.lookupIndex, x) <==> Requested(e, s, n, x)))
      <==> !SplitByLastTick(e, s)
  {
    TimelineExecutes(before, l, streams, rows, t, list, e, s, lookup, recoveryGather, n);
    OpenExactlyAsRequested(Timeline(rows), before, list, e, s, lookup, recoveryGather, n, e.owner.lookupIndex);
  }

  /** At tick `x` the table runs the program of stream `s` for schedule `e`, with its redundancy
      group, and so sends its frame. */
  ghost predicate SentAt(l: seq<FscCommand>, e: ScheduleEntry, s: AcmStream, streams: seq<AcmStream>, rows: seq<Row>,
                         t: Tables, x: nat)
    reads s
  {
    var group := if s.kind.RedundantTx? then s.redundandIndex else 0;
    exists k {:trigger Timeline(rows)[k]} ::
      && 0 <= k < |l| <= |Timeline(rows)| && l[k].schedule == e && Timeline(rows)[k].0 == x
      && Does(Timeline(rows)[k].1, RunProgram(s.gatherDmaIndex, group))
      && (s in streams ==> TriggersFrame(Timeline(rows)[k].1, s, t))
  }

  lemma OwnEvent(before: seq<FscCommand>, list: seq<FscCommand>, e: ScheduleEntry, delay: nat, tick: nat,
                 gather: nat, redund: nat, n: nat, k: nat)
    requires tick > 0 && e.periodNs > 0
    requires before == InsertAll(list, EventCommands(e, delay, tick, EventCmd(gather, redund), n))
    requires forall i {:trigger list[i]} :: 0 <= i < |list| ==> list[i].schedule != e
    requires k < |before| && before[k].schedule == e
    ensures before[k].cmd == EventCmd(gather, redund) && EventAt(e, delay, tick, n, before[k].absCycle)
  {
    var xs := EventCommands(e, delay, tick, EventCmd(gather, redund), n);
    InsertAllHolds(list, xs, before[k]);
    var j :| 0 <= j < |xs| && xs[j] == before[k];
    EventCommandAt(e, delay, tick, EventCmd(gather, redund), n, j);
  }

  lemma OwnSent(before: seq<FscCommand>, l: seq<FscCommand>, streams: seq<AcmStream>, rows: seq<Row>, t: Tables,
                e: ScheduleEntry, gather: nat, redund: nat, k: nat)
    requires AllServed(before, l, streams, rows, t) && e.owner != null
    requires k < |before| && before[k].schedule == e && before[k].cmd == EventCmd(gather, redund)
    ensures SentAt(l, e, e.owner, streams, rows, t, before[k].absCycle)
  {
    var group := if e.owner.kind.RedundantTx? then e.owner.redundandIndex else 0;
    assert DoesAsAsked(before[k], l[k]) && Served(l, k, streams, rows, t);
    var a := RunProgram(e.owner.gatherDmaIndex, group);
    assert Does(l[k].cmd, a) <==> AskedFor(before[k].cmd, Owner(l[k]), a);
    assert Timeline(rows)[k] == (l[k].absCycle, l[k].cmd);
  }

  /** With all tables written, the hardware sends the frame of a send schedule's stream at the
      ticks of the schedule's events, and at no others. */
  lemma EventsServed(before: seq<FscCommand>, l: seq<FscCommand>, streams: seq<AcmStream>, rows: seq<Row>, t: Tables,
                     list: seq<FscCommand>, e: ScheduleEntry, delay: nat, tick: nat, gather: nat, redund: nat, n: nat,
                     x: nat)
    requires AllServed(before, l, streams, rows, t) && e.owner != null && tick > 0 && e.periodNs > 0
    requires before == InsertAll(list, EventCommands(e, delay, tick, EventCmd(gather, redund), n))
    requires forall i {:trigger list[i]} :: 0 <= i < |list| ==> list[i].schedule != e
    ensures SentAt(l, e, e.owner, streams, rows, t, x) <==> EventAt(e, delay, tick, n, x)
  {
    var xs := EventCommands(e, delay, tick, EventCmd(gather, redund), n);
    if EventAt(e, delay, tick, n, x) {
      var j :| 0 <= j < n && EventTick(e, delay, tick, j) == x;
      EventCommandAt(e, delay, tick, EventCmd(gather, redund), n, j);
      InsertAllHolds(list, xs, xs[j]);
      var k :| 0 <= k < |before| && before[k] == xs[j];
      OwnSent(before, l, streams, rows, t, e, gather, redund, k);
    }
    if SentAt(l, e, e.owner, streams, rows, t, x) {
      var k {:trigger Timeline(rows)[k]} :| 0 <= k < |l| && l[k].schedule == e && Timeline(rows)[k].0 == x;
      assert DoesAsAsked(before[k], l[k]) && Served(l, k, streams, rows, t);
      OwnEvent(before, list, e, delay, tick, gather, redund, n, k);
    }
  }
}
