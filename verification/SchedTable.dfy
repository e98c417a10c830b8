/** Writing a module's command list into a scheduler table of the hardware, and what the
    scheduler then executes. */
module SchedTable {
  import opened Entities
  import opened FscList

  // ---- the hardware ----

  datatype Row = Row(cmd: SchedCmd, delta: nat)
  datatype RowId = RowId(sched: nat, tab: nat, row: nat)

  /** Position of a row in the linear file the library writes to. */
  function LinearIndex(moduleId: nat, table: nat, item: nat): nat {
    SCHED_TBL_ROW_COUNT * moduleId * SCHED_TBL_COUNT + SCHED_TBL_ROW_COUNT * table + item
  }

  /** The driver's decoding of that position. */
  function RowOf(i: nat): RowId {
    RowId((i / SCHED_TBL_ROW_COUNT) / SCHED_TBL_COUNT, (i / SCHED_TBL_ROW_COUNT) % SCHED_TBL_COUNT,
      i % SCHED_TBL_ROW_COUNT)
  }

  const TABLE_FILE_ROWS := SCHEDULER_COUNT * SCHED_TBL_COUNT * SCHED_TBL_ROW_COUNT

  /** A row arrives in the table it was written for exactly when its number is below 1024. */
  lemma RowDecodes(moduleId: nat, table: nat, item: nat)
    requires moduleId < SCHEDULER_COUNT && table < SCHED_TBL_COUNT
    ensures RowOf(LinearIndex(moduleId, table, item)) == RowId(moduleId, table, item) <==> item < SCHED_TBL_ROW_COUNT
    ensures item < SCHED_TBL_ROW_COUNT ==> LinearIndex(moduleId, table, item) < TABLE_FILE_ROWS
  {
  }

  class SchedDriver {
    var rows: map<RowId, Row>

    constructor ()
      ensures rows == map[]
    {
      rows := map[];
    }

    /** sched_tab_row_write for one row; positions beyond the end of the file are refused. */
    method WriteRow(i: nat, row: Row) returns (ok: bool)
      modifies `rows
      ensures ok == (i < TABLE_FILE_ROWS)
      ensures rows == if ok then old(rows)[RowOf(i) := row] else old(rows)
    {
      if i >= TABLE_FILE_ROWS {
        return false;
      }
      rows := rows[RowOf(i) := row];
      return true;
    }
  }

  /** Time that passes while all `rows` are executed. */
  function Elapsed(rows: seq<Row>): nat {
    if rows == [] then 0 else Elapsed(rows[..|rows| - 1]) + rows[|rows| - 1].delta
  }

  /** What executing `rows` does: each command that is not a NOP, at the sum of the
      delays of the rows before it. */
  function Timeline(rows: seq<Row>): seq<(nat, SchedCmd)> {
    if rows == [] then []
    else
      var before := rows[..|rows| - 1];
      var last := rows[|rows| - 1];
      Timeline(before) + if last.cmd == NOP_CMD then [] else [(Elapsed(before), last.cmd)]
  }

  /** The hardware tables after writing `rows` from row 0 on. */
  function Written(hw: map<RowId, Row>, moduleId: nat, table: nat, rows: seq<Row>): map<RowId, Row> {
    if rows == [] then hw
    else
      var n := |rows| - 1;
      Written(hw, moduleId, table, rows[..n])[RowOf(LinearIndex(moduleId, table, n)) := rows[n]]
  }

  /** The front of a table holds `rows`. */
  ghost predicate FrontHolds(hw: map<RowId, Row>, moduleId: nat, table: nat, rows: seq<Row>) {
    forall k {:trigger rows[k]} :: 0 <= k < |rows| ==>
      RowId(moduleId, table, k) in hw && hw[RowId(moduleId, table, k)] == rows[k]
  }

  /** All but the first `n` rows of the table are as before. */
  ghost predicate OthersKept(hw: map<RowId, Row>, after: map<RowId, Row>, moduleId: nat, table: nat, n: nat) {
    forall id: RowId {:trigger id in after} :: !(id.sched == moduleId && id.tab == table && id.row < n) ==>
      (id in after <==> id in hw) && (id in hw ==> after[id] == hw[id])
  }

  lemma FrontGrows(hw: map<RowId, Row>, moduleId: nat, table: nat, rows: seq<Row>, row: Row)
    requires FrontHolds(hw, moduleId, table, rows)
    ensures FrontHolds(hw[RowId(moduleId, table, |rows|) := row], moduleId, table, rows + [row])
  {
  }

  lemma OthersStillKept(hw: map<RowId, Row>, after: map<RowId, Row>, moduleId: nat, table: nat, n: nat, row: Row)
    requires OthersKept(hw, after, moduleId, table, n)
    ensures OthersKept(hw, after[RowId(moduleId, table, n) := row], moduleId, table, n + 1)
  {
  }

  /** Up to 1024 rows fill the front of their own table, and nothing else changes. */
  lemma {:induction false} WrittenStaysInTable(hw: map<RowId, Row>, moduleId: nat, table: nat, rows: seq<Row>)
    requires moduleId < SCHEDULER_COUNT && table < SCHED_TBL_COUNT
    requires |rows| <= SCHED_TBL_ROW_COUNT
    ensures FrontHolds(Written(hw, moduleId, table, rows), moduleId, table, rows)
    ensures OthersKept(hw, Written(hw, moduleId, table, rows), moduleId, table, |rows|)
  {
    if rows != [] {
      var n := |rows| - 1;
      var before := Written(hw, moduleId, table, rows[..n]);
      WrittenStaysInTable(hw, moduleId, table, rows[..n]);
      RowDecodes(moduleId, table, n);
      assert rows == rows[..n] + [rows[n]];
      assert Written(hw, moduleId, table, rows) == before[RowId(moduleId, table, n) := rows[n]];
      FrontGrows(before, moduleId, table, rows[..n], rows[n]);
      OthersStillKept(hw, before, moduleId, table, n, rows[n]);
    }
  }

  // ---- tick lists, gaps and row counts ----

  function Ticks(l: seq<FscCommand>): (r: seq<nat>)
    ensures |r| == |l|
    ensures forall k {:trigger r[k]} :: 0 <= k < |l| ==> r[k] == l[k].absCycle
  {
    if l == [] then [] else Ticks(l[..|l| - 1]) + [l[|l| - 1].absCycle]
  }

  predicate Ordered(ts: seq<nat>) {
    forall i, j :: 0 <= i < j < |ts| ==> ts[i] <= ts[j]
  }

  /** Ticks between command k and the one before it, or the start of the cycle. */
  function Gap(ts: seq<nat>, k: nat): nat
    requires k < |ts| && Ordered(ts)
  {
    if k == 0 then ts[0] else ts[k] - ts[k - 1]
  }

  /** Every gap is at least the hardware minimum; a first command at tick 0 is allowed. */
  ghost predicate GapsOk(ts: seq<nat>)
    requires Ordered(ts)
  {
    forall k :: 0 <= k < |ts| ==> Gap(ts, k) >= ANZ_MIN_TICKS || (k == 0 && ts[0] == 0)
  }

  /** NOP rows the writer adds for a gap: the passes of its splitting loop. */
  function NopRows(delta: nat): nat {
    if delta <= UINT16_T_MAX then 0 else 1 + NopRows(delta - NOP_DELTA_CYCLE)
  }

  /** NOP rows the validator expects for a gap. */
  function NopEstimate(delta: nat): nat {
    if delta > UINT16_T_MAX then delta / NOP_DELTA_CYCLE else 0
  }

  /** The estimate is never too low, and too high by one exactly for the gaps whose
      remainder still fits the last row. */
  lemma {:induction false} EstimateBoundsNopRows(delta: nat)
    ensures NopRows(delta) <= NopEstimate(delta) <= NopRows(delta) + 1
    ensures NopEstimate(delta) == NopRows(delta) + 1
      <==> delta > UINT16_T_MAX && delta % NOP_DELTA_CYCLE <= UINT16_T_MAX - NOP_DELTA_CYCLE
  {
    if delta > UINT16_T_MAX {
      EstimateBoundsNopRows(delta - NOP_DELTA_CYCLE);
      assert (delta - NOP_DELTA_CYCLE) / NOP_DELTA_CYCLE == delta / NOP_DELTA_CYCLE - 1;
      assert (delta - NOP_DELTA_CYCLE) % NOP_DELTA_CYCLE == delta % NOP_DELTA_CYCLE;
    }
  }

  /** Such a gap: one NOP of 60000 ticks leaves 60000, which the command's own row can last. */
  lemma NopEstimateOneTooHigh()
    ensures NopRows(120000) == 1 && NopEstimate(120000) == 2
  {
    assert NopRows(60000) == 0;
  }

  /** NOP rows the validator expects for the first `k` commands. */
  function EstimateSum(ts: seq<nat>, k: nat): nat
    requires k <= |ts| && Ordered(ts)
  {
    if k == 0 then 0 else EstimateSum(ts, k - 1) + NopEstimate(Gap(ts, k - 1))
  }

  /** Rows written before command `k` gets its own row. */
  function RowsBefore(ts: seq<nat>, k: nat): nat
    requires k < |ts| && Ordered(ts)
  {
    if k == 0 then (if ts[0] == 0 then 0 else NopRows(ts[0]) + 1)
    else RowsBefore(ts, k - 1) + 1 + NopRows(Gap(ts, k))
  }

  function RowCount(ts: seq<nat>): nat
    requires Ordered(ts)
  {
    if ts == [] then 0 else RowsBefore(ts, |ts| - 1) + 1
  }

  /** The schedule event limit as validate_module tests it. */
  predicate EventsWithinLimit(ts: seq<nat>)
    requires Ordered(ts)
  {
    ts != [] ==>
      |ts| + EstimateSum(ts, |ts|) <= if ts[0] == 0 then ACM_MAX_SCHEDULE_EVENTS else ACM_MAX_SCHEDULE_EVENTS - 1
  }

  /** Rows that the validator expects but the writer does not need: one for each of the first
      `k` gaps that is longer than a row can last and whose rest fits the last row. */
  function SpareRows(ts: seq<nat>, k: nat): nat
    requires k <= |ts| && Ordered(ts)
  {
    if k == 0 then 0
    else
      var delta := Gap(ts, k - 1);
      SpareRows(ts, k - 1)
      + if delta > UINT16_T_MAX && delta % NOP_DELTA_CYCLE <= UINT16_T_MAX - NOP_DELTA_CYCLE then 1 else 0
  }

  lemma {:induction false} RowsOfEstimate(ts: seq<nat>, k: nat)
    requires k < |ts| && Ordered(ts)
    ensures RowsBefore(ts, k) + SpareRows(ts, k + 1) == k + EstimateSum(ts, k + 1) + if ts[0] == 0 then 0 else 1
  {
    EstimateBoundsNopRows(Gap(ts, k));
    if k > 0 {
      RowsOfEstimate(ts, k - 1);
    }
  }

  /** The validator accepts exactly the lists whose rows and spare rows fit the 1024 rows of one
      table. */
  lemma AcceptedListFitsTable(ts: seq<nat>)
    requires Ordered(ts)
    ensures EventsWithinLimit(ts) <==> RowCount(ts) + SpareRows(ts, |ts|) <= 1024
  {
    if ts != [] {
      RowsOfEstimate(ts, |ts| - 1);
    }
  }

  method CalcNopSchedulesForLongCycles(m: AcmModule) returns (numNops: nat)
    requires Sorted(m.fscList)
    ensures numNops == EstimateSum(Ticks(m.fscList), |m.fscList|)
  {
    numNops := 0;
    var previousTime := 0;
    ghost var ts := Ticks(m.fscList);
    var i := 0;
    while i < |m.fscList|
      invariant 0 <= i <= |m.fscList|
      invariant previousTime == if i == 0 then 0 else ts[i - 1]
      invariant numNops == EstimateSum(ts, i)
    {
      var deltaTime := m.fscList[i].absCycle - previousTime;
      assert deltaTime == Gap(ts, i);
      if deltaTime > UINT16_T_MAX {
        numNops := numNops + deltaTime / NOP_DELTA_CYCLE;
      }
      previousTime := m.fscList[i].absCycle;
      i := i + 1;
    }
  }

  method CheckModuleSchedulingGaps(m: AcmModule) returns (ok: bool)
    requires Sorted(m.fscList)
    ensures ok <==> GapsOk(Ticks(m.fscList))
  {
    var lastTime := 0;
    ghost var ts := Ticks(m.fscList);
    var i := 0;
    while i < |m.fscList|
      invariant 0 <= i <= |m.fscList|
      invariant lastTime == if i == 0 then 0 else ts[i - 1]
      invariant forall k :: 0 <= k < i ==> Gap(ts, k) >= ANZ_MIN_TICKS || (k == 0 && ts[0] == 0)
    {
      var diff := m.fscList[i].absCycle - lastTime;
      assert diff == Gap(ts, i);
      if diff < ANZ_MIN_TICKS {
        if !(diff == 0 && i == 0) {
          return false;
        }
      }
      lastTime := m.fscList[i].absCycle;
      i := i + 1;
    }
    return true;
  }

  /** Accepted lists keep any two commands 8 ticks per list position apart. */
  lemma {:induction false} AcceptedCommandsApart(ts: seq<nat>, i: nat, j: nat)
    requires Ordered(ts) && GapsOk(ts) && i < j < |ts|
    ensures ts[j] - ts[i] >= ANZ_MIN_TICKS * (j - i)
    decreases j
  {
    assert Gap(ts, j) >= ANZ_MIN_TICKS;
    if i < j - 1 {
      AcceptedCommandsApart(ts, i, j - 1);
    }
  }

  /** The gaps are accepted exactly when any two commands are 8 ticks per list position apart and
      the first one is at the start of the cycle or 8 ticks behind it. */
  lemma GapsOkMeans(ts: seq<nat>)
    requires Ordered(ts)
    ensures GapsOk(ts) <==>
      && (ts != [] ==> ts[0] == 0 || ts[0] >= 8)
      && forall i, j :: 0 <= i < j < |ts| ==> ts[j] - ts[i] >= 8 * (j - i)
  {
    if GapsOk(ts) {
      forall i, j | 0 <= i < j < |ts| ensures ts[j] - ts[i] >= 8 * (j - i) {
        AcceptedCommandsApart(ts, i, j);
      }
      assert ts != [] ==> Gap(ts, 0) == ts[0];
    }
  }

  lemma AcceptedIsStrict(l: seq<FscCommand>)
    requires Sorted(l) && GapsOk(Ticks(l))
    ensures Strict(l)
  {
    forall i, j | 0 <= i < j < |l| ensures l[i].absCycle < l[j].absCycle {
      AcceptedCommandsApart(Ticks(l), i, j);
    }
  }

  ghost predicate Apart(x: FscCommand, y: FscCommand) {
    x.absCycle + ANZ_MIN_TICKS <= y.absCycle || y.absCycle + ANZ_MIN_TICKS <= x.absCycle
  }

  /** In an accepted list any two of the commands inserted last are the minimum apart. */
  lemma InsertedApart(l: seq<FscCommand>, xs: seq<FscCommand>, p: nat, q: nat)
    requires p < q < |xs| && Sorted(InsertAll(l, xs)) && GapsOk(Ticks(InsertAll(l, xs)))
    ensures Apart(xs[p], xs[q])
  {
    AcceptedIsStrict(InsertAll(l, xs));
    var i, j := InsertedPlaces(l, xs, p, q);
    if i < j {
      AcceptedCommandsApart(Ticks(InsertAll(l, xs)), i, j);
    } else {
      AcceptedCommandsApart(Ticks(InsertAll(l, xs)), j, i);
    }
  }

  // ---- current indexes of a command's stream ----

  function Owner(item: FscCommand): AcmStream?
    reads {item.schedule}`owner
  {
    if item.schedule == null then null else item.schedule.owner
  }

  function Reference(s: AcmStream?): AcmStream?
    reads {s}`reference
  {
    if s == null then null else s.reference
  }

  /** The command with the indexes its stream has now: a send event refers to its stream's
      gather program (and redundancy entry for a redundant sender), a window to its lookup
      rule, a conditional trigger to the gather program of the recovery stream. None when
      a link is missing. */
  function Resolved(item: FscCommand): (r: Option<SchedCmd>)
    reads {item.schedule}`owner
    reads {Owner(item)}`kind, {Owner(item)}`reference
    reads {Owner(item)}`gatherDmaIndex, {Owner(item)}`lookupIndex, {Owner(item)}`redundandIndex
    reads {Reference(Owner(item))}`reference, {Reference(Reference(Owner(item)))}`gatherDmaIndex
    ensures r.Some? && Active(item.cmd) ==> Active(r.value)
    ensures r.Some? ==> r.value.trigger == item.cmd.trigger
  {
    var stream := Owner(item);
    if stream == null then None
    else
      match item.cmd.trigger
      case NoTrigger => Some(item.cmd.(dmaIndex := 0, ruleId := stream.lookupIndex, redundGroup := 0))
      case StandAlone =>
        Some(item.cmd.(dmaIndex := stream.gatherDmaIndex, ruleId := 0,
          redundGroup := if stream.kind.RedundantTx? then stream.redundandIndex else 0))
      case FirstStage =>
        var recovery := Reference(Reference(stream));
        if recovery == null then None
        else Some(item.cmd.(dmaIndex := recovery.gatherDmaIndex, ruleId := stream.lookupIndex, redundGroup := 0))
  }

  method UpdateFscIndexes(m: AcmModule, k: nat) returns (ok: bool)
    requires k < |m.fscList|
    modifies m`fscList
    ensures ok == old(Resolved(m.fscList[k])).Some?
    ensures m.fscList == if ok
      then old(m.fscList)[k := old(m.fscList)[k].(cmd := old(Resolved(m.fscList[k])).value)]
      else old(m.fscList)
  {
    var item := m.fscList[k];
    if item.schedule == null || item.schedule.owner == null {
      return false;
    }
    var stream := item.schedule.owner;
    var cmd := item.cmd;
    match cmd.trigger {
      case NoTrigger =>
        cmd := SchedCmd(0, stream.lookupIndex, 0, cmd.trigger, cmd.winClose, cmd.winOpen,
          cmd.ngnDisable, cmd.ngnEnable);
      case StandAlone =>
        if stream.kind == RedundantTx {
          cmd := SchedCmd(stream.gatherDmaIndex, 0, stream.redundandIndex, cmd.trigger, cmd.winClose,
            cmd.winOpen, cmd.ngnDisable, cmd.ngnEnable);
        } else {
          cmd := SchedCmd(stream.gatherDmaIndex, 0, 0, cmd.trigger, cmd.winClose, cmd.winOpen,
            cmd.ngnDisable, cmd.ngnEnable);
        }
      case FirstStage =>
        if stream.reference == null {
          return false;
        }
        if stream.reference.reference == null {
          return false;
        }
        cmd := SchedCmd(stream.reference.reference.gatherDmaIndex, stream.lookupIndex, 0, cmd.trigger,
          cmd.winClose, cmd.winOpen, cmd.ngnDisable, cmd.ngnEnable);
    }
    m.fscList := m.fscList[k := item.(cmd := cmd)];
    return true;
  }

  // ---- the writer ----

  /** What the list asks for: its commands, each at its absolute tick. */
  function Commands(l: seq<FscCommand>, k: nat := |l|): seq<(nat, SchedCmd)>
    requires k <= |l|
  {
    if k == 0 then [] else Commands(l, k - 1) + [(l[k - 1].absCycle, l[k - 1].cmd)]
  }

  /** Every row delay fits its 16-bit field, and respects the hardware minimum if `minimum`. */
  ghost predicate DelaysOk(rows: seq<Row>, minimum: bool) {
    forall k :: 0 <= k < |rows| ==> (minimum ==> ANZ_MIN_TICKS <= rows[k].delta) && rows[k].delta <= UINT16_T_MAX
  }

  // ---- progress ----

  /** What rows come to: what they do, how long they last, how many they are, and whether all
      delays are in bounds. */
  datatype Progress = Progress(timeline: seq<(nat, SchedCmd)>, elapsed: nat, count: nat, delaysOk: bool)

  const START := Progress([], 0, 0, true)

  /** One more row. */
  function After(p: Progress, row: Row, minimum: bool): Progress {
    Progress(
      p.timeline + (if row.cmd == NOP_CMD then [] else [(p.elapsed, row.cmd)]),
      p.elapsed + row.delta,
      p.count + 1,
      p.delaysOk && (minimum ==> ANZ_MIN_TICKS <= row.delta) && row.delta <= UINT16_T_MAX)
  }

  function ProgressOf(rows: seq<Row>, minimum: bool): (p: Progress)
    ensures p.count == |rows|
  {
    if rows == [] then START else After(ProgressOf(rows[..|rows| - 1], minimum), rows[|rows| - 1], minimum)
  }

  lemma {:induction false} ProgressIs(rows: seq<Row>, minimum: bool)
    ensures ProgressOf(rows, minimum) == Progress(Timeline(rows), Elapsed(rows), |rows|, DelaysOk(rows, minimum))
  {
    if rows != [] {
      var n := |rows| - 1;
      ProgressIs(rows[..n], minimum);
      assert DelaysOk(rows, minimum) <==> DelaysOk(rows[..n], minimum) && DelaysOk([rows[n]], minimum) by {
        assert rows == rows[..n] + [rows[n]];
      }
    }
  }

  lemma ProgressNext(rows: seq<Row>, row: Row, minimum: bool)
    ensures ProgressOf(rows + [row], minimum) == After(ProgressOf(rows, minimum), row, minimum)
  {
    assert (rows + [row])[..|rows|] == rows;
  }

  /** NOP rows that last `rest` ticks. */
  function NopCount(rest: nat): nat {
    if rest == 0 then 0 else NopRows(rest) + 1
  }

  /** Waiting for `rest` ticks. */
  function Wait(p: Progress, rest: nat): Progress {
    p.(elapsed := p.elapsed + rest, count := p.count + NopCount(rest))
  }

  /** A command and the gap behind it. */
  function Serve(p: Progress, cmd: SchedCmd, gap: nat): Progress {
    p.(timeline := p.timeline + [(p.elapsed, cmd)], elapsed := p.elapsed + gap, count := p.count + 1 + NopRows(gap))
  }

  /** A full NOP row, and then the rest. */
  lemma WaitLonger(p: Progress, rest: nat, minimum: bool)
    requires rest > UINT16_T_MAX
    ensures Wait(After(p, Row(NOP_CMD, NOP_DELTA_CYCLE), minimum), rest - NOP_DELTA_CYCLE) == Wait(p, rest)
  {
  }

  lemma WaitShort(p: Progress, rest: nat, minimum: bool)
    requires UINT16_T_MAX - NOP_DELTA_CYCLE < rest <= UINT16_T_MAX
      || (0 < rest <= UINT16_T_MAX && (minimum ==> rest >= ANZ_MIN_TICKS))
    ensures After(p, Row(NOP_CMD, rest), minimum) == Wait(p, rest)
  {
  }

  /** pwrite of the next row of a table. */
  method WriteNext(driver: SchedDriver, m: AcmModule, table: nat, row: Row, ghost hw: map<RowId, Row>, i: nat,
                   ghost rows: seq<Row>, ghost minimum: bool)
    returns (ok: bool, ghost rows': seq<Row>)
    requires m.moduleId < SCHEDULER_COUNT && table < SCHED_TBL_COUNT
    requires i == |rows| && driver.rows == Written(hw, m.moduleId, table, rows)
    modifies driver`rows
    ensures driver.rows == Written(hw, m.moduleId, table, rows')
    ensures rows' == if ok then rows + [row] else rows
    ensures !ok ==> |rows| >= SCHED_TBL_ROW_COUNT
    ensures ok ==> ProgressOf(rows', minimum) == After(ProgressOf(rows, minimum), row, minimum)
  {
    RowDecodes(m.moduleId, table, i);
    ok := driver.WriteRow(LinearIndex(m.moduleId, table, i), row);
    rows' := if ok then rows + [row] else rows;
    ProgressNext(rows, row, minimum);
    assert (rows + [row])[..|rows|] == rows;
  }

  /** NOP rows that wait until the first command. */
  method WriteLeadingNops(driver: SchedDriver, m: AcmModule, table: nat, first: nat, ghost hw: map<RowId, Row>,
                          ghost minimum: bool)
    returns (ok: bool, i: nat, ghost rows: seq<Row>)
    requires m.moduleId < SCHEDULER_COUNT && table < SCHED_TBL_COUNT
    requires driver.rows == hw && (minimum ==> first == 0 || first >= ANZ_MIN_TICKS)
    modifies driver`rows
    ensures i == |rows| && driver.rows == Written(hw, m.moduleId, table, rows)
    ensures !ok ==> SCHED_TBL_ROW_COUNT < NopCount(first)
    ensures ok ==> ProgressOf(rows, minimum) == Wait(START, first)
  {
    i, rows, ok := 0, [], true;
    var deltaCycle: nat := first;
    if deltaCycle != 0 {
      while deltaCycle > UINT16_T_MAX
        invariant i == |rows| && driver.rows == Written(hw, m.moduleId, table, rows)
        invariant Wait(ProgressOf(rows, minimum), deltaCycle) == Wait(START, first)
        invariant deltaCycle == first || deltaCycle > UINT16_T_MAX - NOP_DELTA_CYCLE
      {
        WaitLonger(ProgressOf(rows, minimum), deltaCycle, minimum);
        ok, rows := WriteNext(driver, m, table, Row(NOP_CMD, NOP_DELTA_CYCLE), hw, i, rows, minimum);
        if !ok {
          return;
        }
        i := i + 1;
        deltaCycle := deltaCycle - NOP_DELTA_CYCLE;
      }
      WaitShort(ProgressOf(rows, minimum), deltaCycle, minimum);
      ok, rows := WriteNext(driver, m, table, Row(NOP_CMD, deltaCycle), hw, i, rows, minimum);
      i := if ok then i + 1 else i;
    }
  }

  /** One pass of the loop: a full NOP row, or a row for all that remains. */
  method WriteNop(driver: SchedDriver, m: AcmModule, table: nat, deltaCycle: nat, ghost hw: map<RowId, Row>, i: nat,
                  ghost rows: seq<Row>, ghost minimum: bool)
    returns (ok: bool, rest: nat, ghost rows': seq<Row>)
    requires m.moduleId < SCHEDULER_COUNT && table < SCHED_TBL_COUNT
    requires i == |rows| && driver.rows == Written(hw, m.moduleId, table, rows)
    requires deltaCycle > UINT16_T_MAX - NOP_DELTA_CYCLE
    modifies driver`rows
    ensures driver.rows == Written(hw, m.moduleId, table, rows') && |rows'| == if ok then i + 1 else i
    ensures !ok ==> |rows| >= SCHED_TBL_ROW_COUNT
    ensures rest < deltaCycle && (rest == 0 || rest > UINT16_T_MAX - NOP_DELTA_CYCLE)
    ensures ok ==> Wait(ProgressOf(rows', minimum), rest) == Wait(ProgressOf(rows, minimum), deltaCycle)
  {
    if deltaCycle > UINT16_T_MAX {
      WaitLonger(ProgressOf(rows, minimum), deltaCycle, minimum);
      ok, rows' := WriteNext(driver, m, table, Row(NOP_CMD, NOP_DELTA_CYCLE), hw, i, rows, minimum);
      rest := deltaCycle - NOP_DELTA_CYCLE;
    } else {
      WaitShort(ProgressOf(rows, minimum), deltaCycle, minimum);
      ok, rows' := WriteNext(driver, m, table, Row(NOP_CMD, deltaCycle), hw, i, rows, minimum);
      rest := 0;
    }
  }

  /** NOP rows for what remains of a gap after the command row. */
  method WriteFollowingNops(driver: SchedDriver, m: AcmModule, table: nat, rest: nat, ghost hw: map<RowId, Row>,
                            i: nat, ghost rows: seq<Row>, ghost minimum: bool)
    returns (ok: bool, i': nat, ghost rows': seq<Row>)
    requires m.moduleId < SCHEDULER_COUNT && table < SCHED_TBL_COUNT
    requires i == |rows| && driver.rows == Written(hw, m.moduleId, table, rows)
    requires rest == 0 || rest > UINT16_T_MAX - NOP_DELTA_CYCLE
    modifies driver`rows
    ensures i' == |rows'| && driver.rows == Written(hw, m.moduleId, table, rows')
    ensures !ok ==> SCHED_TBL_ROW_COUNT < |rows| + NopCount(rest)
    ensures ok ==> ProgressOf(rows', minimum) == Wait(ProgressOf(rows, minimum), rest)
  {
    i', rows', ok := i, rows, true;
    var deltaCycle := rest;
    ghost var due := Wait(ProgressOf(rows, minimum), rest);
    while deltaCycle > 0
      invariant i' == |rows'| && driver.rows == Written(hw, m.moduleId, table, rows') && ok
      invariant deltaCycle == 0 || deltaCycle > UINT16_T_MAX - NOP_DELTA_CYCLE
      invariant Wait(ProgressOf(rows', minimum), deltaCycle) == due
    {
      ok, deltaCycle, rows' := WriteNop(driver, m, table, deltaCycle, hw, i', rows', minimum);
      if !ok {
        return;
      }
      i' := i' + 1;
    }
  }

  lemma {:induction false} RowCountGrows(ts: seq<nat>, k: nat)
    requires Ordered(ts) && k < |ts|
    ensures RowsBefore(ts, k) < RowCount(ts)
    decreases |ts| - k
  {
    if k + 1 < |ts| {
      RowCountGrows(ts, k + 1);
    }
  }

  /** The commands with the index values their streams have, where their links are complete. */
  function WithIndexes(before: seq<FscCommand>, resolved: seq<Option<SchedCmd>>): (r: seq<FscCommand>)
    requires |before| == |resolved|
    ensures |r| == |before|
    ensures forall k {:trigger r[k]} :: 0 <= k < |r| ==>
      r[k] == if resolved[k].Some? then before[k].(cmd := resolved[k].value) else before[k]
  {
    if before == [] then []
    else
      var n := |before| - 1;
      WithIndexes(before[..n], resolved[..n])
      + [if resolved[n].Some? then before[n].(cmd := resolved[n].value) else before[n]]
  }

  ghost function ResolvedAll(m: AcmModule): (r: seq<Option<SchedCmd>>)
    reads *
    ensures |r| == |m.fscList|
    ensures forall k :: 0 <= k < |r| ==> r[k] == Resolved(m.fscList[k])
  {
    seq(|m.fscList|, k requires 0 <= k < |m.fscList| reads * => Resolved(m.fscList[k]))
  }

  /** The progress due while command `k` waits for its row: all earlier commands, up to its tick. */
  ghost function Due(l: seq<FscCommand>, ts: seq<nat>, k: nat): Progress
    requires k < |l| == |ts| && Ordered(ts)
  {
    Progress(Commands(l, k), ts[k], RowsBefore(ts, k), true)
  }

  /** The progress once the last command has its row. */
  ghost function AllServed(l: seq<FscCommand>, ts: seq<nat>): Progress
    requires 0 < |l| == |ts| && Ordered(ts)
  {
    Progress(Commands(l), ts[|ts| - 1] + ANZ_MIN_TICKS, RowCount(ts), true)
  }

  lemma NextDue(l: seq<FscCommand>, ts: seq<nat>, k: nat)
    requires k + 1 < |l| == |ts| && Ordered(ts) && l[k].absCycle == ts[k]
    ensures Serve(Due(l, ts, k), l[k].cmd, Gap(ts, k + 1)) == Due(l, ts, k + 1)
  {
  }

  lemma LastDue(l: seq<FscCommand>, ts: seq<nat>, k: nat, minimum: bool)
    requires k + 1 == |l| == |ts| && Ordered(ts) && l[k].absCycle == ts[k] && Active(l[k].cmd)
    ensures After(Due(l, ts, k), Row(l[k].cmd, ANZ_MIN_TICKS), minimum) == AllServed(l, ts)
  {
  }

  lemma ServeInRows(p: Progress, cmd: SchedCmd, gap: nat, rowDelta: nat, minimum: bool)
    requires rowDelta == (if gap > UINT16_T_MAX then NOP_DELTA_CYCLE else gap)
    requires Active(cmd) && (minimum ==> gap >= ANZ_MIN_TICKS)
    ensures Wait(After(p, Row(cmd, rowDelta), minimum), gap - rowDelta) == Serve(p, cmd, gap)
  {
  }

  /** The row of a command and the NOPs that fill the gap behind it. */
  method WriteRowAndGap(driver: SchedDriver, m: AcmModule, table: nat, cmd: SchedCmd, gap: nat,
                        ghost hw: map<RowId, Row>, i: nat, ghost rows: seq<Row>, ghost minimum: bool)
    returns (ok: bool, i': nat, ghost rows': seq<Row>)
    requires m.moduleId < SCHEDULER_COUNT && table < SCHED_TBL_COUNT && Active(cmd)
    requires i == |rows| && driver.rows == Written(hw, m.moduleId, table, rows)
    requires minimum ==> gap >= ANZ_MIN_TICKS
    modifies driver`rows
    ensures i' == |rows'| && driver.rows == Written(hw, m.moduleId, table, rows')
    ensures !ok ==> SCHED_TBL_ROW_COUNT < |rows| + 1 + NopRows(gap)
    ensures ok ==> ProgressOf(rows', minimum) == Serve(ProgressOf(rows, minimum), cmd, gap)
  {
    var rowDelta := if gap > UINT16_T_MAX then NOP_DELTA_CYCLE else gap;
    ServeInRows(ProgressOf(rows, minimum), cmd, gap, rowDelta, minimum);
    i' := i;
    ok, rows' := WriteNext(driver, m, table, Row(cmd, rowDelta), hw, i, rows, minimum);
    if !ok {
      return;
    }
    ok, i', rows' := WriteFollowingNops(driver, m, table, gap - rowDelta, hw, i + 1, rows', minimum);
  }

  ghost predicate AllActive(l: seq<FscCommand>) {
    forall k {:trigger l[k]} :: 0 <= k < |l| ==> Active(l[k].cmd)
  }

  /** What the writer works on: the list as it was, the commands with the indexes their streams
      have, the ticks, the list with the indexes, and whether all gaps are long enough. */
  datatype Writing = Writing(before: seq<FscCommand>, resolved: seq<Option<SchedCmd>>, ts: seq<nat>,
                             target: seq<FscCommand>, minimum: bool) {
    ghost predicate Valid() {
      && |before| == |resolved| == |ts| == |target| && Ordered(ts) && (minimum ==> GapsOk(ts))
      && forall k {:trigger ValidAt(k)} :: 0 <= k < |before| ==> ValidAt(k)
    }

    ghost predicate ValidAt(k: nat)
      requires k < |before| == |resolved| == |ts| == |target|
    {
      && Active(before[k].cmd) && ts[k] == before[k].absCycle
      && target[k] == if resolved[k].Some? then before[k].(cmd := resolved[k].value) else before[k]
    }

    /** The list once the first `k` commands are updated. */
    ghost function Halfway(k: nat): (r: seq<FscCommand>)
      requires k <= |before| == |target|
      ensures |r| == |before|
    {
      if k == 0 then before else Halfway(k - 1)[k - 1 := target[k - 1]]
    }
  }

  /** The streams of the commands still say what `w` took from them. */
  ghost predicate LinksAgree(w: Writing)
    reads *
  {
    && |w.before| == |w.resolved|
    && forall j {:trigger Resolved(w.before[j])} :: 0 <= j < |w.before| ==> w.resolved[j] == Resolved(w.before[j])
  }

  ghost function WritingOf(l: seq<FscCommand>, resolved: seq<Option<SchedCmd>>): (w: Writing)
    requires Sorted(l) && AllActive(l) && |resolved| == |l|
    ensures w.Valid()
  {
    var w := Writing(l, resolved, Ticks(l), WithIndexes(l, resolved), GapsOk(Ticks(l)));
    assert forall k :: 0 <= k < |l| ==> w.ValidAt(k);
    w
  }

  lemma {:induction false} HalfwayAt(w: Writing, k: nat, j: nat)
    requires k <= |w.before| == |w.target| && j < |w.before|
    ensures w.Halfway(k)[j] == if j < k then w.target[j] else w.before[j]
  {
    if k > 0 {
      HalfwayAt(w, k - 1, j);
    }
  }

  lemma HalfwayEnds(w: Writing)
    requires |w.before| == |w.target|
    ensures w.Halfway(|w.before|) == w.target
  {
    forall j | 0 <= j < |w.before| ensures w.Halfway(|w.before|)[j] == w.target[j] {
      HalfwayAt(w, |w.before|, j);
    }
  }

  /** Every one of the first `n` commands knows its stream. */
  ghost predicate Complete(resolved: seq<Option<SchedCmd>>, n: nat := |resolved|)
    requires n <= |resolved|
  {
    n > 0 ==> Complete(resolved, n - 1) && resolved[n - 1].Some?
  }

  lemma {:induction false} NotComplete(resolved: seq<Option<SchedCmd>>, k: nat, n: nat)
    requires k < n <= |resolved| && resolved[k].None?
    ensures !Complete(resolved, n)
  {
    if k < n - 1 {
      NotComplete(resolved, k, n - 1);
    }
  }

  /** Command `k` gets the indexes of its stream; it fails without its stream. */
  method UpdateCommand(m: AcmModule, k: nat, ghost w: Writing) returns (ok: bool)
    requires w.Valid() && k < |w.before| && m.fscList == w.Halfway(k)
    requires LinksAgree(w)
    modifies m`fscList
    ensures LinksAgree(w)
    ensures ok == w.resolved[k].Some? && |m.fscList| == |w.before|
    ensures ok ==> m.fscList == w.Halfway(k + 1) && m.fscList[k] == w.target[k] && Active(w.target[k].cmd)
    ensures w.target[k].absCycle == w.ts[k]
  {
    HalfwayAt(w, k, k);
    assert w.ValidAt(k);
    ok := UpdateFscIndexes(m, k);
    forall j {:trigger Resolved(w.before[j])} | 0 <= j < |w.before| ensures w.resolved[j] == Resolved(w.before[j]) {
      assert w.resolved[j] == old(Resolved(w.before[j]));
    }
  }

  /** The same; what the streams say does not change meanwhile. */
  method WriteBesideLinks(driver: SchedDriver, m: AcmModule, table: nat, cmd: SchedCmd, gap: nat,
                          ghost hw: map<RowId, Row>, i: nat, ghost rows: seq<Row>, ghost w: Writing)
    returns (ok: bool, i': nat, ghost rows': seq<Row>)
    requires m.moduleId < SCHEDULER_COUNT && table < SCHED_TBL_COUNT && Active(cmd)
    requires i == |rows| && driver.rows == Written(hw, m.moduleId, table, rows)
    requires w.minimum ==> gap >= ANZ_MIN_TICKS
    requires LinksAgree(w)
    modifies driver`rows
    ensures i' == |rows'| && driver.rows == Written(hw, m.moduleId, table, rows')
    ensures !ok ==> SCHED_TBL_ROW_COUNT < |rows| + 1 + NopRows(gap)
    ensures ok ==> ProgressOf(rows', w.minimum) == Serve(ProgressOf(rows, w.minimum), cmd, gap)
    ensures LinksAgree(w)
  {
    ok, i', rows' := WriteRowAndGap(driver, m, table, cmd, gap, hw, i, rows, w.minimum);
    forall j {:trigger Resolved(w.before[j])} | 0 <= j < |w.before| ensures w.resolved[j] == Resolved(w.before[j]) {
      assert w.resolved[j] == old(Resolved(w.before[j]));
    }
  }

  /** The row of command `k`, now that the gap after it is known, and the NOPs behind it. */
  method WriteCommandAndGap(m: AcmModule, table: nat, driver: SchedDriver, k: nat, ghost hw: map<RowId, Row>, i: nat,
                            ghost rows: seq<Row>, ghost w: Writing)
    returns (ok: bool, i': nat, ghost rows': seq<Row>)
    requires m.moduleId < SCHEDULER_COUNT && table < SCHED_TBL_COUNT
    requires w.Valid() && k + 1 < |w.before| && m.fscList == w.Halfway(k)
    requires LinksAgree(w)
    requires i == |rows| && driver.rows == Written(hw, m.moduleId, table, rows)
    requires ProgressOf(rows, w.minimum) == Due(w.target, w.ts, k)
    modifies driver`rows, m`fscList
    ensures i' == |rows'| && driver.rows == Written(hw, m.moduleId, table, rows')
    ensures |m.fscList| == |w.before| && (ok ==> m.fscList == w.Halfway(k + 1) && w.resolved[k].Some?)
    ensures ok ==> ProgressOf(rows', w.minimum) == Due(w.target, w.ts, k + 1)
    ensures !ok && w.resolved[k].Some? ==> SCHED_TBL_ROW_COUNT < RowCount(w.ts)
    ensures LinksAgree(w)
  {
    HalfwayAt(w, k, k);
    HalfwayAt(w, k, k + 1);
    assert w.ValidAt(k) && w.ValidAt(k + 1);
    RowCountGrows(w.ts, k + 1);
    var deltaCycle := m.fscList[k + 1].absCycle - m.fscList[k].absCycle;
    assert deltaCycle == Gap(w.ts, k + 1);
    i', rows' := i, rows;
    ok := UpdateCommand(m, k, w);
    if ok {
      NextDue(w.target, w.ts, k);
      ok, i', rows' := WriteBesideLinks(driver, m, table, m.fscList[k].cmd, deltaCycle, hw, i, rows, w);
    }
  }

  /** The loop over all commands but the last, whose row has no gap to wait for. */
  method WriteAllButLast(m: AcmModule, table: nat, driver: SchedDriver, ghost hw: map<RowId, Row>, i: nat,
                         ghost rows: seq<Row>, ghost w: Writing)
    returns (ok: bool, i': nat, ghost rows': seq<Row>)
    requires m.moduleId < SCHEDULER_COUNT && table < SCHED_TBL_COUNT
    requires w.Valid() && w.before != [] && m.fscList == w.before
    requires LinksAgree(w)
    requires i == |rows| && driver.rows == Written(hw, m.moduleId, table, rows)
    requires ProgressOf(rows, w.minimum) == Due(w.target, w.ts, 0)
    modifies driver`rows, m`fscList
    ensures i' == |rows'| && driver.rows == Written(hw, m.moduleId, table, rows')
    ensures ok ==> m.fscList == w.Halfway(|w.before| - 1) && Complete(w.resolved, |w.before| - 1)
    ensures LinksAgree(w)
    ensures ok ==> ProgressOf(rows', w.minimum) == Due(w.target, w.ts, |w.ts| - 1)
    ensures !ok && RowCount(w.ts) <= SCHED_TBL_ROW_COUNT ==> !Complete(w.resolved, |w.before|)
  {
    i', rows', ok := i, rows, true;
    var k := 0;
    while k + 1 < |m.fscList|
      invariant 0 <= k < |m.fscList| == |w.before| && ok
      invariant i' == |rows'| && driver.rows == Written(hw, m.moduleId, table, rows')
      invariant m.fscList == w.Halfway(k) && Complete(w.resolved, k)
      invariant ProgressOf(rows', w.minimum) == Due(w.target, w.ts, k)
      invariant LinksAgree(w)
    {
      ok, i', rows' := WriteCommandAndGap(m, table, driver, k, hw, i', rows', w);
      if !ok {
        if w.resolved[k].None? {
          NotComplete(w.resolved, k, |w.before|);
        }
        return;
      }
      k := k + 1;
    }
  }

  /** The row of the last command. */
  method WriteLast(m: AcmModule, table: nat, driver: SchedDriver, ghost hw: map<RowId, Row>, i: nat,
                   ghost rows: seq<Row>, ghost w: Writing)
    returns (ok: bool, ghost rows': seq<Row>)
    requires m.moduleId < SCHEDULER_COUNT && table < SCHED_TBL_COUNT
    requires w.Valid() && w.before != [] && m.fscList == w.Halfway(|w.before| - 1)
    requires LinksAgree(w)
    requires i == |rows| && driver.rows == Written(hw, m.moduleId, table, rows)
    requires ProgressOf(rows, w.minimum) == Due(w.target, w.ts, |w.ts| - 1)
    modifies driver`rows, m`fscList
    ensures driver.rows == Written(hw, m.moduleId, table, rows')
    ensures ok ==> m.fscList == w.target && w.resolved[|w.before| - 1].Some?
    ensures ok ==> ProgressOf(rows', w.minimum) == AllServed(w.target, w.ts)
    ensures !ok && RowCount(w.ts) <= SCHED_TBL_ROW_COUNT ==> w.resolved[|w.before| - 1].None?
  {
    var k := |m.fscList| - 1;
    HalfwayEnds(w);
    RowCountGrows(w.ts, k);
    rows' := rows;
    ok := UpdateCommand(m, k, w);
    if ok {
      LastDue(w.target, w.ts, k, w.minimum);
      ok, rows' := WriteNext(driver, m, table, Row(m.fscList[k].cmd, ANZ_MIN_TICKS), hw, i, rows, w.minimum);
    }
  }

  /** All rows behind the leading NOPs. */
  method WriteCommands(m: AcmModule, table: nat, driver: SchedDriver, ghost hw: map<RowId, Row>, i: nat,
                       ghost rows: seq<Row>, ghost w: Writing)
    returns (ok: bool, ghost rows': seq<Row>)
    requires m.moduleId < SCHEDULER_COUNT && table < SCHED_TBL_COUNT
    requires w.Valid() && w.before != [] && m.fscList == w.before
    requires LinksAgree(w)
    requires i == |rows| && driver.rows == Written(hw, m.moduleId, table, rows)
    requires ProgressOf(rows, w.minimum) == Due(w.target, w.ts, 0)
    modifies driver`rows, m`fscList
    ensures driver.rows == Written(hw, m.moduleId, table, rows')
    ensures ok ==> m.fscList == w.target && Complete(w.resolved, |w.before|)
    ensures ok ==> ProgressOf(rows', w.minimum) == AllServed(w.target, w.ts)
    ensures !ok && RowCount(w.ts) <= SCHED_TBL_ROW_COUNT ==> !Complete(w.resolved, |w.before|)
  {
    var i';
    ok, i', rows' := WriteAllButLast(m, table, driver, hw, i, rows, w);
    if ok {
      ok, rows' := WriteLast(m, table, driver, hw, i', rows', w);
    }
  }

  /** The leading NOPs; what the streams say does not change meanwhile. */
  method LeadBesideLinks(driver: SchedDriver, m: AcmModule, table: nat, first: nat, ghost hw: map<RowId, Row>,
                         ghost w: Writing)
    returns (ok: bool, i: nat, ghost rows: seq<Row>)
    requires m.moduleId < SCHEDULER_COUNT && table < SCHED_TBL_COUNT
    requires driver.rows == hw && (w.minimum ==> first == 0 || first >= ANZ_MIN_TICKS)
    requires LinksAgree(w)
    modifies driver`rows
    ensures i == |rows| && driver.rows == Written(hw, m.moduleId, table, rows)
    ensures !ok ==> SCHED_TBL_ROW_COUNT < NopCount(first)
    ensures ok ==> ProgressOf(rows, w.minimum) == Wait(START, first)
    ensures LinksAgree(w)
  {
    ok, i, rows := WriteLeadingNops(driver, m, table, first, hw, w.minimum);
    forall j {:trigger Resolved(w.before[j])} | 0 <= j < |w.before| ensures w.resolved[j] == Resolved(w.before[j]) {
      assert w.resolved[j] == old(Resolved(w.before[j]));
    }
  }

  /** All rows of a list that is not empty. */
  method WriteRows(m: AcmModule, table: nat, driver: SchedDriver, ghost hw: map<RowId, Row>, ghost w: Writing)
    returns (ok: bool, ghost rows: seq<Row>)
    requires m.moduleId < SCHEDULER_COUNT && table < SCHED_TBL_COUNT
    requires w.Valid() && w.before != [] && m.fscList == w.before && driver.rows == hw
    requires LinksAgree(w)
    modifies driver`rows, m`fscList
    ensures driver.rows == Written(hw, m.moduleId, table, rows)
    ensures ok ==> m.fscList == w.target && Complete(w.resolved, |w.before|)
    ensures ok ==> ProgressOf(rows, w.minimum) == AllServed(w.target, w.ts)
    ensures !ok && RowCount(w.ts) <= SCHED_TBL_ROW_COUNT ==> !Complete(w.resolved, |w.before|)
  {
    assert w.ValidAt(0);
    assert w.minimum ==> Gap(w.ts, 0) >= ANZ_MIN_TICKS || w.ts[0] == 0;
    RowCountGrows(w.ts, 0);
    var i;
    ok, i, rows := LeadBesideLinks(driver, m, table, m.fscList[0].absCycle, hw, w);
    if ok {
      ok, rows := WriteCommands(m, table, driver, hw, i, rows, w);
    }
  }

  /** Write the command list of a module to one of its two tables. `rows` are the rows
      written, in order. */
  method WriteFscSchedulesToHw(m: AcmModule, table: nat, driver: SchedDriver) returns (ok: bool, ghost rows: seq<Row>)
    requires m.moduleId < SCHEDULER_COUNT && table < SCHED_TBL_COUNT
    requires Sorted(m.fscList) && AllActive(m.fscList)
    modifies driver`rows, m`fscList
    // every command of the list, in order, each at its absolute tick
    ensures ok ==> m.fscList == WithIndexes(old(m.fscList), old(ResolvedAll(m)))
    ensures ok ==> Timeline(rows) == Commands(m.fscList)
    // the rows, their number, and their delays
    ensures driver.rows == Written(old(driver.rows), m.moduleId, table, rows)
    ensures ok ==> |rows| == RowCount(old(Ticks(m.fscList)))
    ensures ok ==> DelaysOk(rows, GapsOk(old(Ticks(m.fscList))))
    // it fails for a command without its stream, and within the limit for nothing else
    ensures ok ==> Complete(old(ResolvedAll(m)))
    ensures RowCount(old(Ticks(m.fscList))) <= SCHED_TBL_ROW_COUNT ==>
      (ok <==> Complete(old(ResolvedAll(m))))
  {
    rows := [];
    if m.fscList == [] {
      return true, rows;
    }
    ghost var w := WritingOf(m.fscList, ResolvedAll(m));
    ok, rows := WriteRows(m, table, driver, driver.rows, w);
    ProgressIs(rows, w.minimum);
  }
}
