/** What the budgets of the validation count: rows of the tables, bytes of the frame, bytes of
    the received frame that are dropped, and entries of the lookup and redundancy tables. */
module Budgets {
  import opened Entities
  import opened Layout
  import opened DmaProgram
  import opened DmaTables
  import opened ValidateStream
  import opened Validate
  import opened ValidateConfig

  // ---- table rows ----

  /** A stream has rows of its own if and only if it is a sender with something to write. */
  lemma OwnRowsMeans(v: StreamView)
    requires WellTyped(v)
    ensures OwnRows(v) <==> Sends(v.kind) && (v.ops != [] || v.kind.RedundantTx?)
    ensures !OwnRows(v) ==> RowsNeeded(v) == 1
  {
    if Sends(v.kind) {
      SenderHasFrameOps(v);
      CountGatherAll(v.ops, |v.ops|);
      forall k | 0 <= k < |v.ops| ensures v.ops[k].opcode != FORWARD_ALL {
        assert IsFrameOp(v.ops[k]);
      }
    } else {
      ReceiverSharesRows(v);
      NumOpsWithinGather(v.ops, |v.ops|);
      NoInserts(v.ops, |v.ops|, v.kind);
    }
  }

  lemma {:induction false} NoInserts(ops: seq<Operation>, k: nat, kind: StreamType)
    requires k <= |ops| && IsIngress(kind) && forall j :: 0 <= j < |ops| ==> AllowedOp(kind, ops[j])
    ensures NumOps(ops, INSERT, k) == 0
  {
    if k > 0 {
      assert AllowedOp(kind, ops[k - 1]);
      NoInserts(ops, k - 1, kind);
    }
  }

  /** The rows of a sender are those of its longer program: the gather program of a sender that
      has its header, and the prefetch program with up to three lock rows more than it needs. */
  lemma RowsOfPrograms(v: StreamView)
    requires WellTyped(v) && OpsComplete(v.ops) && Sends(v.kind)
    requires v.kind.RedundantTx? ==> |v.ops| >= NUM_AUTOGEN_OPS
    ensures var gather := |GatherProgram(v.kind.RedundantTx?, v.ops)|;
      var prefetch := |PrefetchProgram(v.kind.RedundantTx?, v.ops)|;
      && gather <= RowsNeeded(v) && prefetch <= RowsNeeded(v)
      && (RowsNeeded(v) == gather || RowsNeeded(v) <= prefetch + 3)
  {
    ProgramsFit(v);
    SenderHasFrameOps(v);
    CountGatherAll(v.ops, |v.ops|);
    if NumOps(v.ops, INSERT, |v.ops|) > 0 {
      SomeLockRow(v.ops, |v.ops|);
      var vector := LockVector(v.ops, |v.ops|);
      var b :| b in vector;
      LockRowOf(vector, v.kind.RedundantTx?, b, NUM_PREFETCH_LOCK_COMMANDS);
    }
  }

  lemma {:induction false} SomeLockRow(ops: seq<Operation>, k: nat)
    requires k <= |ops| && OpsComplete(ops) && NumOps(ops, INSERT, k) > 0
    ensures exists b :: b in LockVector(ops, k)
  {
    if ops[k - 1].opcode.INSERT? {
      assert BufferOf(ops[k - 1]) in LockVector(ops, k);
    } else {
      SomeLockRow(ops, k - 1);
      var b :| b in LockVector(ops, k - 1);
      assert b in LockVector(ops, k);
    }
  }

  lemma {:induction false} LockRowOf(vector: set<nat>, dual: bool, b: nat, groups: nat)
    requires b in vector && b < 16 * groups
    ensures |LockRows(vector, dual, groups)| >= 1
  {
    if b >= 16 * (groups - 1) {
      assert b - 16 * (groups - 1) in GroupBits(vector, groups - 1);
    } else {
      LockRowOf(vector, dual, b, groups - 1);
    }
  }

  lemma OneMore(before: set<nat>, after: set<nat>, k: nat, more: bool)
    requires forall j :: j in before ==> j < k
    requires forall j :: j in after <==> j in before || (more && j == k)
    ensures |after| == |before| + if more then 1 else 0
  {
    assert after == before + if more then {k} else {};
  }

  /** Streams among the first `k` that share row 0 or 1. */
  ghost function Sharing(vs: seq<StreamView>, k: nat): set<nat>
    requires k <= |vs|
  {
    set j: nat | j < k && !OwnRows(vs[j])
  }

  /** The rows the validation counts are those in use and one for each stream that shares a row. */
  lemma {:induction false} EgressRowsCounted(vs: seq<StreamView>, k: nat)
    requires k <= |vs| && forall j :: 0 <= j < |vs| ==> WellTyped(vs[j])
    ensures EgressRows(vs, k) == GatherBase(vs, k) + |Sharing(vs, k)|
  {
    if k > 0 {
      EgressRowsCounted(vs, k - 1);
      OwnRowsMeans(vs[k - 1]);
      OneMore(Sharing(vs, k - 1), Sharing(vs, k), k - 1, !OwnRows(vs[k - 1]));
    } else {
      assert Sharing(vs, 0) == {};
    }
  }

  lemma {:induction false} NoReads(ops: seq<Operation>, k: nat)
    requires k <= |ops| && FrameOps(ops)
    ensures NumOps(ops, READ, k) == 0
  {
    if k > 0 {
      assert IsFrameOp(ops[k - 1]);
      NoReads(ops, k - 1);
    }
  }

  /** The scatter rows it counts are exactly those in use. */
  lemma {:induction false} IngressRowsCounted(vs: seq<StreamView>, k: nat)
    requires k <= |vs| && forall j :: 0 <= j < |vs| ==> WellTyped(vs[j])
    ensures IngressRows(vs, k) == ScatterBase(vs, k)
  {
    if k > 0 {
      IngressRowsCounted(vs, k - 1);
      if Sends(vs[k - 1].kind) {
        SenderHasFrameOps(vs[k - 1]);
        NoReads(vs[k - 1].ops, |vs[k - 1].ops|);
      }
    }
  }

  // ---- tables of entries ----

  ghost function Receivers(vs: seq<StreamView>, k: nat): set<nat>
    requires k <= |vs|
  {
    set j: nat | j < k && IsIngress(vs[j].kind)
  }

  ghost function Partners(vs: seq<StreamView>, k: nat): set<nat>
    requires k <= |vs|
  {
    set j: nat | j < k && IsRedundant(vs[j].kind)
  }

  /** One lookup entry for every receiver, one redundancy entry for every redundant stream. */
  lemma {:induction false} EntriesCounted(vs: seq<StreamView>, k: nat)
    requires k <= |vs|
    ensures Lookups(vs, k) == |Receivers(vs, k)|
    ensures Redundants(vs, k) == |Partners(vs, k)|
  {
    if k > 0 {
      EntriesCounted(vs, k - 1);
      OneMore(Receivers(vs, k - 1), Receivers(vs, k), k - 1, IsIngress(vs[k - 1].kind));
      OneMore(Partners(vs, k - 1), Partners(vs, k), k - 1, IsRedundant(vs[k - 1].kind));
    } else {
      assert Receivers(vs, 0) == {} && Partners(vs, 0) == {};
    }
  }

  /** In an accepted module every receiver has an entry of the lookup table to itself. */
  lemma AcceptedLookups(f: Facts, final: bool, i: nat, j: nat)
    requires WellFormed(f) && Accepted(f, final) && i < |f.vs| && j < |f.vs|
    requires IsIngress(f.vs[i].kind) && IsIngress(f.vs[j].kind)
    ensures LookupIndex(f.vs, i) < 16
    ensures LookupIndex(f.vs, i) == LookupIndex(f.vs, j) <==> i == j
  {
    LookupOrder(f.vs, i, j);
    LookupOrder(f.vs, j, i);
  }

  /** The constants of a stream, one behind the other. */
  function Constants(ops: seq<Operation>): seq<Byte> {
    if ops == [] then []
    else
      var last := ops[|ops| - 1];
      Constants(ops[..|ops| - 1]) + if last.opcode.INSERT_CONSTANT? then last.data else []
  }

  function ModuleConstants(vs: seq<StreamView>): seq<Byte> {
    if vs == [] then [] else ModuleConstants(vs[..|vs| - 1]) + Constants(vs[|vs| - 1].ops)
  }

  /** Constants are as long as their operations say. */
  predicate ConstantsSized(ops: seq<Operation>) {
    forall j {:trigger ops[j]} :: 0 <= j < |ops| && ops[j].opcode.INSERT_CONSTANT? ==> |ops[j].data| == ops[j].length
  }

  lemma {:induction false} ConstantsCounted(ops: seq<Operation>, k: nat)
    requires ConstantsSized(ops) && k <= |ops|
    ensures SumConstBuffer(ops, k) == |Constants(ops[..k])|
  {
    if k > 0 {
      ConstantsCounted(ops, k - 1);
      assert ops[..k][..k - 1] == ops[..k - 1];
    }
  }

  /** The constant buffer is charged with exactly the bytes of the module's constants. */
  lemma {:induction false} ModuleConstantsCounted(vs: seq<StreamView>, k: nat)
    requires k <= |vs| && forall j {:trigger vs[j]} :: 0 <= j < |vs| ==> ConstantsSized(vs[j].ops)
    ensures ModuleConstBuffer(vs, k) == |ModuleConstants(vs[..k])|
  {
    if k > 0 {
      ModuleConstantsCounted(vs, k - 1);
      assert vs[..k][..k - 1] == vs[..k - 1];
      var ops := vs[k - 1].ops;
      ConstantsCounted(ops, |ops|);
      assert ops[..|ops|] == ops;
    }
  }

  // ---- bytes of the frame ----

  /** Bytes of a frame, without its redundancy tag. */
  function FrameLength(frame: seq<Part>): nat {
    if frame == [] then 0
    else
      FrameLength(frame[..|frame| - 1])
      + match frame[|frame| - 1]
        case Message(_, length) => length
        case Bytes(data) => |data|
        case Fill(length, _) => length
        case FrameSlice(_, length) => length
        case RedundancyTag => 0
  }

  lemma {:induction false} FrameLengthAppend(a: seq<Part>, b: seq<Part>)
    ensures FrameLength(a + b) == FrameLength(a) + FrameLength(b)
  {
    if b == [] {
      assert a + b == a;
    } else {
      assert (a + b)[..|a + b| - 1] == a + b[..|b| - 1];
      FrameLengthAppend(a, b[..|b| - 1]);
    }
  }

  lemma {:induction false} LengthOfParts(ops: seq<Operation>)
    requires FrameOps(ops) && OpsComplete(ops)
    ensures FrameLength(Parts(ops)) == FrameSize(ops, |ops|)
  {
    if ops != [] {
      var n := |ops| - 1;
      LengthOfParts(ops[..n]);
      SizeOfPrefix(ops, n, n);
      assert Parts(ops)[..n] == Parts(ops[..n]);
      assert IsFrameOp(ops[n]) && OpComplete(ops[n]);
    }
  }

  lemma {:induction false} SizeOfPrefix(ops: seq<Operation>, n: nat, k: nat)
    requires k <= n <= |ops|
    ensures FrameSize(ops[..n], k) == FrameSize(ops, k)
  {
    if k > 0 {
      SizeOfPrefix(ops, n, k - 1);
    }
  }

  lemma {:induction false} SizeOfRest(ops: seq<Operation>, n: nat, k: nat)
    requires n + k <= |ops|
    ensures FrameSize(ops, n + k) == FrameSize(ops, n) + FrameSize(ops[n..], k)
  {
    if k > 0 {
      SizeOfRest(ops, n, k - 1);
    }
  }

  lemma TagAddsNothing(front: seq<Part>, rest: seq<Part>)
    ensures FrameLength(front + [RedundancyTag] + rest) == FrameLength(front) + FrameLength(rest)
  {
    FrameLengthAppend(front + [RedundancyTag], rest);
    assert (front + [RedundancyTag])[..|front|] == front;
  }

  /** The size that the validation looks at is the length of the frame the stream sends, less the
      redundancy tag. */
  lemma {:induction false} FrameSizeIsLength(redundant: bool, ops: seq<Operation>)
    requires FrameOps(ops) && OpsComplete(ops)
    ensures FrameLength(IntendedFrame(redundant, ops)) == FrameSize(ops, |ops|)
  {
    LengthOfParts(ops);
    if redundant && |ops| >= NUM_AUTOGEN_OPS {
      var front, rest := ops[..NUM_AUTOGEN_OPS], ops[NUM_AUTOGEN_OPS..];
      LengthOfParts(front);
      LengthOfParts(rest);
      SizeOfPrefix(ops, NUM_AUTOGEN_OPS, NUM_AUTOGEN_OPS);
      SizeOfRest(ops, NUM_AUTOGEN_OPS, |rest|);
      TagAddsNothing(Parts(front), Parts(rest));
    }
  }

  /** A sender of a finally accepted module sends frames of 64 to 1518 bytes, without the
      redundancy tag, with at most eight messages in them. */
  lemma AcceptedFrame(f: Facts, k: nat)
    requires WellFormed(f) && Accepted(f, true) && k < |f.vs| && Sends(f.vs[k].kind)
    requires FrameOps(f.vs[k].ops) && OpsComplete(f.vs[k].ops)
    ensures var v := f.vs[k];
      64 <= FrameLength(IntendedFrame(v.kind.RedundantTx?, v.ops)) <= 1518 && |Messages(v.ops, |v.ops|)| <= 8
  {
    StreamsFineAt(f.vs, f.ties, k, |f.vs|);
    FrameSizeIsLength(f.vs[k].kind.RedundantTx?, f.vs[k].ops);
  }

  /** A stream has work if it puts something into a frame, stores or forwards what is received, or
      triggers another stream. */
  lemma HasWorkMeans(s: AcmStream)
    requires WellTyped(StreamView(s.kind, s.operations)) && OpsComplete(s.operations)
    ensures Sends(s.kind) ==> FrameOps(s.operations)
    ensures HasWork(s) <==>
      || (Sends(s.kind) && IntendedFrame(s.kind.RedundantTx?, s.operations) != [])
      || (IsIngress(s.kind) && (HasOp(s.operations, READ) || HasOp(s.operations, FORWARD_ALL)))
      || (s.kind.IngressTriggered? && s.reference != null)
  {
    if Sends(s.kind) {
      SenderHasFrameOps(StreamView(s.kind, s.operations));
    } else if s.operations != [] {
      assert AllowedOp(s.kind, s.operations[0]);
    }
  }

  // ---- bytes of the received frame ----

  /** How far behind its place in the sent frame a FORWARD reads in the received one. */
  function Ahead(ops: seq<Operation>, j: nat): int
    requires j < |ops|
  {
    ops[j].offset - FrameSize(ops, j)
  }

  /** Bytes of the received frame dropped before operation `k`. */
  function Dropped(ops: seq<Operation>, k: nat): int
    requires k <= |ops|
  {
    IngressPos(ops, k) - FrameSize(ops, k)
  }

  /** The validation follows a received frame from which just so many bytes are dropped that the
      FORWARD furthest ahead so far can be served: no FORWARD is further ahead, and one is as far
      if anything is dropped at all. */
  lemma {:induction false} DroppedIsFurthest(ops: seq<Operation>, k: nat)
    requires k <= |ops|
    ensures Dropped(ops, k) >= 0
    ensures forall j {:trigger Ahead(ops, j)} :: 0 <= j < k && ops[j].opcode.FORWARD? ==>
      Ahead(ops, j) <= Dropped(ops, k)
    ensures Dropped(ops, k) == 0
      || exists j {:trigger Ahead(ops, j)} :: 0 <= j < k && ops[j].opcode.FORWARD? && Ahead(ops, j) == Dropped(ops, k)
  {
    if k > 0 {
      DroppedIsFurthest(ops, k - 1);
      assert ops[k - 1].opcode.FORWARD? && Ahead(ops, k - 1) > Dropped(ops, k - 1) ==>
        Ahead(ops, k - 1) == Dropped(ops, k);
    }
  }

  /** Serving operation `k` makes it drop at most 19 more bytes. */
  predicate FewMoreDropped(ops: seq<Operation>, k: nat)
    requires k < |ops|
  {
    ops[k].opcode.FORWARD? ==> Dropped(ops, k + 1) - Dropped(ops, k) <= 19
  }

  /** It accepts the FORWARDs of a stream exactly when that is so for each of them. */
  lemma ReachableMeans(ops: seq<Operation>)
    ensures ForwardsReachable(ops) <==> forall k :: 0 <= k < |ops| ==> FewMoreDropped(ops, k)
  {
    forall k | 0 <= k < |ops| ensures Reachable(ops, k) <==> FewMoreDropped(ops, k) {
    }
  }

  // ---- a stream on its own ----

  lemma {:induction false} NoFrame(ops: seq<Operation>, k: nat)
    requires k <= |ops| && forall j :: 0 <= j < |ops| ==> !IsFrameOp(ops[j])
    ensures FrameSize(ops, k) == 0 && NumOps(ops, INSERT, k) == 0
  {
    if k > 0 {
      NoFrame(ops, k - 1);
    }
  }

  /** What a stream with all its links is judged by on its own: the length of its frame, the
      messages in it, what it drops of the received one, and where its partner belongs. */
  lemma StreamFineMeans(v: StreamView, ties: Ties, final: bool)
    requires WellTyped(v) && OpsComplete(v.ops)
    ensures Sends(v.kind) ==> FrameOps(v.ops)
    ensures StreamFine(v, ties, final) <==>
      && (Sends(v.kind) ==> FrameLength(IntendedFrame(v.kind.RedundantTx?, v.ops)) <= 1518)
      && (final && Sends(v.kind) ==> FrameLength(IntendedFrame(v.kind.RedundantTx?, v.ops)) >= 64)
      && (Sends(v.kind) ==> |Messages(v.ops, |v.ops|)| <= 8)
      && (forall k :: 0 <= k < |v.ops| ==> FewMoreDropped(v.ops, k))
      && (IsRedundant(v.kind) ==> TiesFine(ties, final))
  {
    ReachableMeans(v.ops);
    if Sends(v.kind) {
      SenderHasFrameOps(v);
      FrameSizeIsLength(v.kind.RedundantTx?, v.ops);
    } else {
      forall j | 0 <= j < |v.ops| ensures !IsFrameOp(v.ops[j]) {
        assert AllowedOp(v.kind, v.ops[j]);
      }
      NoFrame(v.ops, |v.ops|);
    }
  }
}
