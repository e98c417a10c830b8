/** What the links to message buffers leave as it was: sizes, layout and operation codes of
    the streams, and what they add: complete operations. */
module Linking {
  import opened Entities
  import opened Layout
  import opened DmaProgram
  import opened DmaTables
  import opened BufferAlloc

  /** `ws` are the streams `vs` after the allocator has linked them to the buffers `list`. */
  ghost predicate LinkedViews(vs: seq<StreamView>, ws: seq<StreamView>, list: seq<SysfsBuffer>) {
    && |vs| == |ws|
    && forall k {:trigger ws[k]} :: 0 <= k < |vs| ==>
         vs[k].kind == ws[k].kind && SameButLinks(vs[k].ops, ws[k].ops) && AllLinked(ws[k].ops, list)
  }

  /** The lock commands can lock all these buffers, and the indexes are their positions. */
  ghost predicate Lockable(list: seq<SysfsBuffer>) {
    |list| <= LOCK_CTRL_MAXSIZE && Numbered(list)
  }

  lemma LinkedIndex(op: Operation, list: seq<SysfsBuffer>)
    requires UsesBuffer(op) && Linked(op, list) && Lockable(list)
    ensures op.msgBuf.index < |list| && list[op.msgBuf.index] == op.msgBuf
  {
    var i :| 0 <= i < |list| && list[i] == op.msgBuf;
    assert list[i].index == i;
  }

  lemma {:induction false} LinksKeepSizes(a: seq<Operation>, b: seq<Operation>, k: nat)
    requires SameButLinks(a, b) && k <= |a|
    ensures FrameSize(a, k) == FrameSize(b, k)
    ensures SumConstBuffer(a, k) == SumConstBuffer(b, k)
    ensures CountGather(a, k) == CountGather(b, k)
  {
    if k > 0 {
      LinksKeepSizes(a, b, k - 1);
      assert SameButLink(a[k - 1], b[k - 1]);
    }
  }

  lemma LinkingCompletes(v: StreamView, w: StreamView, list: seq<SysfsBuffer>)
    requires v.kind == w.kind && SameButLinks(v.ops, w.ops) && AllLinked(w.ops, list) && Lockable(list)
    requires WellTyped(v) && AllCreated(v.ops)
    ensures WellTyped(w) && OpsComplete(w.ops) && SameCodes(v.ops, w.ops)
  {
    LinksKeepSizes(v.ops, w.ops, |v.ops|);
    forall j | 0 <= j < |w.ops|
      ensures AllowedOp(w.kind, w.ops[j]) && OpComplete(w.ops[j]) && v.ops[j].opcode == w.ops[j].opcode
    {
      assert SameButLink(v.ops[j], w.ops[j]);
      assert AllowedOp(v.kind, v.ops[j]) && Created(v.ops[j]) && Linked(w.ops[j], list);
      if UsesBuffer(w.ops[j]) {
        LinkedIndex(w.ops[j], list);
      }
    }
  }

  lemma {:induction false} LinksKeepConstBuffer(vs: seq<StreamView>, ws: seq<StreamView>, list: seq<SysfsBuffer>,
                                                k: nat)
    requires LinkedViews(vs, ws, list) && k <= |vs|
    ensures ModuleConstBuffer(vs, k) == ModuleConstBuffer(ws, k)
  {
    if k > 0 {
      LinksKeepConstBuffer(vs, ws, list, k - 1);
      LinksKeepSizes(vs[k - 1].ops, ws[k - 1].ops, |vs[k - 1].ops|);
    }
  }

  lemma LinkingCompletesAll(vs: seq<StreamView>, ws: seq<StreamView>, list: seq<SysfsBuffer>)
    requires LinkedViews(vs, ws, list) && Lockable(list)
    requires forall k {:trigger vs[k]} :: 0 <= k < |vs| ==> WellTyped(vs[k]) && AllCreated(vs[k].ops)
    ensures SameShape(vs, ws)
    ensures forall k {:trigger ws[k]} :: 0 <= k < |ws| ==> WellTyped(ws[k]) && OpsComplete(ws[k].ops)
  {
    forall k | 0 <= k < |ws| ensures WellTyped(ws[k]) && OpsComplete(ws[k].ops) && SameCodes(vs[k].ops, ws[k].ops) {
      LinkingCompletes(vs[k], ws[k], list);
    }
  }

  lemma LinkedIsWritable(vs: seq<StreamView>, ws: seq<StreamView>, list: seq<SysfsBuffer>)
    requires LinkedViews(vs, ws, list) && Lockable(list)
    requires forall k {:trigger vs[k]} :: 0 <= k < |vs| ==> WellTyped(vs[k]) && AllCreated(vs[k].ops)
    requires EgressRows(vs, |vs|) <= ACM_MAX_EGRESS_OPERATIONS && IngressRows(vs, |vs|) <= ACM_MAX_INGRESS_OPERATIONS
    ensures SameShape(vs, ws) && Writable(ws)
    ensures ModuleConstBuffer(ws, |ws|) == ModuleConstBuffer(vs, |vs|)
  {
    LinkingCompletesAll(vs, ws, list);
    SameLayout(vs, ws, |ws|);
    LinksKeepConstBuffer(vs, ws, list, |ws|);
  }

  /** Operations that differ in links only have the same order of codes, lengths and data. */
  lemma LinksKeepTypes(v: StreamView, w: StreamView)
    requires v.kind == w.kind && SameButLinks(v.ops, w.ops)
    ensures WellTyped(v) ==> WellTyped(w)
    ensures AllCreated(v.ops) ==> AllCreated(w.ops)
    ensures HasHeader(v.ops) ==> HasHeader(w.ops)
  {
    LinksKeepSizes(v.ops, w.ops, |v.ops|);
    forall j | 0 <= j < |w.ops|
      ensures WellTyped(v) ==> AllowedOp(w.kind, w.ops[j])
      ensures AllCreated(v.ops) ==> Created(w.ops[j])
      ensures w.ops[j].length == v.ops[j].length
    {
      assert SameButLink(v.ops[j], w.ops[j]);
    }
  }

  /** Up to 32 buffers can all be named in the commands. */
  lemma FewBuffersNameable(ops: seq<Operation>, list: seq<SysfsBuffer>, code: Opcode)
    requires OpsComplete(ops) && AllLinked(ops, list) && Lockable(list) && |list| <= MSGBUF_ID_LIMIT
    ensures Nameable(ops, code)
  {
    forall j {:trigger ops[j]} | 0 <= j < |ops| && ops[j].opcode == code && UsesBuffer(ops[j])
      ensures BufferOf(ops[j]) < MSGBUF_ID_LIMIT
    {
      assert Linked(ops[j], list);
      LinkedIndex(ops[j], list);
    }
  }
}
