/** Sharing of the message memory: which buffers a sequence of READ and INSERT operations
    needs, and where they lie. */
module MsgBuffers {
  import opened Entities
  import opened Arith
  import opened Layout

  /** What one READ or INSERT operation asks for. */
  datatype Request = Request(name: string, receive: bool, blocks: nat)

  /** A buffer; its index is its position, its offset the sum of the sizes before it. */
  datatype Buf = Buf(name: string, receive: bool, size: nat)

  /** Bytes of an operation's buffer: a received message is stored with its timestamp. */
  function GetOplen(op: Operation): nat {
    U16(op.length + if op.opcode.READ? then SIZE_TIMESTAMP else 0)
  }

  /** The fewest blocks that hold `n` bytes. */
  function BlocksFor(n: nat, granularity: nat): nat
    requires granularity > 0
    decreases n
  {
    if n == 0 then 0 else 1 + BlocksFor(if n > granularity then n - granularity else 0, granularity)
  }

  /** Blocks of an operation's buffer. */
  function Blocks(op: Operation, granularity: nat): nat
    requires granularity > 0
  {
    BlocksFor(GetOplen(op), granularity)
  }

  /** They are the quotient, and one more for a rest. */
  lemma {:induction false} BlocksForQuotient(n: nat, granularity: nat)
    requires granularity > 0
    ensures BlocksFor(n, granularity) == n / granularity + if n % granularity > 0 then 1 else 0
    decreases n
  {
    if n > granularity {
      BlocksForQuotient(n - granularity, granularity);
      DivLess(n, granularity);
    } else {
      DivSmall(n, granularity);
    }
  }

  lemma {:induction false} BlocksForBounds(n: nat, granularity: nat)
    requires granularity > 0
    ensures n <= granularity * BlocksFor(n, granularity) < n + granularity
    decreases n
  {
    if n > granularity {
      BlocksForBounds(n - granularity, granularity);
      var rest := BlocksFor(n - granularity, granularity);
      assert granularity * (1 + rest) == granularity + granularity * rest;
    }
  }

  /** Bytes of the message itself, with the timestamp of a received one. */
  function MessageSize(op: Operation): nat {
    op.length + if op.opcode.READ? then SIZE_TIMESTAMP else 0
  }

  /** The 16-bit sum is the size of the message exactly while that fits 16 bits, which the
      creation functions see to. */
  lemma OplenIsMessageSize(op: Operation)
    ensures GetOplen(op) == MessageSize(op) <==> MessageSize(op) < U16_LIMIT
    ensures Created(op) && UsesBuffer(op) ==> MessageSize(op) < U16_LIMIT
  {
  }

  /** A length the creation functions refuse: the sum wraps, and one byte is reserved. */
  lemma OplenWraps(op: Operation)
    requires op.opcode.READ? && op.length == 65533
    ensures GetOplen(op) == 1 && MessageSize(op) == 65537 && !Created(op)
  {
  }

  /** The blocks are the fewest that hold the message. */
  lemma BlocksHoldMessage(op: Operation, granularity: nat)
    requires granularity > 0 && Created(op) && UsesBuffer(op)
    ensures MessageSize(op) <= granularity * Blocks(op, granularity) < MessageSize(op) + granularity
  {
    OplenIsMessageSize(op);
    BlocksForBounds(GetOplen(op), granularity);
  }

  function RequestOf(op: Operation, granularity: nat): Request
    requires granularity > 0
  {
    Request(op.bufferName, op.opcode.READ?, Blocks(op, granularity))
  }

  /** The requests of the first `k` operations. */
  function Requests(ops: seq<Operation>, granularity: nat, k: nat): seq<Request>
    requires granularity > 0 && k <= |ops|
  {
    if k == 0 then []
    else Requests(ops, granularity, k - 1) + if UsesBuffer(ops[k - 1]) then [RequestOf(ops[k - 1], granularity)] else []
  }

  /** The requests of the first `k` streams. */
  function AllRequests(vs: seq<StreamView>, granularity: nat, k: nat): seq<Request>
    requires granularity > 0 && k <= |vs|
  {
    if k == 0 then []
    else AllRequests(vs, granularity, k - 1) + Requests(vs[k - 1].ops, granularity, |vs[k - 1].ops|)
  }

  // ---- first come, first placed ----

  /** Position of the first buffer with the name, or the number of buffers. */
  function Find(bufs: seq<Buf>, name: string): (k: nat)
    ensures k <= |bufs|
    ensures k < |bufs| ==> bufs[k].name == name
    ensures forall j :: 0 <= j < k ==> bufs[j].name != name
  {
    if bufs == [] then 0
    else
      var k := Find(bufs[..|bufs| - 1], name);
      if k < |bufs| - 1 || bufs[|bufs| - 1].name == name then k else |bufs|
  }

  /** A new name gets a new buffer at the end, a known one of the same direction is shared
      and grows if needed; the same name in both directions is refused. */
  function Place(bufs: seq<Buf>, r: Request): Option<seq<Buf>> {
    var k := Find(bufs, r.name);
    if k == |bufs| then Some(bufs + [Buf(r.name, r.receive, r.blocks)])
    else if bufs[k].receive != r.receive then None
    else Some(bufs[k := bufs[k].(size := if r.blocks > bufs[k].size then r.blocks else bufs[k].size)])
  }

  function PlaceAll(bufs: seq<Buf>, rs: seq<Request>): Option<seq<Buf>> {
    if rs == [] then Some(bufs)
    else
      match PlaceAll(bufs, rs[..|rs| - 1])
      case Some(b) => Place(b, rs[|rs| - 1])
      case None => None
  }

  /** Sum of the sizes of the first `k` buffers: the offset of buffer `k`. */
  function Total(bufs: seq<Buf>, k: nat): nat
    requires k <= |bufs|
  {
    if k == 0 then 0 else Total(bufs, k - 1) + bufs[k - 1].size
  }

  predicate NamesDistinct(bufs: seq<Buf>) {
    forall i, j :: 0 <= i < j < |bufs| ==> bufs[i].name != bufs[j].name
  }

  // ---- what a successful placement is ----

  /** The buffer has the request's name and direction and is large enough. */
  predicate Serves(b: Buf, r: Request) {
    b.name == r.name && b.receive == r.receive && r.blocks <= b.size
  }

  ghost predicate Served(bufs: seq<Buf>, r: Request) {
    exists k :: 0 <= k < |bufs| && Serves(bufs[k], r)
  }

  /** Some request needs the buffer exactly as large as it is. */
  ghost predicate Needed(b: Buf, rs: seq<Request>) {
    Request(b.name, b.receive, b.size) in rs
  }

  /** One buffer per name, serving every request of that name, and no larger than the
      largest of them. */
  ghost predicate IsAllocation(bufs: seq<Buf>, rs: seq<Request>) {
    && NamesDistinct(bufs)
    && (forall i :: 0 <= i < |rs| ==> Served(bufs, rs[i]))
    && (forall k :: 0 <= k < |bufs| ==> Needed(bufs[k], rs))
  }

  lemma ServedByPlacement(bufs: seq<Buf>, r: Request, q: Request)
    requires Place(bufs, r).Some? && Served(bufs, q)
    ensures Served(Place(bufs, r).value, q)
  {
    var k :| 0 <= k < |bufs| && Serves(bufs[k], q);
    assert Serves(Place(bufs, r).value[k], q);
  }

  lemma PlaceServes(bufs: seq<Buf>, r: Request)
    requires Place(bufs, r).Some?
    ensures Served(Place(bufs, r).value, r)
  {
    assert Serves(Place(bufs, r).value[Find(bufs, r.name)], r);
  }

  lemma PlaceKeepsServed(bufs: seq<Buf>, rs: seq<Request>, r: Request)
    requires IsAllocation(bufs, rs) && Place(bufs, r).Some?
    ensures forall i :: 0 <= i < |rs + [r]| ==> Served(Place(bufs, r).value, (rs + [r])[i])
  {
    PlaceServes(bufs, r);
    forall i | 0 <= i < |rs| ensures Served(Place(bufs, r).value, rs[i]) {
      ServedByPlacement(bufs, r, rs[i]);
    }
  }

  lemma PlaceKeepsNeeded(bufs: seq<Buf>, rs: seq<Request>, r: Request, k: nat)
    requires IsAllocation(bufs, rs) && Place(bufs, r).Some? && k < |Place(bufs, r).value|
    ensures Needed(Place(bufs, r).value[k], rs + [r])
  {
    assert (rs + [r])[|rs|] == r;
    if k < |bufs| {
      NeededStill(bufs[k], rs, r);
    }
  }

  lemma PlaceKeepsNames(bufs: seq<Buf>, r: Request)
    requires NamesDistinct(bufs) && Place(bufs, r).Some?
    ensures NamesDistinct(Place(bufs, r).value)
  {
    var after := Place(bufs, r).value;
    forall i, j | 0 <= i < j < |after| ensures after[i].name != after[j].name {
    }
  }

  lemma PlaceKeepsAllocation(bufs: seq<Buf>, rs: seq<Request>, r: Request, after: seq<Buf>)
    requires IsAllocation(bufs, rs) && Place(bufs, r) == Some(after)
    ensures IsAllocation(after, rs + [r])
  {
    PlaceKeepsNames(bufs, r);
    PlaceKeepsServed(bufs, rs, r);
    AllNeeded(bufs, rs, r);
  }

  lemma AllNeeded(bufs: seq<Buf>, rs: seq<Request>, r: Request)
    requires IsAllocation(bufs, rs) && Place(bufs, r).Some?
    ensures forall k :: 0 <= k < |Place(bufs, r).value| ==> Needed(Place(bufs, r).value[k], rs + [r])
  {
    forall k | 0 <= k < |Place(bufs, r).value| ensures Needed(Place(bufs, r).value[k], rs + [r]) {
      PlaceKeepsNeeded(bufs, rs, r, k);
    }
  }

  lemma NeededStill(b: Buf, rs: seq<Request>, r: Request)
    requires Needed(b, rs)
    ensures Needed(b, rs + [r])
  {
  }

  /** A successful placement gives each name exactly one buffer, of the right direction,
      whose size is the maximum over the operations that use it. */
  lemma {:induction false} PlacementIsAllocation(rs: seq<Request>)
    requires PlaceAll([], rs).Some?
    ensures IsAllocation(PlaceAll([], rs).value, rs)
  {
    if rs != [] {
      var n := |rs| - 1;
      assert rs[..n] + [rs[n]] == rs;
      PlacementIsAllocation(rs[..n]);
      PlaceKeepsAllocation(PlaceAll([], rs[..n]).value, rs[..n], rs[n], PlaceAll([], rs).value);
    }
  }

  /** Two requests with one name and different directions. */
  ghost predicate Conflict(rs: seq<Request>) {
    exists i, j :: 0 <= i < j < |rs| && rs[i].name == rs[j].name && rs[i].receive != rs[j].receive
  }

  /** A request with the name of an earlier one in the other direction. */
  ghost predicate Clashes(rs: seq<Request>, r: Request) {
    exists i :: 0 <= i < |rs| && rs[i].name == r.name && rs[i].receive != r.receive
  }

  lemma FindUnique(bufs: seq<Buf>, k: nat)
    requires NamesDistinct(bufs) && k < |bufs|
    ensures Find(bufs, bufs[k].name) == k
  {
  }

  /** A buffer of the request's name in the other direction refuses it. */
  lemma RefusedBy(bufs: seq<Buf>, k: nat, r: Request)
    requires NamesDistinct(bufs) && k < |bufs| && bufs[k].name == r.name && bufs[k].receive != r.receive
    ensures Place(bufs, r).None?
  {
    FindUnique(bufs, k);
  }

  lemma ClashIsRefused(bufs: seq<Buf>, rs: seq<Request>, r: Request, i: nat)
    requires IsAllocation(bufs, rs) && i < |rs| && rs[i].name == r.name && rs[i].receive != r.receive
    ensures Place(bufs, r).None?
  {
    assert Served(bufs, rs[i]);
    var k :| 0 <= k < |bufs| && Serves(bufs[k], rs[i]);
    RefusedBy(bufs, k, r);
  }

  lemma RefusedIsClash(bufs: seq<Buf>, rs: seq<Request>, r: Request)
    requires (forall k :: 0 <= k < |bufs| ==> Needed(bufs[k], rs)) && Place(bufs, r).None?
    ensures Clashes(rs, r)
  {
    var k := Find(bufs, r.name);
    assert Needed(bufs[k], rs);
    var i :| 0 <= i < |rs| && rs[i] == Request(bufs[k].name, bufs[k].receive, bufs[k].size);
    assert rs[i].name == r.name && rs[i].receive != r.receive;
  }

  lemma PlaceFailsOnClash(bufs: seq<Buf>, rs: seq<Request>, r: Request)
    requires IsAllocation(bufs, rs)
    ensures Place(bufs, r).None? <==> Clashes(rs, r)
  {
    if Clashes(rs, r) {
      var i :| 0 <= i < |rs| && rs[i].name == r.name && rs[i].receive != r.receive;
      ClashIsRefused(bufs, rs, r, i);
    }
    if Place(bufs, r).None? {
      RefusedIsClash(bufs, rs, r);
    }
  }

  lemma ConflictOfLast(rs: seq<Request>)
    requires rs != []
    ensures Conflict(rs) <==> Conflict(rs[..|rs| - 1]) || Clashes(rs[..|rs| - 1], rs[|rs| - 1])
  {
    var n := |rs| - 1;
    if Conflict(rs) {
      var i, j :| 0 <= i < j < |rs| && rs[i].name == rs[j].name && rs[i].receive != rs[j].receive;
      assert rs[..n][i] == rs[i];
      if j < n {
        assert rs[..n][j] == rs[j];
      }
    }
    if Conflict(rs[..n]) {
      var i, j :| 0 <= i < j < n && rs[..n][i].name == rs[..n][j].name && rs[..n][i].receive != rs[..n][j].receive;
      assert rs[i].name == rs[j].name && rs[i].receive != rs[j].receive;
    }
    if Clashes(rs[..n], rs[n]) {
      var i :| 0 <= i < n && rs[..n][i].name == rs[n].name && rs[..n][i].receive != rs[n].receive;
      assert rs[i].name == rs[n].name && rs[i].receive != rs[n].receive;
    }
  }

  /** Placement fails exactly when a name is used in both directions. */
  lemma {:induction false} PlacementFailsOnConflict(rs: seq<Request>)
    ensures PlaceAll([], rs).None? <==> Conflict(rs)
  {
    if rs != [] {
      var n := |rs| - 1;
      PlacementFailsOnConflict(rs[..n]);
      ConflictOfLast(rs);
      if PlaceAll([], rs[..n]).Some? {
        PlacementIsAllocation(rs[..n]);
        PlaceFailsOnClash(PlaceAll([], rs[..n]).value, rs[..n], rs[n]);
      }
    }
  }

  // ---- the memory ----

  lemma {:induction false} TotalGrows(bufs: seq<Buf>, i: nat, j: nat)
    requires i <= j <= |bufs|
    ensures Total(bufs, i) <= Total(bufs, j)
  {
    if i < j {
      TotalGrows(bufs, i, j - 1);
    }
  }

  /** A buffer ends before any later one begins, and before the end of the used memory
      (j == |bufs|): buffers do not overlap and lie within the total. */
  lemma {:induction false} BufferEndsBefore(bufs: seq<Buf>, i: nat, j: nat)
    requires i < j <= |bufs|
    ensures Total(bufs, i) + bufs[i].size <= Total(bufs, j)
  {
    if i + 1 < j {
      BufferEndsBefore(bufs, i, j - 1);
    }
  }

  lemma {:induction false} TotalPrefix(a: seq<Buf>, b: seq<Buf>, k: nat)
    requires k <= |a| && k <= |b| && forall j :: 0 <= j < k ==> a[j].size == b[j].size
    ensures Total(a, k) == Total(b, k)
  {
    if k > 0 {
      TotalPrefix(a, b, k - 1);
    }
  }

  lemma {:induction false} TotalUpdate(bufs: seq<Buf>, k: nat, b: Buf, n: nat)
    requires k < n <= |bufs|
    ensures Total(bufs[k := b], n) == Total(bufs, n) - bufs[k].size + b.size
  {
    if k == n - 1 {
      TotalPrefix(bufs, bufs[k := b], k);
    } else {
      TotalUpdate(bufs, k, b, n - 1);
    }
  }

  /** Placing a request never shrinks the memory in use or the number of buffers. */
  lemma PlaceGrows(bufs: seq<Buf>, r: Request)
    requires Place(bufs, r).Some?
    ensures var after := Place(bufs, r).value;
      |bufs| <= |after| <= |bufs| + 1 && Total(bufs, |bufs|) <= Total(after, |after|)
  {
    var after := Place(bufs, r).value;
    var k := Find(bufs, r.name);
    if k == |bufs| {
      TotalPrefix(bufs, after, |bufs|);
    } else {
      TotalUpdate(bufs, k, after[k], |bufs|);
    }
  }

  lemma {:induction false} PlaceAllGrows(bufs: seq<Buf>, rs: seq<Request>)
    requires PlaceAll(bufs, rs).Some?
    ensures var after := PlaceAll(bufs, rs).value;
      Total(bufs, |bufs|) <= Total(after, |after|)
  {
    if rs != [] {
      var n := |rs| - 1;
      PlaceAllGrows(bufs, rs[..n]);
      PlaceGrows(PlaceAll(bufs, rs[..n]).value, rs[n]);
    }
  }

  lemma {:induction false} PlaceAllConcat(bufs: seq<Buf>, a: seq<Request>, b: seq<Request>)
    ensures PlaceAll(bufs, a + b) == match PlaceAll(bufs, a)
      case Some(mid) => PlaceAll(mid, b)
      case None => None
  {
    if b == [] {
      assert a + b == a;
    } else {
      var n := |b| - 1;
      assert (a + b)[..|a + b| - 1] == a + b[..n];
      PlaceAllConcat(bufs, a, b[..n]);
    }
  }

  // ---- operation by operation, stream by stream ----

  function PlaceOp(bufs: seq<Buf>, op: Operation, granularity: nat): Option<seq<Buf>>
    requires granularity > 0
  {
    if UsesBuffer(op) then Place(bufs, RequestOf(op, granularity)) else Some(bufs)
  }

  function PlaceOps(bufs: seq<Buf>, ops: seq<Operation>, granularity: nat, k: nat): Option<seq<Buf>>
    requires granularity > 0 && k <= |ops|
  {
    if k == 0 then Some(bufs)
    else
      match PlaceOps(bufs, ops, granularity, k - 1)
      case Some(b) => PlaceOp(b, ops[k - 1], granularity)
      case None => None
  }

  function PlaceStreams(bufs: seq<Buf>, vs: seq<StreamView>, granularity: nat, k: nat): Option<seq<Buf>>
    requires granularity > 0 && k <= |vs|
  {
    if k == 0 then Some(bufs)
    else
      match PlaceStreams(bufs, vs, granularity, k - 1)
      case Some(b) => PlaceOps(b, vs[k - 1].ops, granularity, |vs[k - 1].ops|)
      case None => None
  }

  lemma {:induction false} PlaceOpsPlacesRequests(bufs: seq<Buf>, ops: seq<Operation>, granularity: nat, k: nat)
    requires granularity > 0 && k <= |ops|
    ensures PlaceOps(bufs, ops, granularity, k) == PlaceAll(bufs, Requests(ops, granularity, k))
  {
    if k > 0 {
      PlaceOpsPlacesRequests(bufs, ops, granularity, k - 1);
      var front := Requests(ops, granularity, k - 1);
      if UsesBuffer(ops[k - 1]) {
        assert Requests(ops, granularity, k)[..|front|] == front;
      } else {
        assert Requests(ops, granularity, k) == front;
      }
    }
  }

  lemma PlaceNextStream(bufs: seq<Buf>, front: seq<Request>, ops: seq<Operation>, granularity: nat)
    requires granularity > 0
    ensures PlaceAll(bufs, front + Requests(ops, granularity, |ops|)) == match PlaceAll(bufs, front)
      case Some(placed) => PlaceOps(placed, ops, granularity, |ops|)
      case None => None
  {
    PlaceAllConcat(bufs, front, Requests(ops, granularity, |ops|));
    if PlaceAll(bufs, front).Some? {
      PlaceOpsPlacesRequests(PlaceAll(bufs, front).value, ops, granularity, |ops|);
    }
  }

  /** Working through the streams places their requests one after the other. */
  lemma {:induction false} PlaceStreamsPlacesRequests(bufs: seq<Buf>, vs: seq<StreamView>, granularity: nat, k: nat)
    requires granularity > 0 && k <= |vs|
    ensures PlaceStreams(bufs, vs, granularity, k) == PlaceAll(bufs, AllRequests(vs, granularity, k))
  {
    if k > 0 {
      PlaceStreamsPlacesRequests(bufs, vs, granularity, k - 1);
      PlaceNextStream(bufs, AllRequests(vs, granularity, k - 1), vs[k - 1].ops, granularity);
    }
  }

  lemma {:induction false} PlaceOpsStaysFailed(bufs: seq<Buf>, ops: seq<Operation>, granularity: nat, i: nat, j: nat)
    requires granularity > 0 && i <= j <= |ops| && PlaceOps(bufs, ops, granularity, i).None?
    ensures PlaceOps(bufs, ops, granularity, j).None?
  {
    if i < j {
      PlaceOpsStaysFailed(bufs, ops, granularity, i, j - 1);
    }
  }

  lemma {:induction false} PlaceStreamsStaysFailed(bufs: seq<Buf>, vs: seq<StreamView>, granularity: nat, i: nat,
                                                   j: nat)
    requires granularity > 0 && i <= j <= |vs| && PlaceStreams(bufs, vs, granularity, i).None?
    ensures PlaceStreams(bufs, vs, granularity, j).None?
  {
    if i < j {
      PlaceStreamsStaysFailed(bufs, vs, granularity, i, j - 1);
    }
  }

  lemma {:induction false} RequestIncluded(ops: seq<Operation>, granularity: nat, j: nat, k: nat)
    requires granularity > 0 && j < k <= |ops| && UsesBuffer(ops[j])
    ensures RequestOf(ops[j], granularity) in Requests(ops, granularity, k)
  {
    if j < k - 1 {
      RequestIncluded(ops, granularity, j, k - 1);
    }
  }

  lemma {:induction false} StreamRequestIncluded(vs: seq<StreamView>, granularity: nat, i: nat, k: nat, r: Request)
    requires granularity > 0 && i < k <= |vs| && r in Requests(vs[i].ops, granularity, |vs[i].ops|)
    ensures r in AllRequests(vs, granularity, k)
  {
    if i < k - 1 {
      StreamRequestIncluded(vs, granularity, i, k - 1, r);
    }
  }

  // ---- the modules of a configuration, one after the other ----

  function PlaceModules(vss: seq<seq<StreamView>>, granularity: nat, k: nat): Option<seq<Buf>>
    requires granularity > 0 && k <= |vss|
  {
    if k == 0 then Some([])
    else
      match PlaceModules(vss, granularity, k - 1)
      case Some(b) => PlaceStreams(b, vss[k - 1], granularity, |vss[k - 1]|)
      case None => None
  }

  function ConfigRequests(vss: seq<seq<StreamView>>, granularity: nat, k: nat): seq<Request>
    requires granularity > 0 && k <= |vss|
  {
    if k == 0 then []
    else ConfigRequests(vss, granularity, k - 1) + AllRequests(vss[k - 1], granularity, |vss[k - 1]|)
  }

  lemma {:induction false} PlaceModulesPlacesRequests(vss: seq<seq<StreamView>>, granularity: nat, k: nat)
    requires granularity > 0 && k <= |vss|
    ensures PlaceModules(vss, granularity, k) == PlaceAll([], ConfigRequests(vss, granularity, k))
  {
    if k > 0 {
      PlaceModulesPlacesRequests(vss, granularity, k - 1);
      var vs := vss[k - 1];
      var front, own := ConfigRequests(vss, granularity, k - 1), AllRequests(vs, granularity, |vs|);
      PlaceAllConcat([], front, own);
      match PlaceAll([], front)
      case Some(placed) => PlaceStreamsPlacesRequests(placed, vs, granularity, |vs|);
      case None =>
    }
  }

  /** The check the allocator makes: one more block than used must be free. */
  predicate BlockFree(used: nat, granularity: nat, memory: int) {
    (used + 1) * granularity < memory
  }

  predicate MemorySuffices(bufs: seq<Buf>, granularity: nat, memory: int) {
    BlockFree(Total(bufs, |bufs|), granularity, memory)
  }

  /** Three blocks of four bytes leave one of 16 bytes free, and are refused. */
  lemma OneBlockFreeIsRefused(bufs: seq<Buf>)
    requires Total(bufs, |bufs|) == 3
    ensures !MemorySuffices(bufs, 4, 16) && MemorySuffices(bufs, 4, 17)
  {
  }

  lemma PlaceStreamsGrows(bufs: seq<Buf>, vs: seq<StreamView>, granularity: nat)
    requires granularity > 0 && PlaceStreams(bufs, vs, granularity, |vs|).Some?
    ensures var after := PlaceStreams(bufs, vs, granularity, |vs|).value;
      Total(bufs, |bufs|) <= Total(after, |after|)
  {
    PlaceStreamsPlacesRequests(bufs, vs, granularity, |vs|);
    PlaceAllGrows(bufs, AllRequests(vs, granularity, |vs|));
  }

  lemma {:induction false} ModuleRequestIncluded(vss: seq<seq<StreamView>>, granularity: nat, m: nat, n: nat,
                                                 r: Request)
    requires granularity > 0 && m < n <= |vss| && r in AllRequests(vss[m], granularity, |vss[m]|)
    ensures r in ConfigRequests(vss, granularity, n)
  {
    if m < n - 1 {
      ModuleRequestIncluded(vss, granularity, m, n - 1, r);
    }
  }

  /** Every operation that uses a buffer is among the requests of the configuration. */
  lemma OperationIsRequested(vss: seq<seq<StreamView>>, granularity: nat, m: nat, k: nat, j: nat)
    requires granularity > 0 && m < |vss| && k < |vss[m]| && j < |vss[m][k].ops| && UsesBuffer(vss[m][k].ops[j])
    ensures RequestOf(vss[m][k].ops[j], granularity) in ConfigRequests(vss, granularity, |vss|)
  {
    var ops, r := vss[m][k].ops, RequestOf(vss[m][k].ops[j], granularity);
    RequestIncluded(ops, granularity, j, |ops|);
    StreamRequestIncluded(vss[m], granularity, k, |vss[m]|, r);
    ModuleRequestIncluded(vss, granularity, m, |vss|, r);
  }

  // ---- how much a configuration can ask for ----

  /** Bytes of the longest message, a received frame with its timestamp. */
  const MAX_MESSAGE_SIZE := ACM_MAX_FRAME_SIZE + SIZE_TIMESTAMP

  lemma {:induction false} BlocksForGrows(m: nat, n: nat, granularity: nat)
    requires granularity > 0 && m <= n
    ensures BlocksFor(m, granularity) <= BlocksFor(n, granularity)
    decreases n
  {
    if m > granularity {
      BlocksForGrows(m - granularity, n - granularity, granularity);
    } else if n > granularity {
      BlocksForGrows(0, n - granularity, granularity);
    }
  }

  ghost predicate AtMost(rs: seq<Request>, blocks: nat) {
    forall i {:trigger rs[i]} :: 0 <= i < |rs| ==> rs[i].blocks <= blocks
  }

  lemma RequestAtMost(op: Operation, granularity: nat)
    requires granularity > 0 && Created(op) && UsesBuffer(op)
    ensures RequestOf(op, granularity).blocks <= BlocksFor(MAX_MESSAGE_SIZE, granularity)
  {
    OplenIsMessageSize(op);
    BlocksForGrows(GetOplen(op), MAX_MESSAGE_SIZE, granularity);
  }

  lemma {:induction false} RequestsAtMost(ops: seq<Operation>, granularity: nat, k: nat)
    requires granularity > 0 && k <= |ops| && AllCreated(ops)
    ensures AtMost(Requests(ops, granularity, k), BlocksFor(MAX_MESSAGE_SIZE, granularity))
  {
    if k > 0 {
      RequestsAtMost(ops, granularity, k - 1);
      if UsesBuffer(ops[k - 1]) {
        RequestAtMost(ops[k - 1], granularity);
      }
    }
  }

  /** All operations are as their creation left them. */
  ghost predicate StreamsCreated(vs: seq<StreamView>) {
    forall k {:trigger vs[k]} :: 0 <= k < |vs| ==> AllCreated(vs[k].ops)
  }

  lemma {:induction false} AllRequestsAtMost(vs: seq<StreamView>, granularity: nat, k: nat)
    requires granularity > 0 && k <= |vs| && StreamsCreated(vs)
    ensures AtMost(AllRequests(vs, granularity, k), BlocksFor(MAX_MESSAGE_SIZE, granularity))
  {
    if k > 0 {
      AllRequestsAtMost(vs, granularity, k - 1);
      RequestsAtMost(vs[k - 1].ops, granularity, |vs[k - 1].ops|);
    }
  }

  lemma {:induction false} ConfigRequestsAtMost(vss: seq<seq<StreamView>>, granularity: nat, k: nat)
    requires granularity > 0 && k <= |vss|
    requires forall i {:trigger vss[i]} :: 0 <= i < |vss| ==> StreamsCreated(vss[i])
    ensures AtMost(ConfigRequests(vss, granularity, k), BlocksFor(MAX_MESSAGE_SIZE, granularity))
  {
    if k > 0 {
      ConfigRequestsAtMost(vss, granularity, k - 1);
      AllRequestsAtMost(vss[k - 1], granularity, |vss[k - 1]|);
    }
  }

  lemma {:induction false} TotalAtMost(bufs: seq<Buf>, blocks: nat, k: nat)
    requires k <= |bufs| && forall j {:trigger bufs[j]} :: 0 <= j < |bufs| ==> bufs[j].size <= blocks
    ensures Total(bufs, k) <= k * blocks
  {
    if k > 0 {
      TotalAtMost(bufs, blocks, k - 1);
      assert k * blocks == (k - 1) * blocks + blocks;
    }
  }

  /** No buffer is larger than the longest message needs. */
  lemma AllocationAtMost(bufs: seq<Buf>, vss: seq<seq<StreamView>>, granularity: nat)
    requires granularity > 0 && IsAllocation(bufs, ConfigRequests(vss, granularity, |vss|))
    requires forall i {:trigger vss[i]} :: 0 <= i < |vss| ==> StreamsCreated(vss[i])
    ensures Total(bufs, |bufs|) <= |bufs| * BlocksFor(MAX_MESSAGE_SIZE, granularity)
  {
    var rs, blocks := ConfigRequests(vss, granularity, |vss|), BlocksFor(MAX_MESSAGE_SIZE, granularity);
    ConfigRequestsAtMost(vss, granularity, |vss|);
    forall j {:trigger bufs[j]} | 0 <= j < |bufs| ensures bufs[j].size <= blocks {
      assert Needed(bufs[j], rs);
    }
    TotalAtMost(bufs, blocks, |bufs|);
  }

  /** The buffer with a request's name is the one that serves it. */
  lemma NamedBufferServes(bufs: seq<Buf>, rs: seq<Request>, r: Request, k: nat)
    requires IsAllocation(bufs, rs) && r in rs && k < |bufs| && bufs[k].name == r.name
    ensures Serves(bufs[k], r)
  {
    var i :| 0 <= i < |rs| && rs[i] == r;
    assert Served(bufs, rs[i]);
    var l :| 0 <= l < |bufs| && Serves(bufs[l], r);
    assert l == k;
  }
}
