/** The sorted command list of a module: insertion of expanded schedule commands and
    removal of the commands of one schedule. */
module FscList {
  import opened Entities

  predicate Sorted(l: seq<FscCommand>) {
    forall i, j :: 0 <= i < j < |l| ==> l[i].absCycle <= l[j].absCycle
  }

  /** The commands of tick `t`, in list order. */
  function At(l: seq<FscCommand>, t: nat): seq<FscCommand> {
    if l == [] then []
    else (if l[0].absCycle == t then [l[0]] else []) + At(l[1..], t)
  }

  /** `l` holds the commands of `history` ordered by tick, those of one tick in the order
      in which they came. */
  ghost predicate IsStableSort(l: seq<FscCommand>, history: seq<FscCommand>) {
    Sorted(l) && forall t: nat :: At(l, t) == At(history, t)
  }

  /** `x` placed in front of the first command with a greater tick. */
  function Insert(l: seq<FscCommand>, x: FscCommand): seq<FscCommand> {
    if l == [] then [x]
    else if x.absCycle < l[0].absCycle then [x] + l
    else [l[0]] + Insert(l[1..], x)
  }

  function InsertAll(l: seq<FscCommand>, xs: seq<FscCommand>): seq<FscCommand> {
    if xs == [] then l
    else Insert(InsertAll(l, xs[..|xs| - 1]), xs[|xs| - 1])
  }

  /** The list without the commands of schedule `s`. */
  function Without(l: seq<FscCommand>, s: ScheduleEntry?): seq<FscCommand> {
    if l == [] then []
    else (if l[0].schedule == s then [] else [l[0]]) + Without(l[1..], s)
  }

  /** A change of the command list: one command added, or one schedule withdrawn. */
  datatype Edit = Add(cmd: FscCommand) | Drop(schedule: ScheduleEntry?)

  function RunEdits(edits: seq<Edit>): seq<FscCommand> {
    if edits == [] then []
    else
      var l := RunEdits(edits[..|edits| - 1]);
      match edits[|edits| - 1]
      case Add(x) => Insert(l, x)
      case Drop(s) => Without(l, s)
  }

  /** What was added and not withdrawn since, in the order of arrival. */
  function Remaining(edits: seq<Edit>): seq<FscCommand> {
    if edits == [] then []
    else
      var h := Remaining(edits[..|edits| - 1]);
      match edits[|edits| - 1]
      case Add(x) => h + [x]
      case Drop(s) => Without(h, s)
  }

  // ---- insertion ----

  lemma {:induction false} InsertMembers(l: seq<FscCommand>, x: FscCommand)
    ensures |Insert(l, x)| == |l| + 1
    ensures forall k :: 0 <= k < |Insert(l, x)| ==> Insert(l, x)[k] == x || Insert(l, x)[k] in l
  {
    if l != [] && x.absCycle >= l[0].absCycle {
      InsertMembers(l[1..], x);
    }
  }

  lemma {:induction false} InsertKeepsSorted(l: seq<FscCommand>, x: FscCommand)
    requires Sorted(l)
    ensures Sorted(Insert(l, x))
  {
    if l != [] && x.absCycle >= l[0].absCycle {
      InsertKeepsSorted(l[1..], x);
      InsertMembers(l[1..], x);
      var r := Insert(l[1..], x);
      forall k | 0 <= k < |r| ensures l[0].absCycle <= r[k].absCycle {
        assert r[k] == x || r[k] in l[1..];
      }
    }
  }

  lemma {:induction false} AtOutside(l: seq<FscCommand>, t: nat)
    requires forall k :: 0 <= k < |l| ==> l[k].absCycle != t
    ensures At(l, t) == []
  {
    if l != [] {
      AtOutside(l[1..], t);
    }
  }

  lemma {:induction false} AtAppend(a: seq<FscCommand>, b: seq<FscCommand>, t: nat)
    ensures At(a + b, t) == At(a, t) + At(b, t)
  {
    if a == [] {
      assert a + b == b;
    } else {
      var head := if a[0].absCycle == t then [a[0]] else [];
      assert (a + b)[0] == a[0] && (a + b)[1..] == a[1..] + b;
      AtAppend(a[1..], b, t);
      assert head + (At(a[1..], t) + At(b, t)) == (head + At(a[1..], t)) + At(b, t);
    }
  }

  lemma AtCons(x: FscCommand, l: seq<FscCommand>, t: nat)
    ensures At([x] + l, t) == At([x], t) + At(l, t)
  {
    AtAppend([x], l, t);
  }

  lemma Associative<T>(a: seq<T>, b: seq<T>, c: seq<T>)
    ensures a + (b + c) == (a + b) + c
  {
  }

  lemma {:induction false} AtInsert(l: seq<FscCommand>, x: FscCommand, t: nat)
    requires Sorted(l)
    ensures At(Insert(l, x), t) == At(l, t) + At([x], t)
  {
    if l != [] {
      if x.absCycle < l[0].absCycle {
        AtCons(x, l, t);
        if t == x.absCycle {
          AtOutside(l, t);
        } else {
          AtOutside([x], t);
        }
      } else {
        AtInsert(l[1..], x, t);
        AtCons(l[0], Insert(l[1..], x), t);
        AtCons(l[0], l[1..], t);
        assert [l[0]] + l[1..] == l;
        Associative(At([l[0]], t), At(l[1..], t), At([x], t));
      }
    }
  }

  /** Adding a command keeps the list a stable sort of all commands added so far. */
  lemma InsertKeepsStableSort(l: seq<FscCommand>, history: seq<FscCommand>, x: FscCommand)
    requires IsStableSort(l, history)
    ensures IsStableSort(Insert(l, x), history + [x])
  {
    InsertKeepsSorted(l, x);
    forall t: nat ensures At(Insert(l, x), t) == At(history + [x], t) {
      AtInsert(l, x, t);
      AtAppend(history, [x], t);
    }
  }

  lemma InsertAllNext(l: seq<FscCommand>, xs: seq<FscCommand>, x: FscCommand)
    ensures InsertAll(l, xs + [x]) == Insert(InsertAll(l, xs), x)
  {
    assert (xs + [x])[..|xs|] == xs;
  }

  lemma {:induction false} InsertAllSorted(l: seq<FscCommand>, xs: seq<FscCommand>)
    requires Sorted(l)
    ensures Sorted(InsertAll(l, xs))
  {
    if xs != [] {
      InsertAllSorted(l, xs[..|xs| - 1]);
      InsertKeepsSorted(InsertAll(l, xs[..|xs| - 1]), xs[|xs| - 1]);
    }
  }

  lemma {:induction false} InsertAllMembers(l: seq<FscCommand>, xs: seq<FscCommand>)
    ensures |InsertAll(l, xs)| == |l| + |xs|
    ensures forall k :: 0 <= k < |InsertAll(l, xs)| ==> InsertAll(l, xs)[k] in xs || InsertAll(l, xs)[k] in l
  {
    if xs != [] {
      var n := |xs| - 1;
      InsertAllMembers(l, xs[..n]);
      InsertMembers(InsertAll(l, xs[..n]), xs[n]);
      assert xs == xs[..n] + [xs[n]];
    }
  }

  lemma {:induction false} InsertAddsOne(l: seq<FscCommand>, x: FscCommand)
    ensures multiset(Insert(l, x)) == multiset(l) + multiset{x}
  {
    if l != [] {
      assert l == [l[0]] + l[1..];
      if x.absCycle >= l[0].absCycle {
        InsertAddsOne(l[1..], x);
      }
    }
  }

  lemma SumAssociative<T>(a: multiset<T>, b: multiset<T>, c: multiset<T>)
    ensures a + b + c == a + (b + c)
  {
  }

  /** The list gains exactly the commands inserted. */
  lemma {:induction false} InsertAllAdds(l: seq<FscCommand>, xs: seq<FscCommand>)
    ensures multiset(InsertAll(l, xs)) == multiset(l) + multiset(xs)
  {
    if xs != [] {
      var n := |xs| - 1;
      InsertAllAdds(l, xs[..n]);
      InsertAddsOne(InsertAll(l, xs[..n]), xs[n]);
      assert multiset(xs) == multiset(xs[..n]) + multiset{xs[n]} by {
        assert xs == xs[..n] + [xs[n]];
      }
      SumAssociative(multiset(l), multiset(xs[..n]), multiset{xs[n]});
    }
  }

  lemma InsertAllHolds(l: seq<FscCommand>, xs: seq<FscCommand>, x: FscCommand)
    ensures x in InsertAll(l, xs) <==> x in l || x in xs
  {
    InsertAllAdds(l, xs);
    assert x in InsertAll(l, xs) <==> x in multiset(InsertAll(l, xs));
    assert x in l <==> x in multiset(l);
    assert x in xs <==> x in multiset(xs);
  }

  /** No two commands of one tick. */
  predicate Strict(l: seq<FscCommand>) {
    forall i, j :: 0 <= i < j < |l| ==> l[i].absCycle < l[j].absCycle
  }

  lemma {:induction false} StrictOnce(l: seq<FscCommand>, x: FscCommand)
    requires Strict(l)
    ensures multiset(l)[x] <= 1
  {
    if l != [] {
      StrictOnce(l[1..], x);
      assert l == [l[0]] + l[1..];
      if l[0] == x {
        assert x !in l[1..];
        assert x !in multiset(l[1..]);
      }
    }
  }

  lemma TwiceInMultiset(xs: seq<FscCommand>, p: nat, q: nat)
    requires p < q < |xs| && xs[p] == xs[q]
    ensures multiset(xs)[xs[p]] >= 2
  {
    assert xs == xs[..q] + xs[q..];
    assert xs[p] in xs[..q] && xs[p] in xs[q..];
    assert xs[p] in multiset(xs[..q]) && xs[p] in multiset(xs[q..]);
  }

  /** Two different ones of the inserted commands are at different places of a strict list. */
  lemma InsertedPlaces(l: seq<FscCommand>, xs: seq<FscCommand>, p: nat, q: nat) returns (i: nat, j: nat)
    requires p < q < |xs| && Strict(InsertAll(l, xs))
    ensures i < |InsertAll(l, xs)| && j < |InsertAll(l, xs)| && i != j
    ensures InsertAll(l, xs)[i] == xs[p] && InsertAll(l, xs)[j] == xs[q]
  {
    var r := InsertAll(l, xs);
    InsertAllAdds(l, xs);
    InsertAllHolds(l, xs, xs[p]);
    InsertAllHolds(l, xs, xs[q]);
    i :| 0 <= i < |r| && r[i] == xs[p];
    j :| 0 <= j < |r| && r[j] == xs[q];
    if xs[p] == xs[q] {
      TwiceInMultiset(xs, p, q);
      StrictOnce(r, xs[p]);
      assert false;
    }
  }

  // ---- removal ----

  lemma {:induction false} WithoutMembers(l: seq<FscCommand>, s: ScheduleEntry?)
    ensures forall k :: 0 <= k < |Without(l, s)| ==> Without(l, s)[k] in l && Without(l, s)[k].schedule != s
  {
    if l != [] {
      WithoutMembers(l[1..], s);
    }
  }

  lemma {:induction false} WithoutKeepsSorted(l: seq<FscCommand>, s: ScheduleEntry?)
    requires Sorted(l)
    ensures Sorted(Without(l, s))
  {
    if l != [] {
      WithoutKeepsSorted(l[1..], s);
      WithoutMembers(l[1..], s);
      var r := Without(l[1..], s);
      forall k | 0 <= k < |r| ensures l[0].absCycle <= r[k].absCycle {
        assert r[k] in l[1..];
      }
    }
  }

  lemma {:induction false} AtWithout(l: seq<FscCommand>, s: ScheduleEntry?, t: nat)
    ensures At(Without(l, s), t) == Without(At(l, t), s)
  {
    if l != [] {
      AtWithout(l[1..], s, t);
      var kept := if l[0].schedule == s then [] else [l[0]];
      var here := if l[0].absCycle == t then [l[0]] else [];
      AtAppend(kept, Without(l[1..], s), t);
      WithoutAppend(here, At(l[1..], t), s);
      assert [l[0]][1..] == [];
      assert At(kept, t) == Without(here, s);
    }
  }

  lemma {:induction false} WithoutAppend(a: seq<FscCommand>, b: seq<FscCommand>, s: ScheduleEntry?)
    ensures Without(a + b, s) == Without(a, s) + Without(b, s)
  {
    if a == [] {
      assert a + b == b;
    } else {
      assert (a + b)[1..] == a[1..] + b;
      WithoutAppend(a[1..], b, s);
    }
  }

  lemma WithoutKeepsStableSort(l: seq<FscCommand>, history: seq<FscCommand>, s: ScheduleEntry?)
    requires IsStableSort(l, history)
    ensures IsStableSort(Without(l, s), Without(history, s))
  {
    WithoutKeepsSorted(l, s);
    forall t: nat ensures At(Without(l, s), t) == At(Without(history, s), t) {
      AtWithout(l, s, t);
      AtWithout(history, s, t);
    }
  }

  /** Over any run of additions and withdrawals the list is the stable sort of what remains. */
  lemma {:induction false} RunIsStableSort(edits: seq<Edit>)
    ensures IsStableSort(RunEdits(edits), Remaining(edits))
  {
    if edits != [] {
      var before := edits[..|edits| - 1];
      RunIsStableSort(before);
      match edits[|edits| - 1]
      case Add(x) => InsertKeepsStableSort(RunEdits(before), Remaining(before), x);
      case Drop(s) => WithoutKeepsStableSort(RunEdits(before), Remaining(before), s);
    }
  }

  lemma FirstOfTick(l: seq<FscCommand>, m: seq<FscCommand>)
    requires Sorted(l) && Sorted(m) && l != []
    requires forall t: nat :: At(l, t) == At(m, t)
    ensures m != [] && m[0].absCycle <= l[0].absCycle
  {
    var t := l[0].absCycle;
    assert At(l, t) == At(m, t) && |At(l, t)| > 0;
    if forall k :: 0 <= k < |m| ==> m[k].absCycle != t {
      AtOutside(m, t);
      assert false;
    }
  }

  /** The stable sort is unique: sorted lists with the same commands on every tick are equal. */
  lemma {:induction false} StableSortUnique(a: seq<FscCommand>, b: seq<FscCommand>)
    requires Sorted(a) && Sorted(b)
    requires forall t: nat :: At(a, t) == At(b, t)
    ensures a == b
  {
    if a == [] {
      if b != [] {
        FirstOfTick(b, a);
      }
    } else {
      FirstOfTick(a, b);
      FirstOfTick(b, a);
      assert At(a, a[0].absCycle)[0] == a[0];
      assert At(b, b[0].absCycle)[0] == b[0];
      forall t: nat ensures At(a[1..], t) == At(b[1..], t) {
        assert At(a, t) == At(b, t);
        assert At(a[1..], t) == if a[0].absCycle == t then At(a, t)[1..] else At(a, t);
        assert At(b[1..], t) == if b[0].absCycle == t then At(b, t)[1..] else At(b, t);
      }
      StableSortUnique(a[1..], b[1..]);
      assert a == [a[0]] + a[1..] && b == [b[0]] + b[1..];
    }
  }

  lemma {:induction false} WithoutInsert(l: seq<FscCommand>, x: FscCommand, s: ScheduleEntry?)
    requires x.schedule == s
    ensures Without(Insert(l, x), s) == Without(l, s)
  {
    if l == [] {
    } else if x.absCycle < l[0].absCycle {
      assert ([x] + l)[1..] == l;
    } else {
      WithoutInsert(l[1..], x, s);
      assert ([l[0]] + Insert(l[1..], x))[1..] == Insert(l[1..], x);
    }
  }

  lemma {:induction false} WithoutForeign(l: seq<FscCommand>, s: ScheduleEntry?)
    requires forall k :: 0 <= k < |l| ==> l[k].schedule != s
    ensures Without(l, s) == l
  {
    if l != [] {
      WithoutForeign(l[1..], s);
    }
  }

  /** Rollback: however many commands of a new schedule were created, withdrawing the
      schedule gives the original list back. */
  lemma {:induction false} Rollback(l: seq<FscCommand>, created: seq<FscCommand>, s: ScheduleEntry?)
    requires forall k :: 0 <= k < |l| ==> l[k].schedule != s
    requires forall k :: 0 <= k < |created| ==> created[k].schedule == s
    ensures Without(InsertAll(l, created), s) == l
  {
    if created == [] {
      WithoutForeign(l, s);
    } else {
      var n := |created| - 1;
      Rollback(l, created[..n], s);
      WithoutInsert(InsertAll(l, created[..n]), created[n], s);
    }
  }

  // ---- the operations on the module ----

  lemma {:induction false} InsertAtPosition(l: seq<FscCommand>, x: FscCommand, i: nat)
    requires i <= |l|
    requires forall k :: 0 <= k < i ==> l[k].absCycle <= x.absCycle
    requires i < |l| ==> x.absCycle < l[i].absCycle
    ensures Insert(l, x) == l[..i] + [x] + l[i..]
  {
    if i > 0 {
      InsertAtPosition(l[1..], x, i - 1);
      assert l[1..][..i - 1] == l[1..i] && l[1..][i - 1..] == l[i..];
      assert [l[0]] + l[1..i] == l[..i];
    }
  }

  method AddFscToModuleSorted(m: AcmModule, x: FscCommand)
    requires Sorted(m.fscList)
    modifies m`fscList
    ensures m.fscList == Insert(old(m.fscList), x)
    ensures Sorted(m.fscList)
  {
    InsertKeepsSorted(m.fscList, x);
    if m.fscList == [] {
      m.fscList := [x];
      return;
    }
    var last := m.fscList[|m.fscList| - 1];
    if x.absCycle >= last.absCycle {
      InsertAtPosition(m.fscList, x, |m.fscList|);
      m.fscList := m.fscList + [x];
      return;
    }
    var i := 0;
    while i < |m.fscList|
      invariant i < |m.fscList|
      invariant m.fscList == old(m.fscList)
      invariant forall k :: 0 <= k < i ==> m.fscList[k].absCycle <= x.absCycle
    {
      if x.absCycle < m.fscList[i].absCycle {
        InsertAtPosition(m.fscList, x, i);
        m.fscList := m.fscList[..i] + [x] + m.fscList[i..];
        return;
      }
      i := i + 1;
    }
  }

  lemma {:induction false} WithoutNext(l: seq<FscCommand>, seen: nat, s: ScheduleEntry?)
    requires seen < |l|
    ensures Without(l[..seen + 1], s) == Without(l[..seen], s) + if l[seen].schedule == s then [] else [l[seen]]
  {
    assert l[..seen + 1] == l[..seen] + [l[seen]];
    WithoutAppend(l[..seen], [l[seen]], s);
    assert [l[seen]][1..] == [];
  }

  /** `cur` is what the removal has kept of the first `seen` commands, then the rest. */
  ghost predicate Removing(cur: seq<FscCommand>, i: nat, l: seq<FscCommand>, seen: nat, s: ScheduleEntry?) {
    i <= |cur| && seen <= |l| && cur[..i] == Without(l[..seen], s) && cur[i..] == l[seen..]
  }

  lemma RemoveStep(cur: seq<FscCommand>, i: nat, l: seq<FscCommand>, seen: nat, s: ScheduleEntry?)
    requires Removing(cur, i, l, seen, s) && i < |cur|
    ensures cur[i].schedule == s ==> Removing(cur[..i] + cur[i + 1..], i, l, seen + 1, s)
    ensures cur[i].schedule != s ==> Removing(cur, i + 1, l, seen + 1, s)
    ensures seen < |l|
  {
    assert |cur[i..]| == |l[seen..]| && cur[i..][0] == l[seen..][0];
    assert cur[i..][1..] == l[seen..][1..];
    WithoutNext(l, seen, s);
    assert (cur[..i] + cur[i + 1..])[..i] == cur[..i];
    assert (cur[..i] + cur[i + 1..])[i..] == cur[i + 1..];
    assert cur[..i + 1] == cur[..i] + [cur[i]];
  }

  method RemoveScheduleSysfsItemsSchedule(s: ScheduleEntry?, m: AcmModule)
    modifies m`fscList
    ensures m.fscList == Without(old(m.fscList), s)
  {
    ghost var l, seen := m.fscList, 0;
    var i := 0;
    while i < |m.fscList|
      invariant Removing(m.fscList, i, l, seen, s)
      decreases |l| - seen
    {
      RemoveStep(m.fscList, i, l, seen, s);
      var item := m.fscList[i];
      if item.schedule == s {
        m.fscList := m.fscList[..i] + m.fscList[i + 1..];
      } else {
        i := i + 1;
      }
      seen := seen + 1;
    }
    assert l[seen..] == [] && l[..seen] == l;
    assert m.fscList[..i] == m.fscList;
  }
}
