/** The reception windows that the scheduler keeps while it executes a command list again and
    again, and that they are the requested ones. */
module Windows {
  import opened Entities
  import opened Arith
  import opened Actions
  import opened FscList
  import opened Expansion
  import opened SchedTable

  // ---- the state of a rule's window ----

  predicate Edge(cmd: SchedCmd, rule: nat) {
    Does(cmd, OpenWindow(rule)) || Does(cmd, CloseWindow(rule))
  }

  /** Whether the window of `rule` is open after the first `n` commands. */
  function IsOpen(tl: seq<(nat, SchedCmd)>, rule: nat, n: nat, before: bool): bool
    requires n <= |tl|
  {
    if n == 0 then before
    else if Edge(tl[n - 1].1, rule) then !Does(tl[n - 1].1, CloseWindow(rule))
    else IsOpen(tl, rule, n - 1, before)
  }

  /** Number of commands that have been executed when tick `t` is over. */
  function Due(tl: seq<(nat, SchedCmd)>, t: nat): (n: nat)
    ensures n <= |tl|
  {
    if tl == [] then 0
    else if tl[|tl| - 1].0 <= t then |tl|
    else Due(tl[..|tl| - 1], t)
  }

  /** The window of `rule` is open in tick `t` of every cycle but the first. */
  predicate OpenAt(tl: seq<(nat, SchedCmd)>, rule: nat, t: nat) {
    IsOpen(tl, rule, Due(tl, t), IsOpen(tl, rule, |tl|, false))
  }

  predicate InOrder(tl: seq<(nat, SchedCmd)>) {
    forall i, j :: 0 <= i < j < |tl| ==> tl[i].0 < tl[j].0
  }

  lemma {:induction false} DueSplits(tl: seq<(nat, SchedCmd)>, t: nat)
    requires InOrder(tl)
    ensures forall k :: 0 <= k < |tl| ==> (tl[k].0 <= t <==> k < Due(tl, t))
  {
    if tl != [] && tl[|tl| - 1].0 > t {
      var front := tl[..|tl| - 1];
      DueSplits(front, t);
      assert forall k :: 0 <= k < |front| ==> front[k] == tl[k];
    }
  }

  /** The last edge decides. */
  lemma {:induction false} LastEdgeDecides(tl: seq<(nat, SchedCmd)>, rule: nat, n: nat, before: bool, k: nat)
    requires k < n <= |tl| && Edge(tl[k].1, rule)
    requires forall j :: k < j < n ==> !Edge(tl[j].1, rule)
    ensures IsOpen(tl, rule, n, before) == !Does(tl[k].1, CloseWindow(rule))
  {
    if k < n - 1 {
      LastEdgeDecides(tl, rule, n - 1, before, k);
    }
  }

  lemma {:induction false} NoEdgeKeeps(tl: seq<(nat, SchedCmd)>, rule: nat, n: nat, before: bool)
    requires n <= |tl| && forall j :: 0 <= j < n ==> !Edge(tl[j].1, rule)
    ensures IsOpen(tl, rule, n, before) == before
  {
    if n > 0 {
      NoEdgeKeeps(tl, rule, n - 1, before);
    }
  }

  /** The last edge among the first `n` commands, -1 if there is none. */
  lemma {:induction false} FindLastEdge(tl: seq<(nat, SchedCmd)>, rule: nat, n: nat) returns (k: int)
    requires n <= |tl|
    ensures -1 <= k < n && (k >= 0 ==> Edge(tl[k].1, rule))
    ensures forall j :: k < j < n ==> !Edge(tl[j].1, rule)
  {
    if n == 0 {
      k := -1;
    } else if Edge(tl[n - 1].1, rule) {
      k := n - 1;
    } else {
      k := FindLastEdge(tl, rule, n - 1);
    }
  }

  // ---- windows round the cycle ----

  /** A window that opens in the cycle and closes in this one or in the next one. */
  datatype Window = Window(open: int, close: int)

  predicate Proper(w: Window, cycleTicks: nat) {
    0 <= w.open < cycleTicks && w.open < w.close < w.open + cycleTicks
  }

  /** The tick of the cycle at which it closes. */
  function ClosesAt(w: Window, cycleTicks: nat): int {
    if w.close >= cycleTicks then w.close - cycleTicks else w.close
  }

  predicate Inside(w: Window, t: nat, cycleTicks: nat) {
    w.open <= t < w.close || w.open <= t + cycleTicks < w.close
  }

  /** Tick `x` lies strictly between the edges. */
  predicate Within(w: Window, x: int, cycleTicks: nat) {
    w.open < x < w.close || w.open < x + cycleTicks < w.close
  }

  /** No edge lies within a window. */
  ghost predicate Separate(ws: seq<Window>, cycleTicks: nat) {
    && (forall i {:trigger ws[i]} :: 0 <= i < |ws| ==> Proper(ws[i], cycleTicks))
    && (forall i, j {:trigger ws[i], ws[j]} :: 0 <= i < |ws| && 0 <= j < |ws| ==>
          !Within(ws[i], ws[j].open, cycleTicks) && !Within(ws[i], ClosesAt(ws[j], cycleTicks), cycleTicks))
  }

  predicate OpensIt(x: (nat, SchedCmd), rule: nat, w: Window) {
    Does(x.1, OpenWindow(rule)) && !x.1.winClose && x.0 == w.open
  }

  predicate ClosesIt(x: (nat, SchedCmd), rule: nat, w: Window, cycleTicks: nat) {
    Does(x.1, CloseWindow(rule)) && !x.1.winOpen && x.0 == ClosesAt(w, cycleTicks)
  }

  ghost predicate IsEdgeOf(x: (nat, SchedCmd), rule: nat, ws: seq<Window>, cycleTicks: nat) {
    exists i :: 0 <= i < |ws| && (OpensIt(x, rule, ws[i]) || ClosesIt(x, rule, ws[i], cycleTicks))
  }

  ghost predicate HasEdges(tl: seq<(nat, SchedCmd)>, rule: nat, w: Window, cycleTicks: nat) {
    && (exists k :: 0 <= k < |tl| && OpensIt(tl[k], rule, w))
    && (exists k :: 0 <= k < |tl| && ClosesIt(tl[k], rule, w, cycleTicks))
  }

  /** The edges of the rule are those of the windows, one by one. */
  ghost predicate EdgesOf(tl: seq<(nat, SchedCmd)>, rule: nat, ws: seq<Window>, cycleTicks: nat) {
    && InOrder(tl)
    && (forall k {:trigger tl[k]} :: 0 <= k < |tl| && Edge(tl[k].1, rule) ==> IsEdgeOf(tl[k], rule, ws, cycleTicks))
    && (forall i {:trigger ws[i]} :: 0 <= i < |ws| ==> HasEdges(tl, rule, ws[i], cycleTicks))
  }

  /** The window that an edge belongs to. */
  lemma {:induction false} WindowOfEdge(tl: seq<(nat, SchedCmd)>, rule: nat, ws: seq<Window>, cycleTicks: nat, k: nat)
    returns (i: nat)
    requires EdgesOf(tl, rule, ws, cycleTicks) && k < |tl| && Edge(tl[k].1, rule)
    ensures i < |ws| && (OpensIt(tl[k], rule, ws[i]) || ClosesIt(tl[k], rule, ws[i], cycleTicks))
  {
    assert IsEdgeOf(tl[k], rule, ws, cycleTicks);
    i :| 0 <= i < |ws| && (OpensIt(tl[k], rule, ws[i]) || ClosesIt(tl[k], rule, ws[i], cycleTicks));
  }

  lemma {:induction false} EdgeNotWithin(tl: seq<(nat, SchedCmd)>, rule: nat, ws: seq<Window>, cycleTicks: nat, i: nat,
                                         j: nat)
    requires EdgesOf(tl, rule, ws, cycleTicks) && Separate(ws, cycleTicks) && i < |ws| && j < |tl|
    ensures Edge(tl[j].1, rule) ==> tl[j].0 < cycleTicks && !Within(ws[i], tl[j].0, cycleTicks)
  {
    if Edge(tl[j].1, rule) {
      var m := WindowOfEdge(tl, rule, ws, cycleTicks, j);
      assert Proper(ws[m], cycleTicks);
    }
  }

  /** A command within a window is no edge. */
  lemma {:induction false} NoEdgeWithin(tl: seq<(nat, SchedCmd)>, rule: nat, ws: seq<Window>, cycleTicks: nat, i: nat,
                                        j: nat)
    requires EdgesOf(tl, rule, ws, cycleTicks) && Separate(ws, cycleTicks)
    requires i < |ws| && j < |tl| && (tl[j].0 < cycleTicks ==> Within(ws[i], tl[j].0, cycleTicks))
    ensures !Edge(tl[j].1, rule)
  {
    EdgeNotWithin(tl, rule, ws, cycleTicks, i, j);
  }

  /** The opening edge of a window, and what commands lie behind it in time. */
  lemma {:induction false} OpeningAt(tl: seq<(nat, SchedCmd)>, rule: nat, ws: seq<Window>, cycleTicks: nat, i: nat)
    returns (k: nat)
    requires EdgesOf(tl, rule, ws, cycleTicks) && Separate(ws, cycleTicks) && i < |ws|
    ensures k < |tl| && tl[k].0 == ws[i].open && Proper(ws[i], cycleTicks)
    ensures Edge(tl[k].1, rule) && !Does(tl[k].1, CloseWindow(rule))
    ensures forall j :: 0 <= j < |tl| ==> (k < j <==> ws[i].open < tl[j].0)
  {
    assert HasEdges(tl, rule, ws[i], cycleTicks) && Proper(ws[i], cycleTicks);
    k :| 0 <= k < |tl| && OpensIt(tl[k], rule, ws[i]);
  }

  lemma {:induction false} OpenInThisCycle(tl: seq<(nat, SchedCmd)>, rule: nat, ws: seq<Window>, cycleTicks: nat,
                                           i: nat, t: nat)
    requires EdgesOf(tl, rule, ws, cycleTicks) && Separate(ws, cycleTicks)
    requires i < |ws| && ws[i].open <= t < ws[i].close
    ensures OpenAt(tl, rule, t)
  {
    DueSplits(tl, t);
    var k := OpeningAt(tl, rule, ws, cycleTicks, i);
    forall j | k < j < Due(tl, t) ensures !Edge(tl[j].1, rule) {
      NoEdgeWithin(tl, rule, ws, cycleTicks, i, j);
    }
    LastEdgeDecides(tl, rule, Due(tl, t), IsOpen(tl, rule, |tl|, false), k);
  }

  lemma {:induction false} OpenSinceLastCycle(tl: seq<(nat, SchedCmd)>, rule: nat, ws: seq<Window>, cycleTicks: nat,
                                              i: nat, t: nat)
    requires EdgesOf(tl, rule, ws, cycleTicks) && Separate(ws, cycleTicks)
    requires i < |ws| && t < cycleTicks && ws[i].open <= t + cycleTicks < ws[i].close
    ensures OpenAt(tl, rule, t)
  {
    DueSplits(tl, t);
    var k := OpeningAt(tl, rule, ws, cycleTicks, i);
    forall j | 0 <= j < Due(tl, t) ensures !Edge(tl[j].1, rule) {
      NoEdgeWithin(tl, rule, ws, cycleTicks, i, j);
    }
    forall j | k < j < |tl| ensures !Edge(tl[j].1, rule) {
      NoEdgeWithin(tl, rule, ws, cycleTicks, i, j);
    }
    NoEdgeKeeps(tl, rule, Due(tl, t), IsOpen(tl, rule, |tl|, false));
    LastEdgeDecides(tl, rule, |tl|, false, k);
  }

  /** Inside one of the windows the rule's window is open. */
  lemma {:induction false} OpenInside(tl: seq<(nat, SchedCmd)>, rule: nat, ws: seq<Window>, cycleTicks: nat, i: nat,
                                      t: nat)
    requires EdgesOf(tl, rule, ws, cycleTicks) && Separate(ws, cycleTicks)
    requires i < |ws| && t < cycleTicks && Inside(ws[i], t, cycleTicks)
    ensures OpenAt(tl, rule, t)
  {
    if ws[i].open <= t < ws[i].close {
      OpenInThisCycle(tl, rule, ws, cycleTicks, i, t);
    } else {
      OpenSinceLastCycle(tl, rule, ws, cycleTicks, i, t);
    }
  }

  /** The window that an opening edge belongs to closes at an edge too. */
  lemma {:induction false} OpeningEdge(tl: seq<(nat, SchedCmd)>, rule: nat, ws: seq<Window>, cycleTicks: nat, k: nat)
    returns (i: nat, close: nat)
    requires EdgesOf(tl, rule, ws, cycleTicks) && Separate(ws, cycleTicks)
    requires k < |tl| && Edge(tl[k].1, rule) && !Does(tl[k].1, CloseWindow(rule))
    ensures i < |ws| && tl[k].0 == ws[i].open && Proper(ws[i], cycleTicks)
    ensures close < |tl| && Edge(tl[close].1, rule) && tl[close].0 == ClosesAt(ws[i], cycleTicks)
    ensures close != k
  {
    i := WindowOfEdge(tl, rule, ws, cycleTicks, k);
    assert HasEdges(tl, rule, ws[i], cycleTicks) && Proper(ws[i], cycleTicks);
    close :| 0 <= close < |tl| && ClosesIt(tl[close], rule, ws[i], cycleTicks);
  }

  /** And it is open nowhere else. */
  lemma {:induction false} InsideWhenOpen(tl: seq<(nat, SchedCmd)>, rule: nat, ws: seq<Window>, cycleTicks: nat, t: nat)
    returns (i: nat)
    requires EdgesOf(tl, rule, ws, cycleTicks) && Separate(ws, cycleTicks)
    requires t < cycleTicks && OpenAt(tl, rule, t)
    ensures i < |ws| && Inside(ws[i], t, cycleTicks)
  {
    var n, close := Due(tl, t), 0;
    DueSplits(tl, t);
    var before := IsOpen(tl, rule, |tl|, false);
    var k := FindLastEdge(tl, rule, n);
    if k >= 0 {
      LastEdgeDecides(tl, rule, n, before, k);
      i, close := OpeningEdge(tl, rule, ws, cycleTicks, k);
      assert ws[i].close > t;
    } else {
      NoEdgeKeeps(tl, rule, n, before);
      k := FindLastEdge(tl, rule, |tl|);
      if k < 0 {
        NoEdgeKeeps(tl, rule, |tl|, false);
        assert false;
      } else {
        LastEdgeDecides(tl, rule, |tl|, false, k);
        i, close := OpeningEdge(tl, rule, ws, cycleTicks, k);
        assert tl[k].0 > t;
        assert close <= k && close >= n;
      }
    }
  }

  /** If no edge lies within a window, the rule's window is open in exactly the ticks of the
      windows, whatever else the list does. */
  lemma {:induction false} OpenExactlyInside(tl: seq<(nat, SchedCmd)>, rule: nat, ws: seq<Window>, cycleTicks: nat,
                                             t: nat)
    requires EdgesOf(tl, rule, ws, cycleTicks) && Separate(ws, cycleTicks) && t < cycleTicks
    ensures OpenAt(tl, rule, t) <==> exists i :: 0 <= i < |ws| && Inside(ws[i], t, cycleTicks)
  {
    if OpenAt(tl, rule, t) {
      var i := InsideWhenOpen(tl, rule, ws, cycleTicks, t);
      assert Inside(ws[i], t, cycleTicks);
    }
    if exists i :: 0 <= i < |ws| && Inside(ws[i], t, cycleTicks) {
      var i :| 0 <= i < |ws| && Inside(ws[i], t, cycleTicks);
      OpenInside(tl, rule, ws, cycleTicks, i, t);
    }
  }
}
