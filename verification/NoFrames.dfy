/** The clear-on-read flags "no frame received" and their cache, which diagnostics and
    recovery share, and the accumulation of diagnostic counters. */
module NoFrames {
  import opened Arith

  // ---- the flags ----

  /** Atomic steps: the hardware raises flags; somebody reads the register, which clears it;
      recovery takes one rule's flag out of the cache; diagnostics hands out its own copy. */
  datatype FlagEvent = Raise(rules: set<nat>) | Fetch | Take(rule: nat) | DiagReset

  datatype Flags = Flags(register: set<nat>, cache: set<nat>, diag: set<nat>)

  function Next(f: Flags, e: FlagEvent): Flags {
    match e
    case Raise(rules) => f.(register := f.register + rules)
    case Fetch => Flags({}, f.cache + f.register, f.diag + f.register)
    case Take(rule) => f.(cache := f.cache - {rule})
    case DiagReset => f.(diag := {})
  }

  function Run(es: seq<FlagEvent>): Flags {
    if es == [] then Flags({}, {}, {}) else Next(Run(es[..|es| - 1]), es[|es| - 1])
  }

  // ---- what became of one raised flag ----

  predicate RaisedAt(es: seq<FlagEvent>, i: int, rule: nat) {
    0 <= i < |es| && es[i].Raise? && rule in es[i].rules
  }

  predicate FetchedAfter(es: seq<FlagEvent>, i: int) {
    exists j :: 0 <= i < j < |es| && es[j].Fetch?
  }

  /** The flag raised at `i` was fetched and then taken. */
  predicate TakenAfter(es: seq<FlagEvent>, i: int, rule: nat) {
    exists j, k :: 0 <= i < j < k < |es| && es[j].Fetch? && es[k] == Take(rule)
  }

  /** Some flag was raised that no read has reported. */
  ghost predicate Outstanding(es: seq<FlagEvent>, rule: nat) {
    exists i :: RaisedAt(es, i, rule) && !TakenAfter(es, i, rule)
  }

  /** Some flag was raised and fetched that no read has reported. */
  ghost predicate Reportable(es: seq<FlagEvent>, rule: nat) {
    exists i :: RaisedAt(es, i, rule) && FetchedAfter(es, i) && !TakenAfter(es, i, rule)
  }

  ghost predicate Unfetched(es: seq<FlagEvent>, rule: nat) {
    exists i :: RaisedAt(es, i, rule) && !FetchedAfter(es, i)
  }

  lemma SnocRaisedAt(es: seq<FlagEvent>, i: int, rule: nat)
    requires es != []
    ensures RaisedAt(es, i, rule) <==>
      RaisedAt(es[..|es| - 1], i, rule) || (i == |es| - 1 && es[i].Raise? && rule in es[i].rules)
  {
  }

  lemma SnocFetchedAfter(es: seq<FlagEvent>, i: int)
    requires es != [] && 0 <= i < |es|
    ensures FetchedAfter(es, i) <==> FetchedAfter(es[..|es| - 1], i) || (i < |es| - 1 && es[|es| - 1].Fetch?)
  {
    var front := es[..|es| - 1];
    if FetchedAfter(front, i) {
      var j :| 0 <= i < j < |front| && front[j].Fetch?;
      assert es[j].Fetch?;
    }
    if FetchedAfter(es, i) {
      var j :| 0 <= i < j < |es| && es[j].Fetch?;
      assert j < |front| ==> front[j].Fetch?;
    }
  }

  lemma SnocTakenAfter(es: seq<FlagEvent>, i: int, rule: nat)
    requires es != [] && 0 <= i < |es|
    ensures TakenAfter(es, i, rule) <==>
      TakenAfter(es[..|es| - 1], i, rule) || (es[|es| - 1] == Take(rule) && FetchedAfter(es[..|es| - 1], i))
  {
    var front := es[..|es| - 1];
    if TakenAfter(front, i, rule) {
      var j, k :| 0 <= i < j < k < |front| && front[j].Fetch? && front[k] == Take(rule);
      assert es[j].Fetch? && es[k] == Take(rule);
    }
    if es[|es| - 1] == Take(rule) && FetchedAfter(front, i) {
      var j :| 0 <= i < j < |front| && front[j].Fetch?;
      assert es[j].Fetch?;
    }
    if TakenAfter(es, i, rule) {
      var j, k :| 0 <= i < j < k < |es| && es[j].Fetch? && es[k] == Take(rule);
      assert front[j].Fetch?;
      assert k < |front| ==> front[k] == Take(rule);
    }
  }

  /** One more event changes the three conditions as it changes the flags. */
  lemma SnocConditions(es: seq<FlagEvent>, rule: nat)
    requires es != []
    ensures var front, e := es[..|es| - 1], es[|es| - 1];
      && (Unfetched(es, rule) <==> !e.Fetch? && (Unfetched(front, rule) || (e.Raise? && rule in e.rules)))
      && (Reportable(es, rule) <==>
          (Reportable(front, rule) || (e.Fetch? && Unfetched(front, rule))) && e != Take(rule))
  {
    var front, e := es[..|es| - 1], es[|es| - 1];
    var n := |front|;
    forall i | 0 <= i < |es|
      ensures RaisedAt(es, i, rule) <==> RaisedAt(front, i, rule) || (i == n && e.Raise? && rule in e.rules)
      ensures FetchedAfter(es, i) <==> FetchedAfter(front, i) || (i < n && e.Fetch?)
      ensures TakenAfter(es, i, rule) <==> TakenAfter(front, i, rule) || (e == Take(rule) && FetchedAfter(front, i))
      ensures TakenAfter(front, i, rule) ==> FetchedAfter(front, i)
    {
      SnocRaisedAt(es, i, rule);
      SnocFetchedAfter(es, i);
      SnocTakenAfter(es, i, rule);
    }
    assert e.Raise? && rule in e.rules ==> RaisedAt(es, n, rule);
  }

  /** After any interleaving of raises, polls and reads: the register holds the flags nobody
      has fetched, and the cache those that were fetched and that no read has reported. */
  lemma {:induction false} FlagsOfRun(es: seq<FlagEvent>, rule: nat)
    ensures rule in Run(es).register <==> Unfetched(es, rule)
    ensures rule in Run(es).cache <==> Reportable(es, rule)
  {
    if es != [] {
      FlagsOfRun(es[..|es| - 1], rule);
      SnocConditions(es, rule);
    }
  }

  /** A read of a rule fetches and later takes its flag. It reports true if some flag was
      raised before it that no read has reported, whatever happens in between. */
  lemma {:induction false} ReadReportsOutstanding(es: seq<FlagEvent>, between: seq<FlagEvent>, rule: nat)
    requires Outstanding(es, rule)
    requires forall k :: 0 <= k < |between| ==> between[k] != Take(rule)
    ensures rule in Run(es + [Fetch] + between).cache
  {
    var all := es + [Fetch] + between;
    if between == [] {
      assert all[..|all| - 1] == es && all == es + [Fetch];
      PendingIsOutstanding(es, rule);
    } else {
      var n := |between| - 1;
      ReadReportsOutstanding(es, between[..n], rule);
      assert all[..|all| - 1] == es + [Fetch] + between[..n];
    }
  }

  lemma PendingIsOutstanding(es: seq<FlagEvent>, rule: nat)
    ensures rule in Run(es).register || rule in Run(es).cache <==> Outstanding(es, rule)
  {
    FlagsOfRun(es, rule);
    if Unfetched(es, rule) {
      var i :| RaisedAt(es, i, rule) && !FetchedAfter(es, i);
      assert RaisedAt(es, i, rule) && !TakenAfter(es, i, rule);
    }
    if Outstanding(es, rule) {
      var i :| RaisedAt(es, i, rule) && !TakenAfter(es, i, rule);
      assert FetchedAfter(es, i) || !FetchedAfter(es, i);
    }
  }

  /** Some flag was raised since the rule was last read. */
  ghost predicate RaisedSinceRead(es: seq<FlagEvent>, rule: nat) {
    exists i :: RaisedAt(es, i, rule) && forall k :: i < k < |es| ==> es[k] != Take(rule)
  }

  /** When every read of the rule is fetch and take at once, a read reports true exactly when
      the flag was raised since the previous read of that rule. */
  lemma AtomicReadReports(es: seq<FlagEvent>, rule: nat)
    requires forall k :: 0 <= k < |es| && es[k] == Take(rule) ==> k > 0 && es[k - 1] == Fetch
    ensures rule in Run(es + [Fetch]).cache <==> RaisedSinceRead(es, rule)
  {
    var all := es + [Fetch];
    assert all[..|all| - 1] == es;
    PendingIsOutstanding(es, rule);
    if Outstanding(es, rule) {
      var i :| RaisedAt(es, i, rule) && !TakenAfter(es, i, rule);
      forall k | i < k < |es| ensures es[k] != Take(rule) {
        assert es[k - 1] != Fetch || i < k - 1;
      }
    }
    if RaisedSinceRead(es, rule) {
      var i :| RaisedAt(es, i, rule) && forall k :: i < k < |es| ==> es[k] != Take(rule);
      assert !TakenAfter(es, i, rule);
    }
  }

  /** Reading one rule loses no flag of another. */
  lemma ReadKeepsOtherRules(es: seq<FlagEvent>, rule: nat, other: nat)
    requires rule != other
    ensures Outstanding(es + [Fetch, Take(rule)], other) <==> Outstanding(es, other)
    ensures !Outstanding(es + [Fetch, Take(rule)], rule)
  {
    var all := es + [Fetch, Take(rule)];
    assert all[..|all| - 1] == es + [Fetch] && (es + [Fetch])[..|es|] == es;
    PendingIsOutstanding(es, other);
    PendingIsOutstanding(all, other);
    PendingIsOutstanding(all, rule);
  }

  // ---- diagnostics ----

  /** Flags fetched since diagnostics was last handed out. */
  ghost predicate FetchedSinceReset(es: seq<FlagEvent>, rule: nat) {
    exists j :: 0 <= j < |es| && es[j].Fetch? && Unfetched(es[..j], rule)
      && forall k :: j < k < |es| ==> es[k] != DiagReset
  }

  /** Diagnostics gets every flag too, whoever fetched it and whatever recovery has taken. */
  lemma {:induction false} DiagOfRun(es: seq<FlagEvent>, rule: nat)
    ensures rule in Run(es).diag <==> FetchedSinceReset(es, rule)
  {
    if es != [] {
      var front, n := es[..|es| - 1], |es| - 1;
      DiagOfRun(front, rule);
      FlagsOfRun(front, rule);
      if FetchedSinceReset(front, rule) && es[n] != DiagReset {
        var j :| 0 <= j < n && front[j].Fetch? && Unfetched(front[..j], rule)
          && forall k :: j < k < n ==> front[k] != DiagReset;
        assert front[..j] == es[..j];
        assert es[j].Fetch? && forall k :: j < k < |es| ==> es[k] != DiagReset;
      }
      if FetchedSinceReset(es, rule) {
        var j :| 0 <= j < |es| && es[j].Fetch? && Unfetched(es[..j], rule)
          && forall k :: j < k < |es| ==> es[k] != DiagReset;
        if j < n {
          assert front[..j] == es[..j];
          assert front[j].Fetch? && forall k :: j < k < n ==> front[k] != DiagReset;
        }
      }
    }
  }

  // ---- counters ----

  const COUNTER_OVERFLOW := 0xFFFFFFFF

  /** One diagnostic counter after reading `val` from a hardware counter of maximum `max`. */
  function Accumulate(data: nat, val: nat, max: nat): nat {
    if data == COUNTER_OVERFLOW then data
    else if val == max then COUNTER_OVERFLOW
    else if U32(data + val) < data then COUNTER_OVERFLOW
    else U32(data + val)
  }

  function AccumulateAll(vals: seq<nat>, max: nat): nat {
    if vals == [] then 0 else Accumulate(AccumulateAll(vals[..|vals| - 1], max), vals[|vals| - 1], max)
  }

  function Sum(vals: seq<nat>): nat {
    if vals == [] then 0 else Sum(vals[..|vals| - 1]) + vals[|vals| - 1]
  }

  lemma AccumulateOneMore(sum: nat, val: nat, max: nat, saturated: bool)
    requires val <= max <= COUNTER_OVERFLOW
    ensures Accumulate(if saturated || sum >= COUNTER_OVERFLOW then COUNTER_OVERFLOW else sum, val, max)
      == if saturated || val == max || sum + val >= COUNTER_OVERFLOW then COUNTER_OVERFLOW else sum + val
  {
  }

  /** An accumulated counter is the exact sum of all readings, or the overflow value exactly
      when a hardware counter saturated or the sum no longer fits below it. */
  lemma {:induction false} CounterIsSumOrOverflow(vals: seq<nat>, max: nat)
    requires forall k :: 0 <= k < |vals| ==> vals[k] <= max <= COUNTER_OVERFLOW
    ensures AccumulateAll(vals, max) ==
      if max in vals || Sum(vals) >= COUNTER_OVERFLOW then COUNTER_OVERFLOW else Sum(vals)
  {
    if vals != [] {
      var front, last := vals[..|vals| - 1], vals[|vals| - 1];
      assert forall k :: 0 <= k < |front| ==> front[k] == vals[k];
      CounterIsSumOrOverflow(front, max);
      assert vals == front + [last];
      AccumulateOneMore(Sum(front), last, max, max in front);
    }
  }

  /** Reads a block of hardware counters into the diagnostic counters. */
  method BypassDiagAcculmulate(data: array<nat>, dest: seq<nat>, max: nat)
    requires data.Length == |dest|
    modifies data
    ensures forall i :: 0 <= i < data.Length ==> data[i] == Accumulate(old(data[i]), dest[i], max)
  {
    var i := 0;
    while i < data.Length
      invariant 0 <= i <= data.Length
      invariant forall j :: 0 <= j < i ==> data[j] == Accumulate(old(data[j]), dest[j], max)
      invariant forall j :: i <= j < data.Length ==> data[j] == old(data[j])
    {
      if data[i] != COUNTER_OVERFLOW {
        if dest[i] == max {
          data[i] := COUNTER_OVERFLOW;
        } else if U32(data[i] + dest[i]) < data[i] {
          data[i] := COUNTER_OVERFLOW;
        } else {
          data[i] := U32(data[i] + dest[i]);
        }
      }
      i := i + 1;
    }
  }
}
