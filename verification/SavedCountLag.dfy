/**
 A run that shows the shared saved count wrong for good: one thread takes 500 packets,
 saves them all in one batch and is stopped; no packet follows the save, so its count of
 500 saved rows never reaches the shared statistics.
 */
module SavedCountLag {
  import opened Store
  import opened Pipeline
  import opened PipelineRuns

  function Arrival(k: nat): Packet {
    Packet(k, "N0CALL", seq(k, _ => 'x'), "position", true, false)
  }

  function Arrivals(k: nat): seq<Packet> { seq(k, i requires 0 <= i < k => Arrival(i)) }

  /** k packets taken and counted, none of them saved yet; the thread stands at `place`. */
  predicate Gathered(s: System, k: nat, place: Place) {
    && |s.threads| == 1 && |s.arrived| == k && s.table == map[] && !s.statsOnly
    && s.shared.saved == 0 && s.shared.count == k - k % 100
    && var t := s.threads[0];
       && t.place == place && t.queue == [] && t.batch == Arrivals(k)
       && t.local.count == k % 100 && t.local.saved == 0 && t.ledger.inserted == [] && t.ledger.discarded == []
  }

  /** The same, with packet k dealt to the thread and not taken yet. */
  predicate Offered(s: System, k: nat) {
    && |s.threads| == 1 && |s.arrived| == k + 1 && s.table == map[] && !s.statsOnly
    && s.shared.saved == 0 && s.shared.count == k - k % 100
    && var t := s.threads[0];
       && t.place == Top && t.queue == [Arrival(k)] && t.batch == Arrivals(k)
       && t.local.count == k % 100 && t.local.saved == 0 && t.ledger.inserted == [] && t.ledger.discarded == []
  }

  /** The same, with packet k taken and counted by the thread. */
  predicate Noted(s: System, k: nat) {
    && |s.threads| == 1 && |s.arrived| == k + 1 && s.table == map[] && !s.statsOnly
    && s.shared.saved == 0 && s.shared.count == k - k % 100
    && var t := s.threads[0];
       && t.place == Counted && t.queue == [] && t.batch == Arrivals(k + 1)
       && t.local.count == k % 100 + 1 && t.local.saved == 0 && t.ledger.inserted == [] && t.ledger.discarded == []
  }

  lemma DealStep(s: System, k: nat)
    requires Gathered(s, k, Top)
    ensures CanStep(s, Deliver(Arrival(k))) && Offered(Next(s, Deliver(Arrival(k))), k)
  {}

  lemma TakeStep(s: System, k: nat)
    requires Offered(s, k)
    ensures CanStep(s, Run(0, Take)) && Noted(Next(s, Run(0, Take)), k)
  {
    assert Arrivals(k + 1) == Arrivals(k) + [Arrival(k)];
  }

  lemma FlushStep(s: System, k: nat)
    requires Noted(s, k)
    ensures CanStep(s, Run(0, TouchStats)) && Gathered(Next(s, Run(0, TouchStats)), k + 1, Saving(false))
  {}

  lemma SaveStep(s: System, k: nat)
    requires Gathered(s, k, Saving(false)) && k < 500
    ensures CanStep(s, Run(0, Save(true))) && Gathered(Next(s, Run(0, Save(true))), k, Checking)
  {}

  lemma CheckStep(s: System, k: nat)
    requires Gathered(s, k, Checking) && 0 < k < 500
    ensures CanStep(s, Run(0, Check)) && Gathered(Next(s, Run(0, Check)), k, Top)
  {}

  lemma ThenOne(s: System, steps: seq<Step>, step: Step)
    requires IsRun(s, steps) && CanStep(After(s, steps), step)
    ensures IsRun(s, steps + [step]) && After(s, steps + [step]) == Next(After(s, steps), step)
  {
    assert [step][1..] == [];
    RunsAppend(s, steps, [step]);
  }

  /** Dealing, taking and counting one more packet. */
  lemma Counting(start: System, steps: seq<Step>, k: nat) returns (more: seq<Step>)
    requires IsRun(start, steps) && Gathered(After(start, steps), k, Top) && k < 500
    ensures IsRun(start, more) && Gathered(After(start, more), k + 1, Saving(false))
  {
    DealStep(After(start, steps), k);
    ThenOne(start, steps, Deliver(Arrival(k)));
    more := steps + [Deliver(Arrival(k))];
    TakeStep(After(start, more), k);
    ThenOne(start, more, Run(0, Take));
    more := more + [Run(0, Take)];
    FlushStep(After(start, more), k);
    ThenOne(start, more, Run(0, TouchStats));
    more := more + [Run(0, TouchStats)];
  }

  /** A batch that is not full yet is not saved, and nothing is printed. */
  lemma Passing(start: System, steps: seq<Step>, k: nat) returns (more: seq<Step>)
    requires IsRun(start, steps) && Gathered(After(start, steps), k, Saving(false)) && 0 < k < 500
    ensures IsRun(start, more) && Gathered(After(start, more), k, Top)
  {
    SaveStep(After(start, steps), k);
    ThenOne(start, steps, Run(0, Save(true)));
    more := steps + [Run(0, Save(true))];
    CheckStep(After(start, more), k);
    ThenOne(start, more, Run(0, Check));
    more := more + [Run(0, Check)];
  }

  /** The first 499 packets fill the batch; the flushes every 100 packets count them. */
  lemma {:induction false} Gathering(start: System, k: nat) returns (steps: seq<Step>)
    requires Gathered(start, 0, Top) && k < 500
    ensures IsRun(start, steps) && Gathered(After(start, steps), k, Top)
    decreases k
  {
    if k == 0 {
      steps := [];
    } else {
      steps := Gathering(start, k - 1);
      steps := Counting(start, steps, k - 1);
      steps := Passing(start, steps, k);
    }
  }

  lemma AtTheStart(start: System, n: nat, before: set<Key>)
    requires n == 1 && before == {} && start == Start(n, before, false)
    ensures Gathered(start, 0, Top)
  {
    assert start.threads == [NEW_THREAD];
    assert start.table == map[];
  }

  lemma {:induction false} AllFresh(table: Table, batch: seq<Packet>)
    requires forall i :: 0 <= i < |batch| ==> KeyOf(batch[i]) !in table
    requires forall i, j :: 0 <= i < j < |batch| ==> KeyOf(batch[i]) != KeyOf(batch[j])
    ensures RowCount(table, RowsOf(batch)) == |batch| && Fresh(table, batch) == batch
    decreases batch
  {
    if batch != [] {
      AllFresh(InsertOne(table, RowOf(batch[0])), batch[1..]);
      assert RowsOf(batch)[1..] == RowsOf(batch[1..]);
      assert batch == [batch[0]] + batch[1..];
    }
  }

  lemma ArrivalsDistinct(k: nat)
    ensures forall i, j :: 0 <= i < j < k ==> KeyOf(Arrival(i)) != KeyOf(Arrival(j))
  {
    forall i, j | 0 <= i < j < k ensures KeyOf(Arrival(i)) != KeyOf(Arrival(j)) {
      assert |KeyOf(Arrival(i)).1| == i && |KeyOf(Arrival(j)).1| == j;
    }
  }

  /** The 500th packet completes the batch and its rows go into the table. */
  lemma {:induction false} SavingAll(start: System, steps: seq<Step>) returns (more: seq<Step>)
    requires IsRun(start, steps) && Gathered(After(start, steps), 500, Saving(false))
    ensures IsRun(start, more)
    ensures var s := After(start, more);
            && |s.threads| == 1 && s.shared.count == 500 && s.shared.saved == 0 && !s.statsOnly
            && s.threads[0].place == Checking && s.threads[0].batch == [] && s.threads[0].local.count == 0
            && |s.table| == 500
  {
    var s := After(start, steps);
    AllFresh(s.table, Arrivals(500)) by { ArrivalsDistinct(500); }
    CountIsGrowth(s.table, RowsOf(Arrivals(500)));
    ThenOne(start, steps, Run(0, Save(true)));
    more := steps + [Run(0, Save(true))];
  }

  /** Printing, stopping and cleaning up: every flush finds a packet count of zero. */
  lemma Leaving(start: System, steps: seq<Step>) returns (more: seq<Step>)
    requires IsRun(start, steps)
    requires var s := After(start, steps);
             && |s.threads| == 1 && s.shared.count == 500 && s.shared.saved == 0
             && s.threads[0].place == Checking && s.threads[0].batch == [] && s.threads[0].local.count == 0
    ensures IsRun(start, more)
    ensures var s, s' := After(start, steps), After(start, more);
            && |s'.threads| == 1 && s'.shared == s.shared && s'.table == s.table && s'.statsOnly == s.statsOnly
            && s'.threads[0].place == Stopped && s'.threads[0].ledger == s.threads[0].ledger
  {
    ThenOne(start, steps, Run(0, Check));
    more := steps + [Run(0, Check)];
    ThenOne(start, more, Run(0, PrintStats));
    more := more + [Run(0, PrintStats)];
    ThenOne(start, more, Run(0, RequestStop));
    more := more + [Run(0, RequestStop)];
    ThenOne(start, more, Run(0, Quit));
    more := more + [Run(0, Quit)];
    ThenOne(start, more, Run(0, TouchStats));
    more := more + [Run(0, TouchStats)];
    ThenOne(start, more, Run(0, Save(true)));
    more := more + [Run(0, Save(true))];
  }

  predicate Lagging(s: System) {
    && |s.threads| == 1 && s.threads[0].place == Stopped && !s.statsOnly
    && s.shared.count == 500 && |s.table| == 500 && s.shared.saved == 0
  }

  lemma LagFrom(start: System) returns (steps: seq<Step>)
    requires Gathered(start, 0, Top)
    ensures IsRun(start, steps) && Lagging(After(start, steps))
  {
    steps := Gathering(start, 499);
    steps := Counting(start, steps, 499);
    steps := SavingAll(start, steps);
    steps := Leaving(start, steps);
  }

  lemma Lag(n: nat, before: set<Key>) returns (s: System, steps: seq<Step>)
    requires n == 1 && before == {}
    ensures IsReachable(s, n, before, steps) && Lagging(s)
  {
    var start := Start(n, before, false);
    AtTheStart(start, n, before);
    steps := LagFrom(start);
    s := After(start, steps);
  }

  /** All 500 packets counted, all 500 rows in the table, and a shared saved count of 0. */
  lemma SavedCountCanLag() returns (s: System, steps: seq<Step>)
    ensures IsReachable(s, 1, {}, steps) && Lagging(s)
  {
    s, steps := Lag(1, {});
  }
}
