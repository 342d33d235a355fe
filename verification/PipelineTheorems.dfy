/** What holds in every state that any interleaving of the ingest threads can reach. */
module PipelineTheorems {
  import opened Counters
  import opened Pipeline
  import opened PipelineSafety
  import opened PipelineRuns

  /**
   Arrival k belongs to thread k mod n, which has it in exactly one place; no other thread
   has it anywhere. It is among the inserted ones iff the table holds its row, and if it was
   skipped as a duplicate then the table holds another row under its key.
   */
  lemma EveryPacketInOnePlace(s: System, n: nat, before: set<Key>, steps: seq<Step>, k: nat)
    requires IsReachable(s, n, before, steps) && k < |s.arrived|
    ensures |s.threads| == n
    ensures Places(s.threads[k % n], s.arrived[k]) == 1
    ensures forall i :: 0 <= i < n && i != k % n ==> Places(s.threads[i], s.arrived[k]) == 0
    ensures var p, l := s.arrived[k], s.threads[k % n].ledger;
            && (p in l.inserted <==> KeyOf(p) in s.table && s.table[KeyOf(p)] == Of(p))
            && (p in l.duplicates ==> KeyOf(p) in s.table && s.table[KeyOf(p)] != Of(p))
  {
    ReachableInv(s, n, before, steps);
    var p := s.arrived[k];
    forall i | 0 <= i < n ensures Places(s.threads[i], p) == if i == k % n then 1 else 0 {
      DealtOnce(s.arrived, i, n, p);
    }
    TableHasInserted(s.table, s.threads, k % n, p);
  }

  lemma TableHasInserted(table: Table, threads: seq<Thread>, home: nat, p: Packet)
    requires TableInv(table, threads) && home < |threads|
    requires Places(threads[home], p) == 1
    requires forall i :: 0 <= i < |threads| && i != home ==> Places(threads[i], p) == 0
    ensures p in threads[home].ledger.inserted <==> KeyOf(p) in table && table[KeyOf(p)] == Of(p)
    ensures p in threads[home].ledger.duplicates ==> KeyOf(p) in table && table[KeyOf(p)] != Of(p)
  {
    forall i | 0 <= i < |threads| && p in threads[i].ledger.inserted ensures i == home {
      assert Occurs(threads[i].ledger.inserted, p) > 0;
    }
    if p in threads[home].ledger.duplicates {
      assert Occurs(threads[home].ledger.duplicates, p) > 0;
      assert Occurs(threads[home].ledger.inserted, p) == 0;
    }
  }

  /** Queues hold at most 5000 packets, in arrival order; thread i only ever sees arrivals i mod n. */
  lemma QueuesBoundedAndInOrder(s: System, n: nat, before: set<Key>, steps: seq<Step>, i: nat)
    requires IsReachable(s, n, before, steps) && i < n
    ensures |s.threads| == n
    ensures |s.threads[i].queue| <= 5000
    ensures Increasing(s.threads[i].ledger.taken + s.threads[i].queue)
    ensures forall p :: p in s.threads[i].queue ==> p in s.arrived && p.id % n == i
  {
    ReachableInv(s, n, before, steps);
    forall p | p in s.threads[i].queue ensures p in s.arrived && p.id % n == i {
      QueuedWasDealt(s.threads[i], s.arrived, i, n, p);
    }
  }

  lemma {:induction false} QueuedWasDealt(t: Thread, arrived: seq<Packet>, i: nat, n: nat, p: Packet)
    requires n > 0 && Numbered(arrived) && p in t.queue
    requires Places(t, p) == Occurs(Dealt(arrived, i, n), p)
    ensures p in arrived && p.id % n == i
  {
    assert Occurs(t.queue, p) > 0;
    DealtOnce(arrived, i, n, p);
  }

  /** How many packets the queue of a thread has been offered: still there, taken out, or refused. */
  function Offers(t: Thread): nat { |t.queue| + |t.ledger.taken| + |t.ledger.dropped| }

  lemma OffersOfStep(t: Thread, v: View, index: nat, step: ThreadStep, statsOnly: bool)
    requires t == v.thread && Enabled(t, step)
    ensures Offers(StepThread(v, index, step, statsOnly).thread) == Offers(t)
  {}

  lemma OffersNext(s: System, step: Step, i: nat)
    requires CanStep(s, step) && i < |s.threads|
    ensures |Next(s, step).threads| == |s.threads|
    ensures Offers(Next(s, step).threads[i]) - Offers(s.threads[i])
         == |Dealt(Next(s, step).arrived, i, |s.threads|)| - |Dealt(s.arrived, i, |s.threads|)|
  {
    match step {
      case Deliver(p) => DealtNext(s.arrived, p, i, |s.threads|);
      case Run(k, threadStep) => OffersOfStep(s.threads[k], ViewOf(s, k), k, threadStep, s.statsOnly);
      case RunWeather(_) =>
    }
  }

  lemma {:induction false} OffersOverRun(s: System, steps: seq<Step>, i: nat)
    requires IsRun(s, steps) && i < |s.threads|
    ensures |After(s, steps).threads| == |s.threads|
    ensures Offers(After(s, steps).threads[i]) - Offers(s.threads[i])
         == |Dealt(After(s, steps).arrived, i, |s.threads|)| - |Dealt(s.arrived, i, |s.threads|)|
    decreases steps
  {
    if steps != [] {
      OffersNext(s, steps[0], i);
      OffersOverRun(Next(s, steps[0]), steps[1..], i);
    }
  }

  /** In every reachable state the queue of thread i has been offered exactly what was dealt to it. */
  lemma OffersAreDealt(s: System, n: nat, before: set<Key>, steps: seq<Step>, i: nat)
    requires IsReachable(s, n, before, steps) && i < n
    ensures |s.threads| == n && Offers(s.threads[i]) == |Dealt(s.arrived, i, n)|
  {
    OffersOverRun(Start(n, before, s.statsOnly), steps, i);
  }

  /** Any two queues have been offered equally many packets, up to one. */
  lemma RoundRobinIsFair(s: System, n: nat, before: set<Key>, steps: seq<Step>, i: nat, j: nat)
    requires IsReachable(s, n, before, steps) && i < n && j < n
    ensures |s.threads| == n && -1 <= Offers(s.threads[i]) - Offers(s.threads[j]) <= 1
  {
    OffersAreDealt(s, n, before, steps, i);
    OffersAreDealt(s, n, before, steps, j);
    DealtEvenly(s.arrived, i, n);
    DealtEvenly(s.arrived, j, n);
  }

  /** At every moment shared and withheld counts add up to the truth, for every measure. */
  lemma CountersAddUp(s: System, n: nat, before: set<Key>, steps: seq<Step>, m: Measure)
    requires IsReachable(s, n, before, steps)
    ensures InShared(m, s.shared) + Sum(WithheldBy(m), s.threads) == Sum(DoneBy(m), s.threads)
  {
    ReachableInv(s, n, before, steps);
  }

  /** The rows the threads report as inserted are the growth of the table. */
  lemma InsertedIsGrowth(s: System, n: nat, before: set<Key>, steps: seq<Step>)
    requires IsReachable(s, n, before, steps)
    ensures |s.table| == |before| + Sum(InsertedBy(), s.threads)
  {
    var start := Start(n, before, s.statsOnly);
    RunsGrow(start, steps);
    SumNothing(InsertedBy(), n);
    assert start.table.Keys == before;
    assert |start.table| == |start.table.Keys|;
  }

  lemma {:induction false} SumOfZeros(f: Thread -> int, threads: seq<Thread>)
    requires forall i :: 0 <= i < |threads| ==> f(threads[i]) >= 0
    ensures Sum(f, threads) >= 0
    ensures Sum(f, threads) == 0 <==> forall i :: 0 <= i < |threads| ==> f(threads[i]) == 0
  {
    if threads != [] {
      SumOfZeros(f, threads[1..]);
      assert forall i :: 0 < i < |threads| ==> threads[i] == threads[1..][i - 1];
    }
  }

  predicate ShutDown(s: System) {
    forall i :: 0 <= i < |s.threads| ==> s.threads[i].place == Stopped
  }

  /** Once all threads have stopped the packet count and every type's count are exact. */
  lemma CountsExactAfterShutdown(s: System, n: nat, before: set<Key>, steps: seq<Step>, m: Measure)
    requires IsReachable(s, n, before, steps) && ShutDown(s) && m != SavedRows
    ensures InShared(m, s.shared) == Sum(DoneBy(m), s.threads)
  {
    ReachableInv(s, n, before, steps);
    SumOfZeros(WithheldBy(m), s.threads);
  }

  /** So is the set of callsigns. */
  lemma CallsExactAfterShutdown(s: System, n: nat, before: set<Key>, steps: seq<Step>, call: string)
    requires IsReachable(s, n, before, steps) && ShutDown(s)
    ensures call in s.shared.calls
       <==> exists i :: 0 <= i < |s.threads| && call in CallsOf(s.threads[i].ledger.accepted)
  {
    ReachableInv(s, n, before, steps);
  }

  /**
   The saved count is not: a thread whose last save was not followed by another packet
   keeps its count for itself. It is exact iff no stopped thread is left with such rows.
   */
  lemma SavedExactIffNothingWithheld(s: System, n: nat, before: set<Key>, steps: seq<Step>)
    requires IsReachable(s, n, before, steps) && ShutDown(s)
    ensures s.shared.saved == Sum(DoneBy(SavedRows), s.threads)
       <==> forall i :: 0 <= i < |s.threads| ==> s.threads[i].local.saved == 0
    ensures s.shared.saved <= Sum(DoneBy(SavedRows), s.threads)
  {
    ReachableInv(s, n, before, steps);
    CountersAddUp(s, n, before, steps, SavedRows);
    SumOfZeros(WithheldBy(SavedRows), s.threads);
    forall i | 0 <= i < |s.threads|
      ensures WithheldBy(SavedRows)(s.threads[i]) == s.threads[i].local.saved {}
  }

  // ---------------------------------------------------------------- when the saved count is short

  /** The early return of the flush, taken on the way out with saved rows still to report. */
  predicate ReturnsEarly(t: Thread, step: ThreadStep) {
    step == TouchStats && t.place == Cleaning && t.local.count == 0 && t.local.saved > 0
  }

  /** Thread i takes it somewhere in the run. */
  predicate LeavesEarly(s: System, steps: seq<Step>, i: nat)
    requires IsRun(s, steps) && i < |s.threads|
    decreases steps
  {
    steps != []
    && ((steps[0].Run? && steps[0].index == i && ReturnsEarly(s.threads[i], steps[0].step))
        || LeavesEarly(Next(s, steps[0]), steps[1..], i))
  }

  predicate FlushedOnTheWayOut(t: Thread) {
    t.place in {CleanSaving, CleanCopyFailed, Stopped} || t.place.Reporting?
  }

  /** The flush on the way out settles what the thread withholds, and no later step changes it. */
  predicate WithheldBetween(t: Thread, t': Thread, early: bool) {
    if FlushedOnTheWayOut(t) then FlushedOnTheWayOut(t') && t'.local.saved == t.local.saved && !early
    else (FlushedOnTheWayOut(t') ==> (t'.local.saved > 0 <==> early)) && (!FlushedOnTheWayOut(t') ==> !early)
  }

  lemma {:induction false} WithheldSave(v: View, index: nat, ok: bool, statsOnly: bool)
    requires Enabled(v.thread, Save(ok))
    ensures WithheldBetween(v.thread, StepThread(v, index, Save(ok), statsOnly).thread, false)
  {}

  lemma {:induction false} WithheldTouch(v: View, index: nat, statsOnly: bool)
    requires Enabled(v.thread, TouchStats)
    ensures WithheldBetween(v.thread, StepThread(v, index, TouchStats, statsOnly).thread, ReturnsEarly(v.thread, TouchStats))
  {}

  lemma {:induction false} WithheldStep(v: View, index: nat, step: ThreadStep, statsOnly: bool)
    requires Enabled(v.thread, step)
    ensures WithheldBetween(v.thread, StepThread(v, index, step, statsOnly).thread, ReturnsEarly(v.thread, step))
  {
    match step
    case Save(ok) => WithheldSave(v, index, ok, statsOnly);
    case TouchStats => WithheldTouch(v, index, statsOnly);
    case _ =>
  }

  lemma WithheldSystemStep(s: System, step: Step, i: nat)
    requires CanStep(s, step) && i < |s.threads|
    ensures |Next(s, step).threads| == |s.threads|
    ensures var t, t' := s.threads[i], Next(s, step).threads[i];
            WithheldBetween(t, t', step.Run? && step.index == i && ReturnsEarly(t, step.step))
  {
    if step.Run? && step.index == i {
      WithheldStep(ViewOf(s, i), i, step.step, s.statsOnly);
    }
  }

  lemma {:induction false} WithheldOverRun(s: System, steps: seq<Step>, i: nat)
    requires IsRun(s, steps) && i < |s.threads|
    ensures |After(s, steps).threads| == |s.threads|
    ensures var t, t' := s.threads[i], After(s, steps).threads[i];
            if FlushedOnTheWayOut(t) then
              FlushedOnTheWayOut(t') && t'.local.saved == t.local.saved && !LeavesEarly(s, steps, i)
            else FlushedOnTheWayOut(t') ==> (t'.local.saved > 0 <==> LeavesEarly(s, steps, i))
    decreases steps
  {
    if steps != [] {
      WithheldSystemStep(s, steps[0], i);
      WithheldOverRun(Next(s, steps[0]), steps[1..], i);
    }
  }

  ghost predicate NoneLeavesEarly(s: System, steps: seq<Step>)
    requires IsRun(s, steps)
  {
    forall i :: 0 <= i < |s.threads| ==> !LeavesEarly(s, steps, i)
  }

  /** After shutdown the shared saved count is exact iff in the whole run no thread took that early return. */
  lemma SavedExactIffNoEarlyReturn(s: System, n: nat, before: set<Key>, steps: seq<Step>)
    requires IsReachable(s, n, before, steps) && ShutDown(s)
    ensures s.shared.saved == Sum(DoneBy(SavedRows), s.threads)
       <==> NoneLeavesEarly(Start(n, before, s.statsOnly), steps)
  {
    var start := Start(n, before, s.statsOnly);
    SavedExactIffNothingWithheld(s, n, before, steps);
    ReachableInv(s, n, before, steps);
    forall i | 0 <= i < n ensures s.threads[i].local.saved > 0 <==> LeavesEarly(start, steps, i) {
      WithheldOverRun(start, steps, i);
    }
  }

  /** Every weather packet is queued, dropped, passed over, counted, pending or stored: one of them, once. */
  lemma WeatherInOnePlace(s: System, n: nat, before: set<Key>, steps: seq<Step>, k: nat)
    requires IsReachable(s, n, before, steps) && k < |s.arrived|
    ensures WeatherPlaces(s.weather, s.arrived[k]) == if s.arrived[k].weather then 1 else 0
  {
    ReachableInv(s, n, before, steps);
    WeatherOnce(s.arrived, s.arrived[k]);
  }

  lemma {:induction false} WeatherOnce(arrived: seq<Packet>, p: Packet)
    requires Numbered(arrived)
    ensures Occurs(WeatherOf(arrived), p) == if p in arrived && p.weather then 1 else 0
  {
    if arrived != [] {
      var k := |arrived| - 1;
      WeatherOnce(arrived[..k], p);
      assert arrived == arrived[..k] + [arrived[k]];
    }
  }

  /** With a database the report counter is the reports stored plus those still pending, without one those counted only. */
  lemma ReportsStoredOrPending(s: System, n: nat, before: set<Key>, steps: seq<Step>)
    requires IsReachable(s, n, before, steps)
    ensures !s.statsOnly ==> s.weather.reports == |s.weather.stored| + |s.weather.pending| && s.weather.counted == []
    ensures s.statsOnly ==>
      s.weather.reports == |s.weather.counted| && s.weather.stored == [] && s.weather.pending == []
  {
    ReachableInv(s, n, before, steps);
  }
}
