/**
 The objects against the step relation: one pass of a processor's loop, and its cleanup, are
 runs of thread steps that nothing interrupts, so the theorems about all interleavings of
 steps speak of what the objects do.
 */
module Refinement {
  import opened Common
  import opened CopyText
  import opened Store
  import opened Pipeline
  import opened PipelineRuns
  import Processor

  type Prepared = Processor.Prepared
  type State = Processor.State

  function Lift(key: Key): Processor.RecordKey { (Some(key.0), Some(key.1)) }

  function KeyText(d: Prepared): Processor.RecordKey {
    (StoredText(Column(d, "from_call")), StoredText(Column(d, "timestamp")))
  }

  /** The packet of the step relation and the dictionary of the object are the same packet. */
  predicate Matches(p: Packet, d: Prepared) {
    && p.convertible && KeyText(d) == Lift(KeyOf(p))
    && Column(d, "from_call") == Text(p.call) && Column(d, "packet_type") == Text(p.kind)
  }

  ghost predicate SameKeys(table: Table, records: Processor.RecordTable) {
    forall key: Key :: key in table <==> Lift(key) in records
  }

  ghost predicate SameBatch(packets: seq<Packet>, batch: seq<Prepared>) {
    |packets| == |batch| && forall i :: 0 <= i < |batch| ==> Matches(packets[i], batch[i])
  }

  /** The view of the step relation shows the state of the object. */
  ghost predicate Shows(v: View, s: State) {
    v.thread.local == s.local && v.shared == s.shared && SameBatch(v.thread.batch, s.batch) && SameKeys(v.table, s.table)
  }

  // ---------------------------------------------------------------- uninterrupted runs

  predicate CanRun(v: View, index: nat, steps: seq<ThreadStep>, statsOnly: bool)
    decreases steps
  {
    steps == []
    || (Enabled(v.thread, steps[0]) && CanRun(StepThread(v, index, steps[0], statsOnly), index, steps[1..], statsOnly))
  }

  function RunThread(v: View, index: nat, steps: seq<ThreadStep>, statsOnly: bool): View
    requires CanRun(v, index, steps, statsOnly)
    decreases steps
  {
    if steps == [] then v else RunThread(StepThread(v, index, steps[0], statsOnly), index, steps[1..], statsOnly)
  }

  lemma {:induction false} RunStep(v: View, index: nat, steps: seq<ThreadStep>, statsOnly: bool)
    requires steps != [] && CanRun(v, index, steps, statsOnly)
    ensures var v' := StepThread(v, index, steps[0], statsOnly);
            CanRun(v', index, steps[1..], statsOnly)
            && RunThread(v, index, steps, statsOnly) == RunThread(v', index, steps[1..], statsOnly)
  {}

  lemma {:induction false} StepRun(v: View, index: nat, step: ThreadStep, rest: seq<ThreadStep>, statsOnly: bool)
    requires Enabled(v.thread, step) && CanRun(StepThread(v, index, step, statsOnly), index, rest, statsOnly)
    ensures CanRun(v, index, [step] + rest, statsOnly)
    ensures RunThread(v, index, [step] + rest, statsOnly)
            == RunThread(StepThread(v, index, step, statsOnly), index, rest, statsOnly)
  {
    assert ([step] + rest)[1..] == rest;
  }

  lemma {:induction false} RunsJoin(v: View, index: nat, a: seq<ThreadStep>, b: seq<ThreadStep>, statsOnly: bool)
    requires CanRun(v, index, a, statsOnly) && CanRun(RunThread(v, index, a, statsOnly), index, b, statsOnly)
    ensures CanRun(v, index, a + b, statsOnly)
    ensures RunThread(v, index, a + b, statsOnly) == RunThread(RunThread(v, index, a, statsOnly), index, b, statsOnly)
    decreases a
  {
    if a == [] {
      assert a + b == b;
    } else {
      var v' := StepThread(v, index, a[0], statsOnly);
      RunStep(v, index, a, statsOnly);
      RunsJoin(v', index, a[1..], b, statsOnly);
      StepRun(v, index, a[0], a[1..] + b, statsOnly);
      assert a + b == [a[0]] + (a[1..] + b);
    }
  }

  lemma OneStep(v: View, index: nat, step: ThreadStep, statsOnly: bool)
    requires Enabled(v.thread, step)
    ensures CanRun(v, index, [step], statsOnly)
    ensures RunThread(v, index, [step], statsOnly) == StepThread(v, index, step, statsOnly)
  {
    assert [step][1..] == [];
  }

  // ---------------------------------------------------------------- the same rows

  lemma RowKeys(batch: seq<Prepared>, i: nat)
    requires i < |batch|
    ensures |Processor.PacketRows(batch)| == |batch| && Processor.PacketRows(batch)[i].0 == KeyText(batch[i])
  {
    Processor.ColumnOrder();
    Processor.RecordWidths(batch, COPY_COLUMNS);
  }

  ghost predicate SameRowKeys(rows: seq<(Key, Row)>, records: seq<(Processor.RecordKey, Record)>) {
    |rows| == |records| && forall i :: 0 <= i < |rows| ==> records[i].0 == Lift(rows[i].0)
  }

  /** The same keys in the same order insert the same rows. */
  lemma {:induction false} SameInsert(table: Table, records: Processor.RecordTable, rows: seq<(Key, Row)>,
                                      others: seq<(Processor.RecordKey, Record)>)
    requires SameKeys(table, records) && SameRowKeys(rows, others)
    ensures RowCount(table, rows) == RowCount(records, others)
    ensures SameKeys(InsertAll(table, rows), InsertAll(records, others))
    decreases rows
  {
    if rows != [] {
      assert others[0].0 == Lift(rows[0].0);
      SameInsert(InsertOne(table, rows[0]), InsertOne(records, others[0]), rows[1..], others[1..]);
    }
  }

  lemma SameSave(v: View, s: State)
    requires Shows(v, s)
    ensures var rows, others := RowsOf(v.thread.batch), Processor.PacketRows(s.batch);
            && RowCount(v.table, rows) == RowCount(s.table, others)
            && SameKeys(InsertAll(v.table, rows), InsertAll(s.table, others))
  {
    forall i | 0 <= i < |s.batch|
      ensures |Processor.PacketRows(s.batch)| == |s.batch|
      ensures Processor.PacketRows(s.batch)[i].0 == Lift(KeyOf(v.thread.batch[i]))
    {
      RowKeys(s.batch, i);
      assert Matches(v.thread.batch[i], s.batch[i]);
    }
    RowsWidth(s.batch);
    SameInsert(v.table, s.table, RowsOf(v.thread.batch), Processor.PacketRows(s.batch));
  }

  lemma RowsWidth(batch: seq<Prepared>)
    ensures |Processor.PacketRows(batch)| == |batch|
  {
    Processor.ColumnOrder();
    Processor.RecordWidths(batch, COPY_COLUMNS);
  }

  // ---------------------------------------------------------------- the parts of one pass

  lemma TwoSteps(v: View, index: nat, a: ThreadStep, b: ThreadStep, statsOnly: bool)
    requires Enabled(v.thread, a) && Enabled(StepThread(v, index, a, statsOnly).thread, b)
    ensures CanRun(v, index, [a, b], statsOnly)
    ensures RunThread(v, index, [a, b], statsOnly) == StepThread(StepThread(v, index, a, statsOnly), index, b, statsOnly)
  {
    assert [a, b] == [a] + [b];
    OneStep(v, index, a, statsOnly);
    OneStep(StepThread(v, index, a, statsOnly), index, b, statsOnly);
    RunsJoin(v, index, [a], [b], statsOnly);
  }

  lemma SavedAtOnce(v: View, s: State, index: nat, idle: bool, statsOnly: bool, fate: Processor.Fate)
    requires Shows(v, s) && v.thread.place == Saving(idle)
    requires |s.batch| < Threshold(index) || statsOnly || fate.copyCommits
    ensures Shows(StepThread(v, index, Save(true), statsOnly), Processor.Saved(s, index, statsOnly, fate))
  {
    if |s.batch| >= Threshold(index) && !statsOnly {
      CommittedAtOnce(v, s, index, idle, fate);
    }
  }

  lemma CommittedAtOnce(v: View, s: State, index: nat, idle: bool, fate: Processor.Fate)
    requires Shows(v, s) && v.thread.place == Saving(idle) && |s.batch| >= Threshold(index) && fate.copyCommits
    ensures Shows(StepThread(v, index, Save(true), false), Processor.Saved(s, index, false, fate))
  {
    SameSave(v, s);
  }

  lemma SavedByInsert(v: View, s: State, index: nat, idle: bool, fate: Processor.Fate)
    requires Shows(v, s) && v.thread.place == CopyFailed(idle) && |s.batch| >= Threshold(index) && !fate.copyCommits
    ensures Shows(StepThread(v, index, Save(fate.insertCommits), false), Processor.Saved(s, index, false, fate))
  {
    SameSave(v, s);
  }

  lemma {:induction false} SavePlace(v: View, index: nat, idle: bool, statsOnly: bool, ok: bool)
    requires v.thread.place == Saving(idle) || v.thread.place == CopyFailed(idle)
    ensures var v' := StepThread(v, index, Save(ok), statsOnly);
            && v'.thread.queue == v.thread.queue && v'.thread.stop == v.thread.stop
            && v'.thread.place == if v.thread.place.Saving? && |v.thread.batch| >= Threshold(index) && !statsOnly && !ok
                                  then CopyFailed(idle) else AfterSave(index, idle)
  {}

  lemma {:induction false} CopyFailing(v: View, s: State, index: nat, idle: bool)
    requires Shows(v, s) && v.thread.place == Saving(idle) && |s.batch| >= Threshold(index)
    ensures Shows(StepThread(v, index, Save(false), false), s)
  {}

  /** Saving the batch if it is due: COPY, then INSERT if COPY fails. */
  lemma SaveRefines(v: View, s: State, index: nat, idle: bool, statsOnly: bool, fate: Processor.Fate)
    returns (steps: seq<ThreadStep>)
    requires Shows(v, s) && v.thread.place == Saving(idle)
    ensures CanRun(v, index, steps, statsOnly)
    ensures var v' := RunThread(v, index, steps, statsOnly);
            && v'.thread.place == AfterSave(index, idle) && v'.thread.queue == v.thread.queue
            && v'.thread.stop == v.thread.stop && Shows(v', Processor.Saved(s, index, statsOnly, fate))
  {
    if |s.batch| < Threshold(index) || statsOnly || fate.copyCommits {
      steps := [Save(true)];
      SavedAtOnce(v, s, index, idle, statsOnly, fate);
      SavePlace(v, index, idle, statsOnly, true);
      OneStep(v, index, Save(true), statsOnly);
    } else {
      steps := [Save(false), Save(fate.insertCommits)];
      CopyFailing(v, s, index, idle);
      SavePlace(v, index, idle, statsOnly, false);
      var v1 := StepThread(v, index, Save(false), statsOnly);
      SavedByInsert(v1, s, index, idle, fate);
      SavePlace(v1, index, idle, statsOnly, fate.insertCommits);
      TwoSteps(v, index, Save(false), Save(fate.insertCommits), statsOnly);
    }
  }

  /** The printing check of thread 0. */
  lemma PrintRefines(v: View, s: State, index: nat, statsOnly: bool) returns (steps: seq<ThreadStep>)
    requires Shows(v, s) && v.thread.place == AfterSave(index, false)
    ensures CanRun(v, index, steps, statsOnly)
    ensures var v' := RunThread(v, index, steps, statsOnly);
            && v'.thread.place == Top && v'.thread.queue == v.thread.queue && v'.thread.stop == v.thread.stop
            && Shows(v', Processor.Printed(s, index))
  {
    if index != 0 {
      steps := [];
    } else if s.shared.count % STATS_INTERVAL == 0 && s.shared.count > 0 {
      steps := [Check, PrintStats];
      TwoSteps(v, index, Check, PrintStats, statsOnly);
    } else {
      steps := [Check];
      OneStep(v, index, Check, statsOnly);
    }
  }

  /** What the queue of the object yields is what the queue of the step relation holds first. */
  predicate Yields(t: Thread, item: Option<Option<Prepared>>) {
    match item
    case None => t.queue == []
    case Some(None) => t.queue != [] && !t.queue[0].convertible
    case Some(Some(d)) => t.queue != [] && Matches(t.queue[0], d)
  }

  lemma TakeRefines(v: View, s: State, d: Prepared, index: nat, statsOnly: bool)
    requires Shows(v, s) && v.thread.place == Top && Yields(v.thread, Some(Some(d)))
    ensures var steps := [Take, TouchStats];
            var counted := Processor.Accept(s, d);
            var flushed := if counted.local.count >= STATS_FLUSH_INTERVAL then Processor.Flushed(counted, index) else counted;
            && CanRun(v, index, steps, statsOnly)
            && var v' := RunThread(v, index, steps, statsOnly);
               && v'.thread.place == Saving(false) && v'.thread.queue == v.thread.queue[1..]
               && v'.thread.stop == v.thread.stop && Shows(v', flushed)
  {
    var taken := StepThread(v, index, Take, statsOnly);
    var counted := Processor.Accept(s, d);
    assert forall i :: 0 <= i < |s.batch| ==> Matches(taken.thread.batch[i], counted.batch[i]);
    assert Shows(taken, counted);
    TwoSteps(v, index, Take, TouchStats, statsOnly);
  }

  lemma IdleRefines(v: View, s: State, index: nat, statsOnly: bool)
    requires Shows(v, s) && v.thread.place == Top && v.thread.queue == []
    ensures var steps := [Timeout, TouchStats];
            && CanRun(v, index, steps, statsOnly)
            && var v' := RunThread(v, index, steps, statsOnly);
               && v'.thread.place == Saving(true) && v'.thread.queue == [] && v'.thread.stop == v.thread.stop
               && Shows(v', Processor.Flushed(s, index))
  {
    TwoSteps(v, index, Timeout, TouchStats, statsOnly);
  }

  // ---------------------------------------------------------------- one pass, and the cleanup

  lemma AcceptedRefines(v: View, s: State, d: Prepared, index: nat, statsOnly: bool, fate: Processor.Fate)
    returns (steps: seq<ThreadStep>)
    requires Shows(v, s) && v.thread.place == Top && Yields(v.thread, Some(Some(d)))
    ensures CanRun(v, index, steps, statsOnly)
    ensures var v' := RunThread(v, index, steps, statsOnly);
            && v'.thread.place == Top && v'.thread.queue == v.thread.queue[1..] && v'.thread.stop == v.thread.stop
            && Shows(v', Processor.Iteration(s, Some(Some(d)), index, statsOnly, fate))
  {
    var counted := Processor.Accept(s, d);
    var flushed := if counted.local.count >= STATS_FLUSH_INTERVAL then Processor.Flushed(counted, index) else counted;
    TakeRefines(v, s, d, index, statsOnly);
    var v1 := RunThread(v, index, [Take, TouchStats], statsOnly);
    var saving := SaveRefines(v1, flushed, index, false, statsOnly, fate);
    RunsJoin(v, index, [Take, TouchStats], saving, statsOnly);
    var v2 := RunThread(v1, index, saving, statsOnly);
    var printing := PrintRefines(v2, Processor.Saved(flushed, index, statsOnly, fate), index, statsOnly);
    RunsJoin(v, index, [Take, TouchStats] + saving, printing, statsOnly);
    steps := [Take, TouchStats] + saving + printing;
  }

  /** One pass of loop() is a run of steps from the top of the loop to the top of the loop. */
  lemma IterationRefines(v: View, s: State, item: Option<Option<Prepared>>, index: nat, statsOnly: bool,
                         fate: Processor.Fate) returns (steps: seq<ThreadStep>)
    requires Shows(v, s) && v.thread.place == Top && Yields(v.thread, item)
    ensures CanRun(v, index, steps, statsOnly)
    ensures var v' := RunThread(v, index, steps, statsOnly);
            && v'.thread.place == Top && v'.thread.stop == v.thread.stop
            && v'.thread.queue == (if item.None? then [] else v.thread.queue[1..])
            && Shows(v', Processor.Iteration(s, item, index, statsOnly, fate))
  {
    match item {
      case None =>
        IdleRefines(v, s, index, statsOnly);
        var v1 := RunThread(v, index, [Timeout, TouchStats], statsOnly);
        var saving := SaveRefines(v1, Processor.Flushed(s, index), index, true, statsOnly, fate);
        RunsJoin(v, index, [Timeout, TouchStats], saving, statsOnly);
        steps := [Timeout, TouchStats] + saving;
      case Some(None) =>
        steps := [Take];
        OneStep(v, index, Take, statsOnly);
      case Some(Some(d)) =>
        steps := AcceptedRefines(v, s, d, index, statsOnly, fate);
    }
  }

  lemma QuitRefines(v: View, s: State, index: nat, statsOnly: bool)
    requires Shows(v, s) && v.thread.place == Top && v.thread.stop
    ensures var steps := [Quit, TouchStats];
            && CanRun(v, index, steps, statsOnly)
            && var v' := RunThread(v, index, steps, statsOnly);
               && v'.thread.place == CleanSaving && v'.thread.queue == v.thread.queue
               && Shows(v', Processor.Flushed(s, index))
  {
    TwoSteps(v, index, Quit, TouchStats, statsOnly);
  }

  lemma LastSaveStops(v: View, f: State, index: nat, statsOnly: bool, fate: Processor.Fate)
    requires Shows(v, f) && v.thread.place == CleanSaving && (f.batch == [] || statsOnly)
    ensures var v' := StepThread(v, index, Save(true), statsOnly);
            v'.thread.place == Stopped && v'.thread.queue == v.thread.queue && Shows(v', Processor.LastSaved(f, statsOnly, fate))
  {}

  /** A committed or lost last batch, and then its rows added to the shared count. */
  lemma LastSaveReports(v: View, f: State, index: nat, fate: Processor.Fate, ok: bool)
    requires Shows(v, f) && f.batch != []
    requires (v.thread.place == CleanSaving && ok && fate.copyCommits)
             || (v.thread.place == CleanCopyFailed && ok == fate.insertCommits && !fate.copyCommits)
    ensures var v1 := StepThread(v, index, Save(ok), false);
            && Enabled(v1.thread, TouchStats)
            && var v' := StepThread(v1, index, TouchStats, false);
               v'.thread.place == Stopped && v'.thread.queue == v.thread.queue && Shows(v', Processor.LastSaved(f, false, fate))
  {
    SameSave(v, f);
  }

  lemma LastSaveRefines(v: View, f: State, index: nat, statsOnly: bool, fate: Processor.Fate)
    returns (steps: seq<ThreadStep>)
    requires Shows(v, f) && v.thread.place == CleanSaving
    ensures CanRun(v, index, steps, statsOnly)
    ensures var v' := RunThread(v, index, steps, statsOnly);
            && v'.thread.place == Stopped && v'.thread.queue == v.thread.queue
            && Shows(v', Processor.LastSaved(f, statsOnly, fate))
  {
    if f.batch == [] || statsOnly {
      steps := [Save(true)];
      LastSaveStops(v, f, index, statsOnly, fate);
      OneStep(v, index, Save(true), statsOnly);
    } else if fate.copyCommits {
      steps := [Save(true), TouchStats];
      LastSaveReports(v, f, index, fate, true);
      TwoSteps(v, index, Save(true), TouchStats, statsOnly);
    } else {
      var v1 := StepThread(v, index, Save(false), statsOnly);
      assert Shows(v1, f) && v1.thread.place == CleanCopyFailed;
      LastSaveReports(v1, f, index, fate, fate.insertCommits);
      OneStep(v, index, Save(false), statsOnly);
      TwoSteps(v1, index, Save(fate.insertCommits), TouchStats, statsOnly);
      RunsJoin(v, index, [Save(false)], [Save(fate.insertCommits), TouchStats], statsOnly);
      steps := [Save(false)] + [Save(fate.insertCommits), TouchStats];
    }
  }

  /** _cleanup() of a thread that was told to stop is a run of steps that ends with it stopped. */
  lemma CleanupRefines(v: View, s: State, index: nat, statsOnly: bool, fate: Processor.Fate)
    returns (steps: seq<ThreadStep>)
    requires Shows(v, s) && v.thread.place == Top && v.thread.stop
    ensures CanRun(v, index, steps, statsOnly)
    ensures var v' := RunThread(v, index, steps, statsOnly);
            && v'.thread.place == Stopped && v'.thread.queue == v.thread.queue
            && Shows(v', Processor.Cleaned(s, index, statsOnly, fate))
  {
    QuitRefines(v, s, index, statsOnly);
    var v1 := RunThread(v, index, [Quit, TouchStats], statsOnly);
    var saving := LastSaveRefines(v1, Processor.Flushed(s, index), index, statsOnly, fate);
    RunsJoin(v, index, [Quit, TouchStats], saving, statsOnly);
    steps := [Quit, TouchStats] + saving;
  }

  // ---------------------------------------------------------------- in the whole system

  function Alone(i: nat, steps: seq<ThreadStep>): seq<Step> {
    if steps == [] then [] else [Run(i, steps[0])] + Alone(i, steps[1..])
  }

  lemma {:induction false} ThreadRunInSystem(w: System, i: nat, steps: seq<ThreadStep>)
    requires i < |w.threads| && CanRun(ViewOf(w, i), i, steps, w.statsOnly)
    ensures IsRun(w, Alone(i, steps))
    ensures var w' := After(w, Alone(i, steps));
            && |w'.threads| == |w.threads| && w'.statsOnly == w.statsOnly
            && ViewOf(w', i) == RunThread(ViewOf(w, i), i, steps, w.statsOnly)
    decreases steps
  {
    if steps != [] {
      var next := Next(w, Run(i, steps[0]));
      assert ViewOf(next, i) == StepThread(ViewOf(w, i), i, steps[0], w.statsOnly);
      ThreadRunInSystem(next, i, steps[1..]);
      assert Alone(i, steps)[1..] == Alone(i, steps[1..]);
    }
  }

  lemma StillReachable(w: System, n: nat, before: set<Key>, prior: seq<Step>, more: seq<Step>)
    requires IsReachable(w, n, before, prior) && IsRun(w, more) && After(w, more).statsOnly == w.statsOnly
    ensures IsReachable(After(w, more), n, before, prior + more)
  {
    RunsAppend(Start(n, before, w.statsOnly), prior, more);
  }

  /**
   Wherever a run of the whole system has got to, a pass of the loop of one of its threads
   leads to a state that a run gets to; so every theorem about reachable states holds of it.
   */
  lemma {:induction false} LoopStaysReachable(w: System, n: nat, before: set<Key>, prior: seq<Step>, i: nat, s: State,
                           item: Option<Option<Prepared>>, fate: Processor.Fate) returns (more: seq<Step>)
    requires IsReachable(w, n, before, prior) && i < |w.threads|
    requires Shows(ViewOf(w, i), s) && w.threads[i].place == Top && Yields(w.threads[i], item)
    ensures IsRun(w, more) && IsReachable(After(w, more), n, before, prior + more)
    ensures i < |After(w, more).threads|
    ensures Shows(ViewOf(After(w, more), i), Processor.Iteration(s, item, i, w.statsOnly, fate))
  {
    var steps := IterationRefines(ViewOf(w, i), s, item, i, w.statsOnly, fate);
    more := Alone(i, steps);
    ThreadRunInSystem(w, i, steps);
    StillReachable(w, n, before, prior, more);
  }
}
