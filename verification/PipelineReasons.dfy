/** Why a packet is where it is, in every state that any interleaving of the ingest threads can reach. */
module PipelineReasons {
  import opened Store
  import opened Pipeline
  import opened PipelineRuns

  predicate AllConvert(packets: seq<Packet>) { forall i :: 0 <= i < |packets| ==> packets[i].convertible }

  predicate NoneConverts(packets: seq<Packet>) { forall i :: 0 <= i < |packets| ==> !packets[i].convertible }

  /** Rejected packets do not convert, all others do; what was taken out is accepted or rejected. */
  predicate ByConversion(t: Thread) {
    && NoneConverts(t.ledger.rejected) && AllConvert(t.ledger.accepted) && AllConvert(t.batch)
    && AllConvert(t.ledger.inserted) && AllConvert(t.ledger.duplicates) && AllConvert(t.ledger.lost)
    && AllConvert(t.ledger.discarded) && AllConvert(t.ledger.discardedAtStop)
    && |t.ledger.taken| == |t.ledger.accepted| + |t.ledger.rejected|
  }

  /** Without a database nothing is inserted, skipped or lost, with one nothing is discarded. */
  predicate ByMode(t: Thread, statsOnly: bool) {
    if statsOnly then
      && t.ledger.inserted == [] && t.ledger.duplicates == [] && t.ledger.lost == []
      && !t.place.CopyFailed? && t.place != CleanCopyFailed
    else t.ledger.discarded == [] && t.ledger.discardedAtStop == []
  }

  lemma {:induction false} FreshConverts(table: Table, batch: seq<Packet>)
    requires AllConvert(batch)
    ensures AllConvert(Fresh(table, batch)) && AllConvert(Skipped(table, batch))
    decreases batch
  {
    if batch != [] {
      FreshConverts(InsertOne(table, RowOf(batch[0])), batch[1..]);
    }
  }

  lemma ConvertAppend(a: seq<Packet>, b: seq<Packet>)
    requires AllConvert(a) && AllConvert(b)
    ensures AllConvert(a + b)
  {}

  /** A step moves packets of the batch and the queue only to places for which they have the reason. */
  lemma {:induction false} TakeConverts(v: View, index: nat, statsOnly: bool)
    requires Enabled(v.thread, Take) && ByConversion(v.thread)
    ensures ByConversion(StepThread(v, index, Take, statsOnly).thread)
  {}

  lemma CommitConverts(v: View, place: Place)
    requires ByConversion(v.thread)
    ensures ByConversion(Commit(v, place).thread)
  {
    FreshConverts(v.table, v.thread.batch);
    ConvertAppend(v.thread.ledger.inserted, Fresh(v.table, v.thread.batch));
    ConvertAppend(v.thread.ledger.duplicates, Skipped(v.table, v.thread.batch));
  }

  lemma LoseConverts(t: Thread, place: Place)
    requires ByConversion(t)
    ensures ByConversion(Lose(t, place))
  {
    ConvertAppend(t.ledger.lost, t.batch);
  }

  lemma {:induction false} SaveBatchConverts(v: View, index: nat, idle: bool, ok: bool, statsOnly: bool)
    requires ByConversion(v.thread)
    ensures ByConversion(SaveBatch(v, index, idle, ok, statsOnly).thread)
  {
    ConvertAppend(v.thread.ledger.discarded, v.thread.batch);
    CommitConverts(v, AfterSave(index, idle));
  }

  lemma {:induction false} InsertConverts(v: View, next: Place, ok: bool)
    requires ByConversion(v.thread)
    ensures ByConversion(InsertBatch(v, next, ok).thread)
  {
    CommitConverts(v, next);
    LoseConverts(v.thread, next);
  }

  lemma {:induction false} CleanConverts(v: View, ok: bool, statsOnly: bool)
    requires ByConversion(v.thread)
    ensures ByConversion(CleanSave(v, ok, statsOnly).thread) && ByConversion(CleanInsert(v, ok).thread)
  {
    ConvertAppend(v.thread.ledger.discardedAtStop, v.thread.batch);
    CommitConverts(v, Reporting(RowCount(v.table, RowsOf(v.thread.batch))));
    LoseConverts(v.thread, Reporting(0));
  }

  lemma {:induction false} SaveConverts(v: View, index: nat, ok: bool, statsOnly: bool)
    requires Enabled(v.thread, Save(ok)) && ByConversion(v.thread)
    ensures ByConversion(StepThread(v, index, Save(ok), statsOnly).thread)
  {
    match v.thread.place {
      case Saving(idle) => SaveBatchConverts(v, index, idle, ok, statsOnly);
      case CopyFailed(idle) => InsertConverts(v, AfterSave(index, idle), ok);
      case CleanSaving => CleanConverts(v, ok, statsOnly);
      case CleanCopyFailed => CleanConverts(v, ok, statsOnly);
      case _ =>
    }
  }

  lemma {:induction false} StepConverts(v: View, index: nat, step: ThreadStep, statsOnly: bool)
    requires Enabled(v.thread, step) && ByConversion(v.thread)
    ensures ByConversion(StepThread(v, index, step, statsOnly).thread)
  {
    match step {
      case Take => TakeConverts(v, index, statsOnly);
      case Save(ok) => SaveConverts(v, index, ok, statsOnly);
      case _ => assert StepThread(v, index, step, statsOnly).thread.ledger == v.thread.ledger;
    }
  }

  lemma {:induction false} SaveKeepsMode(v: View, index: nat, ok: bool, statsOnly: bool)
    requires Enabled(v.thread, Save(ok)) && ByMode(v.thread, statsOnly)
    ensures ByMode(StepThread(v, index, Save(ok), statsOnly).thread, statsOnly)
  {}

  lemma {:induction false} StepKeepsMode(v: View, index: nat, step: ThreadStep, statsOnly: bool)
    requires Enabled(v.thread, step) && ByMode(v.thread, statsOnly)
    ensures ByMode(StepThread(v, index, step, statsOnly).thread, statsOnly)
  {
    if step.Save? {
      SaveKeepsMode(v, index, step.ok, statsOnly);
    }
  }

  predicate Reasoned(s: System) {
    forall i :: 0 <= i < |s.threads| ==> ByConversion(s.threads[i]) && ByMode(s.threads[i], s.statsOnly)
  }

  lemma StepKeepsReasons(s: System, step: Step)
    requires CanStep(s, step) && Reasoned(s)
    ensures Reasoned(Next(s, step)) && Next(s, step).statsOnly == s.statsOnly
  {
    if step.Run? {
      var v := ViewOf(s, step.index);
      StepConverts(v, step.index, step.step, s.statsOnly);
      StepKeepsMode(v, step.index, step.step, s.statsOnly);
    }
  }

  lemma {:induction false} RunsKeepReasons(s: System, steps: seq<Step>)
    requires IsRun(s, steps) && Reasoned(s)
    ensures Reasoned(After(s, steps)) && After(s, steps).statsOnly == s.statsOnly
    decreases steps
  {
    if steps != [] {
      StepKeepsReasons(s, steps[0]);
      RunsKeepReasons(Next(s, steps[0]), steps[1..]);
    }
  }

  /**
   In every reachable state: rejected packets do not convert and all others taken out do;
   only without a database is a packet discarded, only with one inserted, skipped or lost.
   */
  lemma EveryPlaceHasItsReason(s: System, n: nat, before: set<Key>, steps: seq<Step>, i: nat)
    requires IsReachable(s, n, before, steps) && i < |s.threads|
    ensures ByConversion(s.threads[i]) && ByMode(s.threads[i], s.statsOnly)
  {
    RunsKeepReasons(Start(n, before, s.statsOnly), steps);
  }

  /** A packet is refused only by a queue of 5000, and lost only by an INSERT that fails after a COPY that failed. */
  lemma {:induction false} DroppedOrLostFor(s: System, step: Step, i: nat)
    requires CanStep(s, step) && i < |s.threads|
    ensures var t, t' := s.threads[i], Next(s, step).threads[i];
            && (t'.ledger.dropped != t.ledger.dropped ==> step.Deliver? && |t.queue| >= 5000)
            && (t'.ledger.lost != t.ledger.lost ==>
                  step == Run(i, Save(false)) && (t.place.CopyFailed? || t.place == CleanCopyFailed))
  {
    if step.Run? && step.index == i {
      LostFor(ViewOf(s, i), i, step.step, s.statsOnly);
    }
  }

  lemma {:induction false} LostFor(v: View, index: nat, step: ThreadStep, statsOnly: bool)
    requires Enabled(v.thread, step)
    ensures var t, t' := v.thread, StepThread(v, index, step, statsOnly).thread;
            && t'.ledger.dropped == t.ledger.dropped
            && (t'.ledger.lost != t.ledger.lost ==> step == Save(false) && (t.place.CopyFailed? || t.place == CleanCopyFailed))
  {}
}
