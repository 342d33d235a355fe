/**
 What every interleaving of the ingest threads keeps: no packet is lost or duplicated
 unnoticed, the queues stay bounded and in order, and the counters add up.
 */
module PipelineSafety {
  import opened Counters
  import opened Store
  import opened Pipeline

  // ---------------------------------------------------------------- dealing

  /** The packets dealt to thread i: arrival k goes to thread k mod n. */
  function Dealt(arrived: seq<Packet>, i: nat, n: nat): seq<Packet>
    requires n > 0
  {
    if arrived == [] then []
    else
      var k := |arrived| - 1;
      Dealt(arrived[..k], i, n) + (if k % n == i then [arrived[k]] else [])
  }

  predicate Numbered(arrived: seq<Packet>) {
    forall k :: 0 <= k < |arrived| ==> arrived[k].id == k
  }

  predicate Increasing(packets: seq<Packet>) {
    forall a, b :: 0 <= a < b < |packets| ==> packets[a].id < packets[b].id
  }

  predicate Below(packets: seq<Packet>, bound: nat) {
    forall a :: 0 <= a < |packets| ==> packets[a].id < bound
  }

  lemma {:induction false} DealtOnce(arrived: seq<Packet>, i: nat, n: nat, p: Packet)
    requires n > 0 && Numbered(arrived)
    ensures multiset(Dealt(arrived, i, n))[p] == if p in arrived && p.id % n == i then 1 else 0
  {
    if arrived != [] {
      var k := |arrived| - 1;
      DealtOnce(arrived[..k], i, n, p);
      assert arrived == arrived[..k] + [arrived[k]];
    }
  }

  lemma DealtNext(arrived: seq<Packet>, p: Packet, i: nat, n: nat)
    requires n > 0
    ensures Dealt(arrived + [p], i, n) == Dealt(arrived, i, n) + (if |arrived| % n == i then [p] else [])
  {
    assert (arrived + [p])[..|arrived|] == arrived;
  }

  lemma QuotientUnique(m: nat, n: nat, q: nat, r: nat)
    requires r < n && m == n * q + r
    ensures m / n == q && m % n == r
  {
    MultipleIsZero(n, m / n - q);
  }

  lemma MultipleIsZero(n: int, d: int)
    requires -n < n * d < n
    ensures d == 0
  {}

  lemma DivStep(m: nat, n: nat)
    requires n > 0
    ensures m % n == n - 1 ==> (m + 1) / n == m / n + 1 && (m + 1) % n == 0
    ensures m % n != n - 1 ==> (m + 1) / n == m / n && (m + 1) % n == m % n + 1
  {
    var q, r := m / n, m % n;
    assert m == n * q + r;
    if r == n - 1 {
      Distribute(n, q);
      QuotientUnique(m + 1, n, q + 1, 0);
    } else {
      QuotientUnique(m + 1, n, q, r + 1);
    }
  }

  lemma Distribute(n: int, q: int)
    ensures n * (q + 1) == n * q + n
  {}

  /** Round-robin: thread i has been dealt every n-th packet, so counts differ by at most one. */
  lemma {:induction false} DealtEvenly(arrived: seq<Packet>, i: nat, n: nat)
    requires i < n
    ensures |Dealt(arrived, i, n)| == Rounds(|arrived|, n, i)
  {
    if arrived != [] {
      var k := |arrived| - 1;
      DealtEvenly(arrived[..k], i, n);
      NextRound(k, n, i);
    }
  }

  /** How many of m things dealt in turn to n hands hand i gets. */
  function Rounds(m: nat, n: nat, i: nat): nat
    requires n > 0
  {
    m / n + if i < m % n then 1 else 0
  }

  lemma NextRound(k: nat, n: nat, i: nat)
    requires i < n
    ensures Rounds(k + 1, n, i) == Rounds(k, n, i) + if k % n == i then 1 else 0
  {
    DivStep(k, n);
  }

  // ---------------------------------------------------------------- invariants of one thread

  function Occurs(packets: seq<Packet>, p: Packet): nat { multiset(packets)[p] }

  /** In how many places thread t has packet p. */
  function Places(t: Thread, p: Packet): nat {
    Occurs(t.queue, p) + Occurs(t.ledger.dropped, p) + Occurs(t.ledger.rejected, p) + Occurs(t.batch, p)
    + Occurs(t.ledger.inserted, p) + Occurs(t.ledger.duplicates, p) + Occurs(t.ledger.lost, p)
    + Occurs(t.ledger.discarded, p) + Occurs(t.ledger.discardedAtStop, p)
  }

  /** The queue is bounded, and packets leave it in the order in which they arrived. */
  predicate Queued(t: Thread, bound: nat) {
    && |t.queue| <= QUEUE_CAPACITY
    && Increasing(t.ledger.taken + t.queue) && Below(t.ledger.taken + t.queue, bound)
  }

  predicate Tidy(t: Thread) {
    && Settled(t.local)
    && (t.place in {CleanSaving, CleanCopyFailed, Stopped} || t.place.Reporting? ==> t.local.count == 0)
    && (t.place == Stopped || t.place.Reporting? ==> t.batch == [])
  }

  lemma {:induction false} FreshAndSkipped(table: Table, batch: seq<Packet>)
    ensures multiset(batch) == multiset(Fresh(table, batch)) + multiset(Skipped(table, batch))
    ensures |Fresh(table, batch)| == RowCount(table, RowsOf(batch))
    decreases batch
  {
    if batch != [] {
      var table' := InsertOne(table, RowOf(batch[0]));
      FreshAndSkipped(table', batch[1..]);
      FreshOrSkipped(batch[0], KeyOf(batch[0]) in table, batch[1..], Fresh(table', batch[1..]), Skipped(table', batch[1..]));
      assert batch == [batch[0]] + batch[1..];
      assert RowsOf(batch)[1..] == RowsOf(batch[1..]);
    }
  }

  lemma FreshOrSkipped(p: Packet, taken: bool, rest: seq<Packet>, inserted: seq<Packet>, skipped: seq<Packet>)
    requires multiset(rest) == multiset(inserted) + multiset(skipped)
    ensures multiset([p] + rest)
            == multiset((if taken then [] else [p]) + inserted) + multiset((if taken then [p] else []) + skipped)
  {}

  lemma TakeMoves(t: Thread, p: Packet)
    requires t.queue != []
    ensures Places(TakeOne(t), p) == Places(t, p)
  {
    assert t.queue == [t.queue[0]] + t.queue[1..];
  }

  lemma CommitMoves(v: View, place: Place, p: Packet)
    ensures Places(Commit(v, place).thread, p) == Places(v.thread, p)
  {
    FreshAndSkipped(v.table, v.thread.batch);
  }

  lemma LoseMoves(t: Thread, place: Place, p: Packet)
    ensures Places(Lose(t, place), p) == Places(t, p)
  {}

  lemma SaveBatchMoves(v: View, index: nat, idle: bool, ok: bool, statsOnly: bool, p: Packet)
    ensures Places(SaveBatch(v, index, idle, ok, statsOnly).thread, p) == Places(v.thread, p)
  {
    CommitMoves(v, AfterSave(index, idle), p);
  }

  lemma CleanSaveMoves(v: View, ok: bool, statsOnly: bool, p: Packet)
    ensures Places(CleanSave(v, ok, statsOnly).thread, p) == Places(v.thread, p)
  {
    CommitMoves(v, Reporting(RowCount(v.table, RowsOf(v.thread.batch))), p);
  }

  lemma CleanInsertMoves(v: View, ok: bool, p: Packet)
    ensures Places(CleanInsert(v, ok).thread, p) == Places(v.thread, p)
  {
    CommitMoves(v, Reporting(RowCount(v.table, RowsOf(v.thread.batch))), p);
    LoseMoves(v.thread, Reporting(0), p);
  }

  lemma SaveMoves(v: View, index: nat, ok: bool, statsOnly: bool, p: Packet)
    requires Enabled(v.thread, Save(ok))
    ensures Places(StepThread(v, index, Save(ok), statsOnly).thread, p) == Places(v.thread, p)
  {
    match v.thread.place
    case Saving(idle) => SaveBatchMoves(v, index, idle, ok, statsOnly, p);
    case CopyFailed(idle) =>
      CommitMoves(v, AfterSave(index, idle), p);
      LoseMoves(v.thread, AfterSave(index, idle), p);
    case CleanSaving => CleanSaveMoves(v, ok, statsOnly, p);
    case CleanCopyFailed => CleanInsertMoves(v, ok, p);
    case _ =>
  }

  /** The other steps move no packet. */
  lemma {:induction false} NothingMoves(v: View, index: nat, step: ThreadStep, statsOnly: bool)
    requires Enabled(v.thread, step) && !step.Take? && !step.Save?
    ensures var t := StepThread(v, index, step, statsOnly).thread;
            t.queue == v.thread.queue && t.batch == v.thread.batch && t.ledger == v.thread.ledger
  {}

  lemma SamePlaces(t: Thread, t': Thread, p: Packet)
    requires t'.queue == t.queue && t'.batch == t.batch && t'.ledger == t.ledger
    ensures Places(t', p) == Places(t, p)
  {}

  /** No step of a thread makes a packet appear or disappear. */
  lemma {:induction false} StepMoves(v: View, index: nat, step: ThreadStep, statsOnly: bool, p: Packet)
    requires Enabled(v.thread, step)
    ensures Places(StepThread(v, index, step, statsOnly).thread, p) == Places(v.thread, p)
  {
    match step
    case Take => TakeMoves(v.thread, p);
    case Save(ok) => SaveMoves(v, index, ok, statsOnly, p);
    case _ =>
      NothingMoves(v, index, step, statsOnly);
      SamePlaces(v.thread, StepThread(v, index, step, statsOnly).thread, p);
  }

  lemma StepQueues(v: View, index: nat, step: ThreadStep, statsOnly: bool, bound: nat)
    requires Enabled(v.thread, step) && Queued(v.thread, bound)
    ensures Queued(StepThread(v, index, step, statsOnly).thread, bound)
  {
    var t, t' := v.thread, StepThread(v, index, step, statsOnly).thread;
    assert t'.ledger.taken + t'.queue == t.ledger.taken + t.queue;
  }

  lemma {:induction false} SaveStaysTidy(v: View, index: nat, ok: bool, statsOnly: bool)
    requires Enabled(v.thread, Save(ok)) && Tidy(v.thread)
    ensures Tidy(StepThread(v, index, Save(ok), statsOnly).thread)
  {}

  lemma {:induction false} TouchStaysTidy(v: View, index: nat, statsOnly: bool)
    requires Enabled(v.thread, TouchStats) && Tidy(v.thread)
    ensures Tidy(StepThread(v, index, TouchStats, statsOnly).thread)
  {}

  lemma {:induction false} StepStaysTidy(v: View, index: nat, step: ThreadStep, statsOnly: bool)
    requires Enabled(v.thread, step) && Tidy(v.thread)
    ensures Tidy(StepThread(v, index, step, statsOnly).thread)
  {
    match step
    case Save(ok) => SaveStaysTidy(v, index, ok, statsOnly);
    case TouchStats => TouchStaysTidy(v, index, statsOnly);
    case _ =>
  }

  lemma OfferMoves(t: Thread, p: Packet, q: Packet)
    ensures Places(OfferTo(t, p), q) == Places(t, q) + (if q == p then 1 else 0)
  {}

  lemma OfferQueues(t: Thread, p: Packet, bound: nat)
    requires Queued(t, bound) && p.id == bound
    ensures Queued(OfferTo(t, p), bound + 1)
  {
    var t' := OfferTo(t, p);
    if |t.queue| < QUEUE_CAPACITY {
      assert t'.ledger.taken + t'.queue == (t.ledger.taken + t.queue) + [p];
    }
  }

  // ---------------------------------------------------------------- counters

  function KindCount(packets: seq<Packet>, kind: string): nat {
    if packets == [] then 0
    else KindCount(packets[..|packets| - 1], kind) + (if packets[|packets| - 1].kind == kind then 1 else 0)
  }

  /** What thread t has truly done, as the measure counts it. */
  function Done(m: Measure, t: Thread): nat {
    match m
    case Packets => |t.ledger.accepted|
    case SavedRows => |t.ledger.inserted| + |t.ledger.discarded|
    case OfKind(kind) => KindCount(t.ledger.accepted, kind)
  }

  /** What it has not yet put into the shared statistics. */
  function Withheld(m: Measure, t: Thread): nat {
    InLocal(m, t.local) + (if m == SavedRows && t.place.Reporting? then t.place.rows else 0)
  }

  function Sum(f: Thread -> int, threads: seq<Thread>): int {
    if threads == [] then 0 else f(threads[0]) + Sum(f, threads[1..])
  }

  function DoneBy(m: Measure): Thread -> int { t => Done(m, t) }
  function WithheldBy(m: Measure): Thread -> int { t => Withheld(m, t) }

  lemma {:induction false} SumUpdate(f: Thread -> int, threads: seq<Thread>, i: nat, t: Thread)
    requires i < |threads|
    ensures Sum(f, threads[i := t]) == Sum(f, threads) - f(threads[i]) + f(t)
  {
    if i == 0 {
      assert threads[0 := t][1..] == threads[1..];
    } else {
      SumUpdate(f, threads[1..], i - 1, t);
      assert threads[i := t][1..] == threads[1..][i - 1 := t];
    }
  }

  lemma NoteCounts(t: Thread, p: Packet, m: Measure)
    ensures InLocal(m, Note(t.local, p.call, p.kind)) - InLocal(m, t.local)
         == (match m
             case Packets => 1
             case SavedRows => 0
             case OfKind(kind) => KindCount(t.ledger.accepted + [p], kind) - KindCount(t.ledger.accepted, kind))
  {
    assert (t.ledger.accepted + [p])[..|t.ledger.accepted|] == t.ledger.accepted;
  }

  function Balance(m: Measure, v: View): int {
    InShared(m, v.shared) + Withheld(m, v.thread) - Done(m, v.thread)
  }

  lemma TouchBalances(v: View, index: nat, statsOnly: bool, m: Measure)
    requires Enabled(v.thread, TouchStats)
    ensures Balance(m, StepThread(v, index, TouchStats, statsOnly)) == Balance(m, v)
  {
    FlushConserves(v.thread.local, v.shared, index, |v.thread.batch|, m);
  }

  lemma CommitDone(v: View, place: Place, m: Measure)
    ensures Done(m, Commit(v, place).thread)
         == Done(m, v.thread) + (if m == SavedRows then RowCount(v.table, RowsOf(v.thread.batch)) else 0)
  {
    FreshAndSkipped(v.table, v.thread.batch);
  }

  lemma SaveBalances(v: View, index: nat, ok: bool, statsOnly: bool, m: Measure)
    requires Enabled(v.thread, Save(ok))
    ensures Balance(m, StepThread(v, index, Save(ok), statsOnly)) == Balance(m, v)
  {
    match v.thread.place
    case Saving(idle) => SaveBatchBalances(v, index, idle, ok, statsOnly, m);
    case CopyFailed(idle) => InsertBalances(v, AfterSave(index, idle), ok, m);
    case CleanSaving => CleanSaveBalances(v, ok, statsOnly, m);
    case CleanCopyFailed => CleanInsertBalances(v, ok, m);
    case _ =>
  }

  lemma SaveBatchBalances(v: View, index: nat, idle: bool, ok: bool, statsOnly: bool, m: Measure)
    requires v.thread.place == Saving(idle)
    ensures Balance(m, SaveBatch(v, index, idle, ok, statsOnly)) == Balance(m, v)
  {
    CommitDone(v, AfterSave(index, idle), m);
  }

  lemma InsertBalances(v: View, next: Place, ok: bool, m: Measure)
    requires v.thread.place.CopyFailed? && !next.Reporting?
    ensures Balance(m, InsertBatch(v, next, ok)) == Balance(m, v)
  {
    CommitDone(v, next, m);
  }

  lemma CleanSaveBalances(v: View, ok: bool, statsOnly: bool, m: Measure)
    requires v.thread.place == CleanSaving
    ensures Balance(m, CleanSave(v, ok, statsOnly)) == Balance(m, v)
  {
    CommitDone(v, Reporting(RowCount(v.table, RowsOf(v.thread.batch))), m);
  }

  lemma CleanInsertBalances(v: View, ok: bool, m: Measure)
    requires v.thread.place == CleanCopyFailed
    ensures Balance(m, CleanInsert(v, ok)) == Balance(m, v)
  {
    CommitDone(v, Reporting(RowCount(v.table, RowsOf(v.thread.batch))), m);
  }

  /** No step of a thread changes what the shared statistics and the thread's own add up to. */
  lemma StepBalances(v: View, index: nat, step: ThreadStep, statsOnly: bool, m: Measure)
    requires Enabled(v.thread, step)
    ensures Balance(m, StepThread(v, index, step, statsOnly)) == Balance(m, v)
  {
    var t := v.thread;
    match step
    case Take => NoteCounts(t, t.queue[0], m);
    case TouchStats => TouchBalances(v, index, statsOnly, m);
    case PrintStats => FlushConserves(t.local, v.shared, index, |t.batch|, m);
    case Save(ok) => SaveBalances(v, index, ok, statsOnly, m);
    case _ =>
  }
}
