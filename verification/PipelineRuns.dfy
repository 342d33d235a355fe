/**
 The invariant of the whole ingest, proved over every run of the step relation, and what
 it says about a packet, a queue, the counters and the table in any reachable state.
 */
module PipelineRuns {
  import opened Counters
  import opened Store
  import opened Pipeline
  import opened PipelineSafety

  // ---------------------------------------------------------------- the table

  /** One statement keeps the old rows, adds exactly the fresh packets, and nothing else. */
  lemma {:induction false} StatementFacts(table: Table, batch: seq<Packet>)
    ensures var after := InsertAll(table, RowsOf(batch));
            && (forall key :: key in table ==> key in after && after[key] == table[key])
            && (forall p :: p in Fresh(table, batch) ==> KeyOf(p) in after && after[KeyOf(p)] == Of(p))
            && (forall key :: key in after && key !in table ==>
                  after[key].Of? && after[key].packet in Fresh(table, batch) && KeyOf(after[key].packet) == key)
            && (forall p :: p in Skipped(table, batch) ==> KeyOf(p) in after)
    decreases batch
  {
    if batch != [] {
      StatementFacts(InsertOne(table, RowOf(batch[0])), batch[1..]);
      assert RowsOf(batch)[1..] == RowsOf(batch[1..]);
    }
  }

  /** How a step may change the table and the inserted packets of its thread. */
  ghost predicate TableStep(v: View, v': View) {
    var old_, new_ := v.thread.ledger.inserted, v'.thread.ledger.inserted;
    && old_ <= new_
    && (forall key :: key in v.table ==> key in v'.table && v'.table[key] == v.table[key])
    && (forall p :: p in new_ && p !in old_ ==> KeyOf(p) in v'.table && v'.table[KeyOf(p)] == Of(p))
    && (forall key :: key in v'.table && key !in v.table ==>
          v'.table[key].Of? && v'.table[key].packet in new_ && KeyOf(v'.table[key].packet) == key)
    && (forall p :: p in v'.thread.ledger.duplicates && p !in v.thread.ledger.duplicates ==> KeyOf(p) in v'.table)
    && |v'.table| - |v.table| == |new_| - |old_|
  }

  predicate SameTable(v: View, v': View) {
    && v'.table == v.table && v'.thread.ledger.inserted == v.thread.ledger.inserted
    && v'.thread.ledger.duplicates == v.thread.ledger.duplicates
  }

  predicate Committed(v: View, v': View) {
    && v'.table == InsertAll(v.table, RowsOf(v.thread.batch))
    && v'.thread.ledger.inserted == v.thread.ledger.inserted + Fresh(v.table, v.thread.batch)
    && v'.thread.ledger.duplicates == v.thread.ledger.duplicates + Skipped(v.table, v.thread.batch)
  }

  lemma {:induction false} SaveCommitsOrNot(v: View, index: nat, ok: bool, statsOnly: bool)
    requires Enabled(v.thread, Save(ok))
    ensures var v' := StepThread(v, index, Save(ok), statsOnly); SameTable(v, v') || Committed(v, v')
  {}

  lemma {:induction false} OthersCommitNothing(v: View, index: nat, step: ThreadStep, statsOnly: bool)
    requires Enabled(v.thread, step) && !step.Save?
    ensures SameTable(v, StepThread(v, index, step, statsOnly))
  {}

  lemma {:induction false} StepCommitsOrNot(v: View, index: nat, step: ThreadStep, statsOnly: bool)
    requires Enabled(v.thread, step)
    ensures var v' := StepThread(v, index, step, statsOnly);
            SameTable(v, v') || Committed(v, v')
  {
    if step.Save? {
      SaveCommitsOrNot(v, index, step.ok, statsOnly);
    } else {
      OthersCommitNothing(v, index, step, statsOnly);
    }
  }

  lemma StepTables(v: View, index: nat, step: ThreadStep, statsOnly: bool)
    requires Enabled(v.thread, step)
    ensures TableStep(v, StepThread(v, index, step, statsOnly))
  {
    StepCommitsOrNot(v, index, step, statsOnly);
    StatementFacts(v.table, v.thread.batch);
    FreshAndSkipped(v.table, v.thread.batch);
    CountIsGrowth(v.table, RowsOf(v.thread.batch));
  }

  /** The packets a thread inserted own their key; the keys of its duplicates are taken. */
  ghost predicate OwnKeys(table: Table, l: Ledger) {
    && (forall p :: p in l.inserted ==> KeyOf(p) in table && table[KeyOf(p)] == Of(p))
    && (forall p :: p in l.duplicates ==> KeyOf(p) in table)
  }

  ghost predicate KeysTaken(table: Table, threads: seq<Thread>) {
    forall i :: 0 <= i < |threads| ==> OwnKeys(table, threads[i].ledger)
  }

  /** A new row is that of a packet some thread inserted. */
  ghost predicate RowsInserted(table: Table, threads: seq<Thread>) {
    forall key :: key in table && table[key].Of? ==>
      && KeyOf(table[key].packet) == key
      && exists i :: 0 <= i < |threads| && table[key].packet in threads[i].ledger.inserted
  }

  ghost predicate TableInv(table: Table, threads: seq<Thread>) {
    KeysTaken(table, threads) && RowsInserted(table, threads)
  }

  lemma {:induction false} KeysOfOthers(v: View, v': View, l: Ledger)
    requires OwnKeys(v.table, l) && TableStep(v, v')
    ensures OwnKeys(v'.table, l)
  {}

  lemma {:induction false} KeysOfStepper(v: View, v': View)
    requires OwnKeys(v.table, v.thread.ledger) && TableStep(v, v')
    ensures OwnKeys(v'.table, v'.thread.ledger)
  {}

  lemma KeysStayTaken(v: View, v': View, threads: seq<Thread>, i: nat)
    requires i < |threads| && threads[i] == v.thread
    requires KeysTaken(v.table, threads) && TableStep(v, v')
    ensures KeysTaken(v'.table, threads[i := v'.thread])
  {
    KeysOfStepper(v, v');
    forall j | 0 <= j < |threads| ensures OwnKeys(v'.table, threads[j].ledger) {
      KeysOfOthers(v, v', threads[j].ledger);
    }
  }

  lemma RowsStayInserted(v: View, v': View, threads: seq<Thread>, i: nat)
    requires i < |threads| && threads[i] == v.thread
    requires RowsInserted(v.table, threads) && TableStep(v, v')
    ensures RowsInserted(v'.table, threads[i := v'.thread])
  {
    var after := threads[i := v'.thread];
    forall key | key in v'.table && v'.table[key].Of?
      ensures KeyOf(v'.table[key].packet) == key
      ensures exists j :: 0 <= j < |after| && v'.table[key].packet in after[j].ledger.inserted
    {
      if key in v.table {
        var j :| 0 <= j < |threads| && v.table[key].packet in threads[j].ledger.inserted;
        assert v'.table[key].packet in after[j].ledger.inserted;
      } else {
        assert v'.table[key].packet in after[i].ledger.inserted;
      }
    }
  }

  // ---------------------------------------------------------------- callsigns

  function CallsOf(packets: seq<Packet>): set<string> {
    set p | p in packets && p.call != "" :: p.call
  }

  /** Each callsign of a thread's packets is counted, and it counts no other. */
  predicate CallsCover(shared: set<string>, t: Thread) {
    CallsOf(t.ledger.accepted) <= shared + t.local.calls && t.local.calls <= CallsOf(t.ledger.accepted)
  }

  ghost predicate CallsInv(shared: set<string>, threads: seq<Thread>) {
    && (forall i :: 0 <= i < |threads| ==> CallsCover(shared, threads[i]))
    && (forall c :: c in shared ==> exists i :: 0 <= i < |threads| && c in CallsOf(threads[i].ledger.accepted))
  }

  predicate CallsStep(v: View, v': View) {
    var old_, new_ := CallsOf(v.thread.ledger.accepted), CallsOf(v'.thread.ledger.accepted);
    && v.shared.calls <= v'.shared.calls <= v.shared.calls + v.thread.local.calls
    && v.shared.calls + v.thread.local.calls + (new_ - old_) <= v'.shared.calls + v'.thread.local.calls
    && old_ <= new_
    && v'.thread.local.calls <= v.thread.local.calls + new_
  }

  /** A step that takes no packet moves callsigns to the shared ones, all or none. */
  predicate CallsMove(v: View, v': View) {
    && v'.thread.ledger.accepted == v.thread.ledger.accepted
    && ((v'.shared.calls == v.shared.calls && v'.thread.local.calls == v.thread.local.calls)
        || (v'.shared.calls == v.shared.calls + v.thread.local.calls && v'.thread.local.calls == {}))
  }

  lemma {:induction false} SaveKeepsCalls(v: View, index: nat, ok: bool, statsOnly: bool)
    requires Enabled(v.thread, Save(ok))
    ensures CallsMove(v, StepThread(v, index, Save(ok), statsOnly))
  {}

  lemma {:induction false} OthersMoveCalls(v: View, index: nat, step: ThreadStep, statsOnly: bool)
    requires Enabled(v.thread, step) && !step.Save? && !step.Take?
    ensures CallsMove(v, StepThread(v, index, step, statsOnly))
  {}

  lemma CallsOfOneMore(t: Thread)
    requires t.queue != []
    ensures var p := t.queue[0];
            CallsOf(t.ledger.accepted + [p]) == CallsOf(t.ledger.accepted) + (if p.call == "" then {} else {p.call})
  {}

  lemma TakeCalls(v: View)
    requires Enabled(v.thread, Take)
    ensures CallsStep(v, v.(thread := TakeOne(v.thread)))
  {
    CallsOfOneMore(v.thread);
  }

  lemma {:induction false} StepCalls(v: View, index: nat, step: ThreadStep, statsOnly: bool)
    requires Enabled(v.thread, step)
    ensures CallsStep(v, StepThread(v, index, step, statsOnly))
  {
    match step
    case Take => TakeCalls(v);
    case Save(ok) => SaveKeepsCalls(v, index, ok, statsOnly);
    case _ => OthersMoveCalls(v, index, step, statsOnly);
  }

  lemma CallsCovered(v: View, v': View, threads: seq<Thread>, i: nat)
    requires i < |threads| && threads[i] == v.thread
    requires CallsInv(v.shared.calls, threads) && CallsStep(v, v')
    ensures var after := threads[i := v'.thread]; forall j :: 0 <= j < |after| ==> CallsCover(v'.shared.calls, after[j])
  {
    assert CallsCover(v.shared.calls, threads[i]);
    var after := threads[i := v'.thread];
    forall j | 0 <= j < |after| ensures CallsCover(v'.shared.calls, after[j]) {
      assert CallsCover(v.shared.calls, threads[j]);
    }
  }

  lemma CallsKept(v: View, v': View, threads: seq<Thread>, i: nat)
    requires i < |threads| && threads[i] == v.thread
    requires CallsInv(v.shared.calls, threads) && CallsStep(v, v')
    ensures CallsInv(v'.shared.calls, threads[i := v'.thread])
  {
    var after := threads[i := v'.thread];
    CallsCovered(v, v', threads, i);
    forall c | c in v'.shared.calls
      ensures exists j :: 0 <= j < |after| && c in CallsOf(after[j].ledger.accepted)
    {
      if c in v.shared.calls {
        var j :| 0 <= j < |threads| && c in CallsOf(threads[j].ledger.accepted);
        assert c in CallsOf(after[j].ledger.accepted);
      } else {
        assert c in CallsOf(after[i].ledger.accepted);
      }
    }
  }

  // ---------------------------------------------------------------- the weather thread

  function WeatherOf(arrived: seq<Packet>): seq<Packet> {
    if arrived == [] then []
    else
      var k := |arrived| - 1;
      WeatherOf(arrived[..k]) + (if arrived[k].weather then [arrived[k]] else [])
  }

  function WeatherPlaces(w: Weather, p: Packet): nat {
    Occurs(w.queue, p) + Occurs(w.dropped, p) + Occurs(w.skipped, p)
    + Occurs(w.counted, p) + Occurs(w.pending, p) + Occurs(w.stored, p)
  }

  ghost predicate WeatherInv(w: Weather, arrived: seq<Packet>, statsOnly: bool) {
    && (forall p :: WeatherPlaces(w, p) == Occurs(WeatherOf(arrived), p))
    && |w.queue| <= QUEUE_CAPACITY
    && Increasing(w.taken + w.queue) && Below(w.taken + w.queue, |arrived|)
    && w.reports == |w.counted| + |w.pending| + |w.stored|
    && (if statsOnly then w.pending == [] && w.stored == [] else w.counted == [])
  }

  lemma WeatherStepMoves(w: Weather, step: WeatherStep, statsOnly: bool, p: Packet)
    requires WeatherEnabled(w, step)
    ensures WeatherPlaces(StepWeather(w, step, statsOnly), p) == WeatherPlaces(w, p)
  {
    if step.TakeReport? {
      assert w.queue == [w.queue[0]] + w.queue[1..];
    }
  }

  lemma WeatherStepQueues(w: Weather, step: WeatherStep, statsOnly: bool)
    requires WeatherEnabled(w, step)
    ensures var w' := StepWeather(w, step, statsOnly);
            w'.taken + w'.queue == w.taken + w.queue && |w'.queue| <= |w.queue|
  {
    if step.TakeReport? {
      assert w.queue == [w.queue[0]] + w.queue[1..];
    }
  }

  lemma WeatherOfferMoves(w: Weather, p: Packet, q: Packet)
    ensures WeatherPlaces(OfferWeather(w, p), q) == WeatherPlaces(w, q) + (if p.weather && q == p then 1 else 0)
  {}

  lemma WeatherStepKeeps(w: Weather, step: WeatherStep, arrived: seq<Packet>, statsOnly: bool)
    requires WeatherInv(w, arrived, statsOnly) && WeatherEnabled(w, step)
    ensures WeatherInv(StepWeather(w, step, statsOnly), arrived, statsOnly)
  {
    var w' := StepWeather(w, step, statsOnly);
    WeatherStepQueues(w, step, statsOnly);
    forall p ensures WeatherPlaces(w', p) == Occurs(WeatherOf(arrived), p) {
      WeatherStepMoves(w, step, statsOnly, p);
    }
  }

  lemma WeatherNext(arrived: seq<Packet>, p: Packet)
    ensures WeatherOf(arrived + [p]) == WeatherOf(arrived) + (if p.weather then [p] else [])
  {
    assert (arrived + [p])[..|arrived|] == arrived;
  }

  lemma WeatherOfferQueues(w: Weather, p: Packet, n: nat)
    requires |w.queue| <= QUEUE_CAPACITY && Increasing(w.taken + w.queue) && Below(w.taken + w.queue, n) && p.id == n
    ensures var w' := OfferWeather(w, p);
            |w'.queue| <= QUEUE_CAPACITY && Increasing(w'.taken + w'.queue) && Below(w'.taken + w'.queue, n + 1)
  {
    var w' := OfferWeather(w, p);
    if w'.queue != w.queue {
      assert w'.taken + w'.queue == (w.taken + w.queue) + [p];
    }
  }

  lemma WeatherOfferTotal(w: Weather, p: Packet, arrived: seq<Packet>, q: Packet)
    requires WeatherPlaces(w, q) == Occurs(WeatherOf(arrived), q)
    ensures WeatherPlaces(OfferWeather(w, p), q) == Occurs(WeatherOf(arrived + [p]), q)
  {
    WeatherNext(arrived, p);
    WeatherOfferMoves(w, p, q);
  }

  lemma WeatherOfferKeeps(w: Weather, p: Packet, arrived: seq<Packet>, statsOnly: bool)
    requires WeatherInv(w, arrived, statsOnly) && p.id == |arrived|
    ensures WeatherInv(OfferWeather(w, p), arrived + [p], statsOnly)
  {
    var w' := OfferWeather(w, p);
    WeatherOfferQueues(w, p, |arrived|);
    forall q ensures WeatherPlaces(w', q) == Occurs(WeatherOf(arrived + [p]), q) {
      WeatherOfferTotal(w, p, arrived, q);
    }
  }

  // ---------------------------------------------------------------- the invariant

  ghost predicate ThreadsInv(threads: seq<Thread>, arrived: seq<Packet>) {
    forall i :: 0 <= i < |threads| ==>
      && Queued(threads[i], |arrived|) && Tidy(threads[i])
      && forall p :: Places(threads[i], p) == Occurs(Dealt(arrived, i, |threads|), p)
  }

  ghost predicate CountersInv(shared: Shared, threads: seq<Thread>) {
    forall m :: InShared(m, shared) + Sum(WithheldBy(m), threads) == Sum(DoneBy(m), threads)
  }

  ghost predicate Inv(s: System) {
    && s.threads != [] && Numbered(s.arrived)
    && ThreadsInv(s.threads, s.arrived)
    && CountersInv(s.shared, s.threads)
    && CallsInv(s.shared.calls, s.threads)
    && TableInv(s.table, s.threads)
    && WeatherInv(s.weather, s.arrived, s.statsOnly)
  }

  lemma {:induction false} SumNothing(f: Thread -> int, n: nat)
    requires f(NEW_THREAD) == 0
    ensures Sum(f, seq(n, _ => NEW_THREAD)) == 0
  {
    if n > 0 {
      SumNothing(f, n - 1);
      assert seq(n, _ => NEW_THREAD)[1..] == seq(n - 1, _ => NEW_THREAD);
    }
  }

  lemma StartInv(n: nat, before: set<Key>, statsOnly: bool)
    requires n > 0
    ensures Inv(Start(n, before, statsOnly))
  {
    forall m ensures Sum(WithheldBy(m), seq(n, _ => NEW_THREAD)) == 0 && Sum(DoneBy(m), seq(n, _ => NEW_THREAD)) == 0 {
      SumNothing(WithheldBy(m), n);
      SumNothing(DoneBy(m), n);
    }
  }

  lemma CountersKept(v: View, v': View, threads: seq<Thread>, i: nat)
    requires i < |threads| && threads[i] == v.thread
    requires CountersInv(v.shared, threads) && forall m :: Balance(m, v') == Balance(m, v)
    ensures CountersInv(v'.shared, threads[i := v'.thread])
  {
    forall m ensures InShared(m, v'.shared) + Sum(WithheldBy(m), threads[i := v'.thread])
                  == Sum(DoneBy(m), threads[i := v'.thread])
    {
      SumUpdate(WithheldBy(m), threads, i, v'.thread);
      SumUpdate(DoneBy(m), threads, i, v'.thread);
      assert Balance(m, v') == Balance(m, v);
    }
  }

  /** What one thread step guarantees to everything around it. */
  ghost predicate StepGuarantee(v: View, v': View, bound: nat) {
    && Queued(v'.thread, bound) && Tidy(v'.thread)
    && (forall p :: Places(v'.thread, p) == Places(v.thread, p))
    && (forall m :: Balance(m, v') == Balance(m, v))
    && CallsStep(v, v')
    && TableStep(v, v')
  }

  lemma StepGuarantees(v: View, index: nat, step: ThreadStep, statsOnly: bool, bound: nat)
    requires Enabled(v.thread, step) && Queued(v.thread, bound) && Tidy(v.thread)
    ensures StepGuarantee(v, StepThread(v, index, step, statsOnly), bound)
  {
    var v' := StepThread(v, index, step, statsOnly);
    StepQueues(v, index, step, statsOnly, bound);
    StepStaysTidy(v, index, step, statsOnly);
    forall p ensures Places(v'.thread, p) == Places(v.thread, p) {
      StepMoves(v, index, step, statsOnly, p);
    }
    forall m ensures Balance(m, v') == Balance(m, v) {
      StepBalances(v, index, step, statsOnly, m);
    }
    StepCalls(v, index, step, statsOnly);
    StepTables(v, index, step, statsOnly);
  }

  lemma {:induction false} ThreadsKept(threads: seq<Thread>, i: nat, t: Thread, arrived: seq<Packet>)
    requires i < |threads| && ThreadsInv(threads, arrived)
    requires Queued(t, |arrived|) && Tidy(t) && forall p :: Places(t, p) == Places(threads[i], p)
    ensures ThreadsInv(threads[i := t], arrived)
  {}

  lemma GuaranteeKeeps(s: System, v: View, v': View, i: nat)
    requires Inv(s) && i < |s.threads| && v == ViewOf(s, i) && StepGuarantee(v, v', |s.arrived|)
    ensures Inv(s.(threads := s.threads[i := v'.thread], shared := v'.shared, table := v'.table))
  {
    ThreadsKept(s.threads, i, v'.thread, s.arrived);
    CountersKept(v, v', s.threads, i);
    CallsKept(v, v', s.threads, i);
    KeysStayTaken(v, v', s.threads, i);
    RowsStayInserted(v, v', s.threads, i);
  }

  lemma RunKeeps(s: System, i: nat, step: ThreadStep)
    requires Inv(s) && CanStep(s, Run(i, step))
    ensures Inv(Next(s, Run(i, step)))
  {
    var v := ViewOf(s, i);
    StepGuarantees(v, i, step, s.statsOnly, |s.arrived|);
    GuaranteeKeeps(s, v, StepThread(v, i, step, s.statsOnly), i);
  }

  lemma DeliverThreads(threads: seq<Thread>, arrived: seq<Packet>, p: Packet)
    requires threads != [] && ThreadsInv(threads, arrived) && p.id == |arrived|
    ensures var i := |arrived| % |threads|;
            ThreadsInv(threads[i := OfferTo(threads[i], p)], arrived + [p])
  {
    var i := |arrived| % |threads|;
    var after := threads[i := OfferTo(threads[i], p)];
    OfferQueues(threads[i], p, |arrived|);
    forall j | 0 <= j < |after|
      ensures Queued(after[j], |arrived| + 1) && Tidy(after[j])
      ensures forall q :: Places(after[j], q) == Occurs(Dealt(arrived + [p], j, |after|), q)
    {
      DealtNext(arrived, p, j, |threads|);
      forall q ensures Places(after[j], q) == Occurs(Dealt(arrived + [p], j, |after|), q) {
        OfferMoves(threads[i], p, q);
      }
    }
  }

  lemma OfferKeepsRest(s: System, p: Packet, i: nat)
    requires Inv(s) && i < |s.threads|
    ensures var after := s.threads[i := OfferTo(s.threads[i], p)];
            CountersInv(s.shared, after) && CallsInv(s.shared.calls, after) && TableInv(s.table, after)
  {
    var v := ViewOf(s, i);
    var v' := v.(thread := OfferTo(s.threads[i], p));
    CountersKept(v, v', s.threads, i);
    CallsKept(v, v', s.threads, i);
    KeysStayTaken(v, v', s.threads, i);
    RowsStayInserted(v, v', s.threads, i);
  }

  lemma DeliverKeeps(s: System, p: Packet)
    requires Inv(s) && CanStep(s, Deliver(p))
    ensures Inv(Next(s, Deliver(p)))
  {
    var i := |s.arrived| % |s.threads|;
    DeliverThreads(s.threads, s.arrived, p);
    OfferKeepsRest(s, p, i);
    WeatherOfferKeeps(s.weather, p, s.arrived, s.statsOnly);
  }

  function InsertedBy(): Thread -> int { (t: Thread) => |t.ledger.inserted| }

  /** No step changes the table by more rows than its thread reports as inserted. */
  lemma StepGrows(s: System, step: Step)
    requires CanStep(s, step)
    ensures |Next(s, step).table| - Sum(InsertedBy(), Next(s, step).threads) == |s.table| - Sum(InsertedBy(), s.threads)
  {
    match step {
      case Deliver(p) =>
        var i := |s.arrived| % |s.threads|;
        SumUpdate(InsertedBy(), s.threads, i, OfferTo(s.threads[i], p));
      case Run(i, step) =>
        var v := ViewOf(s, i);
        StepTables(v, i, step, s.statsOnly);
        SumUpdate(InsertedBy(), s.threads, i, StepThread(v, i, step, s.statsOnly).thread);
      case RunWeather(step) =>
    }
  }

  lemma {:induction false} RunsGrow(s: System, steps: seq<Step>)
    requires IsRun(s, steps)
    ensures |After(s, steps).table| - Sum(InsertedBy(), After(s, steps).threads)
         == |s.table| - Sum(InsertedBy(), s.threads)
    decreases steps
  {
    if steps != [] {
      StepGrows(s, steps[0]);
      RunsGrow(Next(s, steps[0]), steps[1..]);
    }
  }

  lemma {:induction false} RunsKeepInv(s: System, steps: seq<Step>)
    requires Inv(s) && IsRun(s, steps)
    ensures Inv(After(s, steps))
    decreases steps
  {
    if steps != [] {
      match steps[0] {
        case Deliver(p) => DeliverKeeps(s, p);
        case Run(i, step) => RunKeeps(s, i, step);
        case RunWeather(step) => WeatherStepKeeps(s.weather, step, s.arrived, s.statsOnly);
      }
      RunsKeepInv(Next(s, steps[0]), steps[1..]);
    }
  }

  lemma {:induction false} RunsAppend(s: System, a: seq<Step>, b: seq<Step>)
    requires IsRun(s, a) && IsRun(After(s, a), b)
    ensures IsRun(s, a + b) && After(s, a + b) == After(After(s, a), b)
    decreases a
  {
    if a == [] {
      assert a + b == b;
    } else {
      RunsAppend(Next(s, a[0]), a[1..], b);
      assert (a + b)[1..] == a[1..] + b;
    }
  }

  predicate IsReachable(s: System, n: nat, before: set<Key>, steps: seq<Step>) {
    && n > 0
    && IsRun(Start(n, before, s.statsOnly), steps)
    && s == After(Start(n, before, s.statsOnly), steps)
  }

  lemma ReachableInv(s: System, n: nat, before: set<Key>, steps: seq<Step>)
    requires IsReachable(s, n, before, steps)
    ensures Inv(s) && |s.threads| == n
  {
    StartInv(n, before, s.statsOnly);
    RunsKeepInv(Start(n, before, s.statsOnly), steps);
    ThreadCount(Start(n, before, s.statsOnly), steps);
  }

  lemma {:induction false} ThreadCount(s: System, steps: seq<Step>)
    requires IsRun(s, steps)
    ensures |After(s, steps).threads| == |s.threads|
    decreases steps
  {
    if steps != [] {
      ThreadCount(Next(s, steps[0]), steps[1..]);
    }
  }
}
