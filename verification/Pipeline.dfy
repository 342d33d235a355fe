/**
 The parallel ingest as a step relation: one MQTT thread dealing packets round-robin into
 bounded queues, N processor threads that count, batch and save them, and the weather
 thread. Every step is one access to something shared (a queue, the statistics lock, a
 database transaction), so any interleaving of the threads is a list of steps. Whether a
 transaction commits is part of the step; a failed one changes nothing.
 */
module Pipeline {
  import opened Counters
  import opened Store

  const BATCH_SIZE: nat := 500
  const BATCH_STAGGER: nat := 25
  const STATS_INTERVAL: nat := 500
  const STATS_FLUSH_INTERVAL: nat := 100
  const QUEUE_CAPACITY: nat := 5000

  /** A valid packet; `id` is its arrival number, `convertible` whether the conversion to a row succeeds. */
  datatype Packet = Packet(id: nat, call: string, stamp: string, kind: string, convertible: bool, weather: bool)

  /** A table row: one that was there before this run, or the row of a packet. */
  datatype Row = Before | Of(packet: Packet)
  type Key = (string, string)
  type Table = map<Key, Row>

  function KeyOf(p: Packet): Key { (p.call, p.stamp) }

  function RowOf(p: Packet): (Key, Row) { (KeyOf(p), Of(p)) }

  function RowsOf(batch: seq<Packet>): seq<(Key, Row)> {
    seq(|batch|, i requires 0 <= i < |batch| => RowOf(batch[i]))
  }

  function Threshold(index: nat): nat { BATCH_SIZE + index * BATCH_STAGGER }

  /** Where a processor thread stands between two accesses to shared things. */
  datatype Place =
    | Top
    | Counted            // a packet was appended and counted
    | Idle               // the queue stayed empty for the timeout
    | Saving(idle: bool) // about to look at the batch threshold
    | CopyFailed(idle: bool)
    | Checking           // thread 0 reads the shared counter
    | Printing           // thread 0 prints, flushing first
    | Cleaning
    | CleanSaving
    | CleanCopyFailed
    | Reporting(rows: nat) // the last save committed `rows` rows that the statistics lack
    | Stopped

  /** What became of the packets a thread was dealt; no step reads these. */
  datatype Ledger = Ledger(
    dropped: seq<Packet>, taken: seq<Packet>, rejected: seq<Packet>, accepted: seq<Packet>,
    inserted: seq<Packet>, duplicates: seq<Packet>, lost: seq<Packet>,
    discarded: seq<Packet>, discardedAtStop: seq<Packet>)

  const NO_LEDGER := Ledger([], [], [], [], [], [], [], [], [])

  datatype Thread = Thread(
    place: Place, stop: bool, queue: seq<Packet>, batch: seq<Packet>, local: Local, ledger: Ledger)

  const NEW_THREAD := Thread(Top, false, [], [], NOTHING_COUNTED, NO_LEDGER)

  /** The part of the world one thread step can change. */
  datatype View = View(thread: Thread, shared: Shared, table: Table)

  datatype ThreadStep = Take | Timeout | TouchStats | Save(ok: bool) | Check | PrintStats | RequestStop | Quit

  // ---------------------------------------------------------------- saving a batch

  /** The packets of a batch that the statement inserts. */
  function Fresh(table: Table, batch: seq<Packet>): seq<Packet>
    decreases batch
  {
    if batch == [] then []
    else (if KeyOf(batch[0]) in table then [] else [batch[0]])
         + Fresh(InsertOne(table, RowOf(batch[0])), batch[1..])
  }

  /** The packets of a batch that the statement skips because their key is taken. */
  function Skipped(table: Table, batch: seq<Packet>): seq<Packet>
    decreases batch
  {
    if batch == [] then []
    else (if KeyOf(batch[0]) in table then [batch[0]] else [])
         + Skipped(InsertOne(table, RowOf(batch[0])), batch[1..])
  }

  function Commit(v: View, place: Place): View {
    var t := v.thread;
    v.(table := InsertAll(v.table, RowsOf(t.batch)),
       thread := t.(
         place := place, batch := [],
         ledger := t.ledger.(inserted := t.ledger.inserted + Fresh(v.table, t.batch),
                             duplicates := t.ledger.duplicates + Skipped(v.table, t.batch))))
  }

  function CountSaved(t: Thread, rows: nat): Thread {
    t.(local := t.local.(saved := t.local.saved + rows))
  }

  function Lose(t: Thread, place: Place): Thread {
    t.(place := place, batch := [], ledger := t.ledger.(lost := t.ledger.lost + t.batch))
  }

  // ---------------------------------------------------------------- one thread

  /** A save pass ends the iteration; only thread 0 goes on to the printing check. */
  function AfterSave(index: nat, idle: bool): Place {
    if index == 0 && !idle then Checking else Top
  }

  function FlushAt(v: View, index: nat, place: Place): View {
    var f := Flush(v.thread.local, v.shared, index, |v.thread.batch|);
    v.(shared := f.1, thread := v.thread.(local := f.0, place := place))
  }

  function TakeOne(t: Thread): Thread
    requires t.queue != []
  {
    var p := t.queue[0];
    var t' := t.(queue := t.queue[1..], ledger := t.ledger.(taken := t.ledger.taken + [p]));
    if p.convertible then
      t'.(place := Counted, batch := t.batch + [p], local := Note(t.local, p.call, p.kind),
          ledger := t'.ledger.(accepted := t.ledger.accepted + [p]))
    else t'.(ledger := t'.ledger.(rejected := t.ledger.rejected + [p]))
  }

  function SaveBatch(v: View, index: nat, idle: bool, ok: bool, statsOnly: bool): View {
    var t, next := v.thread, AfterSave(index, idle);
    if |t.batch| < Threshold(index) then v.(thread := t.(place := next))
    else if statsOnly then
      v.(thread := CountSaved(t, |t.batch|).(
           place := next, batch := [], ledger := t.ledger.(discarded := t.ledger.discarded + t.batch)))
    else if ok then
      var saved := Commit(v, next);
      saved.(thread := CountSaved(saved.thread, RowCount(v.table, RowsOf(t.batch))))
    else v.(thread := t.(place := CopyFailed(idle)))
  }

  function InsertBatch(v: View, next: Place, ok: bool): View {
    if ok then
      var saved := Commit(v, next);
      saved.(thread := CountSaved(saved.thread, RowCount(v.table, RowsOf(v.thread.batch))))
    else v.(thread := Lose(v.thread, next))
  }

  function CleanSave(v: View, ok: bool, statsOnly: bool): View {
    var t := v.thread;
    if t.batch == [] then v.(thread := t.(place := Stopped))
    else if statsOnly then
      v.(thread := t.(place := Stopped, batch := [],
                      ledger := t.ledger.(discardedAtStop := t.ledger.discardedAtStop + t.batch)))
    else if ok then Commit(v, Reporting(RowCount(v.table, RowsOf(t.batch))))
    else v.(thread := t.(place := CleanCopyFailed))
  }

  function CleanInsert(v: View, ok: bool): View {
    if ok then Commit(v, Reporting(RowCount(v.table, RowsOf(v.thread.batch))))
    else v.(thread := Lose(v.thread, Reporting(0)))
  }

  predicate Enabled(t: Thread, step: ThreadStep) {
    match step
    case Take => t.place == Top && t.queue != []
    case Timeout => t.place == Top && t.queue == []
    case TouchStats => t.place in {Counted, Idle, Cleaning} || t.place.Reporting?
    case Save(_) => t.place.Saving? || t.place.CopyFailed? || t.place in {CleanSaving, CleanCopyFailed}
    case Check => t.place == Checking
    case PrintStats => t.place == Printing
    case RequestStop => true
    case Quit => t.place == Top && t.stop
  }

  function StepThread(v: View, index: nat, step: ThreadStep, statsOnly: bool): View
    requires Enabled(v.thread, step)
  {
    var t := v.thread;
    match step
    case Take => v.(thread := TakeOne(t))
    case Timeout => v.(thread := t.(place := Idle))
    case TouchStats =>
      (match t.place
       case Counted =>
         if t.local.count >= STATS_FLUSH_INTERVAL then FlushAt(v, index, Saving(false))
         else v.(thread := t.(place := Saving(false)))
       case Idle => FlushAt(v, index, Saving(true))
       case Cleaning => FlushAt(v, index, CleanSaving)
       case Reporting(rows) =>
         v.(shared := v.shared.(saved := v.shared.saved + rows), thread := t.(place := Stopped)))
    case Save(ok) =>
      (match t.place
       case Saving(idle) => SaveBatch(v, index, idle, ok, statsOnly)
       case CopyFailed(idle) => InsertBatch(v, AfterSave(index, idle), ok)
       case CleanSaving => CleanSave(v, ok, statsOnly)
       case CleanCopyFailed => CleanInsert(v, ok))
    case Check =>
      var due := v.shared.count % STATS_INTERVAL == 0 && v.shared.count > 0;
      v.(thread := t.(place := if due then Printing else Top))
    case PrintStats => FlushAt(v, index, Top)
    case RequestStop => v.(thread := t.(stop := true))
    case Quit => v.(thread := t.(place := Cleaning))
  }

  // ---------------------------------------------------------------- the weather thread

  datatype Weather = Weather(
    queue: seq<Packet>, dropped: seq<Packet>, taken: seq<Packet>, skipped: seq<Packet>,
    counted: seq<Packet>, pending: seq<Packet>, stored: seq<Packet>, reports: nat)

  const NEW_WEATHER := Weather([], [], [], [], [], [], [], 0)

  datatype WeatherStep = TakeReport(made: bool) | SaveReports(ok: bool)

  predicate WeatherEnabled(w: Weather, step: WeatherStep) {
    step.TakeReport? ==> w.queue != []
  }

  function StepWeather(w: Weather, step: WeatherStep, statsOnly: bool): Weather
    requires WeatherEnabled(w, step)
  {
    match step
    case TakeReport(made) =>
      var p := w.queue[0];
      var w' := w.(queue := w.queue[1..], taken := w.taken + [p]);
      if !made then w'.(skipped := w.skipped + [p])
      else if statsOnly then w'.(counted := w.counted + [p], reports := w.reports + 1)
      else w'.(pending := w.pending + [p], reports := w.reports + 1)
    case SaveReports(ok) =>
      if statsOnly || ok then w.(stored := w.stored + w.pending, pending := []) else w
  }

  // ---------------------------------------------------------------- the whole system

  datatype System = System(
    arrived: seq<Packet>, threads: seq<Thread>, weather: Weather, shared: Shared, table: Table, statsOnly: bool)

  datatype Step =
    | Deliver(packet: Packet)
    | Run(index: nat, step: ThreadStep)
    | RunWeather(weatherStep: WeatherStep)

  predicate CanStep(s: System, step: Step) {
    match step
    case Deliver(p) => p.id == |s.arrived| && s.threads != []
    case Run(i, step) => i < |s.threads| && Enabled(s.threads[i], step)
    case RunWeather(step) => WeatherEnabled(s.weather, step)
  }

  /** put_nowait on a bounded queue. */
  function OfferTo(t: Thread, p: Packet): Thread {
    if |t.queue| < QUEUE_CAPACITY then t.(queue := t.queue + [p])
    else t.(ledger := t.ledger.(dropped := t.ledger.dropped + [p]))
  }

  function OfferWeather(w: Weather, p: Packet): Weather {
    if !p.weather then w
    else if |w.queue| < QUEUE_CAPACITY then w.(queue := w.queue + [p])
    else w.(dropped := w.dropped + [p])
  }

  function ViewOf(s: System, index: nat): View
    requires index < |s.threads|
  {
    View(s.threads[index], s.shared, s.table)
  }

  function Next(s: System, step: Step): System
    requires CanStep(s, step)
  {
    match step
    case Deliver(p) =>
      var i := |s.arrived| % |s.threads|;
      s.(arrived := s.arrived + [p], threads := s.threads[i := OfferTo(s.threads[i], p)],
         weather := OfferWeather(s.weather, p))
    case Run(i, step) =>
      var v := StepThread(ViewOf(s, i), i, step, s.statsOnly);
      s.(threads := s.threads[i := v.thread], shared := v.shared, table := v.table)
    case RunWeather(step) => s.(weather := StepWeather(s.weather, step, s.statsOnly))
  }

  function Start(n: nat, before: set<Key>, statsOnly: bool): System {
    System([], seq(n, _ => NEW_THREAD), NEW_WEATHER, NOTHING_SHARED, map key | key in before :: Before, statsOnly)
  }

  /** The state after a run: the threads interleave in any order the steps allow. */
  predicate IsRun(s: System, steps: seq<Step>)
    decreases steps
  {
    steps == [] || (CanStep(s, steps[0]) && IsRun(Next(s, steps[0]), steps[1..]))
  }

  function After(s: System, steps: seq<Step>): System
    requires IsRun(s, steps)
    decreases steps
  {
    if steps == [] then s else After(Next(s, steps[0]), steps[1..])
  }
}
