/**
 The packet processor of the Rust service: a receive loop with a timeout, a batch that is
 flushed when it is full or old, atomic counters, and the bulk insert behind it. Time is
 that of the channel events; processing takes none.
 */
module BatchLoop {
  import opened Common
  import opened Store

  const COLUMNS: nat := 16
  const FROM_CALL: nat := 0
  const TIMESTAMP: nat := 3

  /** A parsed packet: its sixteen columns, in the order of the insert statement. */
  type Packet = columns: seq<Option<string>> | |columns| == COLUMNS witness seq(COLUMNS, _ => None)
  type Key = (Option<string>, Option<string>)
  type Table = map<Key, Packet>

  function RowsOf(batch: seq<Packet>): seq<(Key, Packet)> {
    seq(|batch|, i requires 0 <= i < |batch| => ((batch[i][FROM_CALL], batch[i][TIMESTAMP]), batch[i]))
  }

  /** What the receive yields: a message that parses or not, a timeout, or a closed channel. */
  datatype Event = Message(parsed: Option<Packet>) | Timeout | Closed

  /** An event, when it comes, and whether an insert started by it succeeds. */
  datatype Arrival = Arrival(event: Event, at: real, commits: bool)

  datatype Config = Config(batchSize: nat, batchTimeout: real, statsOnly: bool)

  datatype Counts = Counts(received: nat, parsed: nat, failed: nat, inserted: nat, duplicate: nat, batches: nat)

  /** A packet in the batch, with the time it was added. */
  datatype Entry = Entry(packet: Packet, added: real)

  /** A batch that left the loop: its entries, when, and whether its insert failed. */
  datatype Flush = Flush(entries: seq<Entry>, at: real, failed: bool)

  datatype State = State(
    batch: seq<Entry>, lastFlush: real, now: real, counts: Counts, table: Table, flushed: seq<Flush>, open: bool)

  function Packets(batch: seq<Entry>): seq<Packet> {
    seq(|batch|, i requires 0 <= i < |batch| => batch[i].packet)
  }

  function Start(now: real, table: Table): State {
    State([], now, now, Counts(0, 0, 0, 0, 0, 0), table, [], true)
  }

  // ---------------------------------------------------------------- one iteration

  /** flush_batch: insert and count, or give the rows up; the batch is empty either way. */
  function FlushBatch(s: State, commits: bool): State {
    var rows := RowsOf(Packets(s.batch));
    var s' := s.(batch := [], flushed := s.flushed + [Flush(s.batch, s.now, !commits)]);
    if !commits then s'
    else
      var n := RowCount(s.table, rows);
      CountIsGrowth(s.table, rows);
      s'.(table := InsertAll(s.table, rows),
          counts := s.counts.(inserted := s.counts.inserted + n,
                              duplicate := s.counts.duplicate + (|s.batch| - n),
                              batches := s.counts.batches + 1))
  }

  function Discard(s: State): State {
    s.(batch := [], flushed := s.flushed + [Flush(s.batch, s.now, false)],
       counts := s.counts.(inserted := s.counts.inserted + |s.batch|, batches := s.counts.batches + 1))
  }

  function Receive(s: State, parsed: Option<Packet>): State {
    var c := s.counts.(received := s.counts.received + 1);
    if parsed.Some? then
      s.(counts := c.(parsed := c.parsed + 1), batch := s.batch + [Entry(parsed.value, s.now)])
    else s.(counts := c.(failed := c.failed + 1))
  }

  function FlushIfDue(s: State, commits: bool, config: Config): State {
    var due := |s.batch| >= config.batchSize || s.now - s.lastFlush >= config.batchTimeout;
    if due && s.batch != [] then
      (if config.statsOnly then Discard(s) else FlushBatch(s, commits)).(lastFlush := s.now)
    else s
  }

  function Close(s: State, commits: bool, config: Config): State {
    (if s.batch != [] && !config.statsOnly then FlushBatch(s, commits) else s).(open := false)
  }

  function Iterate(s: State, arrival: Arrival, config: Config): State {
    var s0 := s.(now := arrival.at);
    match arrival.event
    case Message(parsed) => FlushIfDue(Receive(s0, parsed), arrival.commits, config)
    case Timeout => FlushIfDue(s0, arrival.commits, config)
    case Closed => Close(s0, arrival.commits, config)
  }

  /** Each receive ends within the timeout of its start, a timeout exactly at it; nothing follows a close. */
  predicate Timely(s: State, arrivals: seq<Arrival>, config: Config)
    decreases arrivals
  {
    arrivals == [] ||
    var a := arrivals[0];
    && s.open && s.now <= a.at <= s.now + config.batchTimeout
    && (a.event.Timeout? ==> a.at == s.now + config.batchTimeout)
    && Timely(Iterate(s, a, config), arrivals[1..], config)
  }

  function Run(s: State, arrivals: seq<Arrival>, config: Config): State
    decreases arrivals
  {
    if arrivals == [] || !s.open then s else Run(Iterate(s, arrivals[0], config), arrivals[1..], config)
  }

  // ---------------------------------------------------------------- what every run keeps

  function FailedRows(flushes: seq<Flush>): nat {
    if flushes == [] then 0
    else FailedRows(flushes[..|flushes| - 1])
         + (if flushes[|flushes| - 1].failed then |flushes[|flushes| - 1].entries| else 0)
  }

  /** The batches whose insert went through. */
  function Committed(flushes: seq<Flush>): seq<seq<(Key, Packet)>> {
    if flushes == [] then []
    else Committed(flushes[..|flushes| - 1])
         + (if flushes[|flushes| - 1].failed then [] else [RowsOf(Packets(flushes[|flushes| - 1].entries))])
  }

  function EntriesOf(flushes: seq<Flush>): seq<Entry> {
    if flushes == [] then []
    else EntriesOf(flushes[..|flushes| - 1]) + flushes[|flushes| - 1].entries
  }

  lemma FlushesNext(flushes: seq<Flush>, f: Flush)
    ensures FailedRows(flushes + [f]) == FailedRows(flushes) + (if f.failed then |f.entries| else 0)
    ensures EntriesOf(flushes + [f]) == EntriesOf(flushes) + f.entries
    ensures Committed(flushes + [f])
         == if f.failed then Committed(flushes) else Committed(flushes) + [RowsOf(Packets(f.entries))]
  {
    assert (flushes + [f])[..|flushes|] == flushes;
  }

  /** Every entry ever made, in order: flushed ones first. */
  function Entries(s: State): seq<Entry> { EntriesOf(s.flushed) + s.batch }

  /** Nothing parsed is unaccounted for: inserted, duplicate, in a failed batch, or pending. */
  predicate Balanced(s: State) {
    && s.counts.received == s.counts.parsed + s.counts.failed
    && s.counts.parsed == s.counts.inserted + s.counts.duplicate + FailedRows(s.flushed) + |s.batch|
    && s.counts.parsed == |Entries(s)|
  }

  predicate Bounded(s: State, config: Config) {
    && (s.open ==> |s.batch| < config.batchSize || s.batch == [])
    && (!s.open && !config.statsOnly ==> s.batch == [])
  }

  lemma FlushBalances(s: State, commits: bool)
    requires Balanced(s)
    ensures Balanced(FlushBatch(s, commits)) && Entries(FlushBatch(s, commits)) == Entries(s)
    ensures Balanced(Discard(s)) && Entries(Discard(s)) == Entries(s)
  {
    FlushesNext(s.flushed, Flush(s.batch, s.now, !commits));
    FlushesNext(s.flushed, Flush(s.batch, s.now, false));
    CountIsGrowth(s.table, RowsOf(Packets(s.batch)));
  }

  lemma ReceiveBalances(s: State, parsed: Option<Packet>)
    requires Balanced(s)
    ensures Balanced(Receive(s, parsed))
    ensures Entries(Receive(s, parsed)) == Entries(s) + (if parsed.Some? then [Entry(parsed.value, s.now)] else [])
  {}

  lemma FlushIfDueBalances(s: State, commits: bool, config: Config)
    requires Balanced(s) && s.open
    ensures var s' := FlushIfDue(s, commits, config);
            Balanced(s') && Bounded(s', config) && Entries(s') == Entries(s)
  {
    FlushBalances(s, commits);
  }

  lemma CloseBalances(s: State, commits: bool, config: Config)
    requires Balanced(s)
    ensures var s' := Close(s, commits, config);
            Balanced(s') && Bounded(s', config) && Entries(s') == Entries(s)
  {
    FlushBalances(s, commits);
  }

  /** One iteration appends at most the packet it parsed, and moves the rest in order. */
  lemma IterationBalances(s: State, a: Arrival, config: Config)
    requires Balanced(s) && s.open
    ensures Balanced(Iterate(s, a, config)) && Bounded(Iterate(s, a, config), config)
    ensures Entries(Iterate(s, a, config))
         == Entries(s) + (if a.event.Message? && a.event.parsed.Some? then [Entry(a.event.parsed.value, a.at)] else [])
  {
    var s0 := s.(now := a.at);
    match a.event
    case Message(parsed) =>
      ReceiveBalances(s0, parsed);
      FlushIfDueBalances(Receive(s0, parsed), a.commits, config);
    case Timeout => FlushIfDueBalances(s0, a.commits, config);
    case Closed => CloseBalances(s0, a.commits, config);
  }

  /** The table is the old one plus the committed batches, as if inserted row by row. */
  predicate TableFromBatches(s: State, before: Table) {
    s.table == SaveBatches(before, Committed(s.flushed))
  }

  lemma {:induction false} SaveOneMore(table: Table, batches: seq<seq<(Key, Packet)>>, rows: seq<(Key, Packet)>)
    ensures SaveBatches(table, batches + [rows]) == InsertAll(SaveBatches(table, batches), rows)
    decreases batches
  {
    if batches == [] {
      assert batches + [rows] == [rows];
      assert [rows][1..] == [];
    } else {
      SaveOneMore(InsertAll(table, batches[0]), batches[1..], rows);
      assert (batches + [rows])[1..] == batches[1..] + [rows];
    }
  }

  lemma FlushKeepsTable(s: State, commits: bool, before: Table)
    requires TableFromBatches(s, before)
    ensures TableFromBatches(FlushBatch(s, commits), before)
  {
    FlushesNext(s.flushed, Flush(s.batch, s.now, !commits));
    SaveOneMore(before, Committed(s.flushed), RowsOf(Packets(s.batch)));
  }

  lemma FlushIfDueKeepsTable(s: State, commits: bool, config: Config, before: Table)
    requires TableFromBatches(s, before) && !config.statsOnly
    ensures TableFromBatches(FlushIfDue(s, commits, config), before)
    ensures TableFromBatches(Close(s, commits, config), before)
  {
    FlushKeepsTable(s, commits, before);
  }

  lemma IterationKeepsTable(s: State, a: Arrival, config: Config, before: Table)
    requires TableFromBatches(s, before) && !config.statsOnly
    ensures TableFromBatches(Iterate(s, a, config), before)
  {
    var s0 := s.(now := a.at);
    match a.event
    case Message(parsed) => FlushIfDueKeepsTable(Receive(s0, parsed), a.commits, config, before);
    case Timeout => FlushIfDueKeepsTable(s0, a.commits, config, before);
    case Closed => FlushIfDueKeepsTable(s0, a.commits, config, before);
  }

  /** A pending packet was added since the last flush, and that is less than a timeout ago. */
  predicate Recent(s: State, config: Config) {
    && s.lastFlush <= s.now
    && (forall i :: 0 <= i < |s.batch| ==> s.lastFlush <= s.batch[i].added <= s.now)
    && (s.batch != [] && s.open ==> s.now - s.lastFlush < config.batchTimeout)
  }

  predicate FlushedInTime(f: Flush, config: Config) {
    forall i :: 0 <= i < |f.entries| ==> 0.0 <= f.at - f.entries[i].added < 2.0 * config.batchTimeout
  }

  predicate Punctual(s: State, config: Config) {
    Recent(s, config) && AllInTime(s.flushed, config)
  }

  predicate Waiting(s: State, config: Config) {
    forall i :: 0 <= i < |s.batch| ==>
      s.lastFlush <= s.batch[i].added <= s.now < s.batch[i].added + 2.0 * config.batchTimeout
  }

  predicate AllInTime(flushes: seq<Flush>, config: Config) {
    forall i :: 0 <= i < |flushes| ==> FlushedInTime(flushes[i], config)
  }

  lemma {:induction false} FlushInTime(s: State, commits: bool, config: Config)
    requires Waiting(s, config) && AllInTime(s.flushed, config)
    ensures AllInTime(FlushBatch(s, commits).flushed, config) && AllInTime(Discard(s).flushed, config)
  {}

  lemma FlushIfDueIsPunctual(s: State, commits: bool, config: Config)
    requires s.lastFlush <= s.now && Waiting(s, config) && AllInTime(s.flushed, config)
    ensures Punctual(FlushIfDue(s, commits, config), config)
    ensures Punctual(Close(s, commits, config), config)
  {
    FlushInTime(s, commits, config);
  }

  lemma IterationIsPunctual(s: State, a: Arrival, config: Config)
    requires Punctual(s, config) && s.open && config.batchTimeout > 0.0
    requires s.now <= a.at <= s.now + config.batchTimeout
    ensures Punctual(Iterate(s, a, config), config)
  {
    var s0 := s.(now := a.at);
    match a.event
    case Message(parsed) => FlushIfDueIsPunctual(Receive(s0, parsed), a.commits, config);
    case Timeout => FlushIfDueIsPunctual(s0, a.commits, config);
    case Closed => FlushIfDueIsPunctual(s0, a.commits, config);
  }

  /** The packets parsed by a run, with their arrival times. */
  function ParsedEntries(arrivals: seq<Arrival>): seq<Entry> {
    if arrivals == [] then []
    else
      var e := arrivals[0].event;
      (if e.Message? && e.parsed.Some? then [Entry(e.parsed.value, arrivals[0].at)] else []) + ParsedEntries(arrivals[1..])
  }

  lemma {:induction false} RunsBalance(s: State, arrivals: seq<Arrival>, config: Config)
    requires Balanced(s) && Bounded(s, config) && Timely(s, arrivals, config)
    ensures Balanced(Run(s, arrivals, config)) && Bounded(Run(s, arrivals, config), config)
    decreases arrivals
  {
    if arrivals != [] {
      IterationBalances(s, arrivals[0], config);
      RunsBalance(Iterate(s, arrivals[0], config), arrivals[1..], config);
    }
  }

  lemma ParsedOne(a: Arrival)
    ensures ParsedEntries([a])
         == if a.event.Message? && a.event.parsed.Some? then [Entry(a.event.parsed.value, a.at)] else []
  {
    assert [a][1..] == [];
  }

  lemma {:induction false} RunsKeepEntries(s: State, arrivals: seq<Arrival>, config: Config)
    requires Balanced(s) && Timely(s, arrivals, config)
    ensures Entries(Run(s, arrivals, config)) == Entries(s) + ParsedEntries(arrivals)
    decreases arrivals
  {
    if arrivals != [] {
      var s', parsed := Iterate(s, arrivals[0], config), ParsedEntries([arrivals[0]]);
      ParsedOne(arrivals[0]);
      IterationBalances(s, arrivals[0], config);
      RunsKeepEntries(s', arrivals[1..], config);
      assert ParsedEntries(arrivals) == parsed + ParsedEntries(arrivals[1..]);
    }
  }

  lemma {:induction false} RunsKeepTable(s: State, arrivals: seq<Arrival>, config: Config, before: Table)
    requires TableFromBatches(s, before) && !config.statsOnly
    ensures TableFromBatches(Run(s, arrivals, config), before)
    decreases arrivals
  {
    if arrivals != [] && s.open {
      IterationKeepsTable(s, arrivals[0], config, before);
      RunsKeepTable(Iterate(s, arrivals[0], config), arrivals[1..], config, before);
    }
  }

  lemma {:induction false} RunsArePunctual(s: State, arrivals: seq<Arrival>, config: Config)
    requires Punctual(s, config) && Timely(s, arrivals, config) && config.batchTimeout > 0.0
    ensures Punctual(Run(s, arrivals, config), config)
    decreases arrivals
  {
    if arrivals != [] {
      IterationIsPunctual(s, arrivals[0], config);
      RunsArePunctual(Iterate(s, arrivals[0], config), arrivals[1..], config);
    }
  }

  /**
   After any run: received = parsed + failed; parsed = inserted + duplicate + rows of failed
   batches + pending; the batch is shorter than its size; each parsed packet was flushed
   or is pending, in order; and with a database a closed channel leaves nothing pending.
   */
  lemma Conservation(now: real, table: Table, arrivals: seq<Arrival>, config: Config)
    requires Timely(Start(now, table), arrivals, config)
    ensures var s := Run(Start(now, table), arrivals, config);
            && s.counts.received == s.counts.parsed + s.counts.failed
            && s.counts.parsed == s.counts.inserted + s.counts.duplicate + FailedRows(s.flushed) + |s.batch|
            && EntriesOf(s.flushed) + s.batch == ParsedEntries(arrivals)
            && (s.open ==> |s.batch| < config.batchSize || s.batch == [])
            && (!s.open && !config.statsOnly ==> s.batch == [])
  {
    RunsBalance(Start(now, table), arrivals, config);
    RunsKeepEntries(Start(now, table), arrivals, config);
  }

  /** With a database the table is the old one plus the rows of the committed batches, first row of a key first. */
  lemma TableAfterRun(now: real, table: Table, arrivals: seq<Arrival>, config: Config)
    requires !config.statsOnly
    ensures var s := Run(Start(now, table), arrivals, config);
            s.table == InsertAll(table, Flatten(Committed(s.flushed)))
  {
    RunsKeepTable(Start(now, table), arrivals, config, table);
    BatchingIsInvisible(table, Committed(Run(Start(now, table), arrivals, config).flushed));
  }

  /** No packet waits two timeouts: flushed ones waited less, pending ones are younger than one. */
  lemma FlushedWithinTwoTimeouts(now: real, table: Table, arrivals: seq<Arrival>, config: Config)
    requires Timely(Start(now, table), arrivals, config) && config.batchTimeout > 0.0
    ensures var s := Run(Start(now, table), arrivals, config);
            && (forall i, j :: 0 <= i < |s.flushed| && 0 <= j < |s.flushed[i].entries| ==>
                  s.flushed[i].at - s.flushed[i].entries[j].added < 2.0 * config.batchTimeout)
            && (s.open ==> forall j :: 0 <= j < |s.batch| ==> s.now - s.batch[j].added < config.batchTimeout)
  {
    RunsArePunctual(Start(now, table), arrivals, config);
    assert forall i :: 0 <= i < |Run(Start(now, table), arrivals, config).flushed| ==>
      FlushedInTime(Run(Start(now, table), arrivals, config).flushed[i], config);
  }

  /** Early, Late and Last of a run in which a packet waits two timeouts less e. */
  function SlowArrivals(p: Packet, timeout: real, e: real): seq<Arrival> {
    [Arrival(Message(Some(p)), e / 2.0, true)] + ([Arrival(Message(None), timeout - e / 2.0, true)]
    + [Arrival(Timeout, 2.0 * timeout - e / 2.0, true)])
  }

  /** The bound is tight: whatever the timeout, a packet can wait twice as long, less any e > 0. */
  lemma AlmostTwoTimeouts(p: Packet, timeout: real, e: real)
    requires 0.0 < e <= timeout
    ensures var config, arrivals := Config(500, timeout, false), SlowArrivals(p, timeout, e);
            && Timely(Start(0.0, map[]), arrivals, config)
            && Run(Start(0.0, map[]), arrivals, config).flushed
               == [Flush([Entry(p, e / 2.0)], 2.0 * timeout - e / 2.0, false)]
  {
    var config := Config(500, timeout, false);
    var a, b, c := Arrival(Message(Some(p)), e / 2.0, true), Arrival(Message(None), timeout - e / 2.0, true),
                   Arrival(Timeout, 2.0 * timeout - e / 2.0, true);
    var s0 := Start(0.0, map[]);
    var s1 := Iterate(s0, a, config);
    assert s1.batch == [Entry(p, e / 2.0)] && s1.flushed == [];
    var s2 := Iterate(s1, b, config);
    assert s2.batch == [Entry(p, e / 2.0)] && s2.flushed == [];
    var s3 := Iterate(s2, c, config);
    assert s3.flushed == [Flush([Entry(p, e / 2.0)], 2.0 * timeout - e / 2.0, false)];
    assert ([a] + ([b] + [c]))[1..] == [b] + [c] && ([b] + [c])[1..] == [c] && [c][1..] == [];
    assert Timely(s3, [], config) && Run(s3, [], config) == s3;
    assert Timely(s2, [c], config) && Run(s2, [c], config) == s3;
    assert Timely(s1, [b] + [c], config) && Run(s1, [b] + [c], config) == s3;
  }

  // ---------------------------------------------------------------- the bulk insert

  /** What UNNEST makes of parallel column vectors: row i takes element i of each. */
  function Unnest(columns: seq<seq<Option<string>>>, rows: nat): seq<Packet>
    requires |columns| == COLUMNS && forall j :: 0 <= j < COLUMNS ==> |columns[j]| == rows
  {
    seq(rows, i requires 0 <= i < rows => seq(COLUMNS, j requires 0 <= j < COLUMNS => columns[j][i]))
  }

  /** Sixteen growing vectors, one push per packet and column: zipped again they are the packets. */
  method BuildColumns(packets: seq<Packet>) returns (columns: seq<seq<Option<string>>>)
    ensures |columns| == COLUMNS && forall j :: 0 <= j < COLUMNS ==> |columns[j]| == |packets|
    ensures Unnest(columns, |packets|) == packets
  {
    columns := seq(COLUMNS, _ => []);
    for n := 0 to |packets|
      invariant |columns| == COLUMNS && forall j :: 0 <= j < COLUMNS ==> |columns[j]| == n
      invariant forall j, i :: 0 <= j < COLUMNS && 0 <= i < n ==> columns[j][i] == packets[i][j]
    {
      columns := seq(COLUMNS, j requires 0 <= j < COLUMNS => columns[j] + [packets[n][j]]);
    }
    assert forall i :: 0 <= i < |packets| ==> Unnest(columns, |packets|)[i] == packets[i];
  }

  class Database {
    var table: Table

    constructor (table: Table)
      ensures this.table == table
    {
      this.table := table;
    }

    /** The number of inserted rows, or None if the statement fails and changes nothing. */
    method InsertBatch(packets: seq<Packet>, succeeds: bool) returns (inserted: Option<nat>)
      modifies this
      ensures succeeds || packets == [] ==>
        inserted == Some(RowCount(old(table), RowsOf(packets))) && table == InsertAll(old(table), RowsOf(packets))
      ensures !succeeds && packets != [] ==> inserted == None && table == old(table)
    {
      if packets == [] {
        return Some(0);
      }
      var columns := BuildColumns(packets);
      if !succeeds {
        return None;
      }
      var rows := RowsOf(Unnest(columns, |packets|));
      inserted := Some(RowCount(table, rows));
      table := InsertAll(table, rows);
    }
  }

  // ---------------------------------------------------------------- the loop itself

  class Stats {
    var packetsReceived: nat
    var packetsParsed: nat
    var packetsFailed: nat
    var packetsInserted: nat
    var packetsDuplicate: nat
    var batchInserts: nat

    function View(): Counts
      reads this
    {
      Counts(packetsReceived, packetsParsed, packetsFailed, packetsInserted, packetsDuplicate, batchInserts)
    }

    constructor ()
      ensures View() == Counts(0, 0, 0, 0, 0, 0)
    {
      packetsReceived, packetsParsed, packetsFailed := 0, 0, 0;
      packetsInserted, packetsDuplicate, batchInserts := 0, 0, 0;
    }
  }

  class PacketProcessor {
    const config: Config
    const stats: Stats
    const db: Database
    var batch: seq<Entry>
    var lastFlush: real
    var now: real
    var open: bool
    ghost var flushed: seq<Flush>

    ghost function View(): State
      reads this, stats, db
    {
      State(batch, lastFlush, now, stats.View(), db.table, flushed, open)
    }

    constructor (config: Config, stats: Stats, db: Database, now: real)
      ensures this.config == config && this.stats == stats && this.db == db
      ensures View() == Start(now, db.table).(counts := stats.View())
    {
      this.config, this.stats, this.db := config, stats, db;
      batch, lastFlush, this.now, open, flushed := [], now, now, true, [];
    }

    method FlushToDatabase(commits: bool)
      requires batch != []
      modifies this`batch, this`flushed, stats, db
      ensures View() == FlushBatch(old(View()), commits)
    {
      var rows := Packets(batch);
      var inserted := db.InsertBatch(rows, commits);
      match inserted {
        case Some(n) =>
          CountIsGrowth(old(db.table), RowsOf(rows));
          stats.packetsInserted := stats.packetsInserted + n;
          stats.packetsDuplicate := stats.packetsDuplicate + (|batch| - n);
          stats.batchInserts := stats.batchInserts + 1;
        case None =>
      }
      flushed := flushed + [Flush(batch, now, !commits)];
      batch := [];
    }

    method FlushWhenDue(commits: bool)
      modifies this`batch, this`flushed, this`lastFlush, stats, db
      ensures View() == FlushIfDue(old(View()), commits, config)
    {
      var shouldFlush := |batch| >= config.batchSize || now - lastFlush >= config.batchTimeout;
      if shouldFlush && batch != [] {
        if config.statsOnly {
          stats.packetsInserted := stats.packetsInserted + |batch|;
          stats.batchInserts := stats.batchInserts + 1;
          flushed := flushed + [Flush(batch, now, false)];
          batch := [];
        } else {
          FlushToDatabase(commits);
        }
        lastFlush := now;
      }
    }

    method NoteMessage(parsed: Option<Packet>)
      modifies this`batch, stats
      ensures View() == Receive(old(View()), parsed)
    {
      stats.packetsReceived := stats.packetsReceived + 1;
      if parsed.Some? {
        stats.packetsParsed := stats.packetsParsed + 1;
        batch := batch + [Entry(parsed.value, now)];
      } else {
        stats.packetsFailed := stats.packetsFailed + 1;
      }
    }

    /** One pass of the loop, from the event the receive yields. */
    method Process(arrival: Arrival)
      requires open
      modifies this, stats, db
      ensures View() == Iterate(old(View()), arrival, config)
    {
      now := arrival.at;
      match arrival.event {
        case Message(parsed) =>
          NoteMessage(parsed);
          FlushWhenDue(arrival.commits);
        case Timeout =>
          FlushWhenDue(arrival.commits);
        case Closed =>
          if batch != [] && !config.statsOnly {
            FlushToDatabase(arrival.commits);
          }
          open := false;
      }
    }

    /** The receive loop over what the channel yields, until it is closed. */
    method ProcessPackets(arrivals: seq<Arrival>)
      modifies this, stats, db
      ensures View() == Run(old(View()), arrivals, config)
    {
      var n := 0;
      while n < |arrivals| && open
        invariant n <= |arrivals|
        invariant Run(View(), arrivals[n..], config) == Run(old(View()), arrivals, config)
        decreases |arrivals| - n
      {
        assert arrivals[n..][1..] == arrivals[n + 1..];
        Process(arrivals[n]);
        n := n + 1;
      }
    }
  }
}
