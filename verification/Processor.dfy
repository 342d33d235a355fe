/**
 The processor thread as an object: it drains its queue, counts in its own fields, moves
 the counts into the shared statistics, and saves its batch by COPY or, if that fails, by
 INSERT. Whether a transaction commits is an argument of the methods that start one.
 */
module Processor {
  import opened Common
  import opened Counters
  import opened CopyText
  import opened Queues
  import opened Store
  import Pipeline

  // ---------------------------------------------------------------- rows and the database

  type RecordKey = (Option<string>, Option<string>)
  type RecordTable = map<RecordKey, Record>

  const WIDTH := 16
  const FROM_CALL := 0
  const TIMESTAMP := 3
  const LOCATION := 9

  /** What the conversion to a row guarantees: a sender, a type, and no empty location text. */
  predicate IsPrepared(packet: PacketDict) {
    && Column(packet, "from_call").Text? && Column(packet, "from_call").text != ""
    && Column(packet, "packet_type").Text?
    && Column(packet, "location") != Text("")
  }

  type Prepared = packet: PacketDict | IsPrepared(packet)
    witness map["from_call" := Text("N0CALL"), "packet_type" := Text("unknown")]

  function Keyed(record: Record): (RecordKey, Record)
    requires |record| == WIDTH
  {
    ((record[FROM_CALL], record[TIMESTAMP]), record)
  }

  function RowsOf(records: seq<Record>): seq<(RecordKey, Record)>
    requires forall r :: r in records ==> |r| == WIDTH
  {
    seq(|records|, i requires 0 <= i < |records| => Keyed(records[i]))
  }

  function PacketRows(packets: seq<Prepared>): seq<(RecordKey, Record)> {
    ColumnOrder();
    RecordWidths(packets, COPY_COLUMNS);
    RowsOf(RecordsOf(packets, COPY_COLUMNS))
  }

  /** The CASE of the merge: an empty location text becomes NULL. */
  function Merged(record: Record): Record
    requires |record| == WIDTH
  {
    if record[LOCATION] == Some("") then record[LOCATION := None] else record
  }

  function MergedAll(records: seq<Record>): seq<Record>
    requires forall r :: r in records ==> |r| == WIDTH
    ensures forall r :: r in MergedAll(records) ==> |r| == WIDTH
  {
    seq(|records|, i requires 0 <= i < |records| => Merged(records[i]))
  }

  lemma {:induction false} DecodedWidths(buffer: string, columns: nat)
    ensures Decode(buffer, columns).Rows? ==> forall r :: r in Decode(buffer, columns).rows ==> |r| == columns
    decreases |buffer|
  {
    if buffer != "" {
      var n := FindUnescaped(buffer, '\n');
      DecodedWidths(if n < |buffer| then buffer[n + 1..] else "", columns);
    }
  }

  lemma ColumnOrder()
    ensures |COPY_COLUMNS| == WIDTH
    ensures COPY_COLUMNS[FROM_CALL] == "from_call" && COPY_COLUMNS[TIMESTAMP] == "timestamp"
    ensures COPY_COLUMNS[LOCATION] == "location"
  {}

  lemma RecordWidths(packets: seq<PacketDict>, columns: seq<string>)
    ensures forall r :: r in RecordsOf(packets, columns) ==> |r| == |columns|
  {}

  /** Prepared packets pass the merge unchanged, so both routes offer the same rows. */
  lemma MergeKeepsPrepared(packets: seq<Prepared>, columns: seq<string>)
    requires |columns| == WIDTH && columns[LOCATION] == "location"
    ensures MergedAll(RecordsOf(packets, columns)) == RecordsOf(packets, columns)
  {
    var records := RecordsOf(packets, columns);
    forall i | 0 <= i < |packets| ensures Merged(records[i]) == records[i] {
      assert records[i][LOCATION] == StoredText(Column(packets[i], "location"));
    }
  }

  /** No merged row has an empty location text, and nothing else is changed. */
  lemma MergeClearsLocation(records: seq<Record>, i: nat)
    requires forall r :: r in records ==> |r| == WIDTH
    requires i < |records|
    ensures var r, m := records[i], MergedAll(records)[i];
            && m[9] != Some("") && (r[9] != Some("") ==> m == r)
            && (r[9] == Some("") ==> m[9].None?) && forall j :: 0 <= j < 16 && j != 9 ==> m[j] == r[j]
  {}

  /** PostgreSQL as the service relies on it: a transaction happens whole or not at all. */
  class Database {
    var table: RecordTable

    constructor ()
      ensures table == map[]
    {
      table := map[];
    }

    /** COPY into the staging table, then INSERT ... SELECT ... ON CONFLICT DO NOTHING. */
    method CopyAndMerge(buffer: string, commits: bool) returns (count: int)
      modifies this
      ensures var decoded := Decode(buffer, WIDTH);
              if commits && decoded.Rows? then
                && (forall r :: r in decoded.rows ==> |r| == WIDTH)
                && table == InsertAll(old(table), RowsOf(MergedAll(decoded.rows)))
                && count == RowCount(old(table), RowsOf(MergedAll(decoded.rows)))
              else table == old(table) && count == -1
    {
      var decoded := Decode(buffer, WIDTH);
      DecodedWidths(buffer, WIDTH);
      count := -1;
      if commits && decoded.Rows? {
        var rows := RowsOf(MergedAll(decoded.rows));
        count := RowCount(table, rows);
        table := InsertAll(table, rows);
      }
    }

    /** INSERT ... VALUES ... ON CONFLICT DO NOTHING; a failure is reported as no row. */
    method InsertRows(rows: seq<(RecordKey, Record)>, commits: bool) returns (count: int)
      modifies this
      ensures table == if commits then InsertAll(old(table), rows) else old(table)
      ensures count == if commits then RowCount(old(table), rows) else 0
    {
      count := 0;
      if commits {
        count := RowCount(table, rows);
        table := InsertAll(table, rows);
      }
    }
  }

  // ---------------------------------------------------------------- shared objects

  /** The shared statistics dictionary; its lock makes each access one step. */
  class SharedStats {
    var packetCounter: nat
    var packetsSaved: nat
    var uniqueCallsigns: set<string>
    var packetTypes: map<string, nat>
    var pendingPerThread: map<nat, nat>

    function View(): Shared
      reads this
    {
      Shared(packetCounter, packetsSaved, uniqueCallsigns, packetTypes, pendingPerThread)
    }

    constructor ()
      ensures View() == NOTHING_SHARED
    {
      packetCounter, packetsSaved, uniqueCallsigns, packetTypes, pendingPerThread := 0, 0, {}, map[], map[];
    }
  }

  // ---------------------------------------------------------------- one iteration, as a function

  datatype State = State(batch: seq<Prepared>, local: Local, shared: Shared, table: RecordTable)

  /** How the two transactions of a save end. */
  datatype Fate = Fate(copyCommits: bool, insertCommits: bool)

  function CallOf(packet: Prepared): string { Column(packet, "from_call").text }
  function KindOf(packet: Prepared): string { Column(packet, "packet_type").text }

  function Accept(s: State, packet: Prepared): State {
    s.(batch := s.batch + [packet], local := Note(s.local, CallOf(packet), KindOf(packet)))
  }

  function Flushed(s: State, index: nat): State {
    var f := Flush(s.local, s.shared, index, |s.batch|);
    s.(local := f.0, shared := f.1)
  }

  /** A batch that is due goes to the table by one of the routes, or is lost if both fail. */
  function Saved(s: State, index: nat, statsOnly: bool, fate: Fate): State {
    if |s.batch| < Pipeline.Threshold(index) then s
    else
      var rows := PacketRows(s.batch);
      var commits := fate.copyCommits || fate.insertCommits;
      var count := if statsOnly then |s.batch| else if commits then RowCount(s.table, rows) else 0;
      State([], s.local.(saved := s.local.saved + count), s.shared,
            if commits && !statsOnly then InsertAll(s.table, rows) else s.table)
  }

  function Printed(s: State, index: nat): State {
    if index == 0 && s.shared.count % Pipeline.STATS_INTERVAL == 0 && s.shared.count > 0 then Flushed(s, index)
    else s
  }

  /** What one pass of loop() makes of the state, given what the queue yields. */
  function Iteration(s: State, item: Option<Option<Prepared>>, index: nat, statsOnly: bool, fate: Fate): State {
    match item
    case None => Saved(Flushed(s, index), index, statsOnly, fate)
    case Some(None) => s
    case Some(Some(packet)) =>
      var counted := Accept(s, packet);
      var flushed := if counted.local.count >= Pipeline.STATS_FLUSH_INTERVAL then Flushed(counted, index) else counted;
      Printed(Saved(flushed, index, statsOnly, fate), index)
  }

  /** The last batch is saved, and its rows are counted in the shared statistics directly. */
  function LastSaved(f: State, statsOnly: bool, fate: Fate): State {
    if f.batch == [] || statsOnly then f.(batch := [])
    else if fate.copyCommits || fate.insertCommits then
      var rows := PacketRows(f.batch);
      State([], f.local, f.shared.(saved := f.shared.saved + RowCount(f.table, rows)), InsertAll(f.table, rows))
    else f.(batch := [])
  }

  /** What _cleanup() makes of the state. */
  function Cleaned(s: State, index: nat, statsOnly: bool, fate: Fate): State {
    LastSaved(Flushed(s, index), statsOnly, fate)
  }

  // ---------------------------------------------------------------- the thread

  class APRSPacketProcessorThread {
    /** An entry is None if the packet will not convert. */
    const packetQueue: PacketQueue<Option<Prepared>>
    const db: Database
    const stats: SharedStats
    const threadIndex: nat
    const statsOnly: bool
    const batchSaveThreshold: nat

    var packetDicts: seq<Prepared>
    var localPacketCount: nat
    var localPacketsSaved: nat
    var localCallsigns: set<string>
    var localPacketTypes: map<string, nat>

    predicate Valid()
      reads this
    {
      batchSaveThreshold == Pipeline.Threshold(threadIndex) && Settled(LocalView())
    }

    function LocalView(): Local
      reads this
    {
      Local(localPacketCount, localPacketsSaved, localCallsigns, localPacketTypes)
    }

    function View(): State
      reads this, stats, db
    {
      State(packetDicts, LocalView(), stats.View(), db.table)
    }

    constructor (packetQueue: PacketQueue<Option<Prepared>>, db: Database, stats: SharedStats, threadIndex: nat, statsOnly: bool)
      modifies stats
      ensures Valid() && LocalView() == NOTHING_COUNTED && packetDicts == []
      ensures this.packetQueue == packetQueue && this.db == db && this.stats == stats
      ensures this.threadIndex == threadIndex && this.statsOnly == statsOnly
      ensures stats.View() == old(stats.View()).(pending := old(stats.pendingPerThread)[threadIndex := 0])
    {
      this.packetQueue, this.db, this.stats := packetQueue, db, stats;
      this.threadIndex, this.statsOnly := threadIndex, statsOnly;
      batchSaveThreshold := Pipeline.BATCH_SIZE + threadIndex * Pipeline.BATCH_STAGGER;
      packetDicts := [];
      localPacketCount, localPacketsSaved, localCallsigns, localPacketTypes := 0, 0, {}, map[];
      new;
      stats.pendingPerThread := stats.pendingPerThread[threadIndex := 0];
    }

    method FlushLocalStats()
      requires Valid()
      modifies this, stats
      ensures Valid() && View() == Flushed(old(View()), threadIndex)
    {
      if localPacketCount == 0 {
        return;
      }
      stats.packetCounter := stats.packetCounter + localPacketCount;
      stats.packetsSaved := stats.packetsSaved + localPacketsSaved;
      stats.pendingPerThread := stats.pendingPerThread[threadIndex := |packetDicts|];
      stats.uniqueCallsigns := stats.uniqueCallsigns + localCallsigns;
      MergePacketTypes();
      localPacketCount, localPacketsSaved, localCallsigns, localPacketTypes := 0, 0, {}, map[];
    }

    /** The loop over the local type counts, in whatever order the dictionary gives them. */
    method MergePacketTypes()
      modifies stats`packetTypes
      ensures stats.packetTypes == MergeTallies(old(stats.packetTypes), localPacketTypes)
    {
      var before := stats.packetTypes;
      var todo := localPacketTypes.Keys;
      while todo != {}
        invariant todo <= localPacketTypes.Keys
        invariant stats.packetTypes.Keys == before.Keys + (localPacketTypes.Keys - todo)
        invariant forall kind :: kind in stats.packetTypes ==>
          stats.packetTypes[kind] == Tally(before, kind) + (if kind in todo then 0 else Tally(localPacketTypes, kind))
        decreases todo
      {
        var kind :| kind in todo;
        stats.packetTypes := stats.packetTypes[kind := Tally(stats.packetTypes, kind) + localPacketTypes[kind]];
        todo := todo - {kind};
      }
    }

    /** Encodes the batch and hands it to COPY; -1 if that fails. */
    method SaveWithCopy(commits: bool) returns (count: int)
      modifies db
      ensures db.table == if commits then InsertAll(old(db.table), PacketRows(packetDicts)) else old(db.table)
      ensures count == if commits then RowCount(old(db.table), PacketRows(packetDicts)) else -1
    {
      ColumnOrder();
      var buffer := EncodeBatch(packetDicts, COPY_COLUMNS);
      CopyRoundTrip(packetDicts, COPY_COLUMNS);
      MergeKeepsPrepared(packetDicts, COPY_COLUMNS);
      count := db.CopyAndMerge(buffer, commits);
    }

    method SaveWithInsert(commits: bool) returns (count: int)
      modifies db
      ensures db.table == if commits then InsertAll(old(db.table), PacketRows(packetDicts)) else old(db.table)
      ensures count == if commits then RowCount(old(db.table), PacketRows(packetDicts)) else 0
    {
      count := db.InsertRows(PacketRows(packetDicts), commits);
    }

    method SavePacketsIfNeeded(fate: Fate)
      requires Valid()
      modifies this, db
      ensures Valid() && View() == Saved(old(View()), threadIndex, statsOnly, fate)
    {
      if |packetDicts| < batchSaveThreshold {
        return;
      }
      if statsOnly {
        localPacketsSaved := localPacketsSaved + |packetDicts|;
        packetDicts := [];
        return;
      }
      var actualInserted := SaveWithCopy(fate.copyCommits);
      if actualInserted < 0 {
        actualInserted := SaveWithInsert(fate.insertCommits);
      }
      if actualInserted >= 0 {
        localPacketsSaved := localPacketsSaved + actualInserted;
        packetDicts := [];
      }
    }

    /** Batches and counts one converted packet, without the lock. */
    method AcceptPacket(packet: Prepared)
      requires Valid()
      modifies this
      ensures Valid() && View() == Accept(old(View()), packet)
    {
      packetDicts := packetDicts + [packet];
      if CallOf(packet) != "" {
        localCallsigns := localCallsigns + {CallOf(packet)};
      }
      localPacketCount := localPacketCount + 1;
      localPacketTypes := localPacketTypes[KindOf(packet) := Tally(localPacketTypes, KindOf(packet)) + 1];
    }

    /** Thread 0 prints when the shared counter is at a multiple of 500, and flushes first. */
    method PrintStatsIfDue()
      requires Valid()
      modifies this, stats
      ensures Valid() && View() == Printed(old(View()), threadIndex)
    {
      if threadIndex == 0 {
        var counter := stats.packetCounter;
        if counter % Pipeline.STATS_INTERVAL == 0 && counter > 0 {
          FlushLocalStats();
        }
      }
    }

    method Loop(fate: Fate) returns (alive: bool)
      requires Valid()
      modifies this, packetQueue, stats, db
      ensures Valid() && alive
      ensures packetQueue.items == if old(packetQueue.items) == [] then [] else old(packetQueue.items)[1..]
      ensures var items := old(packetQueue.items);
              View() == Iteration(old(View()), if items == [] then None else Some(items[0]), threadIndex, statsOnly, fate)
    {
      alive := true;
      var item := packetQueue.Get();
      if item.None? {
        if localPacketCount > 0 {
          FlushLocalStats();
        }
        SavePacketsIfNeeded(fate);
        return;
      }
      if item.value.None? {
        return;
      }
      AcceptPacket(item.value.value);
      if localPacketCount >= Pipeline.STATS_FLUSH_INTERVAL {
        FlushLocalStats();
      }
      SavePacketsIfNeeded(fate);
      PrintStatsIfDue();
    }

    method Cleanup(fate: Fate)
      requires Valid()
      modifies this, stats, db
      ensures Valid() && packetDicts == []
      ensures View() == Cleaned(old(View()), threadIndex, statsOnly, fate)
    {
      FlushLocalStats();
      if packetDicts == [] {
        return;
      }
      if statsOnly {
        packetDicts := [];
        return;
      }
      var actualInserted := SaveWithCopy(fate.copyCommits);
      if actualInserted < 0 {
        actualInserted := SaveWithInsert(fate.insertCommits);
      }
      if actualInserted >= 0 {
        stats.packetsSaved := stats.packetsSaved + actualInserted;
        packetDicts := [];
      }
    }
  }
}
