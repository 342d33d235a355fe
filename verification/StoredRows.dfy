/** What the packet table holds after any passes of the processor thread, said of the columns of the packets. */
module StoredRows {
  import opened Common
  import opened CopyText
  import opened Processor
  import opened ProcessorRuns
  import opened Store
  import opened Timestamps
  import Pipeline

  // ---------------------------------------------------------------- one row

  /** NULL for a column that is absent or None, the ISO text for a time, any other text as it is. */
  predicate HoldsColumn(field: Option<string>, packet: PacketDict, name: string) {
    if name !in packet || packet[name] == Null then field.None?
    else if packet[name].Stamp? then field == Some(IsoFormat(packet[name].at))
    else field == Some(packet[name].text)
  }

  /** The row holds the sixteen columns of the packet. */
  predicate HoldsColumns(row: Record, packet: PacketDict) {
    |row| == 16 && forall j :: 0 <= j < 16 ==> HoldsColumn(row[j], packet, COPY_COLUMNS[j])
  }

  /** Sender and timestamp of the packet are this key. */
  predicate KeyFits(key: RecordKey, packet: PacketDict) {
    HoldsColumn(key.0, packet, "from_call") && HoldsColumn(key.1, packet, "timestamp")
  }

  lemma RowFits(packets: seq<Prepared>, i: nat)
    requires i < |packets|
    ensures |PacketRows(packets)| == |packets|
    ensures HoldsColumns(PacketRows(packets)[i].1, packets[i])
    ensures forall key :: KeyFits(key, packets[i]) <==> key == PacketRows(packets)[i].0
  {
    ColumnOrder();
    RecordWidths(packets, COPY_COLUMNS);
  }

  /** Two packets share a key exactly if they have the same sender and the same time. */
  lemma SharedKeyIff(a: Prepared, b: Prepared)
    requires Column(a, "timestamp").Stamp? && Column(b, "timestamp").Stamp?
    ensures (exists key :: KeyFits(key, a) && KeyFits(key, b))
            <==> a["from_call"] == b["from_call"] && a["timestamp"] == b["timestamp"]
  {
    var key := (Some(a["from_call"].text), Some(IsoFormat(a["timestamp"].at)));
    assert KeyFits(key, a);
    if IsoFormat(a["timestamp"].at) == IsoFormat(b["timestamp"].at) {
      IsoFormatInjective(a["timestamp"].at, b["timestamp"].at);
    }
    assert forall other :: KeyFits(other, a) ==> other == key;
  }

  // ---------------------------------------------------------------- the table

  /** The first of the packets with this key. */
  predicate FirstAlike(packets: seq<Prepared>, key: RecordKey, i: int) {
    && 0 <= i < |packets| && KeyFits(key, packets[i])
    && forall j :: 0 <= j < i ==> !KeyFits(key, packets[j])
  }

  /** Old rows stay, a new one holds the columns of the first saved packet with its key, and no saved packet lacks one. */
  ghost predicate OneRowEach(table: RecordTable, before: RecordTable, saved: seq<Prepared>) {
    && (forall key :: key in before ==> key in table && table[key] == before[key])
    && (forall key :: key in table && key !in before ==>
          exists i :: FirstAlike(saved, key, i) && HoldsColumns(table[key], saved[i]))
    && forall i, key :: 0 <= i < |saved| && KeyFits(key, saved[i]) ==> key in table
  }

  lemma RowsHoldPackets(table: RecordTable, before: RecordTable, saved: seq<Prepared>)
    requires HoldsFirst(table, before, PacketRows(saved))
    ensures OneRowEach(table, before, saved)
  {
    var rows := PacketRows(saved);
    forall i | 0 <= i < |saved|
      ensures |rows| == |saved| && HoldsColumns(rows[i].1, saved[i])
      ensures forall key :: KeyFits(key, saved[i]) <==> key == rows[i].0
    {
      RowFits(saved, i);
    }
    forall key | key in table && key !in before
      ensures exists i :: FirstAlike(saved, key, i) && HoldsColumns(table[key], saved[i])
    {
      var i :| IsFirstAt(rows, key, i) && table[key] == rows[i].1;
      RowsWidth(saved);
      assert FirstAlike(saved, key, i);
    }
  }

  lemma RowsWidth(packets: seq<Prepared>)
    ensures |PacketRows(packets)| == |packets|
  {
    ColumnOrder();
    RecordWidths(packets, COPY_COLUMNS);
  }

  lemma RowOf(packets: seq<Prepared>, i: nat)
    requires i < |packets|
    ensures |PacketRows(packets)| == |packets| && PacketRows(packets)[i] == PacketRows([packets[i]])[0]
  {
    RowsWidth(packets);
    RowsWidth([packets[i]]);
  }

  lemma RowsAppend(a: seq<Prepared>, b: seq<Prepared>)
    ensures PacketRows(a + b) == PacketRows(a) + PacketRows(b)
  {
    RowsWidth(a);
    RowsWidth(b);
    RowsWidth(a + b);
    forall i | 0 <= i < |a + b| ensures PacketRows(a + b)[i] == (PacketRows(a) + PacketRows(b))[i] {
      RowOf(a + b, i);
      if i < |a| {
        RowOf(a, i);
      } else {
        RowOf(b, i - |a|);
      }
    }
  }

  // ---------------------------------------------------------------- runs

  /** The batch that a pass saves: a full one, if one of its transactions commits. */
  function SavedBy(batch: seq<Prepared>, pass: Pass, index: nat): seq<Prepared> {
    var all := batch + TakenIn(pass.item);
    if |all| == 500 + 25 * index && (pass.fate.copyCommits || pass.fate.insertCommits) then all else []
  }

  /** The packets that the passes save, in order. */
  function SavedIn(s: State, passes: seq<Pass>, index: nat): seq<Prepared>
    decreases passes
  {
    if passes == [] then []
    else SavedBy(s.batch, passes[0], index)
         + SavedIn(Iteration(s, passes[0].item, index, false, passes[0].fate), passes[1..], index)
  }

  lemma NothingOffered(table: RecordTable)
    ensures InsertAll(table, PacketRows([])) == table
  {
    RowsWidth([]);
  }

  lemma {:induction false} PassStores(s: State, pass: Pass, index: nat)
    requires |s.batch| < 500 + 25 * index
    ensures var s' := Iteration(s, pass.item, index, false, pass.fate);
            s'.table == InsertAll(s.table, PacketRows(SavedBy(s.batch, pass, index))) && |s'.batch| < 500 + 25 * index
  {
    NothingOffered(s.table);
    assert s.batch + [] == s.batch;
  }

  lemma {:induction false} PassesInsert(s: State, passes: seq<Pass>, index: nat)
    requires |s.batch| < 500 + 25 * index
    ensures After(s, passes, index, false).table == InsertAll(s.table, PacketRows(SavedIn(s, passes, index)))
    decreases passes
  {
    if passes == [] {
      NothingOffered(s.table);
    } else {
      var s1 := Iteration(s, passes[0].item, index, false, passes[0].fate);
      var now, later := SavedBy(s.batch, passes[0], index), SavedIn(s1, passes[1..], index);
      PassStores(s, passes[0], index);
      PassesInsert(s1, passes[1..], index);
      RowsAppend(now, later);
      InsertAppend(s.table, PacketRows(now), PacketRows(later));
    }
  }

  /** After any passes with a database the table holds one row for each sender and time saved, that of the first. */
  lemma PassesStore(s: State, passes: seq<Pass>, index: nat)
    requires |s.batch| < 500 + 25 * index
    ensures OneRowEach(After(s, passes, index, false).table, s.table, SavedIn(s, passes, index))
  {
    var saved := SavedIn(s, passes, index);
    PassesInsert(s, passes, index);
    InsertHoldsFirst(s.table, PacketRows(saved));
    RowsHoldPackets(After(s, passes, index, false).table, s.table, saved);
  }

  predicate AllCommit(passes: seq<Pass>) {
    forall i :: 0 <= i < |passes| ==> passes[i].fate.copyCommits || passes[i].fate.insertCommits
  }

  /** If of each pass one transaction commits, every packet taken in is saved or in the batch, in order. */
  lemma {:induction false} AllSavedOrBatched(s: State, passes: seq<Pass>, index: nat)
    requires |s.batch| < 500 + 25 * index && AllCommit(passes)
    ensures SavedIn(s, passes, index) + After(s, passes, index, false).batch == s.batch + Accepted(passes)
    decreases passes
  {
    if passes == [] {
      assert [] + s.batch == s.batch + [];
    } else {
      var pass := passes[0];
      var s1 := Iteration(s, pass.item, index, false, pass.fate);
      PassBatch(s, pass.item, index, false, pass.fate);
      AllSavedOrBatched(s1, passes[1..], index);
      Reassociate(s.batch, TakenIn(pass.item), Accepted(passes[1..]));
      Reassociate(SavedBy(s.batch, pass, index), SavedIn(s1, passes[1..], index), After(s, passes, index, false).batch);
      Reassociate(SavedBy(s.batch, pass, index), s1.batch, Accepted(passes[1..]));
      assert SavedBy(s.batch, pass, index) + s1.batch == s.batch + TakenIn(pass.item);
    }
  }

  /** Without a database the passes leave the table alone. */
  lemma {:induction false} StatsOnlyStoresNothing(s: State, passes: seq<Pass>, index: nat)
    ensures After(s, passes, index, true).table == s.table
    decreases passes
  {
    if passes != [] {
      StatsOnlyStoresNothing(Iteration(s, passes[0].item, index, true, passes[0].fate), passes[1..], index);
    }
  }
}
