/**
 The packet table as the two ingest services use it: rows under a primary key,
 written only by INSERT ... ON CONFLICT DO NOTHING, so the first row of a key stays.
 */
module Store {
  import opened Common

  /** One row offered to the table; a key that is already there leaves the table alone. */
  function InsertOne<K, V>(table: map<K, V>, row: (K, V)): map<K, V> {
    if row.0 in table then table else table[row.0 := row.1]
  }

  /** The rows of one statement, in order. */
  function InsertAll<K, V>(table: map<K, V>, rows: seq<(K, V)>): map<K, V>
    decreases rows
  {
    if rows == [] then table else InsertAll(InsertOne(table, rows[0]), rows[1..])
  }

  /** What the database reports as the row count of that statement. */
  function RowCount<K, V>(table: map<K, V>, rows: seq<(K, V)>): nat
    decreases rows
  {
    if rows == [] then 0
    else (if rows[0].0 in table then 0 else 1) + RowCount(InsertOne(table, rows[0]), rows[1..])
  }

  /** The statements of a run, one batch each. */
  function SaveBatches<K, V>(table: map<K, V>, batches: seq<seq<(K, V)>>): map<K, V>
    decreases batches
  {
    if batches == [] then table else SaveBatches(InsertAll(table, batches[0]), batches[1..])
  }

  function SumOfCounts<K, V>(table: map<K, V>, batches: seq<seq<(K, V)>>): nat
    decreases batches
  {
    if batches == [] then 0
    else RowCount(table, batches[0]) + SumOfCounts(InsertAll(table, batches[0]), batches[1..])
  }

  function Get<K, V>(table: map<K, V>, key: K): Option<V> {
    if key in table then Some(table[key]) else None
  }

  /** The first row offered under a key: the reference for what the table must hold. */
  ghost function FirstWith<K, V>(rows: seq<(K, V)>, key: K): Option<V> {
    if rows == [] then None
    else if rows[0].0 == key then Some(rows[0].1)
    else FirstWith(rows[1..], key)
  }

  ghost function KeysOf<K, V>(rows: seq<(K, V)>): set<K> {
    set row | row in rows :: row.0
  }

  /** After any statement a key holds its old row, or else the first row offered under it. */
  lemma {:induction false} FirstRowWins<K, V>(table: map<K, V>, rows: seq<(K, V)>, key: K)
    ensures Get(InsertAll(table, rows), key)
         == (if key in table then Get(table, key) else FirstWith(rows, key))
    decreases rows
  {
    if rows != [] {
      FirstRowWins(InsertOne(table, rows[0]), rows[1..], key);
    }
  }

  lemma {:induction false} FirstWithIsARow<K, V>(rows: seq<(K, V)>, key: K)
    ensures FirstWith(rows, key).Some? <==> key in KeysOf(rows)
    ensures FirstWith(rows, key).Some? ==> (key, FirstWith(rows, key).value) in rows
  {
    if rows != [] {
      FirstWithIsARow(rows[1..], key);
      assert rows == [rows[0]] + rows[1..];
    }
  }

  /** The row at that place is the first one with its key. */
  predicate IsFirstAt<K(==), V>(rows: seq<(K, V)>, key: K, i: int) {
    0 <= i < |rows| && rows[i].0 == key && forall j :: 0 <= j < i ==> rows[j].0 != key
  }

  lemma {:induction false} FirstWithAt<K, V>(rows: seq<(K, V)>, key: K) returns (i: nat)
    requires FirstWith(rows, key).Some?
    ensures IsFirstAt(rows, key, i) && FirstWith(rows, key) == Some(rows[i].1)
  {
    i := 0;
    if rows[0].0 != key {
      var k := FirstWithAt(rows[1..], key);
      i := k + 1;
      assert forall j :: 0 < j < i ==> rows[j] == rows[1..][j - 1];
    }
  }

  /**
   What the table holds: the old rows; under each new key the first row offered; and the key
   of every row offered.
   */
  ghost predicate HoldsFirst<K, V>(table: map<K, V>, before: map<K, V>, rows: seq<(K, V)>) {
    && (forall key :: key in before ==> key in table && table[key] == before[key])
    && (forall key :: key in table && key !in before ==>
          exists i :: IsFirstAt(rows, key, i) && table[key] == rows[i].1)
    && forall i :: 0 <= i < |rows| ==> rows[i].0 in table
  }

  lemma {:induction false} InsertHoldsFirst<K, V>(before: map<K, V>, rows: seq<(K, V)>)
    ensures HoldsFirst(InsertAll(before, rows), before, rows)
  {
    var table := InsertAll(before, rows);
    InsertedKeys(before, rows);
    forall key | key in before ensures key in table && table[key] == before[key] {
      FirstRowWins(before, rows, key);
    }
    forall key | key in table && key !in before ensures exists i :: IsFirstAt(rows, key, i) && table[key] == rows[i].1 {
      FirstRowWins(before, rows, key);
      FirstWithIsARow(rows, key);
      var i := FirstWithAt(rows, key);
    }
    assert forall i :: 0 <= i < |rows| ==> rows[i] in rows;
  }

  /** The keys of the table are the old ones and the offered ones, whatever their order. */
  lemma InsertedKeys<K, V>(table: map<K, V>, rows: seq<(K, V)>)
    ensures InsertAll(table, rows).Keys == table.Keys + KeysOf(rows)
  {
    var keys, union := InsertAll(table, rows).Keys, table.Keys + KeysOf(rows);
    forall key | key in keys ensures key in union {
      FirstRowWins(table, rows, key);
      FirstWithIsARow(rows, key);
    }
    forall key | key in union ensures key in keys {
      FirstRowWins(table, rows, key);
      FirstWithIsARow(rows, key);
    }
  }

  /** The reported row count is exactly the growth of the table. */
  lemma {:induction false} CountIsGrowth<K, V>(table: map<K, V>, rows: seq<(K, V)>)
    ensures |InsertAll(table, rows)| == |table| + RowCount(table, rows)
    ensures RowCount(table, rows) <= |rows|
    decreases rows
  {
    if rows != [] {
      var row := rows[0];
      if row.0 !in table {
        assert table[row.0 := row.1].Keys == table.Keys + {row.0};
      }
      CountIsGrowth(InsertOne(table, row), rows[1..]);
    }
  }

  /** Rows whose keys are all present change nothing and count nothing. */
  lemma {:induction false} NothingNew<K, V>(table: map<K, V>, rows: seq<(K, V)>)
    requires KeysOf(rows) <= table.Keys
    ensures InsertAll(table, rows) == table && RowCount(table, rows) == 0
    decreases rows
  {
    if rows != [] {
      assert rows[0] in rows;
      NothingNew(table, rows[1..]);
    }
  }

  /** Saving a batch a second time, after any other statements, adds no row. */
  lemma ResaveAddsNothing<K, V>(table: map<K, V>, rows: seq<(K, V)>, between: seq<(K, V)>)
    ensures var later := InsertAll(InsertAll(table, rows), between);
            InsertAll(later, rows) == later && RowCount(later, rows) == 0
  {
    InsertedKeys(table, rows);
    InsertedKeys(InsertAll(table, rows), between);
    NothingNew(InsertAll(InsertAll(table, rows), between), rows);
  }

  lemma {:induction false} InsertAppend<K, V>(table: map<K, V>, a: seq<(K, V)>, b: seq<(K, V)>)
    ensures InsertAll(table, a + b) == InsertAll(InsertAll(table, a), b)
    ensures RowCount(table, a + b) == RowCount(table, a) + RowCount(InsertAll(table, a), b)
    decreases a
  {
    if a == [] {
      assert a + b == b;
    } else {
      InsertAppend(InsertOne(table, a[0]), a[1..], b);
      assert (a + b)[1..] == a[1..] + b;
    }
  }

  /** However a stream of rows is cut into batches, the table is that of the rows one by one. */
  lemma {:induction false} BatchingIsInvisible<K, V>(table: map<K, V>, batches: seq<seq<(K, V)>>)
    ensures SaveBatches(table, batches) == InsertAll(table, Flatten(batches))
    ensures SumOfCounts(table, batches) == RowCount(table, Flatten(batches))
    ensures |SaveBatches(table, batches)| == |table| + SumOfCounts(table, batches)
    decreases batches
  {
    if batches != [] {
      BatchingIsInvisible(InsertAll(table, batches[0]), batches[1..]);
      InsertAppend(table, batches[0], Flatten(batches[1..]));
      CountIsGrowth(table, batches[0]);
    }
  }

  /** The batches that one thread contributed to a schedule of (thread, batch) saves. */
  ghost function SavedBy<K, V>(schedule: seq<(nat, seq<(K, V)>)>, thread: nat): seq<seq<(K, V)>> {
    if schedule == [] then []
    else (if schedule[0].0 == thread then [schedule[0].1] else []) + SavedBy(schedule[1..], thread)
  }

  function BatchesOf<K, V>(schedule: seq<(nat, seq<(K, V)>)>): seq<seq<(K, V)>> {
    seq(|schedule|, i requires 0 <= i < |schedule| => schedule[i].1)
  }

  lemma {:induction false} SavedByMembers<K, V>(schedule: seq<(nat, seq<(K, V)>)>, thread: nat, batch: seq<(K, V)>)
    ensures batch in SavedBy(schedule, thread) <==> (thread, batch) in schedule
  {
    if schedule != [] {
      SavedByMembers(schedule[1..], thread, batch);
      assert schedule == [schedule[0]] + schedule[1..];
    }
  }

  /** Whatever the interleaving, a key is in the table iff it was there or some thread saved it. */
  lemma InterleavingKeepsTheUnion<K, V>(table: map<K, V>, schedule: seq<(nat, seq<(K, V)>)>, key: K)
    ensures key in SaveBatches(table, BatchesOf(schedule))
       <==> key in table || exists thread: nat :: key in KeysOf(Flatten(SavedBy(schedule, thread)))
  {
    var batches := BatchesOf(schedule);
    BatchingIsInvisible(table, batches);
    InsertedKeys(table, Flatten(batches));
    if key in KeysOf(Flatten(batches)) {
      var row: (K, V) :| row in Flatten(batches) && row.0 == key;
      FlattenMembers(batches, row);
      var i :| 0 <= i < |batches| && row in batches[i];
      var thread, batch := schedule[i].0, schedule[i].1;
      SavedByMembers(schedule, thread, batch);
      FlattenMembers(SavedBy(schedule, thread), row);
    }
    forall thread: nat | key in KeysOf(Flatten(SavedBy(schedule, thread)))
      ensures key in KeysOf(Flatten(batches))
    {
      var row: (K, V) :| row in Flatten(SavedBy(schedule, thread)) && row.0 == key;
      FlattenMembers(SavedBy(schedule, thread), row);
      var j :| 0 <= j < |SavedBy(schedule, thread)| && row in SavedBy(schedule, thread)[j];
      var batch := SavedBy(schedule, thread)[j];
      SavedByMembers(schedule, thread, batch);
      var i :| 0 <= i < |schedule| && schedule[i] == (thread, batch);
      assert batches[i] == batch;
      FlattenMembers(batches, row);
    }
  }
}
