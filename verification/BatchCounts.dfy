/** What the counters of the Rust service mean, and when its batches leave, after any run of the loop. */
module BatchCounts {
  import opened BatchLoop
  import opened Common
  import opened Store

  // ---------------------------------------------------------------- inserted, duplicate, batches

  function Succeeded(flushes: seq<Flush>): nat {
    if flushes == [] then 0 else Succeeded(flushes[..|flushes| - 1]) + (if flushes[|flushes| - 1].failed then 0 else 1)
  }

  /** How many entries were in the flushes that did not fail. */
  function SucceededRows(flushes: seq<Flush>): nat {
    if flushes == [] then 0
    else SucceededRows(flushes[..|flushes| - 1])
         + (if flushes[|flushes| - 1].failed then 0 else |flushes[|flushes| - 1].entries|)
  }

  lemma SucceededNext(flushes: seq<Flush>, f: Flush)
    ensures Succeeded(flushes + [f]) == Succeeded(flushes) + (if f.failed then 0 else 1)
    ensures SucceededRows(flushes + [f]) == SucceededRows(flushes) + (if f.failed then 0 else |f.entries|)
  {
    assert (flushes + [f])[..|flushes|] == flushes;
  }

  /** The counters tell the truth of the table, or in stats-only mode of the entries counted and discarded. */
  predicate Truthful(s: State, before: Table, statsOnly: bool) {
    && s.counts.batches == Succeeded(s.flushed)
    && (statsOnly ==>
          s.table == before && s.counts.inserted == |EntriesOf(s.flushed)| && s.counts.duplicate == 0
          && Succeeded(s.flushed) == |s.flushed|)
    && (!statsOnly ==>
          && s.counts.inserted == |s.table| - |before|
          && s.counts.duplicate == SucceededRows(s.flushed) - (|s.table| - |before|))
  }

  lemma FlushIsTruthful(s: State, commits: bool, before: Table)
    requires Truthful(s, before, false)
    ensures Truthful(FlushBatch(s, commits), before, false)
  {
    SucceededNext(s.flushed, Flush(s.batch, s.now, !commits));
    CountIsGrowth(s.table, RowsOf(Packets(s.batch)));
  }

  lemma DiscardIsTruthful(s: State, before: Table)
    requires Truthful(s, before, true)
    ensures Truthful(Discard(s), before, true)
  {
    SucceededNext(s.flushed, Flush(s.batch, s.now, false));
    FlushesNext(s.flushed, Flush(s.batch, s.now, false));
  }

  lemma {:induction false} FlushIfDueIsTruthful(s: State, commits: bool, config: Config, before: Table)
    requires Truthful(s, before, config.statsOnly)
    ensures Truthful(FlushIfDue(s, commits, config), before, config.statsOnly)
    ensures Truthful(Close(s, commits, config), before, config.statsOnly)
  {
    if config.statsOnly {
      DiscardIsTruthful(s, before);
    } else {
      FlushIsTruthful(s, commits, before);
    }
  }

  lemma {:induction false} IterationIsTruthful(s: State, a: Arrival, config: Config, before: Table)
    requires Truthful(s, before, config.statsOnly)
    ensures Truthful(Iterate(s, a, config), before, config.statsOnly)
  {
    var s0 := s.(now := a.at);
    match a.event {
      case Message(parsed) => FlushIfDueIsTruthful(Receive(s0, parsed), a.commits, config, before);
      case Timeout => FlushIfDueIsTruthful(s0, a.commits, config, before);
      case Closed => FlushIfDueIsTruthful(s0, a.commits, config, before);
    }
  }

  lemma {:induction false} RunsAreTruthful(s: State, arrivals: seq<Arrival>, config: Config, before: Table)
    requires Truthful(s, before, config.statsOnly)
    ensures Truthful(Run(s, arrivals, config), before, config.statsOnly)
    decreases arrivals
  {
    if arrivals != [] && s.open {
      IterationIsTruthful(s, arrivals[0], config, before);
      RunsAreTruthful(Iterate(s, arrivals[0], config), arrivals[1..], config, before);
    }
  }

  /**
   After any run: with a database, inserted is the growth of the table and duplicate what the
   committed batches held beyond it; in stats-only mode, inserted is what was flushed; and
   batches counts the flushes that did not fail.
   */
  lemma CountersTellTheTruth(now: real, table: Table, arrivals: seq<Arrival>, config: Config)
    ensures var s := Run(Start(now, table), arrivals, config);
            && s.counts.batches == Succeeded(s.flushed)
            && (!config.statsOnly ==>
                  && s.counts.inserted == |s.table| - |table|
                  && s.counts.duplicate == SucceededRows(s.flushed) - (|s.table| - |table|))
            && (config.statsOnly ==>
                  && s.counts.inserted == |EntriesOf(s.flushed)| && s.counts.duplicate == 0
                  && s.counts.batches == |s.flushed| && s.table == table)
  {
    RunsAreTruthful(Start(now, table), arrivals, config, table);
  }

  // ---------------------------------------------------------------- received, failed

  function Messages(arrivals: seq<Arrival>): nat {
    if arrivals == [] then 0 else (if arrivals[0].event.Message? then 1 else 0) + Messages(arrivals[1..])
  }

  function Unparsed(arrivals: seq<Arrival>): nat {
    if arrivals == [] then 0
    else (if arrivals[0].event == Message(None) then 1 else 0) + Unparsed(arrivals[1..])
  }

  lemma {:induction false} FlushKeepsReceived(s: State, commits: bool, config: Config)
    ensures var s' := FlushIfDue(s, commits, config);
            s'.counts.received == s.counts.received && s'.counts.failed == s.counts.failed && s'.open == s.open
    ensures var s' := Close(s, commits, config);
            s'.counts.received == s.counts.received && s'.counts.failed == s.counts.failed
  {}

  /** Every message of a timely run is counted once, those that do not parse as failed too. */
  lemma {:induction false} MessagesAreCounted(s: State, arrivals: seq<Arrival>, config: Config)
    requires Timely(s, arrivals, config)
    ensures var s' := Run(s, arrivals, config);
            && s'.counts.received == s.counts.received + Messages(arrivals)
            && s'.counts.failed == s.counts.failed + Unparsed(arrivals)
    decreases arrivals
  {
    if arrivals != [] {
      var a, s0 := arrivals[0], s.(now := arrivals[0].at);
      match a.event {
        case Message(parsed) => FlushKeepsReceived(Receive(s0, parsed), a.commits, config);
        case _ => FlushKeepsReceived(s0, a.commits, config);
      }
      MessagesAreCounted(Iterate(s, a, config), arrivals[1..], config);
    }
  }

  // ---------------------------------------------------------------- what the table holds

  /** The packets of the flushes that did not fail, in order. */
  function SavedPackets(flushes: seq<Flush>): seq<Packet> {
    if flushes == [] then []
    else SavedPackets(flushes[..|flushes| - 1])
         + (if flushes[|flushes| - 1].failed then [] else Packets(flushes[|flushes| - 1].entries))
  }

  lemma RowsAppend(a: seq<Packet>, b: seq<Packet>)
    ensures RowsOf(a + b) == RowsOf(a) + RowsOf(b)
  {}

  lemma {:induction false} CommittedRows(flushes: seq<Flush>)
    ensures Flatten(Committed(flushes)) == RowsOf(SavedPackets(flushes))
  {
    if flushes != [] {
      var n := |flushes| - 1;
      var packets := Packets(flushes[n].entries);
      CommittedRows(flushes[..n]);
      if flushes[n].failed {
        assert Committed(flushes[..n]) + [] == Committed(flushes[..n]);
        assert SavedPackets(flushes[..n]) + [] == SavedPackets(flushes[..n]);
      } else {
        FlattenAppend(Committed(flushes[..n]), [RowsOf(packets)]);
        assert Flatten([RowsOf(packets)]) == RowsOf(packets) + Flatten([]) == RowsOf(packets);
        RowsAppend(SavedPackets(flushes[..n]), packets);
      }
    }
  }

  /** The first of the packets with this sender and this timestamp. */
  predicate FirstAlike(packets: seq<Packet>, key: Key, i: int) {
    && 0 <= i < |packets| && packets[i][0] == key.0 && packets[i][3] == key.1
    && forall j :: 0 <= j < i ==> packets[j][0] != key.0 || packets[j][3] != key.1
  }

  /** Old rows stay, a new one is the first saved packet with its sender and timestamp, and no saved packet lacks one. */
  ghost predicate OneRowEach(table: Table, before: Table, saved: seq<Packet>) {
    && (forall key :: key in before ==> key in table && table[key] == before[key])
    && (forall key :: key in table && key !in before ==> exists i :: FirstAlike(saved, key, i) && table[key] == saved[i])
    && forall i :: 0 <= i < |saved| ==> (saved[i][0], saved[i][3]) in table
  }

  lemma RowsHoldPackets(table: Table, before: Table, saved: seq<Packet>)
    requires HoldsFirst(table, before, RowsOf(saved))
    ensures OneRowEach(table, before, saved)
  {
    var rows := RowsOf(saved);
    forall key | key in table && key !in before
      ensures exists i :: FirstAlike(saved, key, i) && table[key] == saved[i]
    {
      var i :| IsFirstAt(rows, key, i) && table[key] == rows[i].1;
      assert forall j :: 0 <= j < i ==> rows[j].0 == (saved[j][0], saved[j][3]);
      assert FirstAlike(saved, key, i);
    }
    assert forall i :: 0 <= i < |saved| ==> rows[i].0 == (saved[i][0], saved[i][3]);
  }

  /** After any run with a database the table holds one row for each sender and timestamp saved, the first. */
  lemma TableHoldsFirsts(now: real, table: Table, arrivals: seq<Arrival>, config: Config)
    requires !config.statsOnly
    ensures var s := Run(Start(now, table), arrivals, config); OneRowEach(s.table, table, SavedPackets(s.flushed))
  {
    var s := Run(Start(now, table), arrivals, config);
    TableAfterRun(now, table, arrivals, config);
    CommittedRows(s.flushed);
    InsertHoldsFirst(table, RowsOf(SavedPackets(s.flushed)));
    RowsHoldPackets(s.table, table, SavedPackets(s.flushed));
  }

  // ---------------------------------------------------------------- when a batch leaves

  /** When the flush before the i-th one was, or the loop started. */
  function Since(flushes: seq<Flush>, i: nat, start: real): real
    requires i <= |flushes|
  {
    if i == 0 then start else flushes[i - 1].at
  }

  /** The batch was full, or the timeout had passed since the last one. */
  predicate WasDue(flushes: seq<Flush>, i: nat, start: real, config: Config)
    requires i < |flushes|
  {
    |flushes[i].entries| >= config.batchSize || flushes[i].at - Since(flushes, i, start) >= config.batchTimeout
  }

  predicate NoneEarly(s: State, start: real, config: Config) {
    && (s.open ==> s.lastFlush == Since(s.flushed, |s.flushed|, start))
    && forall i :: 0 <= i < |s.flushed| && (s.open || i < |s.flushed| - 1) ==>
         s.flushed[i].entries != [] && WasDue(s.flushed, i, start, config)
  }

  lemma {:induction false} FlushIsNotEarly(s: State, commits: bool, config: Config, start: real)
    requires s.open && NoneEarly(s, start, config)
    ensures NoneEarly(FlushIfDue(s, commits, config), start, config)
  {
    var s' := FlushIfDue(s, commits, config);
    forall i | 0 <= i < |s'.flushed| ensures s'.flushed[i].entries != [] && WasDue(s'.flushed, i, start, config) {
      if i < |s.flushed| {
        assert WasDue(s.flushed, i, start, config);
      }
    }
  }

  lemma {:induction false} CloseIsNotEarly(s: State, commits: bool, config: Config, start: real)
    requires s.open && NoneEarly(s, start, config)
    ensures NoneEarly(Close(s, commits, config), start, config)
  {
    var s' := Close(s, commits, config);
    forall i | 0 <= i < |s'.flushed| - 1 ensures s'.flushed[i].entries != [] && WasDue(s'.flushed, i, start, config) {
      assert WasDue(s.flushed, i, start, config);
    }
  }

  /** In any run no batch but the last one before the end leaves empty, or neither full nor late. */
  lemma {:induction false} NoBatchLeavesEarly(s: State, arrivals: seq<Arrival>, config: Config, start: real)
    requires NoneEarly(s, start, config)
    ensures NoneEarly(Run(s, arrivals, config), start, config)
    decreases arrivals
  {
    if arrivals != [] && s.open {
      var a, s0 := arrivals[0], s.(now := arrivals[0].at);
      match a.event {
        case Message(parsed) => FlushIsNotEarly(Receive(s0, parsed), a.commits, config, start);
        case Timeout => FlushIsNotEarly(s0, a.commits, config, start);
        case Closed => CloseIsNotEarly(s0, a.commits, config, start);
      }
      NoBatchLeavesEarly(Iterate(s, a, config), arrivals[1..], config, start);
    }
  }
}
