/**
 The map's station queries: rows newest first under a cap, de-duplicated by callsign, cut
 to a limit; and what the answer should be, said of the table alone.
 */
module MapQueries {
  import opened Common
  import opened Timestamps

  datatype Position = Position(lat: real, lon: real)

  /** A table row; `detail` stands for the columns the map only carries along. */
  datatype Packet = Packet(
    id: nat, call: string, position: Option<Position>, kind: string, receivedAt: DateTime, detail: string)

  function Rank(p: Packet): nat { p.receivedAt.Rank() }

  /** The comparison the code makes: of the ISO texts. */
  predicate TextNewer(a: Packet, b: Packet) {
    TextLess(IsoFormat(b.receivedAt), IsoFormat(a.receivedAt))
  }

  lemma TextNewerIsNewer(a: Packet, b: Packet)
    ensures TextNewer(a, b) <==> Rank(a) > Rank(b)
  {
    TextOrderIsTimeOrder(b.receivedAt, a.receivedAt);
  }

  // ---------------------------------------------------------------- the table's answer

  predicate SortedNewest(rows: seq<Packet>) {
    forall i, j :: 0 <= i < j < |rows| ==> Rank(rows[i]) >= Rank(rows[j])
  }

  /** ORDER BY received_at DESC, with LIMIT `cap` if there is one: ties may come in any order. */
  ghost predicate IsAnswer(rows: seq<Packet>, matching: set<Packet>, cap: Option<nat>) {
    && |rows| == (if cap.Some? then Min(|matching|, cap.value) else |matching|)
    && (forall i :: 0 <= i < |rows| ==> rows[i] in matching)
    && (forall i, j :: 0 <= i < j < |rows| ==> rows[i] != rows[j])
    && SortedNewest(rows)
    && (forall p, i :: p in matching && p !in rows && 0 <= i < |rows| ==> Rank(p) <= Rank(rows[i]))
  }

  // ---------------------------------------------------------------- de-duplication

  function CallsOf(packets: seq<Packet>): set<string> { set i | 0 <= i < |packets| :: packets[i].call }

  function DedupFrom(rows: seq<Packet>, seen: set<string>): seq<Packet>
    decreases rows
  {
    if rows == [] then []
    else if rows[0].call in seen then DedupFrom(rows[1..], seen)
    else [rows[0]] + DedupFrom(rows[1..], seen + {rows[0].call})
  }

  /** The first row of each callsign. */
  function Dedup(rows: seq<Packet>): seq<Packet> { DedupFrom(rows, {}) }

  predicate DistinctCalls(packets: seq<Packet>) {
    forall i, j :: 0 <= i < j < |packets| ==> packets[i].call != packets[j].call
  }

  lemma {:induction false} DedupSplits(a: seq<Packet>, b: seq<Packet>, seen: set<string>)
    ensures DedupFrom(a + b, seen) == DedupFrom(a, seen) + DedupFrom(b, seen + CallsOf(a))
    decreases a
  {
    if a == [] {
      assert a + b == b && seen + CallsOf(a) == seen;
    } else {
      assert (a + b)[1..] == a[1..] + b;
      CallsCons(a);
      var seen' := seen + {a[0].call};
      DedupSplits(a[1..], b, seen');
      assert seen' + CallsOf(a[1..]) == seen + CallsOf(a);
      if a[0].call in seen {
        assert seen' == seen;
      } else {
        assert DedupFrom(a, seen) == [a[0]] + DedupFrom(a[1..], seen');
        assert DedupFrom(a + b, seen) == [a[0]] + DedupFrom(a[1..] + b, seen');
      }
    }
  }

  lemma CallsCons(a: seq<Packet>)
    requires a != []
    ensures CallsOf(a) == {a[0].call} + CallsOf(a[1..])
  {
    assert forall i :: 0 < i < |a| ==> a[i] == a[1..][i - 1];
    assert forall i :: 0 <= i < |a| - 1 ==> a[1..][i] == a[i + 1];
  }

  /** De-duplicating a prefix gives a prefix of the de-duplication. */
  lemma DedupPrefix(rows: seq<Packet>, m: nat)
    requires m <= |rows|
    ensures Dedup(rows[..m]) <= Dedup(rows)
  {
    assert rows == rows[..m] + rows[m..];
    DedupSplits(rows[..m], rows[m..], {});
  }

  /** What de-duplication promises, beside distinct callsigns: who is in, and that order is kept. */
  predicate IsDedup(result: seq<Packet>, rows: seq<Packet>, seen: set<string>) {
    && DistinctCalls(result)
    && (forall i :: 0 <= i < |result| ==> result[i] in rows && result[i].call !in seen)
    && (forall p :: p in rows && p.call !in seen ==> p.call in CallsOf(result))
  }

  lemma {:induction false} DedupFacts(rows: seq<Packet>, seen: set<string>)
    ensures IsDedup(DedupFrom(rows, seen), rows, seen)
    decreases rows
  {
    if rows != [] {
      if rows[0].call in seen {
        DedupFacts(rows[1..], seen);
      } else {
        var seen' := seen + {rows[0].call};
        DedupFacts(rows[1..], seen');
        CallsCons(DedupFrom(rows, seen));
        assert DedupFrom(rows, seen)[1..] == DedupFrom(rows[1..], seen');
      }
      assert rows == [rows[0]] + rows[1..];
    }
  }

  lemma SortedTail(rows: seq<Packet>)
    requires rows != [] && SortedNewest(rows)
    ensures SortedNewest(rows[1..]) && forall p :: p in rows ==> Rank(p) <= Rank(rows[0])
  {
    assert forall i :: 0 <= i < |rows| - 1 ==> rows[1..][i] == rows[i + 1];
  }

  lemma {:induction false} SortedCons(p: Packet, rest: seq<Packet>)
    requires SortedNewest(rest) && forall i :: 0 <= i < |rest| ==> Rank(rest[i]) <= Rank(p)
    ensures SortedNewest([p] + rest)
  {}

  /** On rows newest first the survivors are newest first. */
  lemma {:induction false} DedupSorted(rows: seq<Packet>, seen: set<string>)
    requires SortedNewest(rows)
    ensures SortedNewest(DedupFrom(rows, seen))
    decreases rows
  {
    if rows != [] {
      SortedTail(rows);
      if rows[0].call in seen {
        DedupSorted(rows[1..], seen);
      } else {
        DedupSorted(rows[1..], seen + {rows[0].call});
        DedupFacts(rows[1..], seen + {rows[0].call});
        SortedCons(rows[0], DedupFrom(rows[1..], seen + {rows[0].call}));
      }
    }
  }

  /** A survivor is the first row of its callsign. */
  lemma {:induction false} SurvivorIsFirst(rows: seq<Packet>, seen: set<string>, i: nat) returns (k: nat)
    requires i < |DedupFrom(rows, seen)|
    ensures k < |rows| && rows[k] == DedupFrom(rows, seen)[i] && rows[k].call !in seen
    ensures forall j :: 0 <= j < k ==> rows[j].call != rows[k].call
    decreases rows
  {
    if rows[0].call in seen {
      k := SurvivorIsFirst(rows[1..], seen, i);
      k := k + 1;
    } else if i == 0 {
      k := 0;
    } else {
      k := SurvivorIsFirst(rows[1..], seen + {rows[0].call}, i - 1);
      k := k + 1;
    }
  }

  /** And so, on rows newest first, the newest of its callsign. */
  lemma DedupNewest(rows: seq<Packet>, seen: set<string>, i: nat, p: Packet)
    requires SortedNewest(rows) && i < |DedupFrom(rows, seen)|
    requires p in rows && p.call == DedupFrom(rows, seen)[i].call
    ensures Rank(p) <= Rank(DedupFrom(rows, seen)[i])
  {
    var k := SurvivorIsFirst(rows, seen, i);
    var j :| 0 <= j < |rows| && rows[j] == p;
  }

  /** The stations found in the first n rows, and the callsigns seen there. */
  ghost predicate Found(rows: seq<Packet>, n: nat, seen: set<string>, result: seq<Packet>) {
    n <= |rows| && result + DedupFrom(rows[n..], seen) == Dedup(rows)
  }

  lemma FoundFirst(rows: seq<Packet>)
    ensures Found(rows, 0, {}, [])
  {
    assert rows[0..] == rows;
  }

  lemma FoundNext(rows: seq<Packet>, n: nat, seen: set<string>, result: seq<Packet>)
    requires n < |rows| && Found(rows, n, seen, result)
    ensures if rows[n].call in seen then Found(rows, n + 1, seen, result)
            else Found(rows, n + 1, seen + {rows[n].call}, result + [rows[n]])
  {
    assert rows[n..][1..] == rows[n + 1..];
    if rows[n].call !in seen {
      Reassociate(result, [rows[n]], DedupFrom(rows[n + 1..], seen + {rows[n].call}));
    }
  }

  lemma FoundAll(rows: seq<Packet>, seen: set<string>, result: seq<Packet>)
    requires Found(rows, |rows|, seen, result)
    ensures result == Dedup(rows)
  {
    assert rows[|rows|..] == [];
  }

  lemma FoundEnough(rows: seq<Packet>, n: nat, seen: set<string>, result: seq<Packet>)
    requires Found(rows, n, seen, result)
    ensures result == Take(Dedup(rows), |result|)
  {
    PrefixTaken(result, DedupFrom(rows[n..], seen));
  }

  /** The loop with its `seen` set. */
  method Deduplicate(rows: seq<Packet>) returns (result: seq<Packet>)
    ensures result == Dedup(rows)
  {
    var seen: set<string> := {};
    result := [];
    FoundFirst(rows);
    for n := 0 to |rows|
      invariant Found(rows, n, seen, result)
    {
      FoundNext(rows, n, seen, result);
      if rows[n].call !in seen {
        seen := seen + {rows[n].call};
        result := result + [rows[n]];
      }
    }
    FoundAll(rows, seen, result);
  }

  /** The same loop, stopping when `limit` stations are found. */
  method DeduplicateUpTo(rows: seq<Packet>, limit: nat) returns (result: seq<Packet>)
    requires limit == 0 ==> rows == []
    ensures result == Take(Dedup(rows), limit)
  {
    var seen: set<string> := {};
    result := [];
    FoundFirst(rows);
    for n := 0 to |rows|
      invariant Found(rows, n, seen, result)
      invariant rows != [] ==> |result| < limit
    {
      FoundNext(rows, n, seen, result);
      if rows[n].call !in seen {
        seen := seen + {rows[n].call};
        result := result + [rows[n]];
        if |result| >= limit {
          FoundEnough(rows, n + 1, seen, result);
          return;
        }
      }
    }
    FoundAll(rows, seen, result);
  }

  lemma PrefixTaken<T>(a: seq<T>, b: seq<T>)
    ensures Take(a + b, |a|) == a
  {}

  function Take<T>(s: seq<T>, limit: nat): seq<T> { if |s| <= limit then s else s[..limit] }

  // ---------------------------------------------------------------- the reference

  function CallSet(matching: set<Packet>): set<string> { set p | p in matching :: p.call }

  /** The newest record of each callsign, the `limit` most recent of them, newest first. */
  ghost predicate IsTopNewest(result: seq<Packet>, matching: set<Packet>, limit: nat) {
    && |result| == Min(limit, |CallSet(matching)|)
    && DistinctCalls(result) && SortedNewest(result)
    && (forall i :: 0 <= i < |result| ==> result[i] in matching)
    && (forall i, p :: 0 <= i < |result| && p in matching && p.call == result[i].call ==> Rank(p) <= Rank(result[i]))
    && (forall i, p :: 0 <= i < |result| && p in matching && p.call !in CallsOf(result) ==> Rank(p) <= Rank(result[i]))
  }

  lemma {:induction false} DistinctCallCount(packets: seq<Packet>)
    requires DistinctCalls(packets)
    ensures |CallsOf(packets)| == |packets|
  {
    if packets != [] {
      DistinctCallCount(packets[1..]);
      CallsCons(packets);
      assert forall i :: 0 <= i < |packets| - 1 ==> packets[1..][i] == packets[i + 1];
    }
  }

  /** The capped rows give no more callsigns than there are, and all of them if the cap was not reached. */
  lemma DedupCount(rows: seq<Packet>, matching: set<Packet>, cap: Option<nat>)
    requires IsAnswer(rows, matching, cap)
    ensures |Dedup(rows)| <= |CallSet(matching)|
    ensures cap == None || |matching| <= cap.value ==> |Dedup(rows)| == |CallSet(matching)|
  {
    var calls := CallsOf(Dedup(rows));
    DedupFacts(rows, {});
    DistinctCallCount(Dedup(rows));
    forall c | c in calls ensures c in CallSet(matching) {
      var i :| 0 <= i < |Dedup(rows)| && Dedup(rows)[i].call == c;
      var j :| 0 <= j < |rows| && rows[j] == Dedup(rows)[i];
    }
    SubsetSize(calls, CallSet(matching));
    if cap == None || |matching| <= cap.value {
      RowsAreAll(rows, matching);
      forall c | c in CallSet(matching) ensures c in calls {
        var p :| p in matching && p.call == c;
      }
      SubsetSize(CallSet(matching), calls);
    }
  }

  lemma RowsAreAll(rows: seq<Packet>, matching: set<Packet>)
    requires |rows| == |matching|
    requires forall i :: 0 <= i < |rows| ==> rows[i] in matching
    requires forall i, j :: 0 <= i < j < |rows| ==> rows[i] != rows[j]
    ensures forall p :: p in matching ==> p in rows
  {
    var found := set i | 0 <= i < |rows| :: rows[i];
    DistinctCount(rows);
    SubsetSize(found, matching);
  }

  /**
   De-duplicating capped rows and cutting to the limit gives the newest record of each of
   the most recent callsigns iff the capped rows hold enough callsigns.
   */
  lemma CappedDedupExactIff(rows: seq<Packet>, matching: set<Packet>, cap: Option<nat>, limit: nat)
    requires IsAnswer(rows, matching, cap)
    ensures IsTopNewest(Take(Dedup(rows), limit), matching, limit)
       <==> |Dedup(rows)| >= Min(limit, |CallSet(matching)|)
  {
    DedupCount(rows, matching, cap);
    if |Dedup(rows)| >= Min(limit, |CallSet(matching)|) {
      EnoughIsExact(rows, matching, cap, limit);
    }
  }

  lemma {:induction false} TakeFacts(packets: seq<Packet>, limit: nat)
    requires DistinctCalls(packets) && SortedNewest(packets)
    ensures DistinctCalls(Take(packets, limit)) && SortedNewest(Take(packets, limit))
    ensures |Take(packets, limit)| == Min(limit, |packets|)
    ensures forall i :: 0 <= i < |Take(packets, limit)| ==> Take(packets, limit)[i] == packets[i]
  {}

  lemma EnoughIsExact(rows: seq<Packet>, matching: set<Packet>, cap: Option<nat>, limit: nat)
    requires IsAnswer(rows, matching, cap)
    requires Min(limit, |CallSet(matching)|) <= |Dedup(rows)| <= |CallSet(matching)|
    ensures IsTopNewest(Take(Dedup(rows), limit), matching, limit)
  {
    var dedup, result := Dedup(rows), Take(Dedup(rows), limit);
    DedupFacts(rows, {});
    DedupSorted(rows, {});
    TakeFacts(dedup, limit);
    forall i | 0 <= i < |result| ensures result[i] in matching {
      var j :| 0 <= j < |rows| && rows[j] == dedup[i];
    }
    forall i, p | 0 <= i < |result| && p in matching && (p.call == result[i].call || p.call !in CallsOf(result))
      ensures Rank(p) <= Rank(result[i])
    {
      if p.call == result[i].call {
        NewestOfCall(rows, matching, cap, dedup, i, p);
      } else {
        LaterCall(rows, matching, cap, dedup, limit, i, p);
      }
    }
  }

  lemma NewestOfCall(rows: seq<Packet>, matching: set<Packet>, cap: Option<nat>, dedup: seq<Packet>, i: nat, p: Packet)
    requires IsAnswer(rows, matching, cap) && dedup == Dedup(rows) && i < |dedup|
    requires p in matching && p.call == dedup[i].call
    ensures Rank(p) <= Rank(dedup[i])
  {
    DedupFacts(rows, {});
    if p in rows {
      DedupNewest(rows, {}, i, p);
    } else {
      var j :| 0 <= j < |rows| && rows[j] == dedup[i];
    }
  }

  lemma LaterCall(rows: seq<Packet>, matching: set<Packet>, cap: Option<nat>, dedup: seq<Packet>, limit: nat,
                  i: nat, p: Packet)
    requires IsAnswer(rows, matching, cap) && dedup == Dedup(rows) && i < |Take(dedup, limit)|
    requires p in matching && p.call !in CallsOf(Take(dedup, limit))
    ensures Rank(p) <= Rank(dedup[i])
  {
    DedupFacts(rows, {});
    DedupSorted(rows, {});
    if p in rows {
      assert forall k :: 0 <= k < |Take(dedup, limit)| ==> Take(dedup, limit)[k] == dedup[k];
      var j :| 0 <= j < |dedup| && dedup[j].call == p.call;
      assert j > i;
      DedupNewest(rows, {}, j, p);
    } else {
      var j :| 0 <= j < |rows| && rows[j] == dedup[i];
    }
  }

  /** get_map_stations_fast: ten times the limit is fetched; exact iff that held enough callsigns. */
  method GetMapStationsFast(rows: seq<Packet>, ghost matching: set<Packet>, limit: nat) returns (result: seq<Packet>)
    requires IsAnswer(rows, matching, Some(limit * 10))
    ensures result == Take(Dedup(rows), limit)
    ensures IsTopNewest(result, matching, limit) <==> |Dedup(rows)| >= Min(limit, |CallSet(matching)|)
    ensures |matching| <= limit * 10 ==> IsTopNewest(result, matching, limit)
  {
    result := DeduplicateUpTo(rows, limit);
    CappedDedupExactIff(rows, matching, Some(limit * 10), limit);
    DedupCount(rows, matching, Some(limit * 10));
  }
}
