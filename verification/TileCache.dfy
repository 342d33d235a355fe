/**
 The tiled map query: 1-degree tiles over a bounding box, a cache entry per tile that may
 vanish at any time, one database query for all tiles that missed, and the merge of both.
 */
module TileCache {
  import opened Common
  import opened MapQueries

  const MAX_TILES_PER_REQUEST: nat := 100
  const MAX_ROWS: nat := 20000

  datatype Tile = Tile(lat: int, lon: int)
  datatype BBox = BBox(minLon: real, minLat: real, maxLon: real, maxLat: real)

  /** The cache key of a tile: hours of history, packet type ("" for all), coordinates. */
  datatype TileKey = TileKey(hours: nat, kind: string, tile: Tile)

  type Cache = map<TileKey, seq<Packet>>

  // ---------------------------------------------------------------- tiles

  function TileOf(at: Position): Tile { Tile(at.lat.Floor, at.lon.Floor) }

  predicate InBox(box: BBox, at: Position) {
    box.minLat <= at.lat <= box.maxLat && box.minLon <= at.lon <= box.maxLon
  }

  predicate InTile(tile: Tile, at: Position) {
    && tile.lat as real <= at.lat < (tile.lat + 1) as real
    && tile.lon as real <= at.lon < (tile.lon + 1) as real
  }

  predicate Between(box: BBox, tile: Tile) {
    && box.minLat.Floor <= tile.lat <= box.maxLat.Floor
    && box.minLon.Floor <= tile.lon <= box.maxLon.Floor
  }

  predicate TileBefore(a: Tile, b: Tile) { a.lat < b.lat || (a.lat == b.lat && a.lon < b.lon) }

  /** All tiles of a box, sorted by latitude, then longitude. */
  ghost predicate IsTiling(tiles: seq<Tile>, box: BBox) {
    && (forall i, j :: 0 <= i < j < |tiles| ==> TileBefore(tiles[i], tiles[j]))
    && (forall i :: 0 <= i < |tiles| ==> Between(box, tiles[i]))
    && (forall lat, lon :: Between(box, Tile(lat, lon)) ==> Tile(lat, lon) in tiles)
  }

  method GetTilesForBBox(box: BBox) returns (tiles: seq<Tile>)
    ensures IsTiling(tiles, box)
  {
    var startLat, endLat := box.minLat.Floor, box.maxLat.Floor;
    var startLon, endLon := box.minLon.Floor, box.maxLon.Floor;
    tiles := [];
    var lat := startLat;
    while lat <= endLat
      invariant forall i, j :: 0 <= i < j < |tiles| ==> TileBefore(tiles[i], tiles[j])
      invariant forall i :: 0 <= i < |tiles| ==> Between(box, tiles[i]) && tiles[i].lat < lat
      invariant forall a, o :: Between(box, Tile(a, o)) && a < lat ==> Tile(a, o) in tiles
      decreases endLat - lat
    {
      var lon := startLon;
      while lon <= endLon
        invariant startLon <= lon
        invariant forall i, j :: 0 <= i < j < |tiles| ==> TileBefore(tiles[i], tiles[j])
        invariant forall i :: 0 <= i < |tiles| ==> Between(box, tiles[i]) && TileBefore(tiles[i], Tile(lat, lon))
        invariant forall a, o :: Between(box, Tile(a, o)) && TileBefore(Tile(a, o), Tile(lat, lon)) ==> Tile(a, o) in tiles
        decreases endLon - lon
      {
        tiles := tiles + [Tile(lat, lon)];
        lon := lon + 1;
      }
      lat := lat + 1;
    }
  }

  /** The tiles of a box meet it and cover it: every point is in exactly one of them. */
  lemma TilesCoverBoxOnce(tiles: seq<Tile>, box: BBox, at: Position)
    requires IsTiling(tiles, box) && InBox(box, at)
    ensures TileOf(at) in tiles && InTile(TileOf(at), at)
    ensures forall i, j :: 0 <= i < |tiles| && 0 <= j < |tiles| && InTile(tiles[i], at) && InTile(tiles[j], at) ==> i == j
  {
    FloorMonotone(box.minLat, at.lat);
    FloorMonotone(at.lat, box.maxLat);
    FloorMonotone(box.minLon, at.lon);
    FloorMonotone(at.lon, box.maxLon);
    assert Between(box, Tile(at.lat.Floor, at.lon.Floor));
    forall i | 0 <= i < |tiles| && InTile(tiles[i], at) ensures tiles[i] == TileOf(at) {
      FloorUnique(at.lat, tiles[i].lat);
      FloorUnique(at.lon, tiles[i].lon);
    }
  }

  lemma FloorMonotone(a: real, b: real)
    requires a <= b
    ensures a.Floor <= b.Floor
  {}

  lemma FloorUnique(a: real, n: int)
    requires n as real <= a < (n + 1) as real
    ensures a.Floor == n
  {}

  // ---------------------------------------------------------------- merging

  function IndexOf(acc: seq<Packet>, call: string): (i: nat)
    ensures i <= |acc|
    ensures i < |acc| ==> acc[i].call == call
    ensures forall j :: 0 <= j < i ==> acc[j].call != call
  {
    if acc == [] then 0 else if acc[0].call == call then 0 else 1 + IndexOf(acc[1..], call)
  }

  /** all_stations, a dictionary in insertion order: a newer record takes its callsign's place. */
  function MergeOne(acc: seq<Packet>, s: Packet): seq<Packet> {
    var i := IndexOf(acc, s.call);
    if i == |acc| then acc + [s]
    else if TextNewer(s, acc[i]) then acc[i := s]
    else acc
  }

  function MergeAll(acc: seq<Packet>, stations: seq<Packet>): seq<Packet>
    decreases stations
  {
    if stations == [] then acc else MergeAll(MergeOne(acc, stations[0]), stations[1..])
  }

  /** p's callsign is present with a record at least as new. */
  predicate Covered(acc: seq<Packet>, p: Packet) {
    exists i :: 0 <= i < |acc| && acc[i].call == p.call && Rank(p) <= Rank(acc[i])
  }

  /** The newest of all merged records, one per callsign. */
  predicate IsNewestOf(result: seq<Packet>, merged: seq<Packet>) {
    && DistinctCalls(result)
    && (forall i :: 0 <= i < |result| ==> result[i] in merged)
    && (forall p :: p in merged ==> Covered(result, p))
  }

  lemma MergeOneFacts(acc: seq<Packet>, s: Packet)
    requires DistinctCalls(acc)
    ensures DistinctCalls(MergeOne(acc, s))
    ensures forall i :: 0 <= i < |MergeOne(acc, s)| ==> MergeOne(acc, s)[i] == s || MergeOne(acc, s)[i] in acc
  {}

  lemma MergeOneCovers(acc: seq<Packet>, s: Packet, p: Packet)
    requires p == s || Covered(acc, p)
    ensures Covered(MergeOne(acc, s), p)
  {
    var i, acc' := IndexOf(acc, s.call), MergeOne(acc, s);
    if i < |acc| {
      TextNewerIsNewer(s, acc[i]);
    }
    if p == s {
      assert acc'[i].call == p.call && Rank(p) <= Rank(acc'[i]);
    } else {
      var k :| 0 <= k < |acc| && acc[k].call == p.call && Rank(p) <= Rank(acc[k]);
      assert acc'[k].call == p.call && Rank(p) <= Rank(acc'[k]);
    }
  }

  lemma {:induction false} MergeAllFacts(acc: seq<Packet>, stations: seq<Packet>)
    requires DistinctCalls(acc)
    ensures DistinctCalls(MergeAll(acc, stations))
    ensures forall i :: 0 <= i < |MergeAll(acc, stations)| ==>
      MergeAll(acc, stations)[i] in acc || MergeAll(acc, stations)[i] in stations
    decreases stations
  {
    if stations != [] {
      MergeOneFacts(acc, stations[0]);
      MergeAllFacts(MergeOne(acc, stations[0]), stations[1..]);
    }
  }

  lemma {:induction false} MergeAllCovers(acc: seq<Packet>, stations: seq<Packet>, p: Packet)
    requires p in stations || Covered(acc, p)
    ensures Covered(MergeAll(acc, stations), p)
    decreases stations
  {
    if stations != [] {
      if p == stations[0] || Covered(acc, p) {
        MergeOneCovers(acc, stations[0], p);
      }
      MergeAllCovers(MergeOne(acc, stations[0]), stations[1..], p);
    }
  }

  lemma MergeIsNewest(merged: seq<Packet>)
    ensures IsNewestOf(MergeAll([], merged), merged)
  {
    MergeAllFacts([], merged);
    forall p | p in merged ensures Covered(MergeAll([], merged), p) {
      MergeAllCovers([], merged, p);
    }
  }

  lemma {:induction false} MergeDistinct(acc: seq<Packet>, stations: seq<Packet>)
    requires DistinctCalls(acc + stations)
    ensures MergeAll(acc, stations) == acc + stations
    decreases stations
  {
    if stations == [] {
      assert acc + stations == acc;
    } else {
      var i := IndexOf(acc, stations[0].call);
      assert (acc + stations)[|acc|] == stations[0];
      assert forall j :: 0 <= j < |acc| ==> (acc + stations)[j] == acc[j];
      assert i == |acc|;
      assert (acc + [stations[0]]) + stations[1..] == acc + stations;
      MergeDistinct(acc + [stations[0]], stations[1..]);
    }
  }

  // ---------------------------------------------------------------- sorting

  /** list.sort(reverse=True): a stable insertion sort, newest first by the ISO text. */
  function InsertSorted(p: Packet, sorted: seq<Packet>): seq<Packet> {
    if sorted == [] then [p]
    else if TextNewer(sorted[0], p) then [sorted[0]] + InsertSorted(p, sorted[1..])
    else [p] + sorted
  }

  function SortNewest(packets: seq<Packet>): seq<Packet> {
    if packets == [] then [] else InsertSorted(packets[0], SortNewest(packets[1..]))
  }

  lemma {:induction false} InsertMembers(p: Packet, sorted: seq<Packet>)
    ensures |InsertSorted(p, sorted)| == |sorted| + 1
    ensures forall x :: x in InsertSorted(p, sorted) <==> x == p || x in sorted
    decreases sorted
  {
    if sorted != [] {
      InsertMembers(p, sorted[1..]);
      assert sorted == [sorted[0]] + sorted[1..];
    }
  }

  lemma {:induction false} InsertSortedFacts(p: Packet, sorted: seq<Packet>)
    requires SortedNewest(sorted)
    ensures SortedNewest(InsertSorted(p, sorted)) && |InsertSorted(p, sorted)| == |sorted| + 1
    ensures forall x :: x in InsertSorted(p, sorted) <==> x == p || x in sorted
    decreases sorted
  {
    InsertMembers(p, sorted);
    if sorted != [] {
      TextNewerIsNewer(sorted[0], p);
      SortedTail(sorted);
      if TextNewer(sorted[0], p) {
        InsertSortedFacts(p, sorted[1..]);
        InsertedBelow(p, sorted);
      } else {
        SortedCons(p, sorted);
      }
    }
  }

  lemma InsertedBelow(p: Packet, sorted: seq<Packet>)
    requires sorted != [] && SortedNewest(sorted) && Rank(p) <= Rank(sorted[0]) && SortedNewest(InsertSorted(p, sorted[1..]))
    ensures SortedNewest([sorted[0]] + InsertSorted(p, sorted[1..]))
  {
    var rest := InsertSorted(p, sorted[1..]);
    SortedTail(sorted);
    InsertMembers(p, sorted[1..]);
    forall i | 0 <= i < |rest| ensures Rank(rest[i]) <= Rank(sorted[0]) {
      assert rest[i] in rest;
      assert rest[i] != p ==> rest[i] in sorted;
    }
    SortedCons(sorted[0], rest);
  }

  lemma {:induction false} InsertKeepsDistinct(p: Packet, sorted: seq<Packet>)
    requires SortedNewest(sorted) && DistinctCalls(sorted) && p.call !in CallsOf(sorted)
    ensures DistinctCalls(InsertSorted(p, sorted))
    decreases sorted
  {
    if sorted != [] && TextNewer(sorted[0], p) {
      SortedTail(sorted);
      CallsCons(sorted);
      DistinctTail(sorted);
      InsertSortedFacts(p, sorted[1..]);
      InsertKeepsDistinct(p, sorted[1..]);
      DistinctCons(sorted[0], p, sorted[1..], InsertSorted(p, sorted[1..]));
    } else {
      DistinctCons(p, p, sorted, sorted);
    }
  }

  lemma DistinctCons(first: Packet, p: Packet, others: seq<Packet>, rest: seq<Packet>)
    requires DistinctCalls(rest) && first.call !in CallsOf(others) && (first.call != p.call || rest == others)
    requires forall x :: x in rest ==> x == p || x in others
    ensures DistinctCalls([first] + rest)
  {
    forall i | 0 <= i < |rest| ensures rest[i].call != first.call {
      assert rest[i] in rest;
      if rest[i] in others {
        var k :| 0 <= k < |others| && others[k] == rest[i];
        assert others[k].call in CallsOf(others);
      }
    }
  }

  /** Sorting keeps the records, their number and the distinct callsigns, and sorts. */
  lemma {:induction false} SortNewestFacts(packets: seq<Packet>)
    ensures SortedNewest(SortNewest(packets)) && |SortNewest(packets)| == |packets|
    ensures forall x :: x in SortNewest(packets) <==> x in packets
    ensures DistinctCalls(packets) ==> DistinctCalls(SortNewest(packets))
  {
    if packets != [] {
      SortNewestFacts(packets[1..]);
      InsertSortedFacts(packets[0], SortNewest(packets[1..]));
      assert packets == [packets[0]] + packets[1..];
      if DistinctCalls(packets) {
        DistinctTail(packets);
        FirstNotAmong(packets, SortNewest(packets[1..]));
        InsertKeepsDistinct(packets[0], SortNewest(packets[1..]));
      }
    }
  }

  lemma DistinctTail(packets: seq<Packet>)
    requires packets != [] && DistinctCalls(packets)
    ensures DistinctCalls(packets[1..])
    ensures forall i :: 0 <= i < |packets| - 1 ==> packets[1..][i].call != packets[0].call
  {
    assert forall i :: 0 <= i < |packets| - 1 ==> packets[1..][i] == packets[i + 1];
  }

  lemma FirstNotAmong(packets: seq<Packet>, rest: seq<Packet>)
    requires packets != [] && DistinctCalls(packets) && forall x :: x in rest ==> x in packets[1..]
    ensures packets[0].call !in CallsOf(rest)
  {
    DistinctTail(packets);
    forall i | 0 <= i < |rest| ensures rest[i].call != packets[0].call {
      assert rest[i] in packets[1..];
    }
  }

  lemma {:induction false} SortingSortedIsIdentity(packets: seq<Packet>)
    requires SortedNewest(packets)
    ensures SortNewest(packets) == packets
  {
    if packets != [] {
      SortedTail(packets);
      SortingSortedIsIdentity(packets[1..]);
      if |packets| > 1 {
        TextNewerIsNewer(packets[1], packets[0]);
      }
      assert packets == [packets[0]] + packets[1..];
    }
  }

  // ---------------------------------------------------------------- one request

  /** What a request asks for. */
  datatype Query = Query(box: BBox, hours: nat, kind: string, limit: nat)

  predicate AtBox(p: Packet, box: BBox) { p.position.Some? && InBox(box, p.position.value) }

  function KeepBox(packets: seq<Packet>, box: BBox): seq<Packet> {
    if packets == [] then []
    else (if AtBox(packets[0], box) then [packets[0]] else []) + KeepBox(packets[1..], box)
  }

  predicate AtTile(p: Packet, tile: Tile) { p.position.Some? && TileOf(p.position.value) == tile }

  function Bucket(packets: seq<Packet>, tile: Tile): seq<Packet> {
    if packets == [] then []
    else (if AtTile(packets[0], tile) then [packets[0]] else []) + Bucket(packets[1..], tile)
  }

  function KeyFor(q: Query, tile: Tile): TileKey { TileKey(q.hours, q.kind, tile) }

  /** A cache read: None if the entry is gone, or the read fails although it is there. */
  function Read(cache: Cache, q: Query, tile: Tile, readable: set<Tile>): Option<seq<Packet>> {
    if tile in readable && KeyFor(q, tile) in cache then Some(cache[KeyFor(q, tile)]) else None
  }

  function Hits(cache: Cache, q: Query, tiles: seq<Tile>, readable: set<Tile>): seq<Packet> {
    if tiles == [] then []
    else (match Read(cache, q, tiles[0], readable) case None => [] case Some(stations) => stations)
         + Hits(cache, q, tiles[1..], readable)
  }

  function Misses(cache: Cache, q: Query, tiles: seq<Tile>, readable: set<Tile>): seq<Tile> {
    if tiles == [] then []
    else (if Read(cache, q, tiles[0], readable).None? then [tiles[0]] else []) + Misses(cache, q, tiles[1..], readable)
  }

  /** Everything the answer is made from, in the order in which it is merged. */
  function Merged(cache: Cache, q: Query, tiles: seq<Tile>, readable: set<Tile>, rows: seq<Packet>): seq<Packet> {
    Hits(cache, q, tiles, readable) + (if Misses(cache, q, tiles, readable) == [] then [] else Dedup(rows))
  }

  function Answer(merged: seq<Packet>, q: Query): seq<Packet> {
    Take(SortNewest(KeepBox(MergeAll([], merged), q.box)), q.limit)
  }

  /** The cache afterwards: a bucket for each missed tile whose write succeeds. */
  function Refilled(cache: Cache, q: Query, missed: seq<Tile>, stations: seq<Packet>, writable: set<Tile>): Cache {
    cache + map tile | tile in missed && tile in writable :: KeyFor(q, tile) := Bucket(stations, tile)
  }

  // ---------------------------------------------------------------- answers

  lemma {:induction false} KeepBoxFacts(packets: seq<Packet>, box: BBox)
    ensures forall x :: x in KeepBox(packets, box) <==> x in packets && AtBox(x, box)
    ensures DistinctCalls(packets) ==> DistinctCalls(KeepBox(packets, box))
  {
    if packets != [] {
      var rest := KeepBox(packets[1..], box);
      KeepBoxFacts(packets[1..], box);
      assert packets == [packets[0]] + packets[1..];
      if DistinctCalls(packets) {
        assert forall i :: 0 <= i < |packets| - 1 ==> packets[1..][i] == packets[i + 1];
        forall i | 0 <= i < |rest| ensures rest[i].call != packets[0].call {
          assert rest[i] in packets[1..];
        }
      }
    }
  }

  /** Distinct callsigns, inside the exact box, newest first, at most `limit`. */
  predicate WellFormedAnswer(answer: seq<Packet>, q: Query) {
    && DistinctCalls(answer) && SortedNewest(answer) && |answer| <= q.limit
    && forall i :: 0 <= i < |answer| ==> AtBox(answer[i], q.box)
  }

  lemma AnswerIsWellFormed(merged: seq<Packet>, q: Query)
    ensures WellFormedAnswer(Answer(merged, q), q)
  {
    var newest := MergeAll([], merged);
    var kept := KeepBox(newest, q.box);
    MergeIsNewest(merged);
    KeepBoxFacts(newest, q.box);
    SortNewestFacts(kept);
    TakeFacts(SortNewest(kept), q.limit);
    forall i | 0 <= i < |Answer(merged, q)| ensures AtBox(Answer(merged, q)[i], q.box) {
      assert SortNewest(kept)[i] in SortNewest(kept);
    }
  }

  /** Each answered record is a merged one, and the newest merged one of its callsign. */
  lemma AnswerIsNewest(merged: seq<Packet>, q: Query, i: nat, p: Packet)
    requires i < |Answer(merged, q)| && p in merged && p.call == Answer(merged, q)[i].call
    ensures Answer(merged, q)[i] in merged && Rank(p) <= Rank(Answer(merged, q)[i])
  {
    var newest := MergeAll([], merged);
    AnswerMembers(merged, q, i);
    MergeIsNewest(merged);
    OneOfCall(newest, Answer(merged, q)[i], p);
  }

  lemma OneOfCall(newest: seq<Packet>, x: Packet, p: Packet)
    requires DistinctCalls(newest) && x in newest && Covered(newest, p) && p.call == x.call
    ensures Rank(p) <= Rank(x)
  {
    var k :| 0 <= k < |newest| && newest[k] == x;
    var j :| 0 <= j < |newest| && newest[j].call == p.call && Rank(p) <= Rank(newest[j]);
    assert j == k;
  }

  lemma AnswerMembers(merged: seq<Packet>, q: Query, i: nat)
    requires i < |Answer(merged, q)|
    ensures Answer(merged, q)[i] in MergeAll([], merged) && Answer(merged, q)[i] in merged
  {
    var newest := MergeAll([], merged);
    var kept := KeepBox(newest, q.box);
    MergeIsNewest(merged);
    KeepBoxFacts(newest, q.box);
    SortNewestFacts(kept);
    assert SortNewest(kept)[i] in SortNewest(kept);
  }

  /** Nothing is left out but by the box and the limit: what is missing is older than all that is there. */
  lemma AnswerIsComplete(merged: seq<Packet>, q: Query, p: Packet)
    requires p in MergeAll([], merged) && AtBox(p, q.box) && p !in Answer(merged, q)
    ensures |Answer(merged, q)| == q.limit
    ensures forall i :: 0 <= i < q.limit ==> Rank(p) <= Rank(Answer(merged, q)[i])
  {
    var kept := KeepBox(MergeAll([], merged), q.box);
    KeepBoxFacts(MergeAll([], merged), q.box);
    SortNewestFacts(kept);
    var sorted := SortNewest(kept);
    MissingFromTop(sorted, q.limit, p);
  }

  lemma MissingFromTop(sorted: seq<Packet>, limit: nat, p: Packet)
    requires SortedNewest(sorted) && p in sorted && p !in Take(sorted, limit)
    ensures |Take(sorted, limit)| == limit
    ensures forall i :: 0 <= i < limit ==> Rank(p) <= Rank(Take(sorted, limit)[i])
  {
    var k :| 0 <= k < |sorted| && sorted[k] == p;
    assert |sorted| > limit;
  }

  // ---------------------------------------------------------------- the cold path

  predicate Matches(p: Packet, q: Query, since: nat) {
    AtBox(p, q.box) && Rank(p) >= since && (q.kind == "" || p.kind == q.kind)
  }

  function Matching(table: set<Packet>, q: Query, since: nat): set<Packet> {
    set p | p in table && Matches(p, q, since)
  }

  lemma {:induction false} NothingReadable(cache: Cache, q: Query, tiles: seq<Tile>, readable: set<Tile>)
    requires forall t :: t in tiles ==> Read(cache, q, t, readable).None?
    ensures Hits(cache, q, tiles, readable) == [] && Misses(cache, q, tiles, readable) == tiles
  {
    if tiles != [] {
      NothingReadable(cache, q, tiles[1..], readable);
      assert tiles == [tiles[0]] + tiles[1..];
    }
  }

  lemma {:induction false} KeepAll(packets: seq<Packet>, box: BBox)
    requires forall i :: 0 <= i < |packets| ==> AtBox(packets[i], box)
    ensures KeepBox(packets, box) == packets
  {
    if packets != [] {
      KeepAll(packets[1..], box);
      assert packets == [packets[0]] + packets[1..];
    }
  }

  /** The rows of a box lie in its tiles, so a box without tiles has no rows. */
  lemma RowsNeedTiles(tiles: seq<Tile>, box: BBox, p: Packet)
    requires IsTiling(tiles, box) && AtBox(p, box)
    ensures tiles != []
  {
    TilesCoverBoxOnce(tiles, box, p.position.value);
  }

  /**
   With no cache hit the answer is the de-duplicated capped rows cut to the limit, and that
   is the newest record of each of the most recent callsigns in the box iff the 20000 rows
   of the query hold enough callsigns.
   */
  lemma ColdAnswerExactIff(table: set<Packet>, cache: Cache, q: Query, since: nat, all: seq<Tile>, rows: seq<Packet>,
                           readable: set<Tile>)
    requires IsTiling(all, q.box)
    requires IsAnswer(rows, Matching(table, q, since), Some(20000))
    requires forall t :: t in all ==> Read(cache, q, t, readable).None?
    ensures var tiles := Take(all, 100);
            var answer := Answer(Merged(cache, q, tiles, readable, rows), q);
            && answer == Take(Dedup(rows), q.limit)
            && (IsTopNewest(answer, Matching(table, q, since), q.limit)
                <==> |Dedup(rows)| >= Min(q.limit, |CallSet(Matching(table, q, since))|))
  {
    var tiles := Take(all, MAX_TILES_PER_REQUEST);
    NothingReadable(cache, q, tiles, readable);
    CappedDedupExactIff(rows, Matching(table, q, since), Some(MAX_ROWS), q.limit);
    if tiles == [] {
      if rows != [] {
        RowsNeedTiles(all, q.box, rows[0]);
      }
    }
    assert Merged(cache, q, tiles, readable, rows) == Dedup(rows);
    DedupAnswer(rows, q);
  }

  lemma DedupAnswer(rows: seq<Packet>, q: Query)
    requires SortedNewest(rows) && forall i :: 0 <= i < |rows| ==> AtBox(rows[i], q.box)
    ensures Answer(Dedup(rows), q) == Take(Dedup(rows), q.limit)
  {
    DedupFacts(rows, {});
    DedupSorted(rows, {});
    assert [] + Dedup(rows) == Dedup(rows);
    MergeDistinct([], Dedup(rows));
    KeepAll(Dedup(rows), q.box);
    SortingSortedIsIdentity(Dedup(rows));
  }

  // ---------------------------------------------------------------- runs of requests

  /** Real packets of the tile and type of the key, one per callsign. */
  ghost predicate EntrySound(entry: seq<Packet>, key: TileKey, table: set<Packet>) {
    && DistinctCalls(entry)
    && forall i :: 0 <= i < |entry| ==>
         entry[i] in table && AtTile(entry[i], key.tile) && (key.kind == "" || entry[i].kind == key.kind)
  }

  ghost predicate CacheSound(cache: Cache, table: set<Packet>) {
    forall key :: key in cache ==> EntrySound(cache[key], key, table)
  }

  datatype State = State(table: set<Packet>, cache: Cache)

  datatype Step =
    | Insert(packet: Packet)
    | Expire(keys: set<TileKey>)
    | MapRequest(q: Query, since: nat, tiles: seq<Tile>, rows: seq<Packet>, readable: set<Tile>, writable: set<Tile>)
    | TileRequest(key: TileKey, tileSince: nat, tileRows: seq<Packet>, stored: bool)

  function TileMatching(table: set<Packet>, key: TileKey, since: nat): set<Packet> {
    set p | p in table && AtTile(p, key.tile) && Rank(p) >= since && (key.kind == "" || p.kind == key.kind)
  }

  ghost predicate Enabled(s: State, step: Step) {
    match step
    case MapRequest(q, since, _, rows, _, _) => IsAnswer(rows, Matching(s.table, q, since), Some(MAX_ROWS))
    case TileRequest(key, since, rows, _) => IsAnswer(rows, TileMatching(s.table, key, since), None)
    case _ => true
  }

  function Next(s: State, step: Step): State {
    match step
    case Insert(p) => s.(table := s.table + {p})
    case Expire(keys) => s.(cache := s.cache - keys)
    case MapRequest(q, _, tiles, rows, readable, writable) =>
      s.(cache := Refilled(s.cache, q, Misses(s.cache, q, tiles, readable), Dedup(rows), writable))
    case TileRequest(key, _, rows, stored) =>
      if key in s.cache || !stored then s else s.(cache := s.cache[key := Dedup(rows)])
  }

  ghost predicate IsRun(s: State, steps: seq<Step>)
    decreases steps
  {
    steps == [] || (Enabled(s, steps[0]) && IsRun(Next(s, steps[0]), steps[1..]))
  }

  function After(s: State, steps: seq<Step>): State
    decreases steps
  {
    if steps == [] then s else After(Next(s, steps[0]), steps[1..])
  }

  lemma {:induction false} BucketFacts(packets: seq<Packet>, tile: Tile)
    ensures forall x :: x in Bucket(packets, tile) <==> x in packets && AtTile(x, tile)
    ensures DistinctCalls(packets) ==> DistinctCalls(Bucket(packets, tile))
  {
    if packets != [] {
      var rest := Bucket(packets[1..], tile);
      BucketFacts(packets[1..], tile);
      assert packets == [packets[0]] + packets[1..];
      if DistinctCalls(packets) {
        assert forall i :: 0 <= i < |packets| - 1 ==> packets[1..][i] == packets[i + 1];
        forall i | 0 <= i < |rest| ensures rest[i].call != packets[0].call {
          assert rest[i] in packets[1..];
        }
      }
    }
  }

  lemma DedupMembers(rows: seq<Packet>, i: nat)
    requires i < |Dedup(rows)|
    ensures exists j :: 0 <= j < |rows| && rows[j] == Dedup(rows)[i]
  {
    DedupFacts(rows, {});
    assert Dedup(rows)[i] in rows;
  }

  lemma BucketSound(s: State, q: Query, since: nat, rows: seq<Packet>, tile: Tile)
    requires IsAnswer(rows, Matching(s.table, q, since), Some(MAX_ROWS))
    ensures EntrySound(Bucket(Dedup(rows), tile), KeyFor(q, tile), s.table)
  {
    var entry := Bucket(Dedup(rows), tile);
    DedupFacts(rows, {});
    BucketFacts(Dedup(rows), tile);
    forall i | 0 <= i < |entry|
      ensures entry[i] in s.table && AtTile(entry[i], tile) && (q.kind == "" || entry[i].kind == q.kind)
    {
      assert entry[i] in Dedup(rows);
      var k :| 0 <= k < |Dedup(rows)| && Dedup(rows)[k] == entry[i];
      DedupMembers(rows, k);
    }
  }

  lemma TileEntrySound(s: State, key: TileKey, since: nat, rows: seq<Packet>)
    requires IsAnswer(rows, TileMatching(s.table, key, since), None)
    ensures EntrySound(Dedup(rows), key, s.table)
  {
    DedupFacts(rows, {});
    forall i | 0 <= i < |Dedup(rows)|
      ensures Dedup(rows)[i] in s.table && AtTile(Dedup(rows)[i], key.tile)
      ensures key.kind == "" || Dedup(rows)[i].kind == key.kind
    {
      DedupMembers(rows, i);
    }
  }

  lemma StepKeepsSound(s: State, step: Step)
    requires CacheSound(s.cache, s.table) && Enabled(s, step)
    ensures CacheSound(Next(s, step).cache, Next(s, step).table)
  {
    var s' := Next(s, step);
    match step {
      case Insert(p) =>
        forall key | key in s.cache ensures EntrySound(s.cache[key], key, s'.table) {
          assert EntrySound(s.cache[key], key, s.table);
        }
      case Expire(keys) =>
      case MapRequest(q, since, tiles, rows, readable, writable) =>
        forall key | key in s'.cache ensures EntrySound(s'.cache[key], key, s.table) {
          BucketSound(s, q, since, rows, key.tile);
        }
      case TileRequest(key, since, rows, stored) =>
        TileEntrySound(s, key, since, rows);
    }
  }

  /** Whatever is inserted, expires or is requested, the cache never holds a wrong record. */
  lemma {:induction false} CacheStaysSound(s: State, steps: seq<Step>)
    requires CacheSound(s.cache, s.table) && IsRun(s, steps)
    ensures CacheSound(After(s, steps).cache, After(s, steps).table)
    decreases steps
  {
    if steps != [] {
      StepKeepsSound(s, steps[0]);
      CacheStaysSound(Next(s, steps[0]), steps[1..]);
    }
  }

  lemma {:induction false} HitsAreReal(s: State, q: Query, tiles: seq<Tile>, readable: set<Tile>, p: Packet)
    requires CacheSound(s.cache, s.table) && p in Hits(s.cache, q, tiles, readable)
    ensures p in s.table && (q.kind == "" || p.kind == q.kind)
  {
    var first := Read(s.cache, q, tiles[0], readable);
    if first.Some? && p in first.value {
      var i :| 0 <= i < |first.value| && first.value[i] == p;
    } else {
      HitsAreReal(s, q, tiles[1..], readable, p);
    }
  }

  /** After any run, whatever mix of hits and misses serves it, an answer has real packets of the asked type only. */
  lemma AnswersAreReal(s0: State, steps: seq<Step>, q: Query, since: nat, tiles: seq<Tile>, rows: seq<Packet>,
                       readable: set<Tile>, i: nat)
    requires CacheSound(s0.cache, s0.table) && IsRun(s0, steps)
    requires IsAnswer(rows, Matching(After(s0, steps).table, q, since), Some(MAX_ROWS))
    requires i < |Answer(Merged(After(s0, steps).cache, q, tiles, readable, rows), q)|
    ensures var s := After(s0, steps);
            var p := Answer(Merged(s.cache, q, tiles, readable, rows), q)[i];
            p in s.table && AtBox(p, q.box) && (q.kind == "" || p.kind == q.kind)
  {
    var s := After(s0, steps);
    var merged := Merged(s.cache, q, tiles, readable, rows);
    CacheStaysSound(s0, steps);
    AnswerIsWellFormed(merged, q);
    AnswerMembers(merged, q, i);
    var p := Answer(merged, q)[i];
    if p in Hits(s.cache, q, tiles, readable) {
      HitsAreReal(s, q, tiles, readable, p);
    } else {
      var k :| 0 <= k < |Dedup(rows)| && Dedup(rows)[k] == p;
      DedupMembers(rows, k);
    }
  }
}
