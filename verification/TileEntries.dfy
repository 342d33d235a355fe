/** What a map request leaves in the entry of a tile, against what the tile query would put there. */
module TileEntries {
  import opened Common
  import opened MapQueries
  import opened TileCache
  import opened Timestamps

  // ---------------------------------------------------------------- which rows make the entry

  /** The row at i is the first of its callsign. */
  predicate FirstOfCall(rows: seq<Packet>, i: int) {
    0 <= i < |rows| && forall j :: 0 <= j < i ==> rows[j].call != rows[i].call
  }

  ghost predicate IsFirstRow(rows: seq<Packet>, x: Packet) { exists i :: FirstOfCall(rows, i) && rows[i] == x }

  lemma {:induction false} FirstRowStep(rows: seq<Packet>, x: Packet)
    requires rows != []
    ensures IsFirstRow(rows, x) <==> x == rows[0] || (x.call != rows[0].call && IsFirstRow(rows[1..], x))
  {
    assert FirstOfCall(rows, 0);
    if i :| FirstOfCall(rows, i) && rows[i] == x && i > 0 {
      assert FirstOfCall(rows[1..], i - 1) && rows[1..][i - 1] == x;
    }
    if x.call != rows[0].call && IsFirstRow(rows[1..], x) {
      var k :| FirstOfCall(rows[1..], k) && rows[1..][k] == x;
      assert forall j :: 0 < j <= k + 1 ==> rows[j] == rows[1..][j - 1];
      assert FirstOfCall(rows, k + 1) && rows[k + 1] == x;
    }
  }

  lemma {:induction false} DedupIsFirstRows(rows: seq<Packet>, seen: set<string>, x: Packet)
    ensures x in DedupFrom(rows, seen) <==> x.call !in seen && IsFirstRow(rows, x)
    decreases rows
  {
    if rows != [] {
      FirstRowStep(rows, x);
      DedupIsFirstRows(rows[1..], if rows[0].call in seen then seen else seen + {rows[0].call}, x);
    }
  }

  /** The first row of p's callsign lies in the tile and is at least as new as p. */
  ghost predicate Serves(rows: seq<Packet>, tile: Tile, p: Packet) {
    exists i :: FirstOfCall(rows, i) && rows[i].call == p.call && AtTile(rows[i], tile) && Rank(p) <= Rank(rows[i])
  }

  lemma {:induction false} CoveredIffServed(rows: seq<Packet>, tile: Tile, p: Packet)
    ensures Covered(Bucket(Dedup(rows), tile), p) <==> Serves(rows, tile, p)
  {
    var entry := Bucket(Dedup(rows), tile);
    BucketFacts(Dedup(rows), tile);
    if Covered(entry, p) {
      var k :| 0 <= k < |entry| && entry[k].call == p.call && Rank(p) <= Rank(entry[k]);
      assert entry[k] in entry;
      DedupIsFirstRows(rows, {}, entry[k]);
    }
    if Serves(rows, tile, p) {
      var i :| FirstOfCall(rows, i) && rows[i].call == p.call && AtTile(rows[i], tile) && Rank(p) <= Rank(rows[i]);
      DedupIsFirstRows(rows, {}, rows[i]);
      assert rows[i] in entry;
    }
  }

  // ---------------------------------------------------------------- against the tile query

  /** Nothing that the tile query would find is missing or older in the entry. */
  ghost predicate Complete(entry: seq<Packet>, table: set<Packet>, key: TileKey, since: nat) {
    forall p :: p in TileMatching(table, key, since) ==> Covered(entry, p)
  }

  ghost predicate AllServed(rows: seq<Packet>, table: set<Packet>, key: TileKey, since: nat) {
    forall p :: p in TileMatching(table, key, since) ==> Serves(rows, key.tile, p)
  }

  /** The same callsigns, equally new. */
  ghost predicate SameStations(a: seq<Packet>, b: seq<Packet>) {
    && (forall i :: 0 <= i < |a| ==> Covered(b, a[i]))
    && (forall i :: 0 <= i < |b| ==> Covered(a, b[i]))
  }

  lemma {:induction false} FirstExists(rows: seq<Packet>, call: string)
    requires call in CallsOf(rows)
    ensures exists i :: FirstOfCall(rows, i) && rows[i].call == call
  {
    if rows[0].call == call {
      assert FirstOfCall(rows, 0);
    } else {
      CallsCons(rows);
      FirstExists(rows[1..], call);
      var k :| FirstOfCall(rows[1..], k) && rows[1..][k].call == call;
      assert forall j :: 0 < j <= k + 1 ==> rows[j] == rows[1..][j - 1];
      assert FirstOfCall(rows, k + 1);
    }
  }

  /** On rows newest first, the first row of a callsign is its newest. */
  lemma FirstIsNewest(rows: seq<Packet>, p: Packet) returns (i: nat)
    requires SortedNewest(rows) && p in rows
    ensures FirstOfCall(rows, i) && rows[i].call == p.call && Rank(p) <= Rank(rows[i])
  {
    var k :| 0 <= k < |rows| && rows[k] == p;
    assert rows[k].call in CallsOf(rows);
    FirstExists(rows, p.call);
    i :| FirstOfCall(rows, i) && rows[i].call == p.call;
  }

  lemma TileQueryCovers(tileRows: seq<Packet>, matching: set<Packet>, p: Packet)
    requires IsAnswer(tileRows, matching, None) && p in matching
    ensures Covered(Dedup(tileRows), p)
  {
    AllAreRows(tileRows, matching, None);
    var i := FirstIsNewest(tileRows, p);
    DedupIsFirstRows(tileRows, {}, tileRows[i]);
    var k :| 0 <= k < |Dedup(tileRows)| && Dedup(tileRows)[k] == tileRows[i];
  }

  /** An answer that its cap does not cut holds all that matches. */
  lemma AllAreRows(rows: seq<Packet>, matching: set<Packet>, cap: Option<nat>)
    requires IsAnswer(rows, matching, cap) && (cap.Some? ==> |matching| <= cap.value)
    ensures forall p :: p in matching ==> p in rows
  {
    var found := set i | 0 <= i < |rows| :: rows[i];
    DistinctCount(rows);
    SubsetSize(found, matching);
  }

  lemma EntryInTile(table: set<Packet>, q: Query, since: nat, rows: seq<Packet>, tile: Tile, x: Packet)
    requires IsAnswer(rows, Matching(table, q, since), Some(MAX_ROWS)) && x in Bucket(Dedup(rows), tile)
    ensures x in TileMatching(table, KeyFor(q, tile), since)
  {
    BucketFacts(Dedup(rows), tile);
    DedupFacts(rows, {});
    var k :| 0 <= k < |Dedup(rows)| && Dedup(rows)[k] == x;
    DedupMembers(rows, k);
  }

  lemma CoveredOnce(a: seq<Packet>, b: seq<Packet>, p: Packet)
    requires Covered(a, p) && forall i :: 0 <= i < |a| ==> Covered(b, a[i])
    ensures Covered(b, p)
  {
    var i :| 0 <= i < |a| && a[i].call == p.call && Rank(p) <= Rank(a[i]);
    var j :| 0 <= j < |b| && b[j].call == a[i].call && Rank(a[i]) <= Rank(b[j]);
  }

  /**
   The entry that a map request writes for a tile holds what the tile query would find, and
   the same stations as its answer, iff for each packet that the query would find the first
   row of its callsign lies in the tile and is at least as new.
   */
  lemma EntryCompleteIff(table: set<Packet>, q: Query, since: nat, rows: seq<Packet>, tile: Tile, tileRows: seq<Packet>)
    requires IsAnswer(rows, Matching(table, q, since), Some(MAX_ROWS))
    requires IsAnswer(tileRows, TileMatching(table, KeyFor(q, tile), since), None)
    ensures var entry, served := Bucket(Dedup(rows), tile), AllServed(rows, table, KeyFor(q, tile), since);
            && (Complete(entry, table, KeyFor(q, tile), since) <==> served)
            && (SameStations(entry, Dedup(tileRows)) <==> served)
  {
    var key, entry := KeyFor(q, tile), Bucket(Dedup(rows), tile);
    forall p ensures Covered(entry, p) <==> Serves(rows, tile, p) {
      CoveredIffServed(rows, tile, p);
    }
    SameIffComplete(table, q, since, rows, tile, tileRows);
  }

  lemma SameIffComplete(table: set<Packet>, q: Query, since: nat, rows: seq<Packet>, tile: Tile, tileRows: seq<Packet>)
    requires IsAnswer(rows, Matching(table, q, since), Some(MAX_ROWS))
    requires IsAnswer(tileRows, TileMatching(table, KeyFor(q, tile), since), None)
    ensures var entry := Bucket(Dedup(rows), tile);
            SameStations(entry, Dedup(tileRows)) <==> Complete(entry, table, KeyFor(q, tile), since)
  {
    var entry, matching := Bucket(Dedup(rows), tile), TileMatching(table, KeyFor(q, tile), since);
    forall i | 0 <= i < |entry| ensures Covered(Dedup(tileRows), entry[i]) {
      EntryInTile(table, q, since, rows, tile, entry[i]);
      TileQueryCovers(tileRows, matching, entry[i]);
    }
    forall i | 0 <= i < |Dedup(tileRows)| ensures Dedup(tileRows)[i] in matching {
      DedupMembers(tileRows, i);
    }
    if SameStations(entry, Dedup(tileRows)) {
      forall p | p in matching ensures Covered(entry, p) {
        TileQueryCovers(tileRows, matching, p);
        CoveredOnce(Dedup(tileRows), entry, p);
      }
    }
  }

  // ---------------------------------------------------------------- said of the table

  /** r is in the tile, and newer than all matching packets of its callsign elsewhere. */
  ghost predicate NewestOfCall(matching: set<Packet>, tile: Tile, r: Packet) {
    && r in matching && AtTile(r, tile)
    && forall x :: x in matching && x.call == r.call && !AtTile(x, tile) ==> Rank(x) < Rank(r)
  }

  ghost predicate NewestInTile(matching: set<Packet>, tile: Tile, p: Packet) {
    exists r :: NewestOfCall(matching, tile, r) && r.call == p.call && Rank(p) <= Rank(r)
  }

  /** No callsign is in two tiles at the same time. */
  ghost predicate NoTies(matching: set<Packet>) {
    forall a, b :: a in matching && b in matching && a.call == b.call && Rank(a) == Rank(b) ==> a.position == b.position
  }

  ghost predicate AllNewestInTile(table: set<Packet>, q: Query, since: nat, tile: Tile) {
    forall p :: p in TileMatching(table, KeyFor(q, tile), since) ==> NewestInTile(Matching(table, q, since), tile, p)
  }

  lemma NewestServes(rows: seq<Packet>, matching: set<Packet>, tile: Tile, p: Packet)
    requires IsAnswer(rows, matching, Some(MAX_ROWS)) && |matching| <= MAX_ROWS
    requires NewestInTile(matching, tile, p)
    ensures Serves(rows, tile, p)
  {
    AllAreRows(rows, matching, Some(MAX_ROWS));
    var r :| NewestOfCall(matching, tile, r) && r.call == p.call && Rank(p) <= Rank(r);
    var i := FirstIsNewest(rows, r);
    assert rows[i] in matching && AtTile(rows[i], tile);
  }

  lemma ServingIsNewest(rows: seq<Packet>, matching: set<Packet>, tile: Tile, p: Packet)
    requires IsAnswer(rows, matching, Some(MAX_ROWS)) && |matching| <= MAX_ROWS
    requires Serves(rows, tile, p) && NoTies(matching)
    ensures NewestInTile(matching, tile, p)
  {
    AllAreRows(rows, matching, Some(MAX_ROWS));
    var i :| FirstOfCall(rows, i) && rows[i].call == p.call && AtTile(rows[i], tile) && Rank(p) <= Rank(rows[i]);
    forall x | x in matching && x.call == p.call && !AtTile(x, tile) ensures Rank(x) < Rank(rows[i]) {
      var k := FirstIsNewest(rows, x);
      assert k == i;
    }
    assert NewestOfCall(matching, tile, rows[i]);
  }

  /**
   Below the cap, and where no station is in two places at once, the condition can be read
   off the table: the entry is complete iff each station that the tile query would find is
   in this tile with its newest packet in the box.
   */
  lemma EntryCompleteIffNewest(table: set<Packet>, q: Query, since: nat, rows: seq<Packet>, tile: Tile)
    requires IsAnswer(rows, Matching(table, q, since), Some(MAX_ROWS)) && |Matching(table, q, since)| <= MAX_ROWS
    ensures var entry := Bucket(Dedup(rows), tile);
            && (AllNewestInTile(table, q, since, tile) ==> Complete(entry, table, KeyFor(q, tile), since))
            && (NoTies(Matching(table, q, since)) ==>
                  (Complete(entry, table, KeyFor(q, tile), since) <==> AllNewestInTile(table, q, since, tile)))
  {
    var entry := Bucket(Dedup(rows), tile);
    forall p ensures Covered(entry, p) <==> Serves(rows, tile, p) {
      CoveredIffServed(rows, tile, p);
    }
    var matching := Matching(table, q, since);
    forall p | NewestInTile(matching, tile, p) ensures Serves(rows, tile, p) {
      NewestServes(rows, matching, tile, p);
    }
    if NoTies(matching) {
      forall p | Serves(rows, tile, p) ensures NewestInTile(matching, tile, p) {
        ServingIsNewest(rows, matching, tile, p);
      }
    }
  }

  predicate TileInside(tile: Tile, box: BBox) {
    && box.minLat <= tile.lat as real && (tile.lat + 1) as real <= box.maxLat
    && box.minLon <= tile.lon as real && (tile.lon + 1) as real <= box.maxLon
  }

  /** No callsign has matching packets in two tiles. */
  ghost predicate NobodyMoves(matching: set<Packet>) {
    forall a, b, tile :: a in matching && b in matching && a.call == b.call && AtTile(a, tile) ==> AtTile(b, tile)
  }

  /** What a caller can check: the tile is inside the box, the cap is not reached, and nobody moves. */
  lemma EntryCompleteInside(table: set<Packet>, q: Query, since: nat, rows: seq<Packet>, tile: Tile)
    requires IsAnswer(rows, Matching(table, q, since), Some(MAX_ROWS)) && |Matching(table, q, since)| <= MAX_ROWS
    requires TileInside(tile, q.box) && NobodyMoves(Matching(table, q, since))
    ensures Complete(Bucket(Dedup(rows), tile), table, KeyFor(q, tile), since)
  {
    var matching := Matching(table, q, since);
    EntryCompleteIffNewest(table, q, since, rows, tile);
    forall p | p in TileMatching(table, KeyFor(q, tile), since) ensures NewestInTile(matching, tile, p) {
      assert p in matching;
      assert forall x :: x in matching && x.call == p.call ==> AtTile(x, tile);
      assert NewestOfCall(matching, tile, p);
    }
  }

  // ---------------------------------------------------------------- where it fails

  function At(call: string, lat: real, lon: real, day: nat): Packet
    requires 1 <= day <= 28
  {
    Packet(day, call, Some(Position(lat, lon)), "position", DateTime(2025, 1, day, 0, 0, 0, 0), "")
  }

  const CORNER := Tile(0, 0)
  const FOUR_TILES := [CORNER, Tile(0, 1), Tile(1, 0), Tile(1, 1)]

  /** A request with an empty cache, after which the entry of the tile is empty. */
  ghost predicate LeavesEmptyEntry(table: set<Packet>, q: Query, tiles: seq<Tile>, rows: seq<Packet>) {
    var step := MapRequest(q, 0, tiles, rows, {}, {CORNER});
    var s := State(table, map[]);
    IsTiling(tiles, q.box) && Enabled(s, step) && KeyFor(q, CORNER) in Next(s, step).cache && Next(s, step).cache[KeyFor(q, CORNER)] == []
  }

  lemma FourTiles(box: BBox)
    requires box == BBox(0.0, 0.0, 1.75, 1.0)
    ensures IsTiling(FOUR_TILES, box)
  {
    assert 1.75.Floor == 1 && 1.0.Floor == 1;
    forall lat, lon | Between(box, Tile(lat, lon)) ensures Tile(lat, lon) in FOUR_TILES {
      assert FOUR_TILES[2 * lat + lon] == Tile(lat, lon);
    }
  }

  lemma MissedIsWritten(q: Query, tiles: seq<Tile>, stations: seq<Packet>)
    requires CORNER in tiles
    ensures var cache := Refilled(map[], q, tiles, stations, {CORNER});
            KeyFor(q, CORNER) in cache && cache[KeyFor(q, CORNER)] == Bucket(stations, CORNER)
  {}

  lemma EntryIsWritten(table: set<Packet>, q: Query, tiles: seq<Tile>, rows: seq<Packet>)
    requires IsTiling(tiles, q.box) && CORNER in tiles
    requires IsAnswer(rows, Matching(table, q, 0), Some(MAX_ROWS)) && Bucket(Dedup(rows), CORNER) == []
    ensures LeavesEmptyEntry(table, q, tiles, rows)
  {
    NothingReadable(map[], q, tiles, {});
    MissedIsWritten(q, tiles, Dedup(rows));
  }

  lemma OneTile(box: BBox)
    requires box == BBox(0.0, 0.0, 0.25, 0.25)
    ensures IsTiling([CORNER], box)
  {
    assert 0.25.Floor == 0;
  }

  /** A later request that is answered from the empty entry shows nothing. */
  lemma NothingShown(cache: Cache, q: Query)
    requires KeyFor(q, CORNER) in cache && cache[KeyFor(q, CORNER)] == []
    ensures Answer(Merged(cache, q, [CORNER], {CORNER}, []), q) == []
  {
    assert Hits(cache, q, [CORNER][1..], {CORNER}) == [];
    assert Hits(cache, q, [CORNER], {CORNER}) == [];
    assert MergeAll([], []) == [];
    assert SortNewest([]) == [] && KeepBox([], q.box) == [];
  }

  lemma NoRowsOutside(p: Packet, box: BBox)
    requires p == At("N0CALL", 0.5, 0.5, 1) && box == BBox(0.0, 0.0, 0.25, 0.25)
    ensures !AtBox(p, box) && AtTile(p, CORNER)
  {
    assert 0.5.Floor == 0;
  }

  lemma NoRows(p: Packet, q: Query)
    requires !AtBox(p, q.box)
    ensures IsAnswer([], Matching({p}, q, 0), Some(MAX_ROWS)) && Bucket(Dedup([]), CORNER) == []
  {
    assert Matching({p}, q, 0) == {};
  }

  lemma EmptyIsIncomplete(table: set<Packet>, key: TileKey, p: Packet)
    requires p in table && AtTile(p, key.tile) && key.kind == ""
    ensures p in TileMatching(table, key, 0) && !Complete([], table, key, 0)
  {
    assert !Covered([], p);
  }

  /** A station in the tile, outside the box of the request: a later request for it does not find it. */
  lemma OutsideExample()
    ensures var p := At("N0CALL", 0.5, 0.5, 1);
            var q := Query(BBox(0.0, 0.0, 0.25, 0.25), 1, "", 10);
            && LeavesEmptyEntry({p}, q, [CORNER], [])
            && p in TileMatching({p}, KeyFor(q, CORNER), 0) && !Complete([], {p}, KeyFor(q, CORNER), 0)
    ensures var p := At("N0CALL", 0.5, 0.5, 1);
            var q, later := Query(BBox(0.0, 0.0, 0.25, 0.25), 1, "", 10), Query(BBox(0.0, 0.0, 0.75, 0.75), 1, "", 10);
            var s := Next(State({p}, map[]), MapRequest(q, 0, [CORNER], [], {}, {CORNER}));
            p in Matching(s.table, later, 0) && Answer(Merged(s.cache, later, [CORNER], {CORNER}, []), later) == []
  {
    var p := At("N0CALL", 0.5, 0.5, 1);
    var q, later := Query(BBox(0.0, 0.0, 0.25, 0.25), 1, "", 10), Query(BBox(0.0, 0.0, 0.75, 0.75), 1, "", 10);
    NoRowsOutside(p, q.box);
    NoRows(p, q);
    OneTile(q.box);
    EntryIsWritten({p}, q, [CORNER], []);
    EmptyIsIncomplete({p}, KeyFor(q, CORNER), p);
    NothingShown(Next(State({p}, map[]), MapRequest(q, 0, [CORNER], [], {}, {CORNER})).cache, later);
  }

  lemma MovedRows(p: Packet, newer: Packet, q: Query)
    requires Matches(p, q, 0) && Matches(newer, q, 0) && Rank(p) < Rank(newer)
    ensures IsAnswer([newer, p], Matching({p, newer}, q, 0), Some(MAX_ROWS))
  {
    assert Matching({p, newer}, q, 0) == {p, newer};
    assert |{p, newer}| == 2;
  }

  lemma MovedEntry(p: Packet, newer: Packet)
    requires p.call == newer.call && !AtTile(newer, CORNER)
    ensures Bucket(Dedup([newer, p]), CORNER) == []
  {
    var rows := [newer, p];
    assert rows[1..] == [p] && [p][1..] == [];
    assert {} + {newer.call} == {p.call};
    assert DedupFrom([p], {p.call}) == [];
    assert Dedup(rows) == [newer] + DedupFrom(rows[1..], {} + {newer.call});
    assert Bucket([newer], CORNER) == [];
  }

  lemma MovedPackets(p: Packet, newer: Packet, q: Query)
    requires p == At("N0CALL", 0.5, 0.5, 1) && newer == At("N0CALL", 0.5, 1.5, 2)
    requires q == Query(BBox(0.0, 0.0, 1.75, 1.0), 1, "", 10)
    ensures Matches(p, q, 0) && Matches(newer, q, 0) && Rank(p) < Rank(newer)
    ensures AtTile(p, CORNER) && !AtTile(newer, CORNER)
  {
    assert 0.5.Floor == 0 && 1.5.Floor == 1;
  }

  /** A station in the tile and the box, with a newer packet in another tile of the box. */
  lemma MovedExample()
    ensures var p, newer := At("N0CALL", 0.5, 0.5, 1), At("N0CALL", 0.5, 1.5, 2);
            var q := Query(BBox(0.0, 0.0, 1.75, 1.0), 1, "", 10);
            && LeavesEmptyEntry({p, newer}, q, FOUR_TILES, [newer, p])
            && p in TileMatching({p, newer}, KeyFor(q, CORNER), 0)
            && TileInside(CORNER, q.box) && !Complete([], {p, newer}, KeyFor(q, CORNER), 0)
  {
    var p, newer := At("N0CALL", 0.5, 0.5, 1), At("N0CALL", 0.5, 1.5, 2);
    var q := Query(BBox(0.0, 0.0, 1.75, 1.0), 1, "", 10);
    MovedPackets(p, newer, q);
    MovedRows(p, newer, q);
    MovedEntry(p, newer);
    FourTiles(q.box);
    EntryIsWritten({p, newer}, q, FOUR_TILES, [newer, p]);
    EmptyIsIncomplete({p, newer}, KeyFor(q, CORNER), p);
  }
}
