/**
 What a map request answers when some tiles are cached and others are not, said of the
 cache entries of its own hours, type and tiles and of the rows of the query.
 */
module TileAnswers {
  import opened Common
  import opened MapQueries
  import opened TileCache
  import opened TileEntries

  /** The cache has a readable entry of the tile for these hours and this type. */
  predicate Cached(cache: Cache, q: Query, tile: Tile, readable: set<Tile>) {
    tile in readable && TileKey(q.hours, q.kind, tile) in cache
  }

  ghost predicate InEntry(cache: Cache, q: Query, tiles: seq<Tile>, readable: set<Tile>, p: Packet) {
    exists tile :: tile in tiles && Cached(cache, q, tile, readable) && p in cache[TileKey(q.hours, q.kind, tile)]
  }

  ghost predicate SomeMissing(cache: Cache, q: Query, tiles: seq<Tile>, readable: set<Tile>) {
    exists tile :: tile in tiles && !Cached(cache, q, tile, readable)
  }

  /** A record of a readable entry, or a row of the query that a tile without one asks for. */
  ghost predicate Offered(cache: Cache, q: Query, tiles: seq<Tile>, readable: set<Tile>, rows: seq<Packet>, p: Packet) {
    InEntry(cache, q, tiles, readable, p) || (p in rows && SomeMissing(cache, q, tiles, readable))
  }

  lemma {:induction false} InHits(cache: Cache, q: Query, tiles: seq<Tile>, readable: set<Tile>, p: Packet)
    ensures p in Hits(cache, q, tiles, readable) <==> InEntry(cache, q, tiles, readable, p)
  {
    if tiles != [] {
      InHits(cache, q, tiles[1..], readable, p);
      var first := tiles[0];
      if InEntry(cache, q, tiles, readable, p) {
        var tile :| tile in tiles && Cached(cache, q, tile, readable) && p in cache[TileKey(q.hours, q.kind, tile)];
        assert tile == first || tile in tiles[1..];
      }
    }
  }

  lemma {:induction false} MissesSomething(cache: Cache, q: Query, tiles: seq<Tile>, readable: set<Tile>)
    ensures Misses(cache, q, tiles, readable) != [] <==> SomeMissing(cache, q, tiles, readable)
  {
    if tiles != [] {
      MissesSomething(cache, q, tiles[1..], readable);
      if SomeMissing(cache, q, tiles, readable) {
        var tile :| tile in tiles && !Cached(cache, q, tile, readable);
        assert tile == tiles[0] || tile in tiles[1..];
      }
      assert tiles[0] in tiles;
      assert forall tile :: tile in tiles[1..] ==> tile in tiles;
    }
  }

  /** Everything offered is among the newest merged records, or a newer record of its callsign is. */
  lemma OfferedIsCovered(cache: Cache, q: Query, tiles: seq<Tile>, readable: set<Tile>, rows: seq<Packet>, p: Packet)
    requires SortedNewest(rows) && Offered(cache, q, tiles, readable, rows, p)
    ensures Covered(MergeAll([], Merged(cache, q, tiles, readable, rows)), p)
  {
    var merged := Merged(cache, q, tiles, readable, rows);
    if InEntry(cache, q, tiles, readable, p) {
      InHits(cache, q, tiles, readable, p);
      MergeAllCovers([], merged, p);
    } else {
      MissesSomething(cache, q, tiles, readable);
      var i := FirstIsNewest(rows, p);
      DedupIsFirstRows(rows, {}, rows[i]);
      assert rows[i] in merged;
      MergeAllCovers([], merged, rows[i]);
      CoveredByNewer(MergeAll([], merged), rows[i], p);
    }
  }

  lemma CoveredByNewer(acc: seq<Packet>, newer: Packet, p: Packet)
    requires Covered(acc, newer) && newer.call == p.call && Rank(p) <= Rank(newer)
    ensures Covered(acc, p)
  {}

  lemma MergedIsOffered(cache: Cache, q: Query, tiles: seq<Tile>, readable: set<Tile>, rows: seq<Packet>, p: Packet)
    requires p in Merged(cache, q, tiles, readable, rows)
    ensures Offered(cache, q, tiles, readable, rows, p)
  {
    InHits(cache, q, tiles, readable, p);
    MissesSomething(cache, q, tiles, readable);
    if p !in Hits(cache, q, tiles, readable) {
      var k :| 0 <= k < |Dedup(rows)| && Dedup(rows)[k] == p;
      DedupMembers(rows, k);
    }
  }

  /** The record has a place, and the box holds it, its edges included. */
  predicate InView(p: Packet, box: BBox) {
    && p.position.Some?
    && box.minLat <= p.position.value.lat && p.position.value.lat <= box.maxLat
    && box.minLon <= p.position.value.lon && p.position.value.lon <= box.maxLon
  }

  /** A record of the callsign, at least as new, was offered, and lies outside the box. */
  ghost predicate NewerOutside(cache: Cache, q: Query, tiles: seq<Tile>, readable: set<Tile>, rows: seq<Packet>, p: Packet) {
    exists x :: Offered(cache, q, tiles, readable, rows, x) && x.call == p.call && Rank(p) <= Rank(x) && !InView(x, q.box)
  }

  predicate FullOfNewer(answer: seq<Packet>, limit: nat, p: Packet) {
    |answer| == limit && forall i :: 0 <= i < |answer| ==> Rank(p) <= Rank(answer[i])
  }

  /**
   The answer holds nothing but what was offered, and what was offered in the box is missing
   only behind a record of its callsign at least as new, or behind a full limit of them.
   */
  ghost predicate Accounts(answer: seq<Packet>, cache: Cache, q: Query, tiles: seq<Tile>, readable: set<Tile>,
                           rows: seq<Packet>)
  {
    && (forall i :: 0 <= i < |answer| ==> Offered(cache, q, tiles, readable, rows, answer[i]) && InView(answer[i], q.box))
    && forall p :: Offered(cache, q, tiles, readable, rows, p) && InView(p, q.box) ==>
         Covered(answer, p) || FullOfNewer(answer, q.limit, p) || NewerOutside(cache, q, tiles, readable, rows, p)
  }

  lemma CoveringRecord(merged: seq<Packet>, p: Packet) returns (x: Packet)
    requires Covered(MergeAll([], merged), p)
    ensures x in MergeAll([], merged) && x in merged && x.call == p.call && Rank(p) <= Rank(x)
  {
    var newest := MergeAll([], merged);
    var k :| 0 <= k < |newest| && newest[k].call == p.call && Rank(p) <= Rank(newest[k]);
    MergeIsNewest(merged);
    x := newest[k];
  }

  /** A newest merged record in the box is answered, or the limit is full of newer ones. */
  lemma NewestInBox(merged: seq<Packet>, q: Query, x: Packet, p: Packet)
    requires x in MergeAll([], merged) && AtBox(x, q.box) && x.call == p.call && Rank(p) <= Rank(x)
    ensures Covered(Answer(merged, q), p) || FullOfNewer(Answer(merged, q), q.limit, p)
  {
    var answer := Answer(merged, q);
    if x in answer {
      var i :| 0 <= i < |answer| && answer[i] == x;
    } else {
      AnswerIsComplete(merged, q, x);
    }
  }

  lemma OfferedIsAccountedFor(cache: Cache, q: Query, tiles: seq<Tile>, readable: set<Tile>, rows: seq<Packet>, p: Packet)
    requires SortedNewest(rows) && Offered(cache, q, tiles, readable, rows, p) && InView(p, q.box)
    ensures var answer := Answer(Merged(cache, q, tiles, readable, rows), q);
            Covered(answer, p) || FullOfNewer(answer, q.limit, p) || NewerOutside(cache, q, tiles, readable, rows, p)
  {
    var merged := Merged(cache, q, tiles, readable, rows);
    OfferedIsCovered(cache, q, tiles, readable, rows, p);
    var x := CoveringRecord(merged, p);
    if AtBox(x, q.box) {
      NewestInBox(merged, q, x, p);
    } else {
      MergedIsOffered(cache, q, tiles, readable, rows, x);
    }
  }

  lemma AnswerAccounts(cache: Cache, q: Query, tiles: seq<Tile>, readable: set<Tile>, rows: seq<Packet>)
    requires SortedNewest(rows)
    ensures Accounts(Answer(Merged(cache, q, tiles, readable, rows), q), cache, q, tiles, readable, rows)
  {
    var merged := Merged(cache, q, tiles, readable, rows);
    var answer := Answer(merged, q);
    AnswerIsWellFormed(merged, q);
    forall i | 0 <= i < |answer| ensures Offered(cache, q, tiles, readable, rows, answer[i]) {
      AnswerMembers(merged, q, i);
      MergedIsOffered(cache, q, tiles, readable, rows, answer[i]);
    }
    forall p | Offered(cache, q, tiles, readable, rows, p) && InView(p, q.box)
      ensures Covered(answer, p) || FullOfNewer(answer, q.limit, p) || NewerOutside(cache, q, tiles, readable, rows, p)
    {
      OfferedIsAccountedFor(cache, q, tiles, readable, rows, p);
    }
  }

  /** Entries of other hours, another type or other tiles are neither read nor written. */
  lemma OthersStay(cache: Cache, q: Query, missed: seq<Tile>, stations: seq<Packet>, writable: set<Tile>, key: TileKey)
    requires key.hours != q.hours || key.kind != q.kind || key.tile !in missed
    ensures var after := Refilled(cache, q, missed, stations, writable);
            (key in after <==> key in cache) && (key in cache ==> after[key] == cache[key])
  {}
}
