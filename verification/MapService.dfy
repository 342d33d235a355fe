/** The map request handlers as loops over dictionaries and the cache client. */
module MapService {
  import opened Common
  import opened MapQueries
  import opened TileAnswers
  import opened TileCache

  lemma {:induction false} MergeAppend(acc: seq<Packet>, a: seq<Packet>, b: seq<Packet>)
    ensures MergeAll(acc, a + b) == MergeAll(MergeAll(acc, a), b)
    decreases a
  {
    if a == [] {
      assert a + b == b;
    } else {
      assert (a + b)[1..] == a[1..] + b;
      MergeAppend(MergeOne(acc, a[0]), a[1..], b);
    }
  }

  lemma {:induction false} BucketAppend(a: seq<Packet>, s: Packet, tile: Tile)
    ensures Bucket(a + [s], tile) == Bucket(a, tile) + (if AtTile(s, tile) then [s] else [])
  {
    if a == [] {
      assert a + [s] == [s] && [s][1..] == [];
    } else {
      assert (a + [s])[1..] == a[1..] + [s];
      BucketAppend(a[1..], s, tile);
    }
  }

  lemma {:induction false} KeepBoxAppend(a: seq<Packet>, s: Packet, box: BBox)
    ensures KeepBox(a + [s], box) == KeepBox(a, box) + (if AtBox(s, box) then [s] else [])
  {
    if a == [] {
      assert a + [s] == [s] && [s][1..] == [];
    } else {
      assert (a + [s])[1..] == a[1..] + [s];
      KeepBoxAppend(a[1..], s, box);
    }
  }

  method MergeStations(acc: seq<Packet>, stations: seq<Packet>) returns (merged: seq<Packet>)
    ensures merged == MergeAll(acc, stations)
  {
    merged := acc;
    for n := 0 to |stations|
      invariant MergeAll(merged, stations[n..]) == MergeAll(acc, stations)
    {
      assert stations[n..][1..] == stations[n + 1..];
      var s := stations[n];
      var i := IndexOf(merged, s.call);
      if i == |merged| {
        merged := merged + [s];
      } else if TextNewer(s, merged[i]) {
        merged := merged[i := s];
      }
    }
    assert stations[|stations|..] == [];
  }

  method SortIntoBuckets(stations: seq<Packet>, tiles: seq<Tile>) returns (buckets: map<Tile, seq<Packet>>)
    requires forall i :: 0 <= i < |stations| ==> stations[i].position.Some?
    ensures forall t :: t in buckets <==> t in tiles
    ensures forall t :: t in buckets ==> buckets[t] == Bucket(stations, t)
  {
    buckets := map t | t in tiles :: [];
    for n := 0 to |stations|
      invariant forall t :: t in buckets <==> t in tiles
      invariant forall t :: t in buckets ==> buckets[t] == Bucket(stations[..n], t)
    {
      var s := stations[n];
      var tile := TileOf(s.position.value);
      assert stations[..n + 1] == stations[..n] + [s];
      forall t ensures Bucket(stations[..n + 1], t) == Bucket(stations[..n], t) + (if AtTile(s, t) then [s] else []) {
        BucketAppend(stations[..n], s, t);
      }
      if tile in buckets {
        buckets := buckets[tile := buckets[tile] + [s]];
      }
    }
    assert stations[..|stations|] == stations;
  }

  predicate Fresh(q: Query, missed: seq<Tile>, writable: set<Tile>, key: TileKey) {
    key == KeyFor(q, key.tile) && key.tile in missed && key.tile in writable
  }

  /** What a refilled cache holds under one key. */
  lemma RefilledAt(cache: Cache, q: Query, missed: seq<Tile>, stations: seq<Packet>, writable: set<Tile>, key: TileKey)
    ensures var after := Refilled(cache, q, missed, stations, writable);
            && (key in after <==> Fresh(q, missed, writable, key) || key in cache)
            && (Fresh(q, missed, writable, key) ==> after[key] == Bucket(stations, key.tile))
            && (!Fresh(q, missed, writable, key) && key in cache ==> after[key] == cache[key])
  {
    var added := map tile | tile in missed && tile in writable :: KeyFor(q, tile) := Bucket(stations, tile);
    if Fresh(q, missed, writable, key) {
      assert KeyFor(q, key.tile) in added;
    }
    assert key in added ==> Fresh(q, missed, writable, key);
  }

  lemma RefilledNext(cache: Cache, q: Query, missed: seq<Tile>, tile: Tile, stations: seq<Packet>, writable: set<Tile>)
    ensures var before := Refilled(cache, q, missed, stations, writable);
            Refilled(cache, q, missed + [tile], stations, writable)
            == if tile in writable then before[KeyFor(q, tile) := Bucket(stations, tile)] else before
  {
    var before := Refilled(cache, q, missed, stations, writable);
    var after := Refilled(cache, q, missed + [tile], stations, writable);
    var expected := if tile in writable then before[KeyFor(q, tile) := Bucket(stations, tile)] else before;
    forall key: TileKey
      ensures key in after <==> key in expected
      ensures key in after && key in expected ==> after[key] == expected[key]
    {
      RefilledAt(cache, q, missed, stations, writable, key);
      RefilledAt(cache, q, missed + [tile], stations, writable, key);
    }
  }

  /** Reading the tile at n splits the hits and the misses there. */
  lemma ReadSplits(cache: Cache, q: Query, tiles: seq<Tile>, readable: set<Tile>, n: nat)
    requires n < |tiles|
    ensures var entry := Read(cache, q, tiles[n], readable);
            && Hits(cache, q, tiles[n..], readable)
               == (if entry.Some? then entry.value else []) + Hits(cache, q, tiles[n + 1..], readable)
            && Misses(cache, q, tiles[n..], readable)
               == (if entry.None? then [tiles[n]] else []) + Misses(cache, q, tiles[n + 1..], readable)
  {
    assert tiles[n..][1..] == tiles[n + 1..];
  }

  lemma MergeNext(acc: seq<Packet>, entry: Option<seq<Packet>>, rest: seq<Packet>)
    ensures MergeAll(acc, (if entry.Some? then entry.value else []) + rest)
            == MergeAll(if entry.Some? then MergeAll(acc, entry.value) else acc, rest)
  {
    if entry.Some? {
      MergeAppend(acc, entry.value, rest);
    } else {
      assert [] + rest == rest;
    }
  }

  lemma {:induction false} MissNext(misses: seq<Tile>, tile: Tile, hit: bool, rest: seq<Tile>)
    ensures misses + ((if hit then [] else [tile]) + rest) == (if hit then misses else misses + [tile]) + rest
  {}

  /** What is still to be merged and to be queried once the tile at n is read. */
  lemma {:induction false} ReadNext(cache: Cache, q: Query, tiles: seq<Tile>, readable: set<Tile>, n: nat, acc: seq<Packet>, misses: seq<Tile>)
    requires n < |tiles|
    ensures var entry := Read(cache, q, tiles[n], readable);
            && MergeAll(acc, Hits(cache, q, tiles[n..], readable))
               == MergeAll(if entry.Some? then MergeAll(acc, entry.value) else acc, Hits(cache, q, tiles[n + 1..], readable))
            && misses + Misses(cache, q, tiles[n..], readable)
               == (if entry.None? then misses + [tiles[n]] else misses) + Misses(cache, q, tiles[n + 1..], readable)
  {
    var entry := Read(cache, q, tiles[n], readable);
    ReadSplits(cache, q, tiles, readable, n);
    MergeNext(acc, entry, Hits(cache, q, tiles[n + 1..], readable));
    MissNext(misses, tiles[n], entry.Some?, Misses(cache, q, tiles[n + 1..], readable));
  }

  class MapService {
    var cache: Cache

    constructor ()
      ensures cache == map[]
    {
      cache := map[];
    }

    /** Merges what the cache still has; the tiles without a readable entry are left to query. */
    method ReadTiles(q: Query, tiles: seq<Tile>, readable: set<Tile>)
      returns (stations: seq<Packet>, uncached: seq<Tile>)
      ensures stations == MergeAll([], Hits(cache, q, tiles, readable))
      ensures uncached == Misses(cache, q, tiles, readable)
    {
      stations, uncached := [], [];
      for n := 0 to |tiles|
        invariant MergeAll(stations, Hits(cache, q, tiles[n..], readable)) == MergeAll([], Hits(cache, q, tiles, readable))
        invariant uncached + Misses(cache, q, tiles[n..], readable) == Misses(cache, q, tiles, readable)
      {
        ReadNext(cache, q, tiles, readable, n, stations, uncached);
        match Read(cache, q, tiles[n], readable) {
          case Some(cached) =>
            stations := MergeStations(stations, cached);
          case None =>
            uncached := uncached + [tiles[n]];
        }
      }
      assert tiles[|tiles|..] == [];
    }

    method StoreTiles(q: Query, uncached: seq<Tile>, stations: seq<Packet>, writable: set<Tile>)
      requires forall i :: 0 <= i < |stations| ==> stations[i].position.Some?
      modifies this
      ensures cache == Refilled(old(cache), q, uncached, stations, writable)
    {
      var buckets := SortIntoBuckets(stations, uncached);
      for n := 0 to |uncached|
        invariant cache == Refilled(old(cache), q, uncached[..n], stations, writable)
      {
        var tile := uncached[n];
        assert uncached[..n + 1] == uncached[..n] + [tile];
        RefilledNext(old(cache), q, uncached[..n], tile, stations, writable);
        if tile in writable {
          cache := cache[KeyFor(q, tile) := buckets[tile]];
        }
      }
      assert uncached[..|uncached|] == uncached;
    }

    /**
     One map request. `rows` is what the box query answers if it is made; `readable` and
     `writable` say for which tiles the cache client works.
     */
    method GetMapStationsTiled(q: Query, rows: seq<Packet>, readable: set<Tile>, writable: set<Tile>)
      returns (answer: seq<Packet>)
      requires forall i :: 0 <= i < |rows| ==> rows[i].position.Some?
      modifies this
      ensures exists all {:trigger IsTiling(all, q.box)} ::
        && IsTiling(all, q.box)
        && var tiles := Take(all, 100);
           && answer == Answer(Merged(old(cache), q, tiles, readable, rows), q)
           && (SortedNewest(rows) ==> Accounts(answer, old(cache), q, tiles, readable, rows))
           && cache == Refilled(old(cache), q, Misses(old(cache), q, tiles, readable), Dedup(rows), writable)
      ensures WellFormedAnswer(answer, q)
    {
      var all := GetTilesForBBox(q.box);
      var tiles := Take(all, MAX_TILES_PER_REQUEST);
      var stations, uncached := ReadTiles(q, tiles, readable);
      ghost var hits := Hits(cache, q, tiles, readable);
      ghost var merged := Merged(cache, q, tiles, readable, rows);
      if uncached != [] {
        var fromDb := Deduplicate(rows);
        DedupPositions(rows);
        MergeAppend([], hits, fromDb);
        stations := MergeStations(stations, fromDb);
        StoreTiles(q, uncached, fromDb, writable);
      } else {
        assert hits + [] == hits;
        assert cache == Refilled(cache, q, uncached, Dedup(rows), writable);
      }
      assert stations == MergeAll([], merged);
      var kept := FilterBox(stations, q.box);
      answer := Take(SortNewest(kept), q.limit);
      AnswerIsWellFormed(merged, q);
      if SortedNewest(rows) {
        AnswerAccounts(old(cache), q, tiles, readable, rows);
      }
    }

    /** One tile's stations: the cached entry, or the tile query, stored if the client works. */
    method GetTileStations(key: TileKey, rows: seq<Packet>, readable: bool, writable: bool)
      returns (stations: seq<Packet>)
      modifies this
      ensures stations == if readable && key in old(cache) then old(cache)[key] else Dedup(rows)
      ensures cache == if (readable && key in old(cache)) || !writable then old(cache) else old(cache)[key := Dedup(rows)]
    {
      if readable && key in cache {
        return cache[key];
      }
      stations := Deduplicate(rows);
      if writable {
        cache := cache[key := stations];
      }
    }
  }

  method FilterBox(packets: seq<Packet>, box: BBox) returns (kept: seq<Packet>)
    ensures kept == KeepBox(packets, box)
  {
    kept := [];
    for n := 0 to |packets|
      invariant kept == KeepBox(packets[..n], box)
    {
      assert packets[..n + 1] == packets[..n] + [packets[n]];
      KeepBoxAppend(packets[..n], packets[n], box);
      if AtBox(packets[n], box) {
        kept := kept + [packets[n]];
      }
    }
    assert packets[..|packets|] == packets;
  }

  lemma DedupPositions(rows: seq<Packet>)
    requires forall i :: 0 <= i < |rows| ==> rows[i].position.Some?
    ensures forall i :: 0 <= i < |Dedup(rows)| ==> Dedup(rows)[i].position.Some?
  {
    forall i | 0 <= i < |Dedup(rows)| ensures Dedup(rows)[i].position.Some? {
      DedupMembers(rows, i);
    }
  }
}
