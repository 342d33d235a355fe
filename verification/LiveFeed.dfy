/**
 The live feed: a loop that polls the table for the newest packets, broadcasts them oldest
 first and remembers the newest time it has seen; each broadcast is routed to rooms, by
 the packet's own country or else by the last known one of its station.
 */
module LiveFeed {
  import opened Common
  import opened StationCache

  const POLL_LIMIT: nat := 10

  /** A table row; `at` is its received_at, `country` empty if it has none. */
  datatype Packet = Packet(id: nat, call: string, country: string, at: int)

  // ---------------------------------------------------------------- one poll

  predicate NewerThan(p: Packet, last: Option<int>) { last.Some? ==> p.at > last.value }

  function Newer(table: set<Packet>, last: Option<int>): set<Packet> {
    set p | p in table && NewerThan(p, last)
  }

  /** A possible answer to ORDER BY received_at DESC LIMIT 10; the order among equal times is open. */
  ghost predicate IsAnswer(rows: seq<Packet>, table: set<Packet>, last: Option<int>) {
    var newer := Newer(table, last);
    && |rows| == Min(|newer|, POLL_LIMIT)
    && (forall i :: 0 <= i < |rows| ==> rows[i] in newer)
    && (forall i, j :: 0 <= i < j < |rows| ==> rows[i] != rows[j] && rows[i].at >= rows[j].at)
    && (forall p, i :: p in newer && p !in rows && 0 <= i < |rows| ==> p.at <= rows[i].at)
  }

  function Reversed(rows: seq<Packet>): seq<Packet> {
    seq(|rows|, i requires 0 <= i < |rows| => rows[|rows| - 1 - i])
  }

  function Latest(last: Option<int>, rows: seq<Packet>): Option<int> {
    if rows == [] then last else Some(rows[0].at)
  }

  // ---------------------------------------------------------------- runs

  datatype State = State(table: set<Packet>, last: Option<int>, sent: seq<Packet>)

  datatype Step = Insert(packet: Packet) | Poll(rows: seq<Packet>)

  ghost predicate Enabled(s: State, step: Step) {
    match step
    case Insert(p) => p !in s.table
    case Poll(rows) => IsAnswer(rows, s.table, s.last)
  }

  function Next(s: State, step: Step): State {
    match step
    case Insert(p) => s.(table := s.table + {p})
    case Poll(rows) => s.(last := Latest(s.last, rows), sent := s.sent + Reversed(rows))
  }

  ghost predicate IsRun(s: State, steps: seq<Step>)
    decreases steps
  {
    steps == [] || (Enabled(s, steps[0]) && IsRun(Next(s, steps[0]), steps[1..]))
  }

  function After(s: State, steps: seq<Step>): State
    decreases steps
  {
    if steps == [] then s else After(Next(s, steps[0]), steps[1..])
  }

  predicate Ordered(sent: seq<Packet>) {
    forall i, j :: 0 <= i < j < |sent| ==> sent[i] != sent[j] && sent[i].at <= sent[j].at
  }

  predicate NoneNewer(sent: seq<Packet>, last: Option<int>) {
    forall i :: 0 <= i < |sent| ==> last.Some? && sent[i].at <= last.value
  }

  predicate AllStored(sent: seq<Packet>, table: set<Packet>) { forall i :: 0 <= i < |sent| ==> sent[i] in table }

  /** Sent in order of time, each packet once, none of them newer than the time remembered. */
  predicate InOrder(s: State) { Ordered(s.sent) && NoneNewer(s.sent, s.last) && AllStored(s.sent, s.table) }

  /** The rows of a poll, oldest first. */
  lemma NewRows(rows: seq<Packet>, table: set<Packet>, last: Option<int>)
    requires IsAnswer(rows, table, last)
    ensures var todo := Reversed(rows);
            && (forall i :: 0 <= i < |todo| ==> todo[i] in table && NewerThan(todo[i], last) && todo[i].at <= rows[0].at)
            && Ordered(todo)
  {
    var todo := Reversed(rows);
    forall i | 0 <= i < |todo| ensures todo[i] in table && NewerThan(todo[i], last) && todo[i].at <= rows[0].at {
      assert rows[|rows| - 1 - i] in Newer(table, last);
    }
    forall i, j | 0 <= i < j < |todo| ensures todo[i] != todo[j] && todo[i].at <= todo[j].at {
      assert rows[|rows| - 1 - j] != rows[|rows| - 1 - i];
    }
  }

  lemma OrderedAppend(sent: seq<Packet>, todo: seq<Packet>, last: Option<int>)
    requires Ordered(sent) && Ordered(todo) && NoneNewer(sent, last)
    requires forall i :: 0 <= i < |todo| ==> NewerThan(todo[i], last)
    ensures Ordered(sent + todo)
  {
    forall i, j | 0 <= i < j < |sent + todo|
      ensures (sent + todo)[i] != (sent + todo)[j] && (sent + todo)[i].at <= (sent + todo)[j].at
    {
      if i < |sent| <= j {
        assert NewerThan(todo[j - |sent|], last) && sent[i].at <= last.value;
      }
    }
  }

  lemma NoneNewerAppend(sent: seq<Packet>, todo: seq<Packet>, last: Option<int>, latest: Option<int>)
    requires NoneNewer(sent, last) && NoneNewer(todo, latest)
    requires last.Some? ==> latest.Some? && last.value <= latest.value
    ensures NoneNewer(sent + todo, latest)
  {
    forall i | 0 <= i < |sent + todo| ensures latest.Some? && (sent + todo)[i].at <= latest.value {
      if i < |sent| {
        assert (sent + todo)[i] == sent[i];
        assert last.Some? && sent[i].at <= last.value;
      } else {
        assert (sent + todo)[i] == todo[i - |sent|];
        assert latest.Some? && todo[i - |sent|].at <= latest.value;
      }
    }
  }

  lemma PollKeepsOrder(s: State, rows: seq<Packet>)
    requires InOrder(s) && IsAnswer(rows, s.table, s.last)
    ensures InOrder(Next(s, Poll(rows)))
  {
    var latest := Latest(s.last, rows);
    assert rows != [] ==> NewerThan(rows[0], s.last);
    NewRows(rows, s.table, s.last);
    OrderedAppend(s.sent, Reversed(rows), s.last);
    assert NoneNewer(Reversed(rows), latest);
    NoneNewerAppend(s.sent, Reversed(rows), s.last, latest);
    AllStoredAppend(s.sent, Reversed(rows), s.table);
  }

  lemma AllStoredAppend(sent: seq<Packet>, todo: seq<Packet>, table: set<Packet>)
    requires AllStored(sent, table) && AllStored(todo, table)
    ensures AllStored(sent + todo, table)
  {}

  /** Over any run the broadcasts are in non-decreasing time order and no packet is sent twice. */
  lemma {:induction false} BroadcastsInOrder(s: State, steps: seq<Step>)
    requires InOrder(s) && IsRun(s, steps)
    ensures InOrder(After(s, steps))
    decreases steps
  {
    if steps != [] {
      if steps[0].Poll? {
        PollKeepsOrder(s, steps[0].rows);
      }
      BroadcastsInOrder(Next(s, steps[0]), steps[1..]);
    }
  }

  predicate Passed(s: State, p: Packet) {
    s.last.Some? && p.at <= s.last.value && p !in s.sent
  }

  /** After a poll every row of the table is sent or passed; none is still to come. */
  lemma PollSettles(s: State, rows: seq<Packet>, p: Packet)
    requires InOrder(s) && IsAnswer(rows, s.table, s.last) && p in s.table
    ensures var s' := Next(s, Poll(rows)); p in s'.sent || Passed(s', p)
  {
    var s' := Next(s, Poll(rows));
    if p in rows {
      var i :| 0 <= i < |rows| && rows[i] == p;
      assert s'.sent[|s.sent| + (|rows| - 1 - i)] == p;
    } else if NewerThan(p, s.last) {
      assert p in Newer(s.table, s.last);
      NonemptySet(Newer(s.table, s.last), p);
      assert p.at <= rows[0].at;
    } else {
      assert rows != [] ==> NewerThan(rows[0], s.last);
    }
  }

  lemma NonemptySet<T>(s: set<T>, x: T)
    requires x in s
    ensures |s| >= 1
  {
    SubsetSize({x}, s);
  }

  /** What has been passed over stays so. */
  lemma {:induction false} PassedStaysPassed(s: State, steps: seq<Step>, p: Packet)
    requires IsRun(s, steps) && Passed(s, p)
    ensures Passed(After(s, steps), p)
    decreases steps
  {
    if steps != [] {
      var s' := Next(s, steps[0]);
      if steps[0].Poll? {
        var rows := steps[0].rows;
        assert forall i :: 0 <= i < |rows| ==> NewerThan(rows[i], s.last);
        assert forall i :: 0 <= i < |Reversed(rows)| ==> Reversed(rows)[i] != p;
      }
      PassedStaysPassed(s', steps[1..], p);
    }
  }

  /** A packet of the table that a poll leaves unsent, by the limit or by its time, is never sent later. */
  lemma PassedOverStaysUnsent(s: State, rows: seq<Packet>, steps: seq<Step>, p: Packet)
    requires InOrder(s) && IsRun(s, [Poll(rows)] + steps)
    requires p in s.table && p !in Next(s, Poll(rows)).sent
    ensures p !in After(s, [Poll(rows)] + steps).sent
  {
    assert ([Poll(rows)] + steps)[0] == Poll(rows) && ([Poll(rows)] + steps)[1..] == steps;
    PollSettles(s, rows, p);
    PassedStaysPassed(Next(s, Poll(rows)), steps, p);
  }

  /** Inserts come after the last poll's time, and a poll finds at most ten newer rows. */
  ghost predicate KeepsUp(s: State, steps: seq<Step>)
    decreases steps
  {
    steps == [] ||
    ((match steps[0]
      case Insert(p) => NewerThan(p, s.last)
      case Poll(rows) => |Newer(s.table, s.last)| <= POLL_LIMIT)
     && KeepsUp(Next(s, steps[0]), steps[1..]))
  }

  /** Every row of the table is sent already or still newer than the last poll. */
  predicate NothingMissed(s: State, since: set<Packet>) {
    forall p :: p in s.table && p !in since ==> p in s.sent || NewerThan(p, s.last)
  }

  lemma AnswerIsAll(rows: seq<Packet>, table: set<Packet>, last: Option<int>, p: Packet)
    requires IsAnswer(rows, table, last) && |Newer(table, last)| <= POLL_LIMIT && p in Newer(table, last)
    ensures p in rows
  {
    var found := set i | 0 <= i < |rows| :: rows[i];
    DistinctCount(rows);
    if p !in rows {
      assert found <= Newer(table, last) - {p};
      SubsetSize(found, Newer(table, last) - {p});
    }
  }

  lemma PollMissesNothing(s: State, rows: seq<Packet>, since: set<Packet>)
    requires NothingMissed(s, since) && IsAnswer(rows, s.table, s.last) && |Newer(s.table, s.last)| <= POLL_LIMIT
    ensures var s' := Next(s, Poll(rows));
            forall p :: p in s'.table && p !in since ==> p in s'.sent
  {
    var s' := Next(s, Poll(rows));
    forall p | p in s.table && p !in since ensures p in s'.sent {
      if p in s.sent {
        var i :| 0 <= i < |s.sent| && s.sent[i] == p;
        assert s'.sent[i] == p;
      } else {
        AnswerIsAll(rows, s.table, s.last, p);
        var i :| 0 <= i < |rows| && rows[i] == p;
        assert s'.sent[|s.sent| + (|rows| - 1 - i)] == p;
      }
    }
  }

  lemma {:induction false} KeepingUpMissesNothing(s: State, steps: seq<Step>, since: set<Packet>)
    requires IsRun(s, steps) && KeepsUp(s, steps) && NothingMissed(s, since)
    ensures NothingMissed(After(s, steps), since)
    decreases steps
  {
    if steps != [] {
      if steps[0].Poll? {
        PollMissesNothing(s, steps[0].rows, since);
      }
      KeepingUpMissesNothing(Next(s, steps[0]), steps[1..], since);
    }
  }

  lemma {:induction false} LastStep(s: State, steps: seq<Step>, step: Step)
    requires IsRun(s, steps + [step]) && KeepsUp(s, steps + [step])
    ensures IsRun(s, steps) && KeepsUp(s, steps) && Enabled(After(s, steps), step)
    ensures KeepsUp(After(s, steps), [step])
    ensures After(s, steps + [step]) == Next(After(s, steps), step)
    decreases steps
  {
    if steps == [] {
      assert steps + [step] == [step];
    } else {
      assert (steps + [step])[1..] == steps[1..] + [step];
      LastStep(Next(s, steps[0]), steps[1..], step);
    }
  }

  function Occurrences(packets: seq<Packet>, p: Packet): nat { multiset(packets)[p] }

  lemma {:induction false} DistinctOccursOnce(packets: seq<Packet>, p: Packet)
    requires forall i, j :: 0 <= i < j < |packets| ==> packets[i] != packets[j]
    ensures Occurrences(packets, p) == if p in packets then 1 else 0
  {
    if packets != [] {
      DistinctOccursOnce(packets[1..], p);
      assert packets == [packets[0]] + packets[1..];
      assert forall i :: 0 <= i < |packets| - 1 ==> packets[1..][i] == packets[i + 1];
    }
  }

  /**
   A feed that keeps up sends everything: after a run that ends with a poll, every packet
   that entered the table during the run has been sent, exactly once.
   */
  lemma EveryPacketSentOnce(s: State, steps: seq<Step>, rows: seq<Packet>, p: Packet)
    requires InOrder(s) && IsRun(s, steps + [Poll(rows)]) && KeepsUp(s, steps + [Poll(rows)])
    requires p in After(s, steps + [Poll(rows)]).table && p !in s.table
    ensures Occurrences(After(s, steps + [Poll(rows)]).sent, p) == 1
  {
    LastStep(s, steps, Poll(rows));
    KeepingUpMissesNothing(s, steps, s.table);
    PollMissesNothing(After(s, steps), rows, s.table);
    BroadcastsInOrder(s, steps + [Poll(rows)]);
    DistinctOccursOnce(After(s, steps + [Poll(rows)]).sent, p);
  }

  // ---------------------------------------------------------------- routing

  /** What broadcasting knows of a place: a country and perhaps a state. */
  datatype Place = Nowhere | In(country: string, state: Option<string>)

  /** The packet's own place, or else the cached one of its station. */
  function PlaceOf(p: Packet, lookedUp: Option<string>, cache: Locations): Place {
    if p.country != "" then In(p.country, if p.country == "US" && p.call != "" then lookedUp else None)
    else if p.call != "" && Lookup(cache, p.call).Some? then
      In(Lookup(cache, p.call).value.country, Lookup(cache, p.call).value.state)
    else Nowhere
  }

  function Rooms(place: Place): seq<string> {
    ["live_feed"] +
    (match place
     case Nowhere => []
     case In(country, state) =>
       if country == "" then []
       else ["country:" + country] + (if state.Some? && state.value != "" then ["state:" + state.value] else []))
  }

  /** The packet's own country, or for want of it the last known one of its station. */
  predicate GoesToCountry(p: Packet, cache: Locations, x: string) {
    || (p.country != "" && x == p.country)
    || (p.country == "" && p.call != "" && Lookup(cache, p.call).Some? && x == Lookup(cache, p.call).value.country)
  }

  /** The state looked up for a packet from the US, or the one known with that last country. */
  predicate GoesToState(p: Packet, lookedUp: Option<string>, cache: Locations, y: string) {
    || (p.country == "US" && p.call != "" && lookedUp == Some(y))
    || (p.country == "" && p.call != "" && Lookup(cache, p.call).Some? && Lookup(cache, p.call).value.country != ""
        && Lookup(cache, p.call).value.state == Some(y))
  }

  predicate IsCountryRoom(room: string) { "country:" <= room }

  predicate IsStateRoom(room: string) { "state:" <= room }

  /** The live feed, the rooms of the packet's country and state, and no other, each once. */
  ghost predicate RightRooms(rooms: seq<string>, p: Packet, lookedUp: Option<string>, cache: Locations) {
    && "live_feed" in rooms
    && (forall x :: "country:" + x in rooms <==> x != "" && GoesToCountry(p, cache, x))
    && (forall y :: "state:" + y in rooms <==> y != "" && GoesToState(p, lookedUp, cache, y))
    && (forall r :: r in rooms ==> r == "live_feed" || IsCountryRoom(r) || IsStateRoom(r))
    && forall i, j :: 0 <= i < j < |rooms| ==> rooms[i] != rooms[j]
  }

  lemma SamePrefix(prefix: string, a: string, b: string)
    ensures prefix + a == prefix + b <==> a == b
    ensures prefix <= prefix + a
  {
    assert (prefix + a)[|prefix|..] == a && (prefix + b)[|prefix|..] == b;
  }

  lemma RoomsApart(x: string, y: string)
    ensures "country:" + x != "state:" + y && "country:" + x != "live_feed" && "state:" + y != "live_feed"
  {
    assert ("country:" + x)[0] == 'c' && ("state:" + y)[0] == 's' && "live_feed"[0] == 'l';
  }

  /** Which rooms there are when the country is c and the state is s, if any. */
  lemma RoomsOfPlace(c: string, s: Option<string>)
    ensures var rooms := Rooms(In(c, s));
            && "live_feed" in rooms
            && (forall x :: "country:" + x in rooms <==> x != "" && x == c)
            && (forall y :: "state:" + y in rooms <==> y != "" && c != "" && s == Some(y))
            && (forall r :: r in rooms ==> r == "live_feed" || IsCountryRoom(r) || IsStateRoom(r))
            && forall i, j :: 0 <= i < j < |rooms| ==> rooms[i] != rooms[j]
  {
    var state := if s.Some? then s.value else "";
    forall x ensures "country:" + x == "country:" + c <==> x == c {
      SamePrefix("country:", x, c);
    }
    forall y ensures "state:" + y == "state:" + state <==> y == state {
      SamePrefix("state:", y, state);
    }
    forall x, y ensures "country:" + x != "state:" + y && "country:" + x != "live_feed" && "state:" + y != "live_feed" {
      RoomsApart(x, y);
    }
    SamePrefix("country:", c, c);
    SamePrefix("state:", state, state);
  }

  lemma RoomsOfNowhere()
    ensures forall x :: "country:" + x !in Rooms(Nowhere)
    ensures forall y :: "state:" + y !in Rooms(Nowhere)
  {
    assert Rooms(Nowhere) == ["live_feed"];
    forall x ensures "country:" + x !in Rooms(Nowhere) && "state:" + x !in Rooms(Nowhere) {
      RoomsApart(x, x);
    }
  }

  lemma RoomsAreRight(p: Packet, lookedUp: Option<string>, cache: Locations)
    ensures RightRooms(Rooms(PlaceOf(p, lookedUp, cache)), p, lookedUp, cache)
  {
    var place := PlaceOf(p, lookedUp, cache);
    if place.In? {
      RoomsOfPlace(place.country, place.state);
    } else {
      RoomsOfNowhere();
    }
  }

  /** The rows of a poll, oldest first, are newer than the last time and in order of time. */
  predicate RisesFrom(todo: seq<Packet>, last: Option<int>) {
    && (forall i :: 0 <= i < |todo| ==> NewerThan(todo[i], last))
    && forall i, j :: 0 <= i < j < |todo| ==> todo[i].at <= todo[j].at
  }

  lemma OldestFirst(rows: seq<Packet>, todo: seq<Packet>, last: Option<int>)
    requires todo == Reversed(rows) && forall i :: 0 <= i < |rows| ==> NewerThan(rows[i], last)
    requires forall i, j :: 0 <= i < j < |rows| ==> rows[i].at >= rows[j].at
    ensures RisesFrom(todo, last) && |todo| == |rows| && (rows != [] ==> todo[|todo| - 1] == rows[0])
  {}

  /** The newest time known after the first n of them. */
  function Reached(todo: seq<Packet>, n: nat, last: Option<int>): Option<int>
    requires n <= |todo|
  {
    if n == 0 then last else Some(todo[n - 1].at)
  }

  lemma ReachedNext(todo: seq<Packet>, n: nat, last: Option<int>)
    requires n < |todo| && RisesFrom(todo, last)
    ensures var known := Reached(todo, n, last);
            Reached(todo, n + 1, last) == if known.None? || todo[n].at > known.value then Some(todo[n].at) else known
    ensures todo[..n + 1] == todo[..n] + [todo[n]]
  {}

  class Feed {
    var lastPacketTime: Option<int>
    const cache: StationLocationCache
    var sent: seq<Packet>
    var emitted: seq<seq<string>>

    constructor (cache: StationLocationCache)
      ensures this.cache == cache && lastPacketTime == None && sent == [] && emitted == []
    {
      this.cache, lastPacketTime, sent, emitted := cache, None, [], [];
    }

    /** Emits one packet to its rooms, keeping the station cache up to date. */
    method BroadcastPacket(p: Packet, lookedUp: Option<string>, now: int)
      modifies this`sent, this`emitted, cache
      ensures sent == old(sent) + [p]
      ensures emitted == old(emitted) + [Rooms(PlaceOf(p, lookedUp, old(cache.entries)))]
      ensures RightRooms(emitted[|old(emitted)|], p, lookedUp, old(cache.entries))
      ensures Updated(old(cache.entries),
                      Update(p.call, p.country, if p.country == "US" then lookedUp else None, now),
                      cache.entries, cache.maxSize)
    {
      var rooms := ["live_feed"];
      var country, state := p.country, None;
      if country != "" && p.call != "" {
        if country == "US" {
          state := lookedUp;
        }
        cache.Put(p.call, country, state, now);
      } else if p.call != "" {
        var cached := cache.Get(p.call);
        if cached.Some? {
          country, state := cached.value.country, cached.value.state;
        }
      }
      if country != "" {
        rooms := rooms + ["country:" + country];
        if state.Some? && state.value != "" {
          rooms := rooms + ["state:" + state.value];
        }
      }
      assert rooms == Rooms(PlaceOf(p, lookedUp, old(cache.entries)));
      RoomsAreRight(p, lookedUp, old(cache.entries));
      sent := sent + [p];
      emitted := emitted + [rooms];
    }

    /** One completed poll: the rows are broadcast oldest first and the newest time is kept. */
    method PollPackets(ghost table: set<Packet>, rows: seq<Packet>,
                       lookedUp: Packet -> Option<string>, now: Packet -> int)
      requires IsAnswer(rows, table, lastPacketTime)
      modifies this, cache
      ensures State(table, lastPacketTime, sent) == Next(State(table, old(lastPacketTime), old(sent)), Poll(rows))
      ensures |emitted| == |old(emitted)| + |rows|
    {
      var todo := Reversed(rows);
      OldestFirst(rows, todo, lastPacketTime);
      for n := 0 to |todo|
        invariant sent == old(sent) + todo[..n] && |emitted| == |old(emitted)| + n
        invariant lastPacketTime == Reached(todo, n, old(lastPacketTime))
      {
        var p := todo[n];
        BroadcastPacket(p, lookedUp(p), now(p));
        ReachedNext(todo, n, old(lastPacketTime));
        Reassociate(old(sent), todo[..n], [p]);
        if lastPacketTime.None? || p.at > lastPacketTime.value {
          lastPacketTime := Some(p.at);
        }
      }
      assert todo[..|todo|] == todo;
    }
  }

  /**
   A packet without a country goes where its station was last seen: whenever the cache
   knows the station, the room is that of the last update its base call ever had.
   */
  lemma RoutedToLastKnownPlace(caches: seq<Locations>, updates: seq<Update>, maxSize: nat, p: Packet)
    requires StationCache.IsRun(caches, updates, maxSize) && ClockAdvances(updates)
    requires p.country == "" && p.call != ""
    ensures var place := PlaceOf(p, None, caches[|updates|]);
            && (place.In? <==> Lookup(caches[|updates|], p.call).Some?)
            && (place.In? ==> Lookup(All(updates), p.call).Some?
                              && place == In(Lookup(All(updates), p.call).value.country,
                                             Lookup(All(updates), p.call).value.state))
  {
    HitIsLastLocation(caches, updates, maxSize, p.call);
  }

  /** And so it is broadcast to the rooms of that place, and to no other country or state. */
  lemma RoomsOfLastKnownPlace(caches: seq<Locations>, updates: seq<Update>, maxSize: nat, p: Packet, lookedUp: Option<string>)
    requires StationCache.IsRun(caches, updates, maxSize) && ClockAdvances(updates)
    requires p.country == "" && p.call != "" && Lookup(caches[|updates|], p.call).Some?
    ensures var rooms := Rooms(PlaceOf(p, lookedUp, caches[|updates|]));
            var last := Lookup(All(updates), p.call);
            && last.Some?
            && (forall x :: "country:" + x in rooms <==> x != "" && x == last.value.country)
            && (forall y :: "state:" + y in rooms <==> y != "" && last.value.country != "" && last.value.state == Some(y))
  {
    HitIsLastLocation(caches, updates, maxSize, p.call);
    RoomsAreRight(p, lookedUp, caches[|updates|]);
  }
}
