/**
 The broker connection of the MQTT thread: its flags, the callbacks that set them, the
 reconnect with exponential backoff and the periodic health check. Times are seconds.
 */
module Connection {
  import opened Common

  const CONNECTION_CHECK_INTERVAL := 5.0
  const MESSAGE_TIMEOUT := 120.0
  const MAX_RECONNECT_DELAY: nat := 60
  const INITIAL_RECONNECT_DELAY: nat := 1
  const PING_INTERVAL := 60.0
  const QUIET_PERIOD := 30.0
  const MAX_EMPTY_CHECKS: nat := 3

  datatype Conn = Conn(
    client: bool, connected: bool, subscribed: bool, attempts: nat, delay: nat,
    startTime: real, lastCheck: real, lastMessage: real, lastPing: real,
    reconnecting: bool, emptyChecks: nat, stop: bool)

  /** How client.subscribe() ends inside the connect callback. */
  datatype Subscribe = Accepted | Refused | Raised

  // ---------------------------------------------------------------- callbacks

  function OnConnectFail(c: Conn): Conn { c.(connected := false, subscribed := false) }

  function OnSubscribe(c: Conn, success: bool, now: real): Conn {
    if success then c.(subscribed := true, lastMessage := now) else c.(subscribed := false)
  }

  function OnDisconnect(c: Conn, rc: int): Conn {
    c.(connected := false, subscribed := false,
       delay := if rc != 0 then INITIAL_RECONNECT_DELAY else c.delay)
  }

  function OnConnect(c: Conn, rc: int, subscribe: Subscribe, now: real): Conn {
    if rc != 0 then c.(connected := false, subscribed := false)
    else c.(connected := subscribe != Raised, subscribed := subscribe == Accepted, attempts := 0,
            delay := INITIAL_RECONNECT_DELAY, lastMessage := now, emptyChecks := 0)
  }

  // ---------------------------------------------------------------- reconnecting

  function DropClient(c: Conn): Conn { c.(client := false) }

  function Reset(c: Conn): Conn { c.(connected := false, subscribed := false, emptyChecks := 0) }

  /** _connect(): a new client, or none if connecting raises. */
  function Connect(c: Conn, started: bool): Conn {
    if started then c.(client := true, attempts := c.attempts + 1)
    else c.(client := false, connected := false, subscribed := false)
  }

  function Backoff(c: Conn): Conn { c.(delay := Min(c.delay * 2, MAX_RECONNECT_DELAY)) }

  function SleepFor(c: Conn): nat { Min(c.delay, MAX_RECONNECT_DELAY) }

  /** A whole _reconnect() that nothing interrupts; `stopped` if the stop flag is seen after the sleep. */
  function Reconnect(c: Conn, stopped: bool, started: bool): Conn {
    if c.stop || c.reconnecting then c
    else
      var idle := Reset(DropClient(c));
      if stopped then idle.(stop := true) else Connect(Backoff(idle), started)
  }

  // ---------------------------------------------------------------- the health check

  /** What the check reads from the client library. */
  datatype Probe = Probe(loopDead: bool, closed: bool, noSocket: bool)

  predicate Broken(c: Conn, probe: Probe) {
    !c.client || !c.connected || !c.subscribed || probe.loopDead || probe.closed || probe.noSocket
  }

  /** The check up to the point where it reconnects or returns: the new state, and whether it reconnects. */
  function Inspect(c: Conn, now: real, probe: Probe): (Conn, bool) {
    if now - c.lastCheck < CONNECTION_CHECK_INTERVAL then (c, false)
    else
      var c1 := c.(lastCheck := now);
      if c.reconnecting then (c1, false)
      else if Broken(c, probe) then (c1, true)
      else
        var c2 := if now - c.lastPing > PING_INTERVAL then c1.(lastPing := now) else c1;
        var silence := now - c.lastMessage;
        if now - c.startTime <= QUIET_PERIOD then (c2, false)
        else if silence > MESSAGE_TIMEOUT then (c2, true)
        else if silence > QUIET_PERIOD then
          (c2.(emptyChecks := c.emptyChecks + 1), c.emptyChecks + 1 >= MAX_EMPTY_CHECKS)
        else (c2.(emptyChecks := 0), false)
  }

  function Check(c: Conn, now: real, probe: Probe, stopped: bool, started: bool): Conn {
    var (c', reconnects) := Inspect(c, now, probe);
    if reconnects then Reconnect(c', stopped, started) else c'
  }

  /** While the thread is not stopping, a check leaves the counter of empty checks below three. */
  lemma EmptyChecksBounded(c: Conn, now: real, probe: Probe, stopped: bool, started: bool)
    requires c.emptyChecks < MAX_EMPTY_CHECKS && !c.stop
    ensures Check(c, now, probe, stopped, started).emptyChecks < MAX_EMPTY_CHECKS
  {}

  /** The throttle and the reconnect guard let a check through. */
  predicate LetThrough(c: Conn, now: real) { now - c.lastCheck >= CONNECTION_CHECK_INTERVAL && !c.reconnecting }

  /** Something is wrong: nothing to talk to, no subscription, a dead network loop, or too long a silence. */
  predicate Due(c: Conn, now: real, probe: Probe) {
    || !c.client || !c.connected || !c.subscribed || probe.loopDead || probe.closed || probe.noSocket
    || (now - c.startTime > 30.0
        && (now - c.lastMessage > 120.0 || (now - c.lastMessage > 30.0 && c.emptyChecks + 1 >= 3)))
  }

  /** A check that is let through reconnects exactly if something is wrong, and any other does not. */
  lemma ReconnectsIff(c: Conn, now: real, probe: Probe)
    ensures Inspect(c, now, probe).1 <==> LetThrough(c, now) && Due(c, now, probe)
  {}

  /** Otherwise the connection is left as it is. */
  lemma SoundIsLeftAlone(c: Conn, now: real, probe: Probe, stopped: bool, started: bool)
    requires !LetThrough(c, now) || !Due(c, now, probe)
    ensures var c' := Check(c, now, probe, stopped, started);
            && c'.client == c.client && c'.connected == c.connected && c'.subscribed == c.subscribed
            && c'.attempts == c.attempts && c'.delay == c.delay && c'.lastMessage == c.lastMessage && c'.stop == c.stop
  {}

  /** Such a check leaves a new client that has not answered yet, and a doubled delay, unless the stop comes first. */
  lemma DueIsReopened(c: Conn, now: real, probe: Probe, stopped: bool, started: bool)
    requires LetThrough(c, now) && Due(c, now, probe) && !c.stop
    ensures var c' := Check(c, now, probe, stopped, started);
            && !c'.connected && !c'.subscribed && c'.emptyChecks == 0 && c'.stop == stopped && !c'.reconnecting
            && c'.client == (started && !stopped)
            && c'.attempts == c.attempts + (if started && !stopped then 1 else 0)
            && c'.delay == if stopped then c.delay else Min(2 * c.delay, 60)
  {}

  /** What happens to a connection: callbacks, messages, checks, another thread in _reconnect, the stop. */
  datatype Event =
    | Answered(rc: int, subscribe: Subscribe, at: real)
    | Failed
    | Confirmed(success: bool, at: real)
    | Closed(rc: int)
    | MessageCame(at: real)
    | Checked(now: real, probe: Probe, stopped: bool, started: bool)
    | GuardMoved(up: bool)
    | StopAsked

  function Happen(c: Conn, event: Event): Conn {
    match event
    case Answered(rc, subscribe, at) => OnConnect(c, rc, subscribe, at)
    case Failed => OnConnectFail(c)
    case Confirmed(success, at) => OnSubscribe(c, success, at)
    case Closed(rc) => OnDisconnect(c, rc)
    case MessageCame(at) => c.(lastMessage := at)
    case Checked(now, probe, stopped, started) => Check(c, now, probe, stopped, started)
    case GuardMoved(up) => c.(reconnecting := up)
    case StopAsked => c.(stop := true)
  }

  function History(c: Conn, events: seq<Event>): Conn
    decreases events
  {
    if events == [] then c else History(Happen(c, events[0]), events[1..])
  }

  function Fresh(now: real, started: bool): Conn {
    Connect(Conn(false, false, false, 0, INITIAL_RECONNECT_DELAY, now, 0.0, now, 0.0, false, 0, false), started)
  }

  lemma {:induction false} ChecksStayBounded(c: Conn, events: seq<Event>)
    requires c.stop || c.emptyChecks < MAX_EMPTY_CHECKS
    ensures var c' := History(c, events); c'.stop || c'.emptyChecks < MAX_EMPTY_CHECKS
    decreases events
  {
    if events != [] {
      if events[0].Checked? && !c.stop {
        var e := events[0];
        EmptyChecksBounded(c, e.now, e.probe, e.stopped, e.started);
      }
      ChecksStayBounded(Happen(c, events[0]), events[1..]);
    }
  }

  /** Over any history of a connection the counter of empty checks stays below three until the stop. */
  lemma EmptyChecksAlwaysBounded(now: real, started: bool, events: seq<Event>)
    ensures var c := History(Fresh(now, started), events); !c.stop ==> c.emptyChecks < MAX_EMPTY_CHECKS
  {
    ChecksStayBounded(Fresh(now, started), events);
  }

  /** The broker accepts the connection. */
  predicate Welcomes(event: Event) { event.Answered? && event.rc == 0 }

  /** The broker accepts the subscription, or the code takes it for accepted. */
  predicate Subscribes(event: Event) {
    (Welcomes(event) && event.subscribe == Accepted) || (event.Confirmed? && event.success)
  }

  lemma {:induction false} NothingRestores(c: Conn, event: Event)
    ensures !c.connected && !Welcomes(event) ==> !Happen(c, event).connected
    ensures !c.subscribed && !Subscribes(event) ==> !Happen(c, event).subscribed
  {}

  lemma {:induction false} LostStaysLost(c: Conn, events: seq<Event>)
    ensures !c.connected && (forall e :: e in events ==> !Welcomes(e)) ==> !History(c, events).connected
    ensures !c.subscribed && (forall e :: e in events ==> !Subscribes(e)) ==> !History(c, events).subscribed
    decreases events
  {
    if events != [] {
      assert events[0] in events && forall e :: e in events[1..] ==> e in events;
      NothingRestores(c, events[0]);
      LostStaysLost(Happen(c, events[0]), events[1..]);
    }
  }

  /** Whatever happens to a lost connection but an answer of the broker, no later check leaves it alone. */
  lemma LostIsReconnected(c: Conn, events: seq<Event>, now: real, probe: Probe)
    requires (!c.connected && forall e :: e in events ==> !Welcomes(e))
             || (!c.subscribed && forall e :: e in events ==> !Subscribes(e))
    ensures LetThrough(History(c, events), now) ==> Inspect(History(c, events), now, probe).1
  {
    LostStaysLost(c, events);
    ReconnectsIff(History(c, events), now, probe);
  }

  /** The connection, or the subscription, is lost or refused. */
  predicate Loses(event: Event) {
    || event.Failed? || event.Closed?
    || (event.Answered? && (event.rc != 0 || event.subscribe != Accepted))
    || (event.Confirmed? && !event.success)
  }

  /** After any such event and whatever follows but a new answer, a check that is let through reconnects. */
  lemma LossIsReconnected(c: Conn, loss: Event, events: seq<Event>, now: real, probe: Probe)
    requires Loses(loss) && forall e :: e in events ==> !Subscribes(e)
    ensures var c' := History(Happen(c, loss), events);
            !c'.subscribed && (LetThrough(c', now) ==> Inspect(c', now, probe).1)
  {
    assert !Happen(c, loss).subscribed;
    LostStaysLost(Happen(c, loss), events);
    LostIsReconnected(Happen(c, loss), events, now, probe);
  }

  /** And the flag of the connection is down after a failure, a disconnect, a refusal or an error of subscribe. */
  lemma LossDisconnects(c: Conn, loss: Event)
    requires loss.Failed? || loss.Closed? || (loss.Answered? && (loss.rc != 0 || loss.subscribe == Raised))
    ensures !Happen(c, loss).connected && !Happen(c, loss).subscribed
  {}

  /** A subscribed connection that answered or got a message at most 30 seconds ago is left alone. */
  lemma FreshIsLeftAlone(c: Conn, now: real, probe: Probe)
    requires c.client && c.connected && c.subscribed && !probe.loopDead && !probe.closed && !probe.noSocket
    requires now - c.lastMessage <= 30.0
    ensures !Inspect(c, now, probe).1
    ensures LetThrough(c, now) && now - c.startTime > 30.0 ==> Inspect(c, now, probe).0.emptyChecks == 0
  {
    ReconnectsIff(c, now, probe);
  }

  /** A connection that is up is pinged once a minute. */
  lemma PingIsRecent(c: Conn, now: real, probe: Probe)
    requires LetThrough(c, now)
    requires c.client && c.connected && c.subscribed && !probe.loopDead && !probe.closed && !probe.noSocket
    ensures var c' := Inspect(c, now, probe).0;
            c'.lastCheck == now && now - c'.lastPing <= 60.0 && (c'.lastPing == c.lastPing || c'.lastPing == now)
  {}

  /** A check that opens a new client. */
  predicate Opens(c: Conn, event: Event) {
    && event.Checked? && LetThrough(c, event.now) && Due(c, event.now, event.probe)
    && !c.stop && !event.stopped && event.started
  }

  /** The clients opened since the broker last accepted the connection, `n` of them before the events. */
  function OpenedSince(c: Conn, events: seq<Event>, n: nat): nat
    decreases events
  {
    if events == [] then n
    else OpenedSince(Happen(c, events[0]), events[1..],
                     if Welcomes(events[0]) then 0 else if Opens(c, events[0]) then n + 1 else n)
  }

  lemma {:induction false} AttemptNext(c: Conn, event: Event)
    ensures Happen(c, event).attempts
            == if Welcomes(event) then 0 else if Opens(c, event) then c.attempts + 1 else c.attempts
  {
    if event.Checked? {
      if LetThrough(c, event.now) && Due(c, event.now, event.probe) && !c.stop {
        DueIsReopened(c, event.now, event.probe, event.stopped, event.started);
      } else if !c.stop {
        SoundIsLeftAlone(c, event.now, event.probe, event.stopped, event.started);
      }
    }
  }

  /** The connection attempts counted are the clients opened since the broker last accepted the connection. */
  lemma {:induction false} AttemptsAreOpenings(c: Conn, events: seq<Event>)
    ensures History(c, events).attempts == OpenedSince(c, events, c.attempts)
    decreases events
  {
    if events != [] {
      AttemptNext(c, events[0]);
      AttemptsAreOpenings(Happen(c, events[0]), events[1..]);
    }
  }

  /** A new answer of the broker, and a confirmed subscription, start the 30 seconds again. */
  lemma AnswersAreFresh(c: Conn, subscribe: Subscribe, at: real)
    ensures OnConnect(c, 0, subscribe, at).lastMessage == at && OnSubscribe(c, true, at).lastMessage == at
    ensures OnConnect(c, 0, subscribe, at).emptyChecks == 0
  {}

  datatype Observation = Observation(now: real, probe: Probe)

  /** Checks that the throttle lets through, on a connection silent for more than 30 seconds. */
  predicate SilentChecks(c: Conn, checks: seq<Observation>)
    decreases checks
  {
    if checks == [] then true
    else
      && checks[0].now - c.lastCheck >= CONNECTION_CHECK_INTERVAL
      && checks[0].now - c.lastMessage > QUIET_PERIOD
      && SilentChecks(Inspect(c, checks[0].now, checks[0].probe).0, checks[1..])
  }

  predicate SomeReconnect(c: Conn, checks: seq<Observation>)
    decreases checks
  {
    checks != [] &&
    (Inspect(c, checks[0].now, checks[0].probe).1
     || SomeReconnect(Inspect(c, checks[0].now, checks[0].probe).0, checks[1..]))
  }

  /** A silent connection is reconnected at the third such check at the latest, earlier if some already counted. */
  lemma {:induction false} SilenceEndsInReconnect(c: Conn, checks: seq<Observation>)
    requires !c.reconnecting && c.emptyChecks < MAX_EMPTY_CHECKS && c.startTime <= c.lastMessage
    requires SilentChecks(c, checks) && |checks| >= MAX_EMPTY_CHECKS - c.emptyChecks
    ensures SomeReconnect(c, checks)
    decreases checks
  {
    var (c', reconnects) := Inspect(c, checks[0].now, checks[0].probe);
    if !reconnects {
      SilenceEndsInReconnect(c', checks[1..]);
    }
  }

  // ---------------------------------------------------------------- the thread object

  class MQTTThread {
    var client: bool
    var connected: bool
    var subscribed: bool
    var connectionAttempts: nat
    var reconnectDelay: nat
    const startTime: real
    var lastConnectionCheck: real
    var lastMessageTime: real
    var lastPingTime: real
    var reconnecting: bool
    var consecutiveEmptyChecks: nat
    var threadStop: bool

    function View(): Conn
      reads this
    {
      Conn(client, connected, subscribed, connectionAttempts, reconnectDelay, startTime, lastConnectionCheck,
           lastMessageTime, lastPingTime, reconnecting, consecutiveEmptyChecks, threadStop)
    }

    constructor (now: real, started: bool)
      ensures View() == Fresh(now, started)
    {
      client, connected, subscribed, connectionAttempts := false, false, false, 0;
      reconnectDelay, startTime, lastConnectionCheck := INITIAL_RECONNECT_DELAY, now, 0.0;
      lastMessageTime, lastPingTime, reconnecting := now, 0.0, false;
      consecutiveEmptyChecks, threadStop := 0, false;
      new;
      OpenClient(started);
    }

    method OpenClient(started: bool)
      modifies this
      ensures View() == Connect(old(View()), started)
    {
      client := true;
      if started {
        connectionAttempts := connectionAttempts + 1;
      } else {
        connected, subscribed, client := false, false, false;
      }
    }

    method ConnectFailed()
      modifies this
      ensures View() == OnConnectFail(old(View()))
    {
      connected, subscribed := false, false;
    }

    method Subscribed(success: bool, now: real)
      modifies this
      ensures View() == OnSubscribe(old(View()), success, now)
    {
      if success {
        subscribed, lastMessageTime := true, now;
      } else {
        subscribed := false;
      }
    }

    method Disconnected(rc: int)
      modifies this
      ensures View() == OnDisconnect(old(View()), rc)
    {
      connected, subscribed := false, false;
      if rc != 0 {
        reconnectDelay := INITIAL_RECONNECT_DELAY;
      }
    }

    method Connected(rc: int, subscribe: Subscribe, now: real)
      modifies this
      ensures View() == OnConnect(old(View()), rc, subscribe, now)
    {
      if rc == 0 {
        connected, subscribed := true, false;
        connectionAttempts, reconnectDelay := 0, INITIAL_RECONNECT_DELAY;
        lastMessageTime, consecutiveEmptyChecks := now, 0;
        match subscribe {
          case Accepted => subscribed := true;
          case Refused => subscribed := false;
          case Raised => connected, subscribed := false, false;
        }
      } else {
        connected, subscribed := false, false;
      }
    }

    /**
     The sleep in slices of at most one second. The stop flag rises after `stopAt` slices;
     without it the slices add up to exactly the delay, with it to no more.
     */
    static method SlicedSleep(delay: real, stopAt: nat) returns (total: real, slices: nat)
      requires delay >= 0.0
      ensures total == if slices as real <= delay then slices as real else delay
      ensures slices <= stopAt
      ensures slices < stopAt ==> total == delay
      ensures stopAt as real >= delay ==> total == delay
      ensures stopAt as real < delay ==> slices == stopAt
    {
      var slept := 0.0;
      total, slices := 0.0, 0;
      while slept < delay && slices < stopAt
        invariant slept == slices as real && slices <= stopAt
        invariant total == if slept <= delay then slept else delay
        invariant slices == 0 || (slices - 1) as real < delay
        decreases stopAt - slices
      {
        total := total + (if delay - slept < 1.0 then delay - slept else 1.0);
        slept := slept + 1.0;
        slices := slices + 1;
      }
    }

    method ReconnectClient(stopAt: nat, started: bool) returns (slept: real)
      modifies this
      ensures var c := old(View());
              if c.stop || c.reconnecting then View() == c && slept == 0.0
              else
                var stopped := stopAt <= SleepFor(c);
                View() == Reconnect(c, stopped, started) && slept == Min(stopAt, SleepFor(c)) as real
    {
      slept := 0.0;
      if threadStop || reconnecting {
        return;
      }
      reconnecting := true;
      if client {
        client := false;
      }
      connected, subscribed, consecutiveEmptyChecks := false, false, 0;
      assert View() == Reset(DropClient(old(View()))).(reconnecting := true);
      var delay := Min(reconnectDelay, MAX_RECONNECT_DELAY);
      var slices;
      slept, slices := SlicedSleep(delay as real, stopAt);
      assert slept == Min(stopAt, delay) as real;
      threadStop := stopAt <= delay;
      if !threadStop {
        reconnectDelay := Min(reconnectDelay * 2, MAX_RECONNECT_DELAY);
        OpenClient(started);
      }
      reconnecting := false;
    }

    method CheckConnectionHealth(now: real, probe: Probe, stopAt: nat, started: bool)
      modifies this
      ensures View() == Check(old(View()), now, probe, stopAt <= SleepFor(old(View())), started)
    {
      if now - lastConnectionCheck < CONNECTION_CHECK_INTERVAL {
        return;
      }
      lastConnectionCheck := now;
      if reconnecting {
        return;
      }
      if !client || !connected || !subscribed || probe.loopDead || probe.closed || probe.noSocket {
        var _ := ReconnectClient(stopAt, started);
        return;
      }
      if now - lastPingTime > PING_INTERVAL {
        lastPingTime := now;
      }
      if now - startTime > QUIET_PERIOD {
        var timeSinceLast := now - lastMessageTime;
        if timeSinceLast > MESSAGE_TIMEOUT {
          var _ := ReconnectClient(stopAt, started);
          return;
        }
        if timeSinceLast > QUIET_PERIOD {
          consecutiveEmptyChecks := consecutiveEmptyChecks + 1;
          if consecutiveEmptyChecks >= MAX_EMPTY_CHECKS {
            var _ := ReconnectClient(stopAt, started);
            return;
          }
        } else {
          consecutiveEmptyChecks := 0;
        }
      }
    }
  }
}
