/**
 The reconnect guard and the connection flags under interleaving: any number of threads
 call _reconnect while the network thread delivers callbacks. A step is one access; the
 guard and the flag are read and written under the reconnect lock.

 The broker's side is `live` (a CONNACK has come and the connection is not yet lost) and
 `asked` (a SUBSCRIBE went out on it): callbacks other than a loss need a client, and a
 SUBACK needs both, as sections 3.8.4 and 3.9 of MQTT 3.1.1 have it.
 */
module ReconnectProtocol {
  import opened Common
  import opened Connection

  /** Where a thread stands in _reconnect. */
  datatype Phase =
    | Outside
    | Entered
    | Dropped                       // the old client is gone
    | Sleeping(delay: nat, slept: nat)
    | Awake
    | Leaving

  datatype World = World(conn: Conn, phases: seq<Phase>, live: bool, asked: bool, backoffs: nat)

  datatype Step =
    | Enter(thread: nat)
    | Drop(thread: nat)
    | Clear(thread: nat)
    | Tick(thread: nat)
    | Wake(thread: nat)
    | Reopen(thread: nat, started: bool)
    | Leave(thread: nat)
    | ConnAck(rc: int, subscribe: Subscribe, at: real)
    | ConnectFails
    | SubAck(success: bool, at: real)
    | Lost(rc: int)
    | Quiet(conn: Conn)   // a message or a health check: touches none of what the protocol uses
    | StopRequested

  predicate AtPhase(w: World, thread: nat, phase: Phase) {
    thread < |w.phases| && w.phases[thread] == phase
  }

  /** Fields that messages and health checks leave alone. */
  predicate SameConnection(a: Conn, b: Conn) {
    && a.client == b.client && a.connected == b.connected && a.subscribed == b.subscribed
    && a.delay == b.delay && a.reconnecting == b.reconnecting && a.stop == b.stop
  }

  predicate Enabled(w: World, step: Step) {
    match step
    case Enter(t) => AtPhase(w, t, Outside)
    case Drop(t) => AtPhase(w, t, Entered)
    case Clear(t) => AtPhase(w, t, Dropped)
    case Tick(t) => t < |w.phases| && w.phases[t].Sleeping? && w.phases[t].slept < w.phases[t].delay && !w.conn.stop
    case Wake(t) => t < |w.phases| && w.phases[t].Sleeping? && (w.phases[t].slept >= w.phases[t].delay || w.conn.stop)
    case Reopen(t, _) => AtPhase(w, t, Awake)
    case Leave(t) => AtPhase(w, t, Leaving)
    case ConnAck(_, _, _) => w.conn.client && !w.live
    case ConnectFails => w.conn.client && !w.live
    case SubAck(_, _) => w.live && w.asked
    case Lost(_) => w.conn.client
    case Quiet(conn) => SameConnection(w.conn, conn)
    case StopRequested => true
  }

  function Go(w: World, t: nat, phase: Phase): World
    requires t < |w.phases|
  {
    w.(phases := w.phases[t := phase])
  }

  function Next(w: World, step: Step): World
    requires Enabled(w, step)
  {
    match step
    case Enter(t) =>
      if w.conn.stop || w.conn.reconnecting then w
      else Go(w.(conn := w.conn.(reconnecting := true)), t, Entered)
    case Drop(t) => Go(w.(conn := DropClient(w.conn), live := false, asked := false), t, Dropped)
    case Clear(t) =>
      var c := Reset(w.conn);
      Go(w.(conn := c), t, Sleeping(SleepFor(c), 0))
    case Tick(t) => Go(w, t, w.phases[t].(slept := w.phases[t].slept + 1))
    case Wake(t) => Go(w, t, if w.conn.stop then Leaving else Awake)
    case Reopen(t, started) =>
      Go(w.(conn := Connect(Backoff(w.conn), started), backoffs := w.backoffs + 1), t, Leaving)
    case Leave(t) => Go(w.(conn := w.conn.(reconnecting := false)), t, Outside)
    case ConnAck(rc, subscribe, at) =>
      w.(conn := OnConnect(w.conn, rc, subscribe, at), live := rc == 0,
         asked := rc == 0 && subscribe == Accepted, backoffs := if rc == 0 then 0 else w.backoffs)
    case ConnectFails => w.(conn := OnConnectFail(w.conn))
    case SubAck(success, at) => w.(conn := OnSubscribe(w.conn, success, at))
    case Lost(rc) =>
      w.(conn := OnDisconnect(w.conn, rc), live := false, asked := false,
         backoffs := if rc != 0 then 0 else w.backoffs)
    case Quiet(conn) => w.(conn := conn)
    case StopRequested => w.(conn := w.conn.(stop := true))
  }

  predicate IsRun(w: World, steps: seq<Step>)
    decreases steps
  {
    steps == [] || (Enabled(w, steps[0]) && IsRun(Next(w, steps[0]), steps[1..]))
  }

  function After(w: World, steps: seq<Step>): World
    requires IsRun(w, steps)
    decreases steps
  {
    if steps == [] then w else After(Next(w, steps[0]), steps[1..])
  }

  /** n threads, none reconnecting; the first _connect() has run and no callback has come. */
  function Start(n: nat, now: real, started: bool): World {
    var c := Conn(false, false, false, 0, INITIAL_RECONNECT_DELAY, now, 0.0, now, 0.0, false, 0, false);
    World(Connect(c, started), seq(n, _ => Outside), false, false, 0)
  }

  function Pow2(k: nat): nat { if k == 0 then 1 else 2 * Pow2(k - 1) }

  predicate Inside(w: World, t: nat) {
    t < |w.phases| && w.phases[t] != Outside
  }

  ghost predicate OneAtATime(w: World) {
    forall t: nat, u: nat :: Inside(w, t) && Inside(w, u) ==> t == u
  }

  /** The flag is up exactly while some thread is between setting and clearing it. */
  ghost predicate FlagMeansInside(w: World) {
    w.conn.reconnecting <==> exists t: nat :: Inside(w, t)
  }

  predicate Between(w: World, t: nat) { AtPhase(w, t, Dropped) }

  /** No client and no flag, except between dropping the client and clearing the flags. */
  ghost predicate FlagsFollowClient(w: World) {
    w.conn.client || (!w.conn.connected && !w.conn.subscribed) || exists t: nat :: Between(w, t)
  }

  /** Between clearing the flags and reopening there is no client; it sleeps no longer than allowed. */
  predicate PhasesSane(w: World) {
    forall t :: 0 <= t < |w.phases| ==>
      && (w.phases[t].Sleeping? || w.phases[t] in {Awake, Dropped} ==> !w.conn.client)
      && (w.phases[t].Sleeping? ==> 1 <= w.phases[t].delay <= MAX_RECONNECT_DELAY
                                    && w.phases[t].slept <= w.phases[t].delay)
  }

  predicate BackoffExact(w: World) {
    w.conn.delay == Min(Pow2(w.backoffs), MAX_RECONNECT_DELAY)
  }

  /** A thread that sleeps does so for the backoff of this attempt. */
  predicate SleepsTheBackoff(w: World) {
    forall t :: 0 <= t < |w.phases| && w.phases[t].Sleeping? ==>
      w.phases[t].delay == Min(Pow2(w.backoffs), MAX_RECONNECT_DELAY)
  }

  predicate LinkSane(w: World) {
    && (w.live ==> w.conn.client)
    && (w.live && w.asked ==> w.conn.connected)
    && (w.conn.subscribed ==> w.conn.connected)
  }

  ghost predicate Inv(w: World) {
    OneAtATime(w) && FlagMeansInside(w) && FlagsFollowClient(w) && PhasesSane(w) && BackoffExact(w) && LinkSane(w)
    && SleepsTheBackoff(w)
  }

  lemma PowersPositive(k: nat)
    ensures Pow2(k) >= 1
  {}

  /** The thread that a step belongs to, if it is a step of _reconnect. */
  function Actor(step: Step): Option<nat> {
    match step
    case Enter(t) => Some(t)
    case Drop(t) => Some(t)
    case Clear(t) => Some(t)
    case Tick(t) => Some(t)
    case Wake(t) => Some(t)
    case Reopen(t, _) => Some(t)
    case Leave(t) => Some(t)
    case _ => None
  }

  lemma {:induction false} OthersStay(w: World, step: Step, t: nat)
    requires Enabled(w, step) && t < |w.phases| && Actor(step) != Some(t)
    ensures |Next(w, step).phases| == |w.phases| && Next(w, step).phases[t] == w.phases[t]
  {}

  /** Who is inside afterwards: the others as before, the thread that steps if it enters or does not leave. */
  lemma InsideAfter(w: World, step: Step, t: nat)
    requires Enabled(w, step)
    ensures var enters := step.Enter? && step.thread == t && !(w.conn.stop || w.conn.reconnecting);
            Inside(Next(w, step), t) <==> enters || (Inside(w, t) && step != Leave(t))
  {
    if Actor(step) != Some(t) && t < |w.phases| {
      OthersStay(w, step, t);
    }
  }

  lemma {:induction false} ActorInside(w: World, step: Step)
    requires Enabled(w, step) && Actor(step).Some? && !step.Enter?
    ensures Inside(w, Actor(step).value)
  {}

  /** The flag goes up with entering and down with leaving, and no other step moves it. */
  lemma {:induction false} FlagAfter(w: World, step: Step)
    requires Enabled(w, step)
    ensures Next(w, step).conn.reconnecting
            == ((step.Enter? && !w.conn.stop) || (w.conn.reconnecting && !step.Leave?) || (step.Enter? && w.conn.reconnecting))
  {}

  lemma StepKeepsGuard(w: World, step: Step)
    requires Enabled(w, step) && OneAtATime(w) && FlagMeansInside(w)
    ensures OneAtATime(Next(w, step)) && FlagMeansInside(Next(w, step))
  {
    var w' := Next(w, step);
    forall t: nat
      ensures var enters := step.Enter? && step.thread == t && !(w.conn.stop || w.conn.reconnecting);
              Inside(w', t) <==> enters || (Inside(w, t) && step != Leave(t))
    {
      InsideAfter(w, step, t);
    }
    FlagAfter(w, step);
    if step.Leave? {
      ActorInside(w, step);
    } else if step.Enter? {
      InsideAfter(w, step, step.thread);
    }
  }

  lemma StepKeepsPhases(w: World, step: Step)
    requires Enabled(w, step) && Inv(w)
    ensures PhasesSane(Next(w, step))
  {
    var w' := Next(w, step);
    PowersPositive(w.backoffs);
    forall t: nat | t < |w.phases| && Actor(step) != Some(t) && !step.Enter? && Actor(step).Some?
      ensures w.phases[t] == Outside
    {
      assert Inside(w, Actor(step).value);
      assert !Inside(w, t);
    }
  }

  lemma StepKeepsFlags(w: World, step: Step)
    requires Enabled(w, step) && Inv(w)
    ensures FlagsFollowClient(Next(w, step))
  {
    var w' := Next(w, step);
    if step.Drop? {
      assert Between(w', step.thread);
    } else if !w'.conn.client && (w'.conn.connected || w'.conn.subscribed) {
      var t: nat :| Between(w, t);
      assert Inside(w, t);
      if Actor(step).Some? {
        assert Inside(w, Actor(step).value) || step.Enter?;
      }
      assert Between(w', t);
    }
  }

  lemma StepKeepsLink(w: World, step: Step)
    requires Enabled(w, step) && Inv(w)
    ensures BackoffExact(Next(w, step)) && LinkSane(Next(w, step))
  {
    PowersPositive(w.backoffs);
  }

  lemma StepKeepsSleep(w: World, step: Step)
    requires Enabled(w, step) && Inv(w)
    ensures SleepsTheBackoff(Next(w, step))
  {
    var w' := Next(w, step);
    forall t | 0 <= t < |w.phases| && Actor(step) != Some(t) && Actor(step).Some? && !step.Enter?
      ensures !w.phases[t].Sleeping?
    {
      assert Inside(w, Actor(step).value);
      assert !Inside(w, t);
    }
  }

  lemma {:induction false} RunsKeepInv(w: World, steps: seq<Step>)
    requires Inv(w) && IsRun(w, steps)
    ensures Inv(After(w, steps))
    decreases steps
  {
    if steps != [] {
      StepKeepsGuard(w, steps[0]);
      StepKeepsPhases(w, steps[0]);
      StepKeepsFlags(w, steps[0]);
      StepKeepsLink(w, steps[0]);
      StepKeepsSleep(w, steps[0]);
      RunsKeepInv(Next(w, steps[0]), steps[1..]);
    }
  }

  lemma StartInv(n: nat, now: real, started: bool)
    ensures Inv(Start(n, now, started))
  {}

  ghost predicate IsReachable(w: World, n: nat, now: real, started: bool, steps: seq<Step>) {
    IsRun(Start(n, now, started), steps) && w == After(Start(n, now, started), steps)
  }

  /** However the threads interleave, one reconnect runs at a time, and the flag says when. */
  lemma OneReconnectAtATime(w: World, n: nat, now: real, started: bool, steps: seq<Step>)
    requires IsReachable(w, n, now, started, steps)
    ensures forall t: nat, u: nat :: Inside(w, t) && Inside(w, u) ==> t == u
    ensures w.conn.reconnecting <==> exists t: nat :: Inside(w, t)
  {
    StartInv(n, now, started);
    RunsKeepInv(Start(n, now, started), steps);
  }

  /** The delay after k reconnects without a success or an unexpected loss is min(2^k, 60). */
  lemma DelayIsExponential(w: World, n: nat, now: real, started: bool, steps: seq<Step>)
    requires IsReachable(w, n, now, started, steps)
    ensures w.conn.delay == Min(Pow2(w.backoffs), 60) && 1 <= w.conn.delay <= 60
    ensures forall t: nat :: t < |w.phases| && w.phases[t].Sleeping? ==> w.phases[t].delay == Min(Pow2(w.backoffs), 60)
  {
    StartInv(n, now, started);
    RunsKeepInv(Start(n, now, started), steps);
    PowersPositive(w.backoffs);
  }

  /** Subscribed implies connected always; outside _reconnect no client implies neither. */
  lemma FlagsConsistent(w: World, n: nat, now: real, started: bool, steps: seq<Step>)
    requires IsReachable(w, n, now, started, steps)
    ensures w.conn.subscribed ==> w.conn.connected
    ensures !w.conn.reconnecting && !w.conn.client ==> !w.conn.connected && !w.conn.subscribed
  {
    StartInv(n, now, started);
    RunsKeepInv(Start(n, now, started), steps);
    assert forall t: nat :: Between(w, t) ==> Inside(w, t);
  }

  /** The stop is asked for and no thread is past its last look at it. */
  predicate Stopping(w: World) {
    w.conn.stop && !w.conn.client && forall t :: 0 <= t < |w.phases| ==> w.phases[t] != Awake
  }

  lemma {:induction false} StepKeepsStopping(w: World, step: Step)
    requires Enabled(w, step) && Stopping(w)
    ensures Stopping(Next(w, step))
  {}

  /** Once the stop is seen, no thread opens a client again, whatever it was doing. */
  lemma {:induction false} StopIsFinal(w: World, steps: seq<Step>)
    requires IsRun(w, steps) && Stopping(w)
    ensures Stopping(After(w, steps))
    decreases steps
  {
    if steps != [] {
      StepKeepsStopping(w, steps[0]);
      StopIsFinal(Next(w, steps[0]), steps[1..]);
    }
  }
}
