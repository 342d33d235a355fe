/** How the MQTT thread hands packets out: in turn to the APRS queues, weather packets also to theirs. */
module FanOut {
  import opened Common
  import opened Queues
  import opened Pipeline

  datatype Contents = Contents(aprs: seq<seq<Packet>>, weather: seq<Packet>, rrIndex: nat)

  /** What one message does to the queues; None if its payload makes no packet. */
  function Routed(c: Contents, packet: Option<Packet>, capacity: nat): Contents
    requires c.aprs != []
  {
    match packet
    case None => c
    case Some(p) =>
      var i := c.rrIndex % |c.aprs|;
      Contents(c.aprs[i := Offer(c.aprs[i], p, capacity)],
               if p.weather then Offer(c.weather, p, capacity) else c.weather, c.rrIndex + 1)
  }

  class MessageRouter {
    const aprsQueues: seq<PacketQueue<Packet>>
    const weatherQueue: PacketQueue<Packet>
    const capacity: nat
    var rrIndex: nat
    var counter: nat

    /** Separate queues: one for each processor and one for weather. */
    ghost predicate Fanned() {
      && aprsQueues != []
      && (forall i, j :: 0 <= i < j < |aprsQueues| ==> aprsQueues[i] != aprsQueues[j])
      && weatherQueue !in aprsQueues
      && (forall i :: 0 <= i < |aprsQueues| ==> aprsQueues[i].capacity == capacity) && weatherQueue.capacity == capacity
    }

    ghost function View(): Contents
      reads this, aprsQueues, weatherQueue
    {
      Contents(seq(|aprsQueues|, i requires 0 <= i < |aprsQueues| reads aprsQueues => aprsQueues[i].items),
               weatherQueue.items, rrIndex)
    }

    constructor (packetQueues: seq<PacketQueue<Packet>>, capacity: nat)
      requires packetQueues != []
      ensures rrIndex == 0 && counter == 0 && this.capacity == capacity
      ensures weatherQueue == packetQueues[|packetQueues| - 1]
      ensures |packetQueues| > 1 ==> aprsQueues == packetQueues[..|packetQueues| - 1]
      ensures |packetQueues| == 1 ==> aprsQueues == packetQueues
    {
      var last := |packetQueues| - 1;
      aprsQueues := if last > 0 then packetQueues[..last] else packetQueues;
      weatherQueue := packetQueues[last];
      this.capacity := capacity;
      rrIndex, counter := 0, 0;
    }

    /** One queue for everything. */
    ghost predicate Single() { aprsQueues == [weatherQueue] && weatherQueue.capacity == capacity }

    /** With a single queue a weather packet is put there twice. */
    method OnMessage(packet: Option<Packet>)
      requires Fanned() || Single()
      modifies this, aprsQueues, weatherQueue
      ensures counter == old(counter) + 1
      ensures Fanned() ==> View() == Routed(old(View()), packet, capacity)
      ensures Fanned() && packet.None? ==> View() == old(View())
      ensures Single() && packet.None? ==> weatherQueue.items == old(weatherQueue.items) && rrIndex == old(rrIndex)
      ensures Single() && packet.Some? ==>
        var once := Offer(old(weatherQueue.items), packet.value, capacity);
        && weatherQueue.items == (if packet.value.weather then Offer(once, packet.value, capacity) else once)
        && rrIndex == old(rrIndex) + 1
    {
      counter := counter + 1;
      if packet.None? {
        return;
      }
      var i := rrIndex % |aprsQueues|;
      rrIndex := rrIndex + 1;
      var _ := aprsQueues[i].PutNowait(packet.value);
      if packet.value.weather {
        var _ := weatherQueue.PutNowait(packet.value);
      }
    }
  }

  /** The queues and the thread that fills them, as the command wires them up. */
  method Wire(processorCount: nat) returns (router: MessageRouter)
    requires processorCount > 0
    ensures fresh(router) && router.Fanned() && router.capacity == QUEUE_CAPACITY
    ensures |router.aprsQueues| == processorCount
    ensures router.View() == Contents(seq(processorCount, _ => []), [], 0)
  {
    var queues: seq<PacketQueue<Packet>> := [];
    for n := 0 to processorCount
      invariant |queues| == n
      invariant forall i, j :: 0 <= i < j < n ==> queues[i] != queues[j]
      invariant forall i :: 0 <= i < n ==> fresh(queues[i]) && queues[i].items == [] && queues[i].capacity == QUEUE_CAPACITY
    {
      var q := new PacketQueue<Packet>(QUEUE_CAPACITY);
      queues := queues + [q];
    }
    var weatherQueue := new PacketQueue<Packet>(QUEUE_CAPACITY);
    var all := queues + [weatherQueue];
    router := new MessageRouter(all, QUEUE_CAPACITY);
    assert all[..|all| - 1] == queues;
  }

  // ---------------------------------------------------------------- the step relation

  /** The queues of the step relation hold the same packets, and as many packets have been dealt. */
  ghost predicate Shows(w: System, c: Contents) {
    && |w.threads| == |c.aprs| && (forall i :: 0 <= i < |c.aprs| ==> w.threads[i].queue == c.aprs[i])
    && w.weather.queue == c.weather && |w.arrived| == c.rrIndex
  }

  /** Handling a message is the Deliver step. */
  lemma MessageIsDelivery(w: System, c: Contents, p: Packet)
    requires Shows(w, c) && c.aprs != [] && p.id == |w.arrived|
    ensures CanStep(w, Deliver(p)) && Shows(Next(w, Deliver(p)), Routed(c, Some(p), QUEUE_CAPACITY))
  {
    var i := c.rrIndex % |c.aprs|;
    var w' := Next(w, Deliver(p));
    forall j | 0 <= j < |c.aprs|
      ensures w'.threads[j].queue == Routed(c, Some(p), QUEUE_CAPACITY).aprs[j]
    {
      assert w.threads[j].queue == c.aprs[j];
    }
  }
}
