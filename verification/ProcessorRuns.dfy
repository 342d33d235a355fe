/**
 What any sequence of passes of the processor thread does to its counters and its batch,
 said of the columns of the packets it takes in.
 */
module ProcessorRuns {
  import opened Common
  import opened CopyText
  import opened Counters
  import opened Processor
  import Pipeline
  import PipelineSafety

  /** What the queue yields in a pass, and how the saves of the pass end. */
  datatype Pass = Pass(item: Option<Option<Prepared>>, fate: Fate)

  function After(s: State, passes: seq<Pass>, index: nat, statsOnly: bool): State
    decreases passes
  {
    if passes == [] then s
    else After(Iteration(s, passes[0].item, index, statsOnly, passes[0].fate), passes[1..], index, statsOnly)
  }

  /** The packet that a pass takes in, if it yields one that converts. */
  function TakenIn(item: Option<Option<Prepared>>): seq<Prepared> {
    if item.Some? && item.value.Some? then [item.value.value] else []
  }

  function Accepted(passes: seq<Pass>): seq<Prepared> {
    if passes == [] then [] else TakenIn(passes[0].item) + Accepted(passes[1..])
  }

  // ---------------------------------------------------------------- counters

  /** How many packets hold this text in this column. */
  function Holding(packets: seq<Prepared>, column: string, text: string): nat {
    if packets == [] then 0
    else (if Column(packets[0], column) == Text(text) then 1 else 0) + Holding(packets[1..], column, text)
  }

  /** The texts that the packets hold in this column. */
  function TextsIn(packets: seq<Prepared>, column: string): set<string> {
    set d | d in packets && Column(d, column).Text? :: Column(d, column).text
  }

  /** Between the two states the thread and the shared statistics together counted these packets. */
  ghost predicate Counted(s: State, s': State, packets: seq<Prepared>) {
    && s'.local.count + s'.shared.count == s.local.count + s.shared.count + |packets|
    && s'.local.calls + s'.shared.calls == s.local.calls + s.shared.calls + TextsIn(packets, "from_call")
    && forall kind :: CountedKind(s, s', packets, kind)
  }

  predicate CountedKind(s: State, s': State, packets: seq<Prepared>, kind: string) {
    Tally(s'.local.kinds, kind) + Tally(s'.shared.kinds, kind)
    == Tally(s.local.kinds, kind) + Tally(s.shared.kinds, kind) + Holding(packets, "packet_type", kind)
  }

  lemma {:induction false} HoldingAppend(a: seq<Prepared>, b: seq<Prepared>, column: string, text: string)
    ensures Holding(a + b, column, text) == Holding(a, column, text) + Holding(b, column, text)
  {
    if a == [] {
      assert a + b == b;
    } else {
      assert (a + b)[1..] == a[1..] + b;
      HoldingAppend(a[1..], b, column, text);
    }
  }

  lemma {:induction false} TextsAppend(a: seq<Prepared>, b: seq<Prepared>, column: string)
    ensures TextsIn(a + b, column) == TextsIn(a, column) + TextsIn(b, column)
  {}

  lemma CountedTwice(s: State, s1: State, s2: State, a: seq<Prepared>, b: seq<Prepared>)
    requires Counted(s, s1, a) && Counted(s1, s2, b)
    ensures Counted(s, s2, a + b)
  {
    TextsAppend(a, b, "from_call");
    forall kind ensures CountedKind(s, s2, a + b, kind) {
      assert CountedKind(s, s1, a, kind) && CountedKind(s1, s2, b, kind);
      HoldingAppend(a, b, "packet_type", kind);
    }
  }

  lemma {:induction false} FlushCounted(s: State, index: nat)
    ensures Counted(s, Flushed(s, index), [])
  {
    var s' := Flushed(s, index);
    assert TextsIn([], "from_call") == {};
    FlushConserves(s.local, s.shared, index, |s.batch|, Packets);
    forall kind ensures CountedKind(s, s', [], kind) {
      FlushConserves(s.local, s.shared, index, |s.batch|, OfKind(kind));
    }
  }

  /** Saving moves no counter of packets, callsigns or types. */
  lemma {:induction false} SaveCounted(s: State, index: nat, statsOnly: bool, fate: Fate)
    ensures Counted(s, Saved(s, index, statsOnly, fate), [])
  {
    assert TextsIn([], "from_call") == {};
  }

  lemma {:induction false} AcceptCounted(s: State, packet: Prepared)
    ensures Counted(s, Accept(s, packet), [packet])
  {
    var s' := Accept(s, packet);
    assert TextsIn([packet], "from_call") == {Column(packet, "from_call").text};
    forall kind ensures CountedKind(s, s', [packet], kind) {
      assert Holding([packet][1..], "packet_type", kind) == 0;
    }
  }

  lemma SameCounted(s: State)
    ensures Counted(s, s, [])
  {
    assert TextsIn([], "from_call") == {};
  }

  lemma PrintCounted(s: State, index: nat)
    ensures Counted(s, Printed(s, index), [])
  {
    FlushCounted(s, index);
    SameCounted(s);
  }

  lemma Then(s: State, s1: State, s2: State, packets: seq<Prepared>)
    requires Counted(s, s1, packets) && Counted(s1, s2, [])
    ensures Counted(s, s2, packets)
  {
    CountedTwice(s, s1, s2, packets, []);
    assert packets + [] == packets;
  }

  lemma {:induction false} PassCounted(s: State, item: Option<Option<Prepared>>, index: nat, statsOnly: bool, fate: Fate)
    ensures Counted(s, Iteration(s, item, index, statsOnly, fate), TakenIn(item))
  {
    match item {
      case None =>
        FlushCounted(s, index);
        SaveCounted(Flushed(s, index), index, statsOnly, fate);
        Then(s, Flushed(s, index), Saved(Flushed(s, index), index, statsOnly, fate), []);
      case Some(None) => SameCounted(s);
      case Some(Some(packet)) => AcceptPassCounted(s, packet, index, statsOnly, fate);
    }
  }

  lemma {:induction false} AcceptPassCounted(s: State, packet: Prepared, index: nat, statsOnly: bool, fate: Fate)
    ensures Counted(s, Iteration(s, Some(Some(packet)), index, statsOnly, fate), [packet])
  {
    var counted := Accept(s, packet);
    var flushed := if counted.local.count >= Pipeline.STATS_FLUSH_INTERVAL then Flushed(counted, index) else counted;
    var saved := Saved(flushed, index, statsOnly, fate);
    AcceptCounted(s, packet);
    FlushCounted(counted, index);
    SameCounted(counted);
    Then(s, counted, flushed, [packet]);
    SaveCounted(flushed, index, statsOnly, fate);
    Then(s, flushed, saved, [packet]);
    PrintCounted(saved, index);
    Then(s, saved, Printed(saved, index), [packet]);
  }

  /**
   Over any passes, the thread's and the shared counters together grow by the packets taken
   in: their number, for each type those that have it in their type column, and the
   callsigns by exactly the texts of their sender column.
   */
  lemma {:induction false} PassesCount(s: State, passes: seq<Pass>, index: nat, statsOnly: bool)
    ensures Counted(s, After(s, passes, index, statsOnly), Accepted(passes))
    decreases passes
  {
    if passes == [] {
      SameCounted(s);
    } else {
      var p := passes[0];
      var s1 := Iteration(s, p.item, index, statsOnly, p.fate);
      PassCounted(s, p.item, index, statsOnly, p.fate);
      PassesCount(s1, passes[1..], index, statsOnly);
      CountedTwice(s, s1, After(s, passes, index, statsOnly), TakenIn(p.item), Accepted(passes[1..]));
    }
  }

  lemma {:induction false} IterationSettles(s: State, item: Option<Option<Prepared>>, index: nat, statsOnly: bool, fate: Fate)
    requires Settled(s.local)
    ensures Settled(Iteration(s, item, index, statsOnly, fate).local)
  {}

  lemma {:induction false} PassesSettle(s: State, passes: seq<Pass>, index: nat, statsOnly: bool)
    requires Settled(s.local)
    ensures Settled(After(s, passes, index, statsOnly).local)
    decreases passes
  {
    if passes != [] {
      IterationSettles(s, passes[0].item, index, statsOnly, passes[0].fate);
      PassesSettle(Iteration(s, passes[0].item, index, statsOnly, passes[0].fate), passes[1..], index, statsOnly);
    }
  }

  lemma {:induction false} LastPass(s: State, passes: seq<Pass>, last: Pass, index: nat, statsOnly: bool)
    ensures After(s, passes + [last], index, statsOnly)
            == Iteration(After(s, passes, index, statsOnly), last.item, index, statsOnly, last.fate)
    ensures Accepted(passes + [last]) == Accepted(passes) + TakenIn(last.item)
    decreases passes
  {
    if passes == [] {
      assert passes + [last] == [last] && [last][1..] == [];
    } else {
      assert (passes + [last])[1..] == passes[1..] + [last];
      LastPass(Iteration(s, passes[0].item, index, statsOnly, passes[0].fate), passes[1..], last, index, statsOnly);
      Reassociate(TakenIn(passes[0].item), Accepted(passes[1..]), TakenIn(last.item));
    }
  }

  /** Once the queue has run dry, all of that is in the shared statistics. */
  lemma IdleShares(s: State, passes: seq<Pass>, index: nat, statsOnly: bool, fate: Fate)
    requires s.local == NOTHING_COUNTED
    ensures var shared := After(s, passes + [Pass(None, fate)], index, statsOnly).shared;
            && shared.count == s.shared.count + |Accepted(passes)|
            && shared.calls == s.shared.calls + TextsIn(Accepted(passes), "from_call")
            && forall kind :: Tally(shared.kinds, kind)
                              == Tally(s.shared.kinds, kind) + Holding(Accepted(passes), "packet_type", kind)
  {
    var idle := Pass(None, fate);
    var s1, s2 := After(s, passes, index, statsOnly), After(s, passes + [idle], index, statsOnly);
    LastPass(s, passes, idle, index, statsOnly);
    assert Accepted(passes) + [] == Accepted(passes);
    PassesCount(s, passes + [idle], index, statsOnly);
    PassesSettle(s, passes, index, statsOnly);
    FlushLeavesBehind(s1.local, s1.shared, index, |s1.batch|);
    forall kind ensures Tally(s2.shared.kinds, kind)
                        == Tally(s.shared.kinds, kind) + Holding(Accepted(passes), "packet_type", kind)
    {
      assert CountedKind(s, s2, Accepted(passes), kind);
    }
  }

  /**
   When counts are shared: at a hundred packets, when the queue has run dry, and by thread 0
   when it prints; at no other pass does the thread's own count go down.
   */
  lemma {:induction false} SharedWhen(s: State, item: Option<Option<Prepared>>, index: nat, statsOnly: bool, fate: Fate)
    ensures var s', n := Iteration(s, item, index, statsOnly, fate), s.local.count + |TakenIn(item)|;
            && (s'.local.count == 0 || s'.local.count == n)
            && (item.None? || (item.value.Some? && n >= 100) ==> s'.local.count == 0)
            && (item == Some(None) ==> s' == s)
            && (item.Some? && item.value.Some? && n < 100 ==>
                  (s'.local.count == 0 <==> index == 0 && s.shared.count % 500 == 0 && s.shared.count > 0))
  {
    if item.Some? && item.value.Some? {
      var counted := Accept(s, item.value.value);
      assert counted.local.count == s.local.count + 1;
    }
  }

  // ---------------------------------------------------------------- the batch

  /** The batch after a pass that takes in these packets: it is emptied when it is full. */
  lemma {:induction false} PassBatch(s: State, item: Option<Option<Prepared>>, index: nat, statsOnly: bool, fate: Fate)
    requires |s.batch| < Pipeline.Threshold(index)
    ensures var all := s.batch + TakenIn(item);
            Iteration(s, item, index, statsOnly, fate).batch == if |all| == Pipeline.Threshold(index) then [] else all
  {
    assert s.batch + [] == s.batch;
  }

  lemma ModMinus(x: nat, n: nat)
    requires 0 < n <= x
    ensures x % n == (x - n) % n
  {
    var q, r := (x - n) / n, (x - n) % n;
    assert x == n * q + r + n == n * (q + 1) + r;
    PipelineSafety.QuotientUnique(x, n, q + 1, r);
  }

  /** The last packets, as many as full batches leave over. */
  predicate LeftOver(batch: seq<Prepared>, all: seq<Prepared>, full: nat)
    requires full > 0
  {
    |batch| == |all| % full && |batch| <= |all| && batch == all[|all| - |batch|..]
  }

  lemma AllLeftOver(batch: seq<Prepared>, full: nat)
    requires |batch| < full
    ensures LeftOver(batch, batch, full)
  {}

  lemma {:induction false} Emptied(all: seq<Prepared>, rest: seq<Prepared>, batch: seq<Prepared>, full: nat)
    requires |all| == full > 0 && LeftOver(batch, rest, full)
    ensures LeftOver(batch, all + rest, full)
  {
    ModMinus(|all + rest|, full);
    assert (all + rest)[|all + rest| - |batch|..] == rest[|rest| - |batch|..];
  }

  /** After any passes the batch holds the last packets taken in, as many as full batches leave over. */
  lemma {:induction false} PassesBatch(s: State, passes: seq<Pass>, index: nat, statsOnly: bool)
    requires |s.batch| < 500 + 25 * index
    ensures LeftOver(After(s, passes, index, statsOnly).batch, s.batch + Accepted(passes), 500 + 25 * index)
    decreases passes
  {
    if passes == [] {
      assert s.batch + [] == s.batch;
      AllLeftOver(s.batch, Pipeline.Threshold(index));
    } else {
      var p := passes[0];
      var s1, rest := Iteration(s, p.item, index, statsOnly, p.fate), Accepted(passes[1..]);
      PassBatch(s, p.item, index, statsOnly, p.fate);
      PassesBatch(s1, passes[1..], index, statsOnly);
      OnePassMore(s.batch, TakenIn(p.item), rest, s1.batch, After(s, passes, index, statsOnly).batch, Pipeline.Threshold(index));
    }
  }

  lemma OnePassMore(old_: seq<Prepared>, taken: seq<Prepared>, rest: seq<Prepared>, kept: seq<Prepared>,
                    batch: seq<Prepared>, full: nat)
    requires full > 0 && kept == (if |old_ + taken| == full then [] else old_ + taken)
    requires LeftOver(batch, kept + rest, full)
    ensures LeftOver(batch, old_ + (taken + rest), full)
  {
    Reassociate(old_, taken, rest);
    if |old_ + taken| == full {
      assert kept + rest == rest;
      Emptied(old_ + taken, rest, batch, full);
    }
  }

  // ---------------------------------------------------------------- pending batches

  predicate OthersPending(shared: Shared, shared': Shared, index: nat) {
    shared'.pending - {index} == shared.pending - {index}
  }

  lemma {:induction false} FlushPending(s: State, index: nat)
    ensures var shared := Flushed(s, index).shared;
            OthersPending(s.shared, shared, index)
            && (s.local.count > 0 ==> index in shared.pending && shared.pending[index] == |s.batch|)
  {}

  lemma {:induction false} SaveShares(s: State, index: nat, statsOnly: bool, fate: Fate)
    ensures Saved(s, index, statsOnly, fate).shared == s.shared
  {}

  /** A pass tells of its own thread's batch only, and an idle one that shares counts tells its size. */
  lemma {:induction false} PassPending(s: State, item: Option<Option<Prepared>>, index: nat, statsOnly: bool, fate: Fate)
    ensures var shared := Iteration(s, item, index, statsOnly, fate).shared;
            OthersPending(s.shared, shared, index)
            && (item.None? && s.local.count > 0 ==> index in shared.pending && shared.pending[index] == |s.batch|)
  {
    match item {
      case None =>
        FlushPending(s, index);
        SaveShares(Flushed(s, index), index, statsOnly, fate);
      case Some(None) =>
      case Some(Some(packet)) =>
        var counted := Accept(s, packet);
        var flushed := if counted.local.count >= Pipeline.STATS_FLUSH_INTERVAL then Flushed(counted, index) else counted;
        FlushPending(counted, index);
        SaveShares(flushed, index, statsOnly, fate);
        FlushPending(Saved(flushed, index, statsOnly, fate), index);
    }
  }
}
