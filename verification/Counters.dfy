/**
 The counters of the ingest threads: each thread counts for itself and now and then moves
 its counts into the shared statistics under the lock.
 */
module Counters {

  datatype Local = Local(count: nat, saved: nat, calls: set<string>, kinds: map<string, nat>)

  datatype Shared = Shared(
    count: nat, saved: nat, calls: set<string>, kinds: map<string, nat>, pending: map<nat, nat>)

  const NOTHING_COUNTED := Local(0, 0, {}, map[])
  const NOTHING_SHARED := Shared(0, 0, {}, map[], map[])

  function Tally(kinds: map<string, nat>, kind: string): nat {
    if kind in kinds then kinds[kind] else 0
  }

  /** One converted packet, counted by its own thread without the lock. */
  function Note(local: Local, call: string, kind: string): Local {
    local.(count := local.count + 1,
           calls := local.calls + (if call == "" then {} else {call}),
           kinds := local.kinds[kind := Tally(local.kinds, kind) + 1])
  }

  function MergeTallies(into: map<string, nat>, from: map<string, nat>): map<string, nat> {
    map kind | kind in into.Keys + from.Keys :: Tally(into, kind) + Tally(from, kind)
  }

  /** Moves the counts of thread `index` into the shared statistics, unless it has counted no packet. */
  function Flush(local: Local, shared: Shared, index: nat, batched: nat): (Local, Shared) {
    if local.count == 0 then (local, shared)
    else
      (NOTHING_COUNTED,
       Shared(shared.count + local.count, shared.saved + local.saved, shared.calls + local.calls,
              MergeTallies(shared.kinds, local.kinds), shared.pending[index := batched]))
  }

  /** What is counted: packets, saved rows, or packets of one type. */
  datatype Measure = Packets | SavedRows | OfKind(kind: string)

  function InLocal(m: Measure, local: Local): nat {
    match m
    case Packets => local.count
    case SavedRows => local.saved
    case OfKind(kind) => Tally(local.kinds, kind)
  }

  function InShared(m: Measure, shared: Shared): nat {
    match m
    case Packets => shared.count
    case SavedRows => shared.saved
    case OfKind(kind) => Tally(shared.kinds, kind)
  }

  /** A thread that has counted no packet holds no types and no callsigns either. */
  predicate Settled(local: Local) {
    local.count == 0 ==> local.kinds == map[] && local.calls == {}
  }

  /** Flushing moves counts and loses none, for every measure at once. */
  lemma FlushConserves(local: Local, shared: Shared, index: nat, batched: nat, m: Measure)
    ensures var after := Flush(local, shared, index, batched);
            InLocal(m, after.0) + InShared(m, after.1) == InLocal(m, local) + InShared(m, shared)
  {
    if m.OfKind? && local.count != 0 {
      assert Tally(NOTHING_COUNTED.kinds, m.kind) == 0;
    }
  }

  /** After a flush only saved rows can be left behind, and exactly when no packet was counted. */
  lemma {:induction false} FlushLeavesBehind(local: Local, shared: Shared, index: nat, batched: nat)
    requires Settled(local)
    ensures var after := Flush(local, shared, index, batched).0;
            && after.count == 0 && after.kinds == map[] && after.calls == {}
            && (after.saved == 0 <==> local.count > 0 || local.saved == 0)
            && (after.saved != 0 ==> after.saved == local.saved)
  {}
}
