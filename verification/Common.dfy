/** Types and sequence facts shared by the other modules. */
module Common {

  datatype Option<+T> = None | Some(value: T)

  lemma Reassociate<T>(a: seq<T>, b: seq<T>, c: seq<T>)
    ensures (a + b) + c == a + (b + c)
  {}

  /** The sequences of a list, one after another. */
  function Flatten<T>(parts: seq<seq<T>>): seq<T> {
    if parts == [] then [] else parts[0] + Flatten(parts[1..])
  }

  lemma {:induction false} FlattenAppend<T>(a: seq<seq<T>>, b: seq<seq<T>>)
    ensures Flatten(a + b) == Flatten(a) + Flatten(b)
  {
    if a == [] {
      assert a + b == b;
    } else {
      FlattenAppend(a[1..], b);
      assert (a + b)[1..] == a[1..] + b;
      Reassociate(a[0], Flatten(a[1..]), Flatten(b));
    }
  }

  lemma {:induction false} FlattenMembers<T>(parts: seq<seq<T>>, x: T)
    ensures x in Flatten(parts) <==> exists i :: 0 <= i < |parts| && x in parts[i]
  {
    if parts != [] {
      FlattenMembers(parts[1..], x);
      assert forall i :: 0 < i < |parts| ==> parts[i] == parts[1..][i - 1];
    }
  }

  lemma SubsetSize<T>(a: set<T>, b: set<T>)
    requires a <= b
    ensures |a| <= |b| && (|a| == |b| ==> a == b)
  {
    var rest := b - a;
    assert a + rest == b && |b| == |a| + |rest|;
    if |rest| == 0 {
      assert a + {} == a;
    }
  }

  lemma {:induction false} DistinctCount<T>(rows: seq<T>)
    requires forall i, j :: 0 <= i < j < |rows| ==> rows[i] != rows[j]
    ensures |set i | 0 <= i < |rows| :: rows[i]| == |rows|
  {
    if rows != [] {
      var n := |rows| - 1;
      DistinctCount(rows[..n]);
      var front := set i | 0 <= i < n :: rows[..n][i];
      assert (set i | 0 <= i < |rows| :: rows[i]) == front + {rows[n]};
      assert rows[n] !in front;
    }
  }

  function Max(a: int, b: int): int {
    if a < b then b else a
  }

  function Min(a: int, b: int): int {
    if a < b then a else b
  }
}
