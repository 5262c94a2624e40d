/** Runs of pieces put end to end. */
module Sequences {
  function Flatten<T>(parts: seq<seq<T>>): seq<T> {
    if parts == [] then [] else parts[0] + Flatten(parts[1..])
  }

  lemma {:induction false} FlattenMore<T>(parts: seq<seq<T>>, last: seq<T>)
    ensures Flatten(parts + [last]) == Flatten(parts) + last
  {
    if parts == [] {
      assert Flatten([last]) == last + Flatten([]);
    } else {
      assert (parts + [last])[1..] == parts[1..] + [last];
      FlattenMore(parts[1..], last);
      assert Flatten(parts + [last]) == parts[0] + (Flatten(parts[1..]) + last);
    }
  }

  /** Ascending positions below n: exactly those that pass a test. */
  ghost predicate Selects(at: seq<nat>, n: nat, test: nat -> bool) {
    && (forall k, l :: 0 <= k < l < |at| ==> at[k] < at[l])
    && forall i: nat :: i in at <==> i < n && test(i)
  }

  lemma SelectsNone(test: nat -> bool)
    ensures Selects([], 0, test)
  {
  }

  lemma SelectsMore(at: seq<nat>, n: nat, test: nat -> bool)
    requires Selects(at, n, test)
    ensures Selects(if test(n) then at + [n] else at, n + 1, test)
  {
    var more := if test(n) then at + [n] else at;
    forall k, l | 0 <= k < l < |more| ensures more[k] < more[l] {
      assert at[k] in at;
    }
  }

  /** Tests that agree below n select the same positions. */
  lemma SelectsSame(at: seq<nat>, n: nat, test: nat -> bool, other: nat -> bool)
    requires Selects(at, n, test) && forall i: nat :: i < n ==> test(i) == other(i)
    ensures Selects(at, n, other)
  {
  }
}
