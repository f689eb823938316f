/** Picking values out of a sequence, in order. */
module Sequences {
  import opened Wrappers

  /** The values `f` finds in the elements of `s`, in order. */
  function FilterMap<T, U>(s: seq<T>, f: T -> Option<U>): seq<U>
  {
    if s == [] then []
    else
      var last := f(s[|s| - 1]);
      FilterMap(s[..|s| - 1], f) + (if last.Some? then [last.value] else [])
  }

  /** Positions below `n`, each after the one before. */
  predicate Ascending(at: seq<nat>, n: nat)
  {
    (forall k | 0 <= k < |at| :: at[k] < n) && (forall k, l | 0 <= k < l < |at| :: at[k] < at[l])
  }

  /** The picked values are those of the elements at the positions `at` ... */
  ghost predicate PickedAt<T(!new), U(!new)>(s: seq<T>, f: T -> Option<U>, values: seq<U>, at: seq<nat>)
  {
    Ascending(at, |s|) && |at| == |values| && forall k | 0 <= k < |at| :: f(s[at[k]]) == Some(values[k])
  }

  /** ... and those are all the elements that have one. */
  ghost predicate AllPicked<T(!new), U(!new)>(s: seq<T>, f: T -> Option<U>, at: seq<nat>)
  {
    forall i: nat | i < |s| && f(s[i]).Some? :: i in at
  }

  lemma PickMore<T(!new), U(!new)>(front: seq<T>, last: T, f: T -> Option<U>, values: seq<U>, at: seq<nat>, value: U)
    requires PickedAt(front, f, values, at) && f(last) == Some(value)
    ensures PickedAt(front + [last], f, values + [value], at + [|front|])
  {
    var s, at' := front + [last], at + [|front|];
    assert forall k | 0 <= k < |at| :: s[at'[k]] == front[at[k]];
  }

  lemma PickNoMore<T(!new), U(!new)>(front: seq<T>, last: T, f: T -> Option<U>, values: seq<U>, at: seq<nat>)
    requires PickedAt(front, f, values, at)
    ensures PickedAt(front + [last], f, values, at)
  {
    assert forall k | 0 <= k < |at| :: (front + [last])[at[k]] == front[at[k]];
  }

  lemma AllPickedMore<T(!new), U(!new)>(front: seq<T>, last: T, f: T -> Option<U>, at: seq<nat>)
    requires AllPicked(front, f, at)
    ensures AllPicked(front + [last], f, if f(last).Some? then at + [|front|] else at)
  {
    var s, at' := front + [last], if f(last).Some? then at + [|front|] else at;
    forall i: nat | i < |s| && f(s[i]).Some? ensures i in at' {
      if i < |front| {
        assert s[i] == front[i] && i in at;
      } else {
        assert at'[|at|] == i;
      }
    }
  }

  /** Where the picked values come from: from every element that has one, once each. */
  lemma {:induction false} FilterMapAt<T(!new), U(!new)>(s: seq<T>, f: T -> Option<U>) returns (at: seq<nat>)
    ensures PickedAt(s, f, FilterMap(s, f), at) && AllPicked(s, f, at)
  {
    if s == [] {
      at := [];
    } else {
      var front, last := s[..|s| - 1], s[|s| - 1];
      at := FilterMapAt(front, f);
      assert front + [last] == s;
      AllPickedMore(front, last, f, at);
      if f(last).Some? {
        PickMore(front, last, f, FilterMap(front, f), at, f(last).value);
        at := at + [|front|];
      } else {
        PickNoMore(front, last, f, FilterMap(front, f), at);
        assert FilterMap(front, f) + [] == FilterMap(front, f);
      }
    }
  }

  /** One more element in front. */
  lemma {:induction false} FilterMapFront<T, U>(first: T, s: seq<T>, f: T -> Option<U>)
    ensures FilterMap([first] + s, f) == (if f(first).Some? then [f(first).value] else []) + FilterMap(s, f)
  {
    var all := [first] + s;
    if s == [] {
      assert all[..|all| - 1] == [];
    } else {
      FilterMapFront(first, s[..|s| - 1], f);
      assert all[..|all| - 1] == [first] + s[..|s| - 1];
    }
  }

  /** As many values as elements that have one. */
  lemma {:induction false} FilterMapSize<T, U>(s: seq<T>, f: T -> Option<U>) returns (found: set<int>)
    ensures forall i :: i in found <==> 0 <= i < |s| && f(s[i]).Some?
    ensures |FilterMap(s, f)| == |found|
  {
    found := {};
    if s != [] {
      var front := s[..|s| - 1];
      found := FilterMapSize(front, f);
      assert forall i | 0 <= i < |front| :: front[i] == s[i];
      if f(s[|s| - 1]).Some? {
        found := found + {|s| - 1};
      }
    }
  }

  function Shifted(at: seq<nat>, d: nat): (r: seq<nat>)
    ensures |r| == |at| && forall k | 0 <= k < |at| :: r[k] == at[k] + d
  {
    if at == [] then [] else [at[0] + d] + Shifted(at[1..], d)
  }

  lemma ShiftedMember(at: seq<nat>, d: nat, i: nat)
    requires i in at
    ensures i + d in Shifted(at, d)
  {
    var k :| 0 <= k < |at| && at[k] == i;
    assert Shifted(at, d)[k] == i + d;
  }

  /** The positions when one more element stands in front, which is picked or not. */
  function InFront(picked: bool, at: seq<nat>): seq<nat>
  {
    (if picked then [0] else []) + Shifted(at, 1)
  }

  lemma InFrontAscends(picked: bool, at: seq<nat>, n: nat)
    requires Ascending(at, n)
    ensures Ascending(InFront(picked, at), n + 1)
  {
    var at' := InFront(picked, at);
    var d := if picked then 1 else 0;
    assert forall k | d <= k < |at'| :: at'[k] == at[k - d] + 1;
  }

  /** A first position 0, then the positions `at`, each `d` later. */
  function AfterFirst(at: seq<nat>, d: nat): (r: seq<nat>)
    ensures |r| == |at| + 1 && r[0] == 0 && forall k | 0 <= k < |at| :: r[k + 1] == at[k] + d
  {
    [0] + Shifted(at, d)
  }
}
