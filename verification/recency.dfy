/** Move-to-front lists: the order in which distinct keys were last used. */
module Recency {

  function Without<K(==)>(order: seq<K>, key: K): seq<K>
  {
    if order == [] then []
    else if order[0] == key then Without(order[1..], key)
    else [order[0]] + Without(order[1..], key)
  }

  function MoveToFront<K(==)>(order: seq<K>, key: K): seq<K>
  {
    [key] + Without(order, key)
  }

  function Take<K>(order: seq<K>, n: nat): seq<K>
  {
    if |order| <= n then order else order[..n]
  }

  /** The distinct keys of `uses`, most recently used first. */
  function RecencyOf<K(==)>(uses: seq<K>): seq<K>
  {
    if uses == [] then [] else MoveToFront(RecencyOf(uses[..|uses| - 1]), uses[|uses| - 1])
  }

  /** The distinct keys used after the last use of `key`. */
  function Since<K(==)>(uses: seq<K>, key: K): set<K>
  {
    if uses == [] || uses[|uses| - 1] == key then {}
    else {uses[|uses| - 1]} + Since(uses[..|uses| - 1], key)
  }

  /** What precedes the first `key` in a list. */
  function Before<K(==)>(order: seq<K>, key: K): set<K>
  {
    if order == [] || order[0] == key then {} else {order[0]} + Before(order[1..], key)
  }

  /** `Since` holds what it says: the keys with a use after which `key` is not used any more. */
  lemma {:induction false} SinceMeans<K>(uses: seq<K>, key: K)
    ensures forall k :: k in Since(uses, key) <==> exists i :: 0 <= i < |uses| && uses[i] == k && key !in uses[i..]
  {
    if uses != [] {
      var front, n := uses[..|uses| - 1], |uses| - 1;
      SinceMeans(front, key);
      assert uses[n] != key ==> Since(uses, key) == {uses[n]} + Since(front, key);
      forall i | 0 <= i < n ensures uses[i..] == front[i..] + [uses[n]] {
      }
      assert uses[n..] == [uses[n]];
      forall k ensures k in Since(uses, key) <==> exists i :: 0 <= i < |uses| && uses[i] == k && key !in uses[i..] {
        if k in Since(uses, key) && k != uses[n] {
          assert k in Since(front, key);
          var i :| 0 <= i < |front| && front[i] == k && key !in front[i..];
          assert uses[i] == k && key !in uses[i..];
        }
        if i :| 0 <= i < |uses| && uses[i] == k && key !in uses[i..] {
          assert uses[n] in uses[i..] by {
            assert uses[i..][n - i] == uses[n];
          }
          if i < n {
            assert front[i] == k && key !in front[i..];
          }
        }
      }
    }
  }

  ghost predicate Distinct<K>(order: seq<K>)
  {
    forall i, j | 0 <= i < j < |order| :: order[i] != order[j]
  }

  lemma {:induction false} WithoutMembers<K>(order: seq<K>, key: K)
    ensures forall k :: k in Without(order, key) <==> k in order && k != key
    ensures forall i | 0 <= i < |Without(order, key)| :: Without(order, key)[i] in order && Without(order, key)[i] != key
  {
    if order != [] {
      WithoutMembers(order[1..], key);
      assert order == [order[0]] + order[1..];
    }
  }

  lemma {:induction false} WithoutDistinct<K>(order: seq<K>, key: K)
    requires Distinct(order)
    ensures Distinct(Without(order, key))
  {
    if order != [] {
      WithoutDistinct(order[1..], key);
      var w := Without(order[1..], key);
      WithoutMembers(order[1..], key);
    }
  }

  lemma MoveToFrontKeeps<K>(order: seq<K>, key: K)
    requires Distinct(order)
    ensures Distinct(MoveToFront(order, key))
    ensures forall k :: k in MoveToFront(order, key) <==> k == key || k in order
  {
    WithoutMembers(order, key);
    WithoutDistinct(order, key);
  }

  lemma {:induction false} WithoutAbsent<K>(order: seq<K>, key: K)
    requires key !in order
    ensures Without(order, key) == order
  {
    if order != [] {
      WithoutAbsent(order[1..], key);
    }
  }

  lemma {:induction false} WithoutSize<K>(order: seq<K>, key: K)
    requires Distinct(order)
    ensures |Without(order, key)| == if key in order then |order| - 1 else |order|
  {
    if order != [] {
      if order[0] == key {
        WithoutAbsent(order[1..], key);
      } else {
        WithoutSize(order[1..], key);
      }
    }
  }

  lemma {:induction false} SizeOfDistinct<K>(order: seq<K>)
    requires Distinct(order)
    ensures |set k | k in order| == |order|
  {
    if order != [] {
      SizeOfDistinct(order[1..]);
      assert (set k | k in order) == (set k | k in order[1..]) + {order[0]};
    }
  }

  lemma {:induction false} RecencyMembers<K>(uses: seq<K>)
    ensures Distinct(RecencyOf(uses)) && forall k :: k in RecencyOf(uses) <==> k in uses
  {
    if uses != [] {
      var front, x := uses[..|uses| - 1], uses[|uses| - 1];
      RecencyMembers(front);
      MoveToFrontKeeps(RecencyOf(front), x);
      assert uses == front + [x];
    }
  }

  lemma {:induction false} BeforeWithout<K>(order: seq<K>, x: K, key: K)
    requires x != key
    ensures Before(Without(order, x), key) == Before(order, key) - {x}
  {
    if order != [] {
      BeforeWithout(order[1..], x, key);
      if order[0] != x {
        assert Without(order, x)[1..] == Without(order[1..], x);
      }
    }
  }

  /** A key's place in the recency list is the number of distinct keys used after it. */
  lemma {:induction false} RecencyIsStackDistance<K>(uses: seq<K>, key: K)
    requires key in uses
    ensures Before(RecencyOf(uses), key) == Since(uses, key)
  {
    var front, x := uses[..|uses| - 1], uses[|uses| - 1];
    if x != key {
      assert uses == front + [x];
      RecencyIsStackDistance(front, key);
      BeforeWithout(RecencyOf(front), x, key);
      assert MoveToFront(RecencyOf(front), x)[1..] == Without(RecencyOf(front), x);
    }
  }

  lemma {:induction false} BeforeWithin<K>(order: seq<K>, key: K)
    ensures forall k | k in Before(order, key) :: k in order
  {
    if order != [] {
      BeforeWithin(order[1..], key);
    }
  }

  lemma TakeRest<K>(order: seq<K>, n: nat)
    requires order != [] && 0 < n
    ensures Take(order, n) == [order[0]] + Take(order[1..], n - 1)
  {
  }

  /** The first `n` entries are those with fewer than `n` entries before them. */
  lemma {:induction false} TakenIffFewBefore<K>(order: seq<K>, n: nat, key: K)
    requires Distinct(order) && key in order
    ensures key in Take(order, n) <==> |Before(order, key)| < n
  {
    if n > 0 {
      TakeRest(order, n);
      if order[0] != key {
        BeforeWithin(order[1..], key);
        TakenIffFewBefore(order[1..], n - 1, key);
      }
    }
  }

  lemma {:induction false} WithoutPrefix<K>(order: seq<K>, key: K, n: nat)
    requires n <= |order| && key !in order[..n]
    ensures n <= |Without(order, key)| && Without(order, key)[..n] == order[..n]
  {
    if n > 0 {
      assert order[0] in order[..n];
      assert order[1..][..n - 1] == order[..n][1..];
      WithoutPrefix(order[1..], key, n - 1);
    }
  }

  lemma {:induction false} WithoutInPrefix<K>(order: seq<K>, key: K, n: nat)
    requires Distinct(order) && n <= |order| && key in order[..n]
    ensures n - 1 <= |Without(order, key)| && Without(order, key)[..n - 1] == Without(order[..n], key)
  {
    var taken := order[..n];
    assert taken[1..] == order[1..][..n - 1];
    if order[0] == key {
      WithoutAbsent(order[1..], key);
      WithoutAbsent(taken[1..], key);
    } else {
      WithoutInPrefix(order[1..], key, n - 1);
    }
  }

  lemma TouchInPrefix<K>(order: seq<K>, key: K, n: nat)
    requires Distinct(order) && 0 < n < |order| && key in order[..n]
    ensures MoveToFront(order[..n], key) == Take(MoveToFront(order, key), n)
  {
    WithoutInPrefix(order, key, n);
    WithoutSize(order, key);
    WithoutSize(order[..n], key);
  }

  lemma TouchPastPrefix<K>(order: seq<K>, key: K, n: nat)
    requires Distinct(order) && 0 < n < |order| && key !in order[..n]
    ensures Take(MoveToFront(order[..n], key), n) == Take(MoveToFront(order, key), n)
  {
    WithoutAbsent(order[..n], key);
    WithoutPrefix(order, key, n);
    assert MoveToFront(order[..n], key)[..n] == [key] + order[..n - 1];
    assert MoveToFront(order, key)[..n] == [key] + Without(order, key)[..n - 1];
    assert Without(order, key)[..n][..n - 1] == order[..n][..n - 1];
  }

  /** Touching a key commutes with keeping the first `n`: the stack property of LRU. */
  lemma TakeOfTouch<K>(order: seq<K>, key: K, n: nat)
    requires Distinct(order) && 0 < n
    ensures Take(MoveToFront(Take(order, n), key), n) == Take(MoveToFront(order, key), n)
    ensures key in Take(order, n) ==> |MoveToFront(Take(order, n), key)| <= n
  {
    WithoutSize(Take(order, n), key);
    if |order| > n {
      if key in order[..n] {
        TouchInPrefix(order, key, n);
      } else {
        TouchPastPrefix(order, key, n);
      }
    }
  }

  // -- Lists of different lengths --------------------------------------------------------

  /** `a` is left when some entries of `b` are dropped. */
  predicate Sublist<K(==)>(a: seq<K>, b: seq<K>)
  {
    a == [] || (b != [] && ((a[0] == b[0] && Sublist(a[1..], b[1..])) || Sublist(a, b[1..])))
  }

  lemma {:induction false} SublistMembers<K>(a: seq<K>, b: seq<K>)
    requires Sublist(a, b)
    ensures forall k | k in a :: k in b
    decreases |a| + |b|
  {
    if a != [] {
      if a[0] == b[0] && Sublist(a[1..], b[1..]) {
        SublistMembers(a[1..], b[1..]);
        assert a == [a[0]] + a[1..];
      } else {
        SublistMembers(a, b[1..]);
      }
    }
  }

  lemma {:induction false} SublistSelf<K>(a: seq<K>)
    ensures Sublist(a, a)
  {
    if a != [] {
      SublistSelf(a[1..]);
    }
  }

  lemma {:induction false} SublistWithout<K>(a: seq<K>, b: seq<K>, key: K)
    requires Sublist(a, b)
    ensures Sublist(Without(a, key), Without(b, key))
    decreases |a| + |b|
  {
    if a != [] {
      if a[0] == b[0] && Sublist(a[1..], b[1..]) {
        SublistWithout(a[1..], b[1..], key);
        if a[0] != key {
          assert Without(a, key)[1..] == Without(a[1..], key) && Without(b, key)[1..] == Without(b[1..], key);
        }
      } else {
        SublistWithout(a, b[1..], key);
        if b[0] != key {
          assert Without(b, key)[1..] == Without(b[1..], key);
        }
      }
    }
  }

  /** Dropping the last entry of the shorter list, or of both. */
  lemma {:induction false} SublistDropLast<K>(a: seq<K>, b: seq<K>)
    requires Sublist(a, b) && a != []
    ensures b != [] && Sublist(a[..|a| - 1], b[..|b| - 1]) && Sublist(a[..|a| - 1], b)
    decreases |a| + |b|
  {
    var x, y := a[..|a| - 1], b[..|b| - 1];
    if a[0] == b[0] && Sublist(a[1..], b[1..]) {
      if |a| > 1 {
        SublistDropLast(a[1..], b[1..]);
        assert x[1..] == a[1..][..|a| - 2] && y[1..] == b[1..][..|b| - 2];
      }
    } else {
      SublistDropLast(a, b[1..]);
      assert y[1..] == b[1..][..|b| - 2];
    }
  }

  /** One use of a key: it moves to the front, and if it was not listed it is listed only when
      `fetched`, in a list of at most `room` entries. */
  function Used<K(==)>(order: seq<K>, key: K, fetched: bool, room: nat): seq<K>
  {
    if key in order then MoveToFront(order, key)
    else if fetched then Take(MoveToFront(order, key), room)
    else order
  }

  /** The shorter of two lists is full or the same as the longer one. */
  ghost predicate Nested<K>(a: seq<K>, b: seq<K>, m: nat, n: nat)
  {
    Distinct(a) && Distinct(b) && |a| <= m && |b| <= n && Sublist(a, b) && (|a| == m || a == b)
  }

  lemma UsedFresh<K>(order: seq<K>, key: K, room: nat)
    requires key !in order && |order| <= room && 0 < room
    ensures Used(order, key, true, room) == if |order| == room then [key] + order[..|order| - 1] else [key] + order
  {
    WithoutAbsent(order, key);
  }

  lemma UsedKeepsDistinct<K>(order: seq<K>, key: K, fetched: bool, room: nat)
    requires Distinct(order) && |order| <= room && 0 < room
    ensures Distinct(Used(order, key, fetched, room)) && |Used(order, key, fetched, room)| <= room
    ensures |order| == room ==> |Used(order, key, fetched, room)| == room
  {
    MoveToFrontKeeps(order, key);
    WithoutSize(order, key);
  }

  lemma UsedKeepsSublist<K>(a: seq<K>, b: seq<K>, key: K, fetched: bool, m: nat, n: nat)
    requires Nested(a, b, m, n) && 0 < m <= n
    ensures Sublist(Used(a, key, fetched, m), Used(b, key, fetched, n))
  {
    SublistMembers(a, b);
    SublistWithout(a, b, key);
    if key in b {
      if key !in a {
        WithoutAbsent(a, key);
        if fetched {
          UsedFresh(a, key, m);
          SublistDropLast(a, Without(b, key));
          assert Used(a, key, fetched, m)[1..] == a[..|a| - 1];
        }
        assert MoveToFront(b, key)[1..] == Without(b, key);
      } else {
        assert MoveToFront(a, key)[1..] == Without(a, key) && MoveToFront(b, key)[1..] == Without(b, key);
      }
    } else if fetched {
      FreshKeepsSublist(a, b, key, m, n);
    }
  }

  lemma FreshKeepsSublist<K>(a: seq<K>, b: seq<K>, key: K, m: nat, n: nat)
    requires Nested(a, b, m, n) && 0 < m <= n && key !in a && key !in b
    ensures Sublist(Used(a, key, true, m), Used(b, key, true, n))
  {
    UsedFresh(a, key, m);
    UsedFresh(b, key, n);
    SublistSelf(Used(b, key, true, n));
    if |a| == m {
      SublistDropLast(a, b);
      assert Used(a, key, true, m)[1..] == a[..|a| - 1];
      assert Used(b, key, true, n)[1..] == if |b| == n then b[..|b| - 1] else b;
    }
  }

  /** Using the same key keeps two lists nested, whether or not it is fetched. */
  lemma UsedKeepsNested<K>(a: seq<K>, b: seq<K>, key: K, fetched: bool, m: nat, n: nat)
    requires Nested(a, b, m, n) && 0 < m <= n
    ensures Nested(Used(a, key, fetched, m), Used(b, key, fetched, n), m, n)
  {
    UsedKeepsSublist(a, b, key, fetched, m, n);
    UsedKeepsDistinct(a, key, fetched, m);
    UsedKeepsDistinct(b, key, fetched, n);
    if |a| < m {
      WithoutSize(a, key);
    }
  }
}
