/**
 * Stable sorting by a key comparison, and the lexicographic order used to
 * compare key tuples and strings. A comparison `leq(a, b)` reads "a does not
 * come after b"; Python's `list.sort` with a key orders by `not key(b) < key(a)`
 * and keeps elements with level keys in their original order.
 */
module Sorting {

  /** `leq` is total and transitive. */
  ghost predicate TotalPreorder<T(!new)>(leq: (T, T) -> bool) {
    (forall a, b :: leq(a, b) || leq(b, a)) &&
    (forall a, b, c :: leq(a, b) && leq(b, c) ==> leq(a, c))
  }

  /** `less` is irreflexive, transitive and relates any two distinct values. */
  ghost predicate StrictTotalOrder<T(!new)>(less: (T, T) -> bool) {
    (forall a :: !less(a, a)) &&
    (forall a, b, c :: less(a, b) && less(b, c) ==> less(a, c)) &&
    (forall a, b :: a == b || less(a, b) || less(b, a))
  }

  predicate Sorted<T>(s: seq<T>, leq: (T, T) -> bool) {
    forall i, j :: 0 <= i < j < |s| ==> leq(s[i], s[j])
  }

  /** Neither of a and b comes strictly before the other. */
  predicate Level<T>(leq: (T, T) -> bool, a: T, b: T) {
    leq(a, b) && leq(b, a)
  }

  /** The elements of s that rank level with y, in their order in s. */
  function Peers<T>(s: seq<T>, leq: (T, T) -> bool, y: T): seq<T> {
    if s == [] then []
    else Peers(s[..|s| - 1], leq, y) + (if Level(leq, s[|s| - 1], y) then [s[|s| - 1]] else [])
  }

  /** Inserts x into r after every element that does not come after x. */
  function Insert<T>(r: seq<T>, x: T, leq: (T, T) -> bool): seq<T> {
    if r == [] then [x]
    else if leq(r[0], x) then [r[0]] + Insert(r[1..], x, leq)
    else [x] + r
  }

  /** Stable insertion sort: each element is inserted behind its level predecessors. */
  function Sort<T>(s: seq<T>, leq: (T, T) -> bool): seq<T> {
    if s == [] then [] else Insert(Sort(s[..|s| - 1], leq), s[|s| - 1], leq)
  }

  /** Python's ordering of sequences: the first differing element decides, a proper prefix comes first. */
  predicate Lex<T(==)>(a: seq<T>, b: seq<T>, less: (T, T) -> bool) {
    if a == [] then b != []
    else if b == [] then false
    else if a[0] == b[0] then Lex(a[1..], b[1..], less)
    else less(a[0], b[0])
  }

  lemma {:induction false} PeersAppend<T>(a: seq<T>, b: seq<T>, leq: (T, T) -> bool, y: T)
    ensures Peers(a + b, leq, y) == Peers(a, leq, y) + Peers(b, leq, y)
    decreases |b|
  {
    if b == [] {
      assert a + b == a;
    } else {
      var b' := b[..|b| - 1];
      assert (a + b)[..|a + b| - 1] == a + b';
      PeersAppend(a, b', leq, y);
    }
  }

  lemma PeersSingleton<T>(x: T, leq: (T, T) -> bool, y: T)
    ensures Peers([x], leq, y) == if Level(leq, x, y) then [x] else []
  {
    assert [x][..0] == [];
  }

  lemma {:induction false} NoPeers<T>(s: seq<T>, leq: (T, T) -> bool, y: T)
    requires forall z :: z in s ==> !Level(leq, z, y)
    ensures Peers(s, leq, y) == []
  {
    if s != [] {
      assert forall z :: z in s[..|s| - 1] ==> z in s;
      NoPeers(s[..|s| - 1], leq, y);
    }
  }

  lemma {:induction false} InsertPermutes<T>(r: seq<T>, x: T, leq: (T, T) -> bool)
    ensures multiset(Insert(r, x, leq)) == multiset(r) + multiset{x}
  {
    if r != [] && leq(r[0], x) {
      InsertPermutes(r[1..], x, leq);
      assert r == [r[0]] + r[1..];
    }
  }

  lemma {:induction false} InsertSorted<T(!new)>(r: seq<T>, x: T, leq: (T, T) -> bool)
    requires TotalPreorder(leq) && Sorted(r, leq)
    ensures Sorted(Insert(r, x, leq), leq)
  {
    if r == [] {
    } else if leq(r[0], x) {
      var rest := Insert(r[1..], x, leq);
      InsertSorted(r[1..], x, leq);
      InsertPermutes(r[1..], x, leq);
      forall j | 0 <= j < |rest| ensures leq(r[0], rest[j]) {
        assert rest[j] in multiset(rest);
        if rest[j] != x {
          assert rest[j] in r[1..];
          var k :| 0 <= k < |r[1..]| && r[1..][k] == rest[j];
          assert r[k + 1] == rest[j];
        }
      }
      var s := [r[0]] + rest;
      forall i, j | 0 <= i < j < |s| ensures leq(s[i], s[j]) {
        assert s[j] == rest[j - 1];
        if i > 0 {
          assert s[i] == rest[i - 1];
        }
      }
    } else {
      var s := [x] + r;
      forall i, j | 0 <= i < j < |s| ensures leq(s[i], s[j]) {
        assert s[j] == r[j - 1];
        if i == 0 {
          if j > 1 {
            assert leq(r[0], r[j - 1]);
          }
        } else {
          assert s[i] == r[i - 1];
        }
      }
    }
  }

  lemma SortedTail<T>(r: seq<T>, leq: (T, T) -> bool)
    requires r != [] && Sorted(r, leq)
    ensures Sorted(r[1..], leq)
  {
    forall i, j | 0 <= i < j < |r| - 1 ensures leq(r[1..][i], r[1..][j]) {
      assert r[1..][i] == r[i + 1] && r[1..][j] == r[j + 1];
    }
  }

  /** Nothing in a sorted r whose head comes after x ranks level with a peer y of x. */
  lemma NoLaterPeers<T(!new)>(r: seq<T>, x: T, leq: (T, T) -> bool, y: T)
    requires TotalPreorder(leq) && Sorted(r, leq)
    requires r != [] && !leq(r[0], x) && Level(leq, x, y)
    ensures Peers(r, leq, y) == []
  {
    forall z | z in r ensures !Level(leq, z, y) {
      var k :| 0 <= k < |r| && r[k] == z;
      assert k == 0 || leq(r[0], r[k]);
    }
    NoPeers(r, leq, y);
  }

  lemma {:induction false} InsertPeers<T(!new)>(r: seq<T>, x: T, leq: (T, T) -> bool, y: T)
    requires TotalPreorder(leq) && Sorted(r, leq)
    ensures Peers(Insert(r, x, leq), leq, y) == Peers(r, leq, y) + (if Level(leq, x, y) then [x] else [])
  {
    if r == [] {
      PeersSingleton(x, leq, y);
    } else if leq(r[0], x) {
      SortedTail(r, leq);
      InsertPeers(r[1..], x, leq, y);
      PeersAppend([r[0]], Insert(r[1..], x, leq), leq, y);
      PeersAppend([r[0]], r[1..], leq, y);
      assert [r[0]] + r[1..] == r;
    } else {
      PeersAppend([x], r, leq, y);
      PeersSingleton(x, leq, y);
      if Level(leq, x, y) {
        NoLaterPeers(r, x, leq, y);
      }
    }
  }

  lemma {:induction false} SortPermutes<T>(s: seq<T>, leq: (T, T) -> bool)
    ensures multiset(Sort(s, leq)) == multiset(s)
  {
    if s != [] {
      SortPermutes(s[..|s| - 1], leq);
      InsertPermutes(Sort(s[..|s| - 1], leq), s[|s| - 1], leq);
      assert s == s[..|s| - 1] + [s[|s| - 1]];
    }
  }

  lemma {:induction false} SortSorts<T(!new)>(s: seq<T>, leq: (T, T) -> bool)
    requires TotalPreorder(leq)
    ensures Sorted(Sort(s, leq), leq)
  {
    if s != [] {
      SortSorts(s[..|s| - 1], leq);
      InsertSorted(Sort(s[..|s| - 1], leq), s[|s| - 1], leq);
    }
  }

  /** Stability: the sort keeps each class of level elements in its original order. */
  lemma {:induction false} SortKeepsPeers<T(!new)>(s: seq<T>, leq: (T, T) -> bool, y: T)
    requires TotalPreorder(leq)
    ensures Peers(Sort(s, leq), leq, y) == Peers(s, leq, y)
  {
    if s != [] {
      SortKeepsPeers(s[..|s| - 1], leq, y);
      SortSorts(s[..|s| - 1], leq);
      InsertPeers(Sort(s[..|s| - 1], leq), s[|s| - 1], leq, y);
    }
  }

  lemma {:induction false} LexIrreflexive<T>(a: seq<T>, less: (T, T) -> bool)
    ensures !Lex(a, a, less)
  {
    if a != [] {
      LexIrreflexive(a[1..], less);
    }
  }

  lemma {:induction false} LexTransitive<T(!new)>(a: seq<T>, b: seq<T>, c: seq<T>, less: (T, T) -> bool)
    requires StrictTotalOrder(less)
    requires Lex(a, b, less) && Lex(b, c, less)
    ensures Lex(a, c, less)
  {
    if a != [] && a[0] == b[0] && b[0] == c[0] {
      LexTransitive(a[1..], b[1..], c[1..], less);
    }
  }

  lemma {:induction false} LexTrichotomy<T(!new)>(a: seq<T>, b: seq<T>, less: (T, T) -> bool)
    requires StrictTotalOrder(less)
    ensures a == b || Lex(a, b, less) || Lex(b, a, less)
  {
    if a != [] && b != [] && a[0] == b[0] {
      LexTrichotomy(a[1..], b[1..], less);
      if a[1..] == b[1..] {
        assert a == [a[0]] + a[1..] && b == [b[0]] + b[1..];
      }
    }
  }
}
