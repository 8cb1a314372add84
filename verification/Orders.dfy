/** The order in which Python's `sorted` lists the elements of a dictionary: each key has a rank, a
sequence of numbers (code points or encoded bytes), and ranks are compared lexicographically. */
module Orders {

  predicate Less(a: seq<nat>, b: seq<nat>) {
    if b == [] then false
    else if a == [] then true
    else if a[0] != b[0] then a[0] < b[0]
    else Less(a[1..], b[1..])
  }

  lemma {:induction false} LessIsTransitive(a: seq<nat>, b: seq<nat>, c: seq<nat>)
    requires Less(a, b) && Less(b, c)
    ensures Less(a, c)
  {
    if a != [] && a[0] == b[0] == c[0] {
      LessIsTransitive(a[1..], b[1..], c[1..]);
    }
  }

  lemma {:induction false} LessIsTotal(a: seq<nat>, b: seq<nat>)
    ensures Less(a, b) || Less(b, a) || a == b
    ensures !(Less(a, b) && Less(b, a))
    ensures !Less(a, a)
  {
    if a != [] && b != [] && a[0] == b[0] {
      LessIsTotal(a[1..], b[1..]);
      if a[1..] == b[1..] {
        assert a == [a[0]] + a[1..];
        assert b == [b[0]] + b[1..];
      }
    }
    if a != [] {
      LessIsTotal(a[1..], a[1..]);
    }
  }

  ghost predicate Injective<K(!new)>(rank: K -> seq<nat>) {
    forall x, y :: rank(x) == rank(y) ==> x == y
  }

  ghost predicate IsLeast<K>(m: K, s: set<K>, rank: K -> seq<nat>) {
    m in s && forall k :: k in s && k != m ==> Less(rank(m), rank(k))
  }

  lemma {:induction false} LeastExists<K(!new)>(s: set<K>, rank: K -> seq<nat>) returns (m: K)
    requires s != {} && Injective(rank)
    ensures IsLeast(m, s, rank)
    decreases |s|
  {
    var x :| x in s;
    var rest := s - {x};
    if rest == {} {
      m := x;
      assert s == {x};
    } else {
      var y := LeastExists(rest, rank);
      LessIsTotal(rank(x), rank(y));
      m := if Less(rank(x), rank(y)) then x else y;
      forall k | k in s && k != m ensures Less(rank(m), rank(k)) {
        if m == x && k != y {
          assert k in rest;
          LessIsTransitive(rank(x), rank(y), rank(k));
        }
        if m == y && k != x {
          assert k in rest;
        }
      }
    }
  }

  /** sorted(s, key=rank) */
  ghost function Sorted<K(!new)>(s: set<K>, rank: K -> seq<nat>): (r: seq<K>)
    requires Injective(rank)
    ensures |r| == |s|
    ensures forall k :: k in r <==> k in s
    ensures forall i, j :: 0 <= i < j < |r| ==> Less(rank(r[i]), rank(r[j]))
    decreases |s|
  {
    if s == {} then []
    else
      assert exists m :: IsLeast(m, s, rank) by {
        var m := LeastExists(s, rank);
      }
      var m :| IsLeast(m, s, rank);
      [m] + Sorted(s - {m}, rank)
  }

  lemma SortedHasNoDuplicates<K(!new)>(s: set<K>, rank: K -> seq<nat>)
    requires Injective(rank)
    ensures forall i, j :: 0 <= i < j < |Sorted(s, rank)| ==> Sorted(s, rank)[i] != Sorted(s, rank)[j]
  {
    var r := Sorted(s, rank);
    forall i, j | 0 <= i < j < |r| ensures r[i] != r[j] {
      LessIsTotal(rank(r[i]), rank(r[j]));
    }
  }

  /** Only one listing of a set is strictly increasing, so sorting forgets insertion order. */
  lemma {:induction false} SortedIsUnique<K(!new)>(r: seq<K>, s: set<K>, rank: K -> seq<nat>)
    requires Injective(rank)
    requires forall k :: k in r <==> k in s
    requires forall i, j :: 0 <= i < j < |r| ==> Less(rank(r[i]), rank(r[j]))
    ensures r == Sorted(s, rank)
    decreases |r|
  {
    hide Less, Sorted;
    if r == [] {
      assert s == {};
      SortedOfNone(rank);
    } else {
      var m := r[0];
      FirstIsLeast(r, s, rank);
      TailElements(r, s, rank);
      SortedIsUnique(r[1..], s - {m}, rank);
      SortedHead(s, rank, m);
      assert r == [m] + r[1..];
    }
  }

  lemma SortedOfNone<K(!new)>(rank: K -> seq<nat>)
    requires Injective(rank)
    ensures Sorted({}, rank) == []
  {
  }

  lemma FirstIsLeast<K(!new)>(r: seq<K>, s: set<K>, rank: K -> seq<nat>)
    requires r != []
    requires forall k :: k in r <==> k in s
    requires forall i, j :: 0 <= i < j < |r| ==> Less(rank(r[i]), rank(r[j]))
    ensures IsLeast(r[0], s, rank)
  {
    assert r[0] in r;
    forall k | k in s && k != r[0] ensures Less(rank(r[0]), rank(k)) {
      assert k in r;
    }
  }

  lemma TailElements<K(!new)>(r: seq<K>, s: set<K>, rank: K -> seq<nat>)
    requires r != []
    requires forall k :: k in r <==> k in s
    requires forall i, j :: 0 <= i < j < |r| ==> Less(rank(r[i]), rank(r[j]))
    ensures forall k :: k in r[1..] <==> k in s - {r[0]}
  {
    forall k ensures k in r[1..] <==> k in s - {r[0]} {
      if k in r[1..] {
        var x :| 0 <= x < |r| - 1 && r[1..][x] == k;
        LessIsTotal(rank(r[0]), rank(r[0]));
        assert r[x + 1] == k;
      }
      if k in s - {r[0]} {
        assert k in r;
        var x :| 0 <= x < |r| && r[x] == k;
        assert r[1..][x - 1] == k;
      }
    }
  }

  lemma SortedHead<K(!new)>(s: set<K>, rank: K -> seq<nat>, m: K)
    requires Injective(rank) && IsLeast(m, s, rank)
    ensures Sorted(s, rank) == [m] + Sorted(s - {m}, rank)
  {
    forall x | IsLeast(x, s, rank) ensures x == m {
      if x != m {
        LessIsTotal(rank(x), rank(m));
      }
    }
  }

  /** Python's `sorted`, by insertion. */
  method Sort<K(!new, ==)>(s: set<K>, rank: K -> seq<nat>) returns (r: seq<K>)
    requires Injective(rank)
    ensures r == Sorted(s, rank)
  {
    hide *;
    r := [];
    var rest := s;
    ghost var done: set<K> := {};
    while rest != {}
      invariant done !! rest && done + rest == s
      invariant r == Sorted(done, rank)
      decreases |rest|
    {
      var k :| k in rest;
      r := Insert(r, done, rank, k);
      rest, done := rest - {k}, done + {k};
    }
    assert done == s;
  }

  method Insert<K(!new, ==)>(r: seq<K>, ghost s: set<K>, rank: K -> seq<nat>, k: K) returns (t: seq<K>)
    requires Injective(rank) && k !in s && r == Sorted(s, rank)
    ensures t == Sorted(s + {k}, rank)
  {
    hide Sorted;
    var i := 0;
    while i < |r| && Less(rank(r[i]), rank(k))
      invariant i <= |r|
      invariant forall j :: 0 <= j < i ==> Less(rank(r[j]), rank(k))
    {
      i := i + 1;
    }
    t := r[..i] + [k] + r[i..];
    InsertElements(r, s, k, i);
    InsertOrder(r, s, rank, k, i);
    SortedIsUnique(t, s + {k}, rank);
  }

  lemma InsertElements<K>(r: seq<K>, s: set<K>, k: K, i: nat)
    requires i <= |r| && forall x :: x in r <==> x in s
    ensures forall x :: x in r[..i] + [k] + r[i..] <==> x in s + {k}
  {
    assert r == r[..i] + r[i..];
    assert forall x :: x in r <==> x in r[..i] || x in r[i..];
  }

  lemma InsertOrder<K(!new)>(r: seq<K>, s: set<K>, rank: K -> seq<nat>, k: K, i: nat)
    requires Injective(rank) && k !in s && r == Sorted(s, rank) && i <= |r|
    requires forall j :: 0 <= j < i ==> Less(rank(r[j]), rank(k))
    requires i < |r| ==> !Less(rank(r[i]), rank(k))
    ensures var t := r[..i] + [k] + r[i..];
      forall x, y :: 0 <= x < y < |t| ==> Less(rank(t[x]), rank(t[y]))
  {
    hide Sorted;
    var t := r[..i] + [k] + r[i..];
    forall j | i <= j < |r| ensures Less(rank(k), rank(r[j])) {
      assert r[i] in s;
      LessIsTotal(rank(r[i]), rank(k));
      if j > i {
        LessIsTransitive(rank(k), rank(r[i]), rank(r[j]));
      }
    }
    forall x, y | 0 <= x < y < |t| ensures Less(rank(t[x]), rank(t[y])) {
      var u := if x < i then x else x - 1;
      var v := if y < i then y else y - 1;
      assert x != i ==> t[x] == r[u];
      assert y != i ==> t[y] == r[v];
    }
  }
}
