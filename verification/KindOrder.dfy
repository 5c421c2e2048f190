/**
 An ordered container that admits equal keys, as std::multiset is: a new entry goes behind all entries of the same key
 (include/core/dbus/compiler.h:96-123, 134-155).
 */
module KindOrder {
  import opened Sequences

  /** x goes in front of the first entry with a greater key. */
  function Place<X>(xs: seq<X>, x: X, key: X -> int): (r: seq<X>)
    ensures |r| == |xs| + 1
  {
    if xs == [] then [x]
    else if key(x) < key(xs[0]) then [x] + xs
    else [xs[0]] + Place(xs[1..], x, key)
  }

  /** All entries placed one after the other. */
  function Ordered<X>(xs: seq<X>, key: X -> int): (r: seq<X>)
    ensures |r| == |xs|
  {
    if xs == [] then [] else Place(Ordered(xs[..|xs| - 1], key), xs[|xs| - 1], key)
  }

  predicate Ascending<X>(xs: seq<X>, key: X -> int) {
    forall i, j | 0 <= i < j < |xs| :: key(xs[i]) <= key(xs[j])
  }

  /** The entries of one key, in their order. */
  function Only<X>(xs: seq<X>, k: int, key: X -> int): seq<X> {
    if xs == [] then [] else Mine(xs[0], k, key) + Only(xs[1..], k, key)
  }

  function Mine<X>(x: X, k: int, key: X -> int): seq<X> {
    if key(x) == k then [x] else []
  }

  lemma OnlyCons<X>(x: X, xs: seq<X>, k: int, key: X -> int)
    ensures Only([x] + xs, k, key) == Mine(x, k, key) + Only(xs, k, key)
  {
    assert ([x] + xs)[1..] == xs;
  }

  lemma {:induction false} OnlyConcat<X>(xs: seq<X>, ys: seq<X>, k: int, key: X -> int)
    ensures Only(xs + ys, k, key) == Only(xs, k, key) + Only(ys, k, key)
    decreases |xs|
  {
    if xs == [] {
      assert xs + ys == ys;
    } else {
      OnlyConcat(xs[1..], ys, k, key);
      assert xs + ys == [xs[0]] + (xs[1..] + ys);
      OnlyCons(xs[0], xs[1..] + ys, k, key);
      Group(Mine(xs[0], k, key), Only(xs[1..], k, key), Only(ys, k, key));
    }
  }

  lemma {:induction false} OnlyAbsent<X>(xs: seq<X>, k: int, key: X -> int)
    requires forall i | 0 <= i < |xs| :: key(xs[i]) != k
    ensures Only(xs, k, key) == []
    decreases |xs|
  {
    if xs != [] {
      forall i | 0 <= i < |xs[1..]| ensures key(xs[1..][i]) != k {
        assert xs[1..][i] == xs[i + 1];
      }
      OnlyAbsent(xs[1..], k, key);
    }
  }

  lemma {:induction false} PlaceMembers<X>(xs: seq<X>, x: X, key: X -> int)
    ensures multiset(Place(xs, x, key)) == multiset(xs) + multiset{x}
    decreases |xs|
  {
    if xs == [] {
    } else if key(x) < key(xs[0]) {
      assert multiset([x] + xs) == multiset{x} + multiset(xs);
    } else {
      PlaceMembers(xs[1..], x, key);
      assert xs == [xs[0]] + xs[1..];
    }
  }

  lemma {:induction false} PlaceAscends<X>(xs: seq<X>, x: X, key: X -> int)
    requires Ascending(xs, key)
    ensures Ascending(Place(xs, x, key), key)
    ensures Place(xs, x, key)[0] == x || (xs != [] && Place(xs, x, key)[0] == xs[0] && key(xs[0]) <= key(x))
    decreases |xs|
  {
    if xs == [] {
    } else if key(x) < key(xs[0]) {
      Ascend(x, xs, key);
    } else {
      TailAscends(xs, key);
      PlaceAscends(xs[1..], x, key);
      assert xs[1..] != [] ==> key(xs[0]) <= key(xs[1]);
      Ascend(xs[0], Place(xs[1..], x, key), key);
    }
  }

  lemma TailAscends<X>(xs: seq<X>, key: X -> int)
    requires xs != [] && Ascending(xs, key)
    ensures Ascending(xs[1..], key)
  {
    var ys := xs[1..];
    forall i, j | 0 <= i < j < |ys| ensures key(ys[i]) <= key(ys[j]) {
      assert ys[i] == xs[i + 1] && ys[j] == xs[j + 1];
    }
  }

  lemma Ascend<X>(x: X, xs: seq<X>, key: X -> int)
    requires Ascending(xs, key) && (xs != [] ==> key(x) <= key(xs[0]))
    ensures Ascending([x] + xs, key)
  {
    var ys := [x] + xs;
    forall i, j | 0 <= i < j < |ys| ensures key(ys[i]) <= key(ys[j]) {
      assert ys[j] == xs[j - 1];
      if i > 0 {
        assert ys[i] == xs[i - 1];
      } else {
        assert key(xs[0]) <= key(xs[j - 1]);
      }
    }
  }

  /** The newcomer is the last of its key. */
  lemma {:induction false} PlaceOnly<X>(xs: seq<X>, x: X, k: int, key: X -> int)
    requires Ascending(xs, key)
    ensures Only(Place(xs, x, key), k, key) == Only(xs, k, key) + Mine(x, k, key)
    decreases |xs|
  {
    if xs == [] {
      assert [x][1..] == [];
    } else if key(x) < key(xs[0]) {
      OnlyCons(x, xs, k, key);
      if key(x) == k {
        OnlyAbsent(xs, k, key);
      }
    } else {
      TailAscends(xs, key);
      PlaceOnly(xs[1..], x, k, key);
      OnlyCons(xs[0], Place(xs[1..], x, key), k, key);
      Group(Mine(xs[0], k, key), Only(xs[1..], k, key), Mine(x, k, key));
    }
  }

  /** Placing entries one by one sorts them by key, keeps them all, and keeps entries of one key in their order. */
  lemma {:induction false} OrderedSorts<X>(xs: seq<X>, key: X -> int)
    ensures Ascending(Ordered(xs, key), key)
    ensures multiset(Ordered(xs, key)) == multiset(xs)
    ensures forall k :: Only(Ordered(xs, key), k, key) == Only(xs, k, key)
    decreases |xs|
  {
    if xs != [] {
      var n := |xs| - 1;
      var ys, x := xs[..n], xs[n];
      OrderedSorts(ys, key);
      PlaceMembers(Ordered(ys, key), x, key);
      PlaceAscends(Ordered(ys, key), x, key);
      assert xs == ys + [x];
      forall k ensures Only(Ordered(xs, key), k, key) == Only(xs, k, key) {
        PlaceOnly(Ordered(ys, key), x, k, key);
        OnlyConcat(ys, [x], k, key);
        assert [x][1..] == [];
      }
    }
  }

  /** Lists paired up entry by entry stay paired up when both are ordered by the same keys. */
  ghost predicate Paired<X, Y>(xs: seq<X>, ys: seq<Y>, key: X -> int, yek: Y -> int, ok: (X, Y) -> bool) {
    |xs| == |ys| && forall i | 0 <= i < |xs| :: ok(xs[i], ys[i]) && key(xs[i]) == yek(ys[i])
  }

  lemma {:induction false} PlacePaired<X, Y>(xs: seq<X>, ys: seq<Y>, x: X, y: Y,
                                                 key: X -> int, yek: Y -> int, ok: (X, Y) -> bool)
    requires Paired(xs, ys, key, yek, ok) && ok(x, y) && key(x) == yek(y)
    ensures Paired(Place(xs, x, key), Place(ys, y, yek), key, yek, ok)
    decreases |xs|
  {
    if xs == [] {
    } else if key(x) < key(xs[0]) {
    } else {
      PlacePaired(xs[1..], ys[1..], x, y, key, yek, ok);
    }
  }

  lemma {:induction false} OrderedPaired<X, Y>(xs: seq<X>, ys: seq<Y>, key: X -> int, yek: Y -> int, ok: (X, Y) -> bool)
    requires Paired(xs, ys, key, yek, ok)
    ensures Paired(Ordered(xs, key), Ordered(ys, yek), key, yek, ok)
    decreases |xs|
  {
    if xs != [] {
      var n := |xs| - 1;
      OrderedPaired(xs[..n], ys[..n], key, yek, ok);
      PlacePaired(Ordered(xs[..n], key), Ordered(ys[..n], yek), xs[n], ys[n], key, yek, ok);
    }
  }

  lemma OrderedSnoc<X>(xs: seq<X>, x: X, key: X -> int)
    ensures Ordered(xs + [x], key) == Place(Ordered(xs, key), x, key)
  {
    assert (xs + [x])[..|xs|] == xs;
  }
}
