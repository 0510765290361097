/** Range statements: order, slices, and keyset pagination (src/transaction.rs:47-56, 115-137,
    808-983). */
module Ranges {
  import opened Wrappers
  import opened KeyOrder
  import opened Tables
  import opened PgServer
  import SM = SetMany

  /** Strictly ordered by key in the given direction. */
  predicate OrderedBy(dir: Direction, rows: seq<Pair>)
  {
    forall i, j | 0 <= i < j < |rows| :: Precedes(dir, rows[i].key, rows[j].key)
  }

  /** `rows` lists the table: every entry is there and nothing else. */
  predicate Lists(rows: seq<Pair>, m: Table)
  {
    && (forall i | 0 <= i < |rows| :: rows[i].key in m && m[rows[i].key] == rows[i].val)
    && (forall k | k in m :: exists i :: 0 <= i < |rows| && rows[i].key == k)
  }

  lemma Prepend(dir: Direction, m: Table, k: Key, tail: seq<Pair>)
    requires IsFirst(dir, m.Keys, k) && OrderedBy(dir, tail) && Lists(tail, m - {k})
    ensures OrderedBy(dir, [Pair(k, m[k])] + tail) && Lists([Pair(k, m[k])] + tail, m)
  {
    var rows := [Pair(k, m[k])] + tail;
    forall i, j | 0 <= i < j < |rows| ensures Precedes(dir, rows[i].key, rows[j].key) {
      assert rows[j] == tail[j - 1] && rows[j].key in m - {k};
    }
    forall x | x in m ensures exists i :: 0 <= i < |rows| && rows[i].key == x {
      if x == k {
        assert rows[0].key == x;
      } else {
        assert x in m - {k};
        var i :| 0 <= i < |tail| && tail[i].key == x;
        assert rows[i + 1].key == x;
      }
    }
  }

  lemma {:induction false} SortedMeaning(dir: Direction, m: Table)
    ensures OrderedBy(dir, Sorted(dir, m)) && Lists(Sorted(dir, m), m) && |Sorted(dir, m)| == |m|
    decreases |m|
  {
    if m != map[] {
      var k := First(dir, m.Keys);
      SortedMeaning(dir, m - {k});
      Prepend(dir, m, k, Sorted(dir, m - {k}));
      SM.OneFewer(m, k);
    }
  }

  /** There is only one way to list a table in order. */
  lemma {:induction false} OrderedListingUnique(dir: Direction, a: seq<Pair>, b: seq<Pair>, m: Table)
    requires OrderedBy(dir, a) && OrderedBy(dir, b) && Lists(a, m) && Lists(b, m)
    ensures a == b
    decreases |a|
  {
    BothEmpty(a, b, m);
    if a != [] {
      TailsList(dir, a, b, m);
      OrderedListingUnique(dir, a[1..], b[1..], m - {a[0].key});
      HeadAndTail(a, b);
    }
  }

  lemma HeadAndTail(a: seq<Pair>, b: seq<Pair>)
    requires a != [] && b != [] && a[0] == b[0] && a[1..] == b[1..]
    ensures a == b
  {
    assert a == [a[0]] + a[1..] && b == [b[0]] + b[1..];
  }

  lemma TailsList(dir: Direction, a: seq<Pair>, b: seq<Pair>, m: Table)
    requires OrderedBy(dir, a) && OrderedBy(dir, b) && Lists(a, m) && Lists(b, m) && a != [] && b != []
    ensures a[0] == b[0]
    ensures OrderedBy(dir, a[1..]) && OrderedBy(dir, b[1..])
    ensures Lists(a[1..], m - {a[0].key}) && Lists(b[1..], m - {a[0].key})
  {
    SameHead(dir, a, b, m);
    DropHead(dir, a, m);
    DropHead(dir, b, m);
  }

  lemma BothEmpty(a: seq<Pair>, b: seq<Pair>, m: Table)
    requires Lists(a, m) && Lists(b, m)
    ensures a == [] <==> b == []
  {
    assert a != [] ==> a[0].key in m;
    assert b != [] ==> b[0].key in m;
  }

  lemma SameHead(dir: Direction, a: seq<Pair>, b: seq<Pair>, m: Table)
    requires OrderedBy(dir, a) && OrderedBy(dir, b) && Lists(a, m) && Lists(b, m) && a != [] && b != []
    ensures a[0] == b[0]
  {
    var i :| 0 <= i < |b| && b[i].key == a[0].key;
    var j :| 0 <= j < |a| && a[j].key == b[0].key;
    Trichotomy(a[0].key, b[0].key);
  }

  lemma DropHead(dir: Direction, a: seq<Pair>, m: Table)
    requires OrderedBy(dir, a) && Lists(a, m) && a != []
    ensures OrderedBy(dir, a[1..]) && Lists(a[1..], m - {a[0].key})
  {
    var rest := m - {a[0].key};
    forall i | 0 <= i < |a[1..]| ensures a[1..][i].key in rest {
      assert Precedes(dir, a[0].key, a[i + 1].key);
      Trichotomy(a[0].key, a[i + 1].key);
    }
    forall k | k in rest ensures exists i :: 0 <= i < |a[1..]| && a[1..][i].key == k {
      var i :| 0 <= i < |a| && a[i].key == k;
      assert a[1..][i - 1].key == k;
    }
  }

  function Reversed(rows: seq<Pair>): (r: seq<Pair>)
    ensures |r| == |rows| && forall i | 0 <= i < |rows| :: r[i] == rows[|rows| - 1 - i]
  {
    seq(|rows|, i requires 0 <= i < |rows| => rows[|rows| - 1 - i])
  }

  /** `keysr`/`scanr` without a limit are `keys`/`scan` backwards. */
  lemma DescendingIsReversed(m: Table)
    ensures Sorted(Desc, m) == Reversed(Sorted(Asc, m))
  {
    SortedMeaning(Asc, m);
    SortedMeaning(Desc, m);
    ReversedListing(Sorted(Asc, m), m);
    OrderedListingUnique(Desc, Sorted(Desc, m), Reversed(Sorted(Asc, m)), m);
  }

  lemma ReversedListing(up: seq<Pair>, m: Table)
    requires OrderedBy(Asc, up) && Lists(up, m)
    ensures OrderedBy(Desc, Reversed(up)) && Lists(Reversed(up), m)
  {
    var r := Reversed(up);
    forall k | k in m ensures exists i :: 0 <= i < |r| && r[i].key == k {
      var i :| 0 <= i < |up| && up[i].key == k;
      assert r[|up| - 1 - i].key == k;
    }
  }

  /** The `start >= end` shortcuts agree with the query they skip. */
  lemma EmptyRange(m: Table, lo: Key, hi: Key)
    requires !Lt(lo, hi)
    ensures Within(m, lo, hi) == map[]
  {
    forall k | k in m ensures !InRange(k, lo, hi) {
      Trichotomy(lo, k);
      Trichotomy(lo, hi);
      if !Lt(k, lo) && Lt(k, hi) && lo != k {
        Transitive(lo, k, hi);
      }
    }
  }

  /** `count` is the length of `getr`, and `keysr`/`scanr` without a limit are it backwards. */
  lemma RangeReadsAgree(m: Table, lo: Key, hi: Key)
    ensures var all := Sorted(Asc, Within(m, lo, hi));
            && Answer(m, CountRange(lo, hi)) == Tally(|all|)
            && Answer(m, SelectRange(lo, hi, Asc, None)) == Ordered(all)
            && Answer(m, SelectRange(lo, hi, Desc, None)) == Ordered(Reversed(all))
  {
    SortedMeaning(Asc, Within(m, lo, hi));
    DescendingIsReversed(Within(m, lo, hi));
  }

  /** `delr` removes exactly the keys of `getr`, says how many, and touches nothing else. */
  lemma RangeDeleteAgrees(m: Table, lo: Key, hi: Key)
    ensures var all := Sorted(Asc, Within(m, lo, hi));
            var (after, count) := Write(m, DeleteRange(lo, hi));
            && count == |all|
            && (forall k :: k in after <==> k in m && !exists i :: 0 <= i < |all| && all[i].key == k)
            && (forall k | k in after :: after[k] == m[k])
  {
    SortedMeaning(Asc, Within(m, lo, hi));
  }

  /** `LIMIT limit OFFSET skip` is the matching slice of the whole answer. */
  lemma CutIsSlice(rows: seq<Pair>, limit: nat, skip: nat)
    ensures var page := Cut(rows, Some(Page(limit, skip)));
            && |page| == (if skip >= |rows| then 0 else if limit < |rows| - skip then limit else |rows| - skip)
            && forall i | 0 <= i < |page| :: page[i] == rows[skip + i]
  {
  }

  // ---- pagination ------------------------------------------------------------------------

  /** After a page that ends at its last key, the rows still to come are exactly those of the
      range that starts just after that key. */
  lemma NextPageStart(m: Table, lo: Key, hi: Key, n: nat)
    requires 0 < n <= |Sorted(Asc, Within(m, lo, hi))|
    ensures var all := Sorted(Asc, Within(m, lo, hi));
            && all[n..] == Sorted(Asc, Within(m, After(all[n - 1].key), hi))
            && Within(m, After(all[n - 1].key), hi).Keys < Within(m, lo, hi).Keys
  {
    var whole := Within(m, lo, hi);
    var all := Sorted(Asc, whole);
    var last := all[n - 1].key;
    var rest := Within(m, After(last), hi);
    SortedMeaning(Asc, whole);
    SortedMeaning(Asc, rest);
    forall k ensures k in rest <==> k in whole && Lt(last, k) {
      NothingBetween(last, k);
      if k in m && Lt(last, k) && Lt(k, lo) {
        Transitive(last, k, lo);
      }
    }
    assert all[n..] == Sorted(Asc, rest) by {
      TailLists(all, whole, n, rest);
      OrderedListingUnique(Asc, all[n..], Sorted(Asc, rest), rest);
    }
    Irreflexive(last);
    assert last in whole && last !in rest;
  }

  lemma TailLists(all: seq<Pair>, whole: Table, n: nat, rest: Table)
    requires OrderedBy(Asc, all) && Lists(all, whole) && 0 < n <= |all|
    requires forall k :: k in rest <==> k in whole && Lt(all[n - 1].key, k)
    requires forall k | k in rest :: rest[k] == whole[k]
    ensures OrderedBy(Asc, all[n..]) && Lists(all[n..], rest)
  {
    forall k | k in rest ensures exists i :: 0 <= i < |all[n..]| && all[n..][i].key == k {
      var i :| 0 <= i < |all| && all[i].key == k;
      if i < n {
        Trichotomy(all[i].key, all[n - 1].key);
      }
      assert all[n..][i - n].key == k;
    }
    forall i | 0 <= i < |all[n..]| ensures all[n..][i].key in rest {
      assert all[n..][i] == all[n + i];
    }
  }
}
