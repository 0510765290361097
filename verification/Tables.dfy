/** The key-value table and what a range query over it returns. */
module Tables {
  import opened KeyOrder

  type Table = map<Key, Val>

  datatype Pair = Pair(key: Key, val: Val)

  /** The rows with `key >= lo AND key < hi`. */
  function Within(m: Table, lo: Key, hi: Key): Table
  {
    map k | k in m && InRange(k, lo, hi) :: m[k]
  }

  datatype Direction = Asc | Desc

  predicate Precedes(dir: Direction, a: Key, b: Key)
  {
    if dir.Asc? then Lt(a, b) else Lt(b, a)
  }

  predicate IsFirst(dir: Direction, s: set<Key>, k: Key)
  {
    k in s && forall j | j in s :: j == k || Precedes(dir, k, j)
  }

  lemma {:induction false} FirstExists(dir: Direction, s: set<Key>)
    requires s != {}
    ensures exists k :: IsFirst(dir, s, k)
    decreases |s|
  {
    var x :| x in s;
    var rest := s - {x};
    if rest == {} {
      assert s == {x};
      assert IsFirst(dir, s, x);
    } else {
      FirstExists(dir, rest);
      var y :| IsFirst(dir, rest, y);
      Trichotomy(x, y);
      if Precedes(dir, x, y) {
        forall j | j in s ensures j == x || Precedes(dir, x, j) {
          if j != x && j != y {
            assert j in rest;
            if dir.Asc? { Transitive(x, y, j); } else { Transitive(j, y, x); }
          }
        }
        assert IsFirst(dir, s, x);
      } else {
        assert IsFirst(dir, s, y);
      }
    }
  }

  function First(dir: Direction, s: set<Key>): (k: Key)
    requires s != {}
    ensures IsFirst(dir, s, k)
  {
    FirstExists(dir, s);
    assert forall a, b | IsFirst(dir, s, a) && IsFirst(dir, s, b) :: a == b by {
      forall a, b | IsFirst(dir, s, a) && IsFirst(dir, s, b) ensures a == b {
        Trichotomy(a, b);
      }
    }
    var k :| k in s && IsFirst(dir, s, k);
    k
  }

  /** `ORDER BY key ASC` or `DESC`: repeatedly the first remaining key. */
  function Sorted(dir: Direction, m: Table): seq<Pair>
    decreases |m|
  {
    if m == map[] then [] else
      var k := First(dir, m.Keys);
      [Pair(k, m[k])] + Sorted(dir, m - {k})
  }
}
