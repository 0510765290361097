/** Byte-string keys in the order PostgreSQL gives BYTEA columns: unsigned lexicographic,
    a proper prefix before its extensions. */
module KeyOrder {

  type Byte = b: int | 0 <= b < 256
  type Key = seq<Byte>
  type Val = seq<Byte>

  predicate Lt(a: Key, b: Key)
  {
    if b == [] then false
    else if a == [] then true
    else if a[0] != b[0] then a[0] < b[0]
    else Lt(a[1..], b[1..])
  }

  /** The half-open range test `key >= lo AND key < hi` of every range statement. */
  predicate InRange(k: Key, lo: Key, hi: Key)
  {
    !Lt(k, lo) && Lt(k, hi)
  }

  /** The exclusive lower bound a cursor uses after `k`: `k` followed by a zero byte. */
  function After(k: Key): Key
  {
    k + [0]
  }

  lemma {:induction false} Irreflexive(a: Key)
    ensures !Lt(a, a)
  {
    if a != [] {
      Irreflexive(a[1..]);
    }
  }

  lemma {:induction false} Trichotomy(a: Key, b: Key)
    ensures a == b || Lt(a, b) || Lt(b, a)
    ensures !(Lt(a, b) && Lt(b, a))
    ensures a == b ==> !Lt(a, b)
  {
    if a != [] && b != [] {
      Trichotomy(a[1..], b[1..]);
      assert a == [a[0]] + a[1..] && b == [b[0]] + b[1..];
    }
  }

  lemma {:induction false} Transitive(a: Key, b: Key, c: Key)
    requires Lt(a, b) && Lt(b, c)
    ensures Lt(a, c)
  {
    if a != [] && a[0] == b[0] == c[0] {
      Transitive(a[1..], b[1..], c[1..]);
    }
  }

  /** No byte string lies strictly between `k` and `k` followed by a zero byte. */
  lemma {:induction false} NothingBetween(k: Key, x: Key)
    ensures Lt(k, x) <==> !Lt(x, After(k))
  {
    if k == [] {
      if x != [] {
        assert After(k)[1..] == [];
      }
    } else if x != [] {
      assert After(k)[1..] == After(k[1..]);
      if x[0] == k[0] {
        NothingBetween(k[1..], x[1..]);
      }
    }
  }

  lemma {:induction false} LtAt(a: Key, b: Key, i: nat)
    requires i <= |a| && i < |b| && a[..i] == b[..i] && (i == |a| || a[i] < b[i])
    ensures Lt(a, b)
  {
    if i > 0 {
      assert a[0] == a[..i][0] && b[0] == b[..i][0];
      assert a[1..][..i - 1] == a[..i][1..] && b[1..][..i - 1] == b[..i][1..];
      LtAt(a[1..], b[1..], i - 1);
    }
  }

  lemma {:induction false} WhereLt(a: Key, b: Key) returns (i: nat)
    requires Lt(a, b)
    ensures i <= |a| && i < |b| && a[..i] == b[..i] && (i == |a| || a[i] < b[i])
  {
    if a == [] || a[0] != b[0] {
      return 0;
    }
    i := WhereLt(a[1..], b[1..]);
    assert a[..i + 1] == [a[0]] + a[1..][..i] && b[..i + 1] == [b[0]] + b[1..][..i];
    i := i + 1;
  }

  /** The order, said outright: `a` is a proper prefix of `b`, or at the first byte in which they
      differ `a` has the smaller. */
  lemma LtMeaning(a: Key, b: Key)
    ensures Lt(a, b) <==> exists i :: 0 <= i <= |a| && i < |b| && a[..i] == b[..i] && (i == |a| || a[i] < b[i])
  {
    if Lt(a, b) {
      var i := WhereLt(a, b);
    } else if i :| 0 <= i <= |a| && i < |b| && a[..i] == b[..i] && (i == |a| || a[i] < b[i]) {
      LtAt(a, b, i);
    }
  }

  /** A range holds its start, everything above it, and nothing from its end on. */
  lemma InRangeMeaning(k: Key, lo: Key, hi: Key)
    ensures InRange(k, lo, hi) <==> (k == lo || Lt(lo, k)) && Lt(k, hi)
  {
    Trichotomy(k, lo);
  }
}
