/**
 * Rows of a database table as a sequence, and what the backend relies on
 * about them: the unique constraint "at most one row with these values",
 * and deleting the rows equal to a given one.
 */
module Tables {

  /** At most one row equal to `x`, for every `x`: a UniqueConstraint over all the row's fields. */
  ghost predicate Unique<T(!new)>(rows: seq<T>)
  {
    forall x :: multiset(rows)[x] <= 1
  }

  /** Keeping some of the rows of a duplicate-free table keeps it free of duplicates. */
  lemma SubUnique<T(!new)>(rows: seq<T>, kept: seq<T>)
    requires Unique(rows) && multiset(kept) <= multiset(rows)
    ensures Unique(kept)
  {
    forall x ensures multiset(kept)[x] <= 1 {
      assert multiset(kept)[x] <= multiset(rows)[x];
    }
  }

  /** Inserting a row that is not there yet keeps the table free of duplicates. */
  lemma AppendUnique<T(!new)>(rows: seq<T>, x: T)
    requires Unique(rows) && x !in rows
    ensures Unique(rows + [x])
  {
    assert multiset(rows + [x]) == multiset(rows) + multiset{x};
    forall y ensures multiset(rows + [x])[y] <= 1 {
      if y == x {
        assert x !in multiset(rows);
      }
    }
  }

  /** The table without the rows equal to `x`, in table order: `filter(...).delete()` on a whole row. */
  function Without<T(==, !new)>(rows: seq<T>, x: T): (r: seq<T>)
    ensures multiset(r) == multiset(rows)[x := 0]
    ensures forall y :: y in r <==> y in rows && y != x
    decreases |rows|
  {
    if rows == [] then []
    else
      assert rows == [rows[0]] + rows[1..];
      (if rows[0] == x then [] else [rows[0]]) + Without(rows[1..], x)
  }

  /** Deleting a row just inserted into a table that lacked it gives back the table. */
  lemma {:induction false} WithoutAppended<T(!new)>(rows: seq<T>, x: T)
    requires x !in rows
    ensures Without(rows + [x], x) == rows
    decreases |rows|
  {
    if rows == [] {
      assert [x][1..] == [];
    } else {
      assert (rows + [x])[1..] == rows[1..] + [x];
      WithoutAppended(rows[1..], x);
    }
  }

  /**
   * Deleting the row `x` from a duplicate-free table that holds it removes
   * exactly one row and nothing else.
   */
  lemma RemoveOne<T(!new)>(rows: seq<T>, x: T)
    requires Unique(rows) && x in rows
    ensures multiset(Without(rows, x)) == multiset(rows) - multiset{x}
    ensures |Without(rows, x)| == |rows| - 1
    ensures Unique(Without(rows, x))
  {
    var r := Without(rows, x);
    assert multiset(rows)[x] == 1 by {
      assert x in multiset(rows);
    }
    assert multiset(r) == multiset(rows) - multiset{x};
    assert |multiset(r)| == |r|;
    SubUnique(rows, r);
  }

  /** The restriction of a map to the keys outside `gone`. */
  function Restrict<K, V>(m: map<K, V>, gone: set<K>): (r: map<K, V>)
    ensures r.Keys == m.Keys - gone
    ensures forall k :: k in r ==> r[k] == m[k]
  {
    map k | k in m && k !in gone :: m[k]
  }

  /** Removing a key that was just added gives back the map it was added to. */
  lemma RestrictAdded<K, V>(m: map<K, V>, k: K, v: V)
    requires k !in m
    ensures Restrict(m[k := v], {k}) == m
  {
    assert Restrict(m[k := v], {k}).Keys == m.Keys;
  }

  /** Removing no key changes nothing. */
  lemma RestrictNothing<K, V>(m: map<K, V>)
    ensures Restrict(m, {}) == m
  {
    assert Restrict(m, {}).Keys == m.Keys;
  }

  /** Writing a key twice leaves the second value. */
  lemma Overwrite<K, V>(m: map<K, V>, k: K, v1: V, v2: V)
    ensures m[k := v1][k := v2] == m[k := v2]
  {
  }

  /** A non-empty table holds its first row. */
  lemma FirstIsMember<T>(rows: seq<T>)
    ensures rows == [] || rows[0] in rows
  {
  }
}
