/** The database as the classic format uses it: rows under primary keys, and the few kinds of
    query that it sends. */
module Storage {
  import opened Options
  import opened Idmef

  ghost predicate Ascending(s: seq<int>) {
    forall i, j :: 0 <= i < j < |s| ==> s[i] < s[j]
  }

  lemma Inhabited(s: set<int>)
    ensures s == {} || exists x :: x in s
  {
    if forall x :: x !in s { assert s == {}; }
  }

  method Least(s: set<int>) returns (m: int)
    requires s != {}
    ensures m in s && forall x :: x in s ==> m <= x
  {
    Inhabited(s);
    var some :| some in s;
    m := some;
    var rest := s - {m};
    if rest != {} {
      var n := Least(rest);
      if n < m {
        m := n;
      }
    }
    assert forall x :: x in s ==> x == some || x in rest;
  }

  class Database {
    var rows: Rows

    /** INSERT INTO; it would fail if the primary key were taken. */
    method Add(k: Key, row: Payload)
      requires Row(rows, k).None?
      modifies this
      ensures forall j :: Row(rows, j) == if j == k then Some(row) else Row(old(rows), j)
    {
      rows := rows[k := row];
    }

    /** SELECT with conditions on all columns of the key. */
    method Fetch(k: Key) returns (row: Option<Payload>)
      ensures row == Row(rows, k)
    {
      row := Row(rows, k);
    }

    /** SELECT with conditions on all columns of the key but _index, AND _index != -1
        ORDER BY _index ASC. */
    method Select(own: Key) returns (indexes: seq<int>, found: seq<Payload>)
      ensures |found| == |indexes| && Ascending(indexes)
      ensures forall j :: 0 <= j < |indexes| ==>
        indexes[j] != -1 && Row(rows, own.(i := indexes[j])) == Some(found[j])
      ensures forall x :: x != -1 && Row(rows, own.(i := x)).Some? ==> x in indexes
    {
      var todo := set k | k in rows && k == own.(i := k.i) && k.i != -1 :: k.i;
      indexes, found := [], [];
      ghost var all := todo;
      assert forall x :: x != -1 && Row(rows, own.(i := x)).Some? ==> x in all by {
        forall x | x != -1 && Row(rows, own.(i := x)).Some?
          ensures x in all
        {
          assert own.(i := x) in rows && own.(i := x).i == x;
        }
      }
      while todo != {}
        invariant |found| == |indexes| && Ascending(indexes)
        invariant todo <= all && forall x :: x in all ==> x in todo || x in indexes
        invariant forall j, x :: 0 <= j < |indexes| && x in todo ==> indexes[j] < x
        invariant forall x :: x in all ==> x != -1 && own.(i := x) in rows
        invariant forall j :: 0 <= j < |indexes| ==>
          indexes[j] != -1 && Row(rows, own.(i := indexes[j])) == Some(found[j])
        decreases |todo|
      {
        var x := Least(todo);
        assert x in all;
        indexes, found, todo := indexes + [x], found + [rows[own.(i := x)]], todo - {x};
      }
    }
  }

  lemma NonEmpty(s: seq<int>)
    requires s != []
    ensures exists x :: x in s
  {
    var x := s[0];
    assert x in s;
  }

  /** Indexes in ascending order that are just 0 to n - 1 are those positions. */
  lemma {:induction false} Positions(indexes: seq<int>, n: nat)
    requires Ascending(indexes)
    requires forall x :: x in indexes <==> 0 <= x < n
    ensures |indexes| == n && forall j :: 0 <= j < n ==> indexes[j] == j
  {
    if n == 0 {
      if indexes != [] { NonEmpty(indexes); }
    } else {
      var m := |indexes| - 1;
      assert n - 1 in indexes;
      assert indexes[m] in indexes;
      assert indexes[m] == n - 1;
      var rest := indexes[..m];
      forall x
        ensures x in rest <==> 0 <= x < n - 1
      {
        if x in rest {
          assert x in indexes;
        }
        if 0 <= x < n - 1 {
          assert x in indexes;
          var j :| 0 <= j < |indexes| && indexes[j] == x;
          assert rest[j] == x;
        }
      }
      Positions(rest, n - 1);
    }
  }
}
