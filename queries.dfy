/**
 * Database lookups, with a table passed in as the sequence of its rows.
 * `Get` is the ORM's `objects.get(...)`: exactly one matching row, or
 * DoesNotExist, or MultipleObjectsReturned.
 */
module Queries {
  import opened Wrappers

  function Filter<T(!new)>(rows: seq<T>, p: T -> bool): (r: seq<T>)
    ensures |r| <= |rows|
    ensures forall x :: x in r <==> x in rows && p(x)
  {
    if rows == [] then []
    else if p(rows[0]) then [rows[0]] + Filter(rows[1..], p)
    else Filter(rows[1..], p)
  }

  function Get<T(!new)>(rows: seq<T>, p: T -> bool): (r: Result<T>)
    ensures r.Ok? ==> r.value in rows && p(r.value)
    ensures r.Ok? ==> forall x :: x in rows && p(x) ==> x == r.value
    ensures r == Err(DoesNotExist) <==> forall x :: x in rows ==> !p(x)
    ensures r.Ok? || r == Err(DoesNotExist) || r == Err(MultipleObjectsReturned)
  {
    var m := Filter(rows, p);
    assert |m| > 0 ==> m[0] in m;
    if |m| == 0 then Err(DoesNotExist)
    else if |m| == 1 then Ok(m[0])
    else Err(MultipleObjectsReturned)
  }

  lemma {:induction false} FilterCountOne<T(!new)>(rows: seq<T>, p: T -> bool, i: nat)
    requires i < |rows| && p(rows[i])
    requires forall j :: 0 <= j < |rows| && j != i ==> !p(rows[j])
    ensures Filter(rows, p) == [rows[i]]
  {
    if i == 0 {
      FilterNone(rows[1..], p);
    } else {
      FilterCountOne(rows[1..], p, i - 1);
    }
  }

  lemma {:induction false} FilterNone<T(!new)>(rows: seq<T>, p: T -> bool)
    requires forall j :: 0 <= j < |rows| ==> !p(rows[j])
    ensures Filter(rows, p) == []
  {
    if rows != [] {
      FilterNone(rows[1..], p);
    }
  }

  /** A row that is the only one matching is what `Get` returns. */
  lemma GetUnique<T(!new)>(rows: seq<T>, p: T -> bool, i: nat)
    requires i < |rows| && p(rows[i])
    requires forall j :: 0 <= j < |rows| && j != i ==> !p(rows[j])
    ensures Get(rows, p) == Ok(rows[i])
  {
    FilterCountOne(rows, p, i);
  }

  /** Two distinct matching positions make `Get` fail with MultipleObjectsReturned. */
  lemma {:induction false} GetTwoMatches<T(!new)>(rows: seq<T>, p: T -> bool, i: nat, j: nat)
    requires i < j < |rows| && p(rows[i]) && p(rows[j])
    ensures Get(rows, p) == Err(MultipleObjectsReturned)
  {
    FilterAtLeastTwo(rows, p, i, j);
  }

  lemma {:induction false} FilterAtLeastTwo<T(!new)>(rows: seq<T>, p: T -> bool, i: nat, j: nat)
    requires i < j < |rows| && p(rows[i]) && p(rows[j])
    ensures |Filter(rows, p)| >= 2
  {
    if i == 0 {
      assert rows[j] == rows[1..][j - 1];
      assert rows[j] in Filter(rows[1..], p);
    } else {
      FilterAtLeastTwo(rows[1..], p, i - 1, j - 1);
    }
  }

  /** Filtering a table with one more row at the end keeps what it kept and adds that row if it matches. */
  lemma {:induction false} FilterSnoc<T(!new)>(rows: seq<T>, x: T, p: T -> bool)
    ensures Filter(rows + [x], p) == Filter(rows, p) + (if p(x) then [x] else [])
  {
    if rows != [] {
      assert (rows + [x])[1..] == rows[1..] + [x];
      FilterSnoc(rows[1..], x, p);
    }
  }

  /** Rows with pairwise distinct keys keep them distinct after filtering. */
  lemma {:induction false} FilterKeepsKeysUnique<T(!new), K>(rows: seq<T>, p: T -> bool, key: T -> K)
    requires forall i, j :: 0 <= i < j < |rows| ==> key(rows[i]) != key(rows[j])
    ensures forall i, j :: 0 <= i < j < |Filter(rows, p)| ==> key(Filter(rows, p)[i]) != key(Filter(rows, p)[j])
  {
    if rows != [] {
      var rest := rows[1..];
      FilterKeepsKeysUnique(rest, p, key);
      var f := Filter(rest, p);
      forall x | x in f
        ensures key(x) != key(rows[0])
      {
        var j :| 0 <= j < |rest| && rest[j] == x;
        assert rows[j + 1] == x;
      }
      if p(rows[0]) {
        var g := [rows[0]] + f;
        forall i, j | 0 <= i < j < |g|
          ensures key(g[i]) != key(g[j])
        {
          if i > 0 {
            assert g[i] == f[i - 1] && g[j] == f[j - 1];
          } else {
            assert g[j] == f[j - 1] && g[j] in f;
          }
        }
      }
    }
  }
}
