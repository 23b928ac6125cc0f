/** What `select("*").order("created_at", { ascending: false })` returns
    from a table: every row once, newest first. The store is abstract, so
    this is the specification of its answer, given as one admissible
    ordering (an insertion sort; rows with equal creation times may come
    back from the backend in any order). */
module Listing {
  import opened Types

  /** Every row of `m` whose id is below `n`, in id order. */
  function Rows<T>(m: map<Id, T>, n: nat): seq<T> {
    if n == 0 then []
    else Rows(m, n - 1) + (if n - 1 in m then [m[n - 1]] else [])
  }

  ghost predicate SortedDesc<T>(s: seq<T>, created: T -> Timestamp) {
    forall i, j :: 0 <= i < j < |s| ==> created(s[i]) >= created(s[j])
  }

  /** Rows carry their own key as id. */
  ghost predicate Keyed<T>(m: map<Id, T>, idOf: T -> Id) {
    forall k :: k in m ==> idOf(m[k]) == k
  }

  /** `r` is an answer the backend may give for the whole table `m`:
      only rows of `m`, each row of `m` exactly once, newest first. */
  ghost predicate IsListingOf<T>(r: seq<T>, m: map<Id, T>, created: T -> Timestamp) {
    && (forall x :: x in r ==> x in m.Values)
    && (forall k :: k in m ==> multiset(r)[m[k]] == 1)
    && SortedDesc(r, created)
  }

  function InsertDesc<T>(x: T, s: seq<T>, created: T -> Timestamp): seq<T> {
    if s == [] then [x]
    else if created(x) >= created(s[0]) then [x] + s
    else [s[0]] + InsertDesc(x, s[1..], created)
  }

  function SortDesc<T>(s: seq<T>, created: T -> Timestamp): seq<T> {
    if s == [] then [] else InsertDesc(s[0], SortDesc(s[1..], created), created)
  }

  /** The ordered listing of a table whose ids are all below `n`. */
  function OrderedListing<T>(m: map<Id, T>, n: nat, created: T -> Timestamp): seq<T> {
    SortDesc(Rows(m, n), created)
  }

  lemma {:induction false} InsertDescPermutes<T>(x: T, s: seq<T>, created: T -> Timestamp)
    ensures multiset(InsertDesc(x, s, created)) == multiset(s) + multiset{x}
  {
    if s != [] && created(x) < created(s[0]) {
      InsertDescPermutes(x, s[1..], created);
      assert s == [s[0]] + s[1..];
    }
  }

  lemma {:induction false} InsertDescSorted<T>(x: T, s: seq<T>, created: T -> Timestamp)
    requires SortedDesc(s, created)
    ensures SortedDesc(InsertDesc(x, s, created), created)
  {
    if s != [] && created(x) < created(s[0]) {
      var t := s[1..];
      assert SortedDesc(t, created) by {
        forall i, j | 0 <= i < j < |t| ensures created(t[i]) >= created(t[j]) {
          assert t[i] == s[i + 1] && t[j] == s[j + 1];
        }
      }
      InsertDescSorted(x, t, created);
      var u := InsertDesc(x, t, created);
      InsertDescPermutes(x, t, created);
      var r := [s[0]] + u;
      forall i, j | 0 <= i < j < |r| ensures created(r[i]) >= created(r[j]) {
        if i == 0 {
          assert r[j] in multiset(u);
          assert r[j] == x || r[j] in multiset(t);
          if r[j] != x {
            var k :| 0 <= k < |t| && t[k] == r[j];
            assert s[k + 1] == r[j];
          }
        } else {
          assert r[i] == u[i - 1] && r[j] == u[j - 1];
        }
      }
    }
  }

  lemma {:induction false} SortDescCorrect<T>(s: seq<T>, created: T -> Timestamp)
    ensures multiset(SortDesc(s, created)) == multiset(s)
    ensures SortedDesc(SortDesc(s, created), created)
  {
    if s != [] {
      SortDescCorrect(s[1..], created);
      InsertDescPermutes(s[0], SortDesc(s[1..], created), created);
      InsertDescSorted(s[0], SortDesc(s[1..], created), created);
      assert s == [s[0]] + s[1..];
    }
  }

  /** Each row of the table below `n` occurs exactly once in `Rows`, and
      nothing else does. */
  lemma {:induction false} RowsExactlyOnce<T>(m: map<Id, T>, n: nat, idOf: T -> Id)
    requires Keyed(m, idOf)
    ensures forall x :: x in Rows(m, n) ==> idOf(x) in m && idOf(x) < n && m[idOf(x)] == x
    ensures forall k :: k in m && k < n ==> multiset(Rows(m, n))[m[k]] == 1
  {
    if n > 0 {
      RowsExactlyOnce(m, n - 1, idOf);
      var prev := Rows(m, n - 1);
      var last: seq<T> := if n - 1 in m then [m[n - 1]] else [];
      assert Rows(m, n) == prev + last;
      forall k | k in m && k < n ensures multiset(Rows(m, n))[m[k]] == 1 {
        assert idOf(m[k]) == k;
        assert n - 1 in m ==> idOf(m[n - 1]) == n - 1;
      }
    }
  }

  /** The ordered listing is an admissible backend answer. */
  lemma OrderedListingIsListing<T>(m: map<Id, T>, n: nat, idOf: T -> Id, created: T -> Timestamp)
    requires Keyed(m, idOf)
    requires forall k :: k in m ==> k < n
    ensures IsListingOf(OrderedListing(m, n, created), m, created)
  {
    var rows := Rows(m, n);
    RowsExactlyOnce(m, n, idOf);
    SortDescCorrect(rows, created);
    var r := OrderedListing(m, n, created);
    assert multiset(r) == multiset(rows);
    forall x | x in r ensures x in m.Values {
      assert x in multiset(rows);
      assert m[idOf(x)] == x;
    }
  }
}
