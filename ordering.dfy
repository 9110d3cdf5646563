/** `ORDER BY timestamp DESC` over the rows a query selects. The engine
    leaves the order of rows with equal timestamps open; the model has to
    pick one (the smaller id first), but every contract below promises only
    what the query promises: newest first, and exactly the selected rows. */
module Ordering {

  import opened EmailModels

  /** Timestamps never increase along `r`: the most recent row comes first. */
  ghost predicate Descending(r: seq<Email>)
  {
    forall i, j :: 0 <= i < j < |r| ==> r[i].timestamp >= r[j].timestamp
  }

  /** `a` may be listed before `b`: it is newer, or as new with a smaller id. */
  predicate Before(a: Email, b: Email)
  {
    a.timestamp > b.timestamp || (a.timestamp == b.timestamp && a.id <= b.id)
  }

  /** The row under key `k` may be listed before every row of `m`. */
  predicate IsFirst(m: map<int, Email>, k: int)
  {
    k in m && forall j :: j in m ==> Before(m[k], m[j])
  }

  /** A map that is not empty has a key. */
  lemma HasKey(m: map<int, Email>)
    ensures m == map[] || exists k :: k in m
  {
    if forall k :: k !in m {
      assert m == map[];
    }
  }

  /** A row of `m` is stored under some key. */
  lemma ValueHasKey(m: map<int, Email>, e: Email)
    ensures e !in m.Values || exists k :: k in m && m[k] == e
  {
    if forall k :: k in m ==> m[k] != e {
      assert e !in m.Values;
    }
  }

  /** Every nonempty table has a row that may be listed first. */
  lemma {:induction false} FirstExists(m: map<int, Email>)
    requires m != map[]
    ensures exists k :: IsFirst(m, k)
    decreases m.Keys
  {
    HasKey(m);
    var x :| x in m;
    var rest := m - {x};
    HasKey(rest);
    if rest == map[] {
      forall j | j in m
        ensures Before(m[x], m[j])
      {
        assert j !in rest;
      }
      assert IsFirst(m, x);
    } else {
      FirstExists(rest);
      var k :| IsFirst(rest, k);
      if Before(m[x], m[k]) {
        forall j | j in m
          ensures Before(m[x], m[j])
        {
          if j != x { assert j in rest && Before(rest[k], rest[j]); }
        }
        assert IsFirst(m, x);
      } else {
        forall j | j in m
          ensures Before(m[k], m[j])
        {
          if j != x { assert j in rest && Before(rest[k], rest[j]); }
        }
        assert IsFirst(m, k);
      }
    }
  }

  /** The key of the row the ordered result lists first. */
  function First(m: map<int, Email>): (k: int)
    requires PrimaryKey(m) && m != map[]
    ensures IsFirst(m, k)
  {
    FirstExists(m);
    var k :| IsFirst(m, k);
    k
  }

  /** Removing one key from a validly keyed table removes exactly its row. */
  lemma ValuesWithout(m: map<int, Email>, k: int)
    requires PrimaryKey(m) && k in m
    ensures m.Values == (m - {k}).Values + {m[k]}
    ensures m[k] !in (m - {k}).Values
  {
    var rest := m - {k};
    forall e | e in m.Values
      ensures e in rest.Values + {m[k]}
    {
      ValueHasKey(m, e);
      var j :| j in m && m[j] == e;
      if j != k { assert rest[j] == e; }
    }
    forall j | j in rest
      ensures rest[j] != m[k]
    {
      IdsAreUnique(m, j, k);
    }
    ValueHasKey(rest, m[k]);
  }

  /** The multiset of a union of disjoint sets is the sum of their multisets. */
  lemma MultisetOfDisjointUnion(a: set<Email>, b: set<Email>)
    requires a !! b
    ensures multiset(a + b) == multiset(a) + multiset(b)
  {
    forall e
      ensures multiset(a + b)[e] == (multiset(a) + multiset(b))[e]
    {
      if e in a { assert e !in b; }
    }
  }

  /** All rows of `m`, newest first. */
  function OrderedRows(m: map<int, Email>): (r: seq<Email>)
    requires PrimaryKey(m)
    ensures Descending(r)
    ensures multiset(r) == multiset(m.Values)
    decreases m.Keys
  {
    if m == map[] then []
    else
      var k := First(m);
      var rest := m - {k};
      var tail := OrderedRows(rest);
      ValuesWithout(m, k);
      MultisetOfDisjointUnion(rest.Values, {m[k]});
      OrderedAfterFirst(m, k, tail);
      [m[k]] + tail
  }

  /** Putting the first row in front of an ordered listing of the other rows
      keeps the listing ordered. */
  lemma OrderedAfterFirst(m: map<int, Email>, k: int, tail: seq<Email>)
    requires IsFirst(m, k)
    requires Descending(tail)
    requires multiset(tail) == multiset((m - {k}).Values)
    ensures Descending([m[k]] + tail)
  {
    var r := [m[k]] + tail;
    forall i, j | 0 <= i < j < |r|
      ensures r[i].timestamp >= r[j].timestamp
    {
      if i == 0 {
        var e := tail[j - 1];
        assert e in multiset(tail);
        assert e in (m - {k}).Values;
        ValueHasKey(m - {k}, e);
        var j' :| j' in m - {k} && (m - {k})[j'] == e;
        assert Before(m[k], m[j']);
      } else {
        assert r[i] == tail[i - 1] && r[j] == tail[j - 1];
      }
    }
  }

  /** The rows of `m` a query keeps. */
  ghost function Matching(m: map<int, Email>, keep: Email -> bool): set<Email>
  {
    set e | e in m.Values && keep(e)
  }

  /** The table restricted to the rows a query keeps. */
  function Restrict(m: map<int, Email>, keep: Email -> bool): (r: map<int, Email>)
    requires PrimaryKey(m)
    ensures PrimaryKey(r)
    ensures r.Values == Matching(m, keep)
  {
    var r := map k | k in m && keep(m[k]) :: m[k];
    assert forall e :: e in Matching(m, keep) ==> e in r.Values by {
      forall e | e in Matching(m, keep)
        ensures e in r.Values
      {
        ValueHasKey(m, e);
        var k :| k in m && m[k] == e;
        assert r[k] == e;
      }
    }
    r
  }

  /** The query result: the rows `keep` selects, newest first, each once. */
  function Select(m: map<int, Email>, keep: Email -> bool): (r: seq<Email>)
    requires PrimaryKey(m)
    ensures Descending(r)
    ensures multiset(r) == multiset(Matching(m, keep))
    ensures forall e :: e in r <==> e in m.Values && keep(e)
  {
    var r := OrderedRows(Restrict(m, keep));
    assert forall e :: e in r <==> e in multiset(r);
    r
  }
}
