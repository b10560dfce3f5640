/** The keyed tables of the in-memory store (server/storage.ts).

    Each table of `MemStorage` is a JavaScript Map from id to row together
    with an id counter that starts at 1. A Map iterates in insertion order
    and `set` on an existing key keeps the key's place, so a table is
    modelled as the sequence of its rows in insertion order plus the
    counter. Row types differ per table; `key` extracts a row's id. */
module Tables {
  import opened Wrappers
  import Text

  type Id = nat

  datatype Table<R> = Table(rows: seq<R>, next: Id)

  function EmptyTable<R>(): Table<R> {
    Table([], 1)
  }

  /** The counter discipline of every create*: `id = counter++` starting at
      1 and never deleting, so the rows carry exactly the ids 1..n in order
      and the counter is n + 1. */
  predicate Dense<R>(t: Table<R>, key: R -> Id) {
    && t.next == |t.rows| + 1
    && forall i :: 0 <= i < |t.rows| ==> key(t.rows[i]) == i + 1
  }

  /** Dense ids are unique and strictly increasing, and all below the counter. */
  lemma DenseIdsIncrease<R>(t: Table<R>, key: R -> Id)
    requires Dense(t, key)
    ensures forall i, j :: 0 <= i < j < |t.rows| ==> key(t.rows[i]) < key(t.rows[j])
    ensures forall i :: 0 <= i < |t.rows| ==> 1 <= key(t.rows[i]) < t.next
  {
  }

  /** `map.get(id)`: the row stored under id, if any. */
  function Get<R>(rows: seq<R>, key: R -> Id, id: Id): (r: Option<R>)
    ensures r.None? <==> forall i :: 0 <= i < |rows| ==> key(rows[i]) != id
    ensures r.Some? ==> r.value in rows && key(r.value) == id
  {
    if |rows| == 0 then None
    else if key(rows[0]) == id then Some(rows[0])
    else Get(rows[1..], key, id)
  }

  /** In a dense table the row with id k sits at position k - 1. */
  lemma {:induction false} DenseGet<R>(t: Table<R>, key: R -> Id, id: Id)
    requires Dense(t, key)
    ensures Get(t.rows, key, id) == if 1 <= id <= |t.rows| then Some(t.rows[id - 1]) else None
  {
    if 1 <= id <= |t.rows| {
      GetFirst(t.rows, key, id - 1);
    }
  }

  /** Get returns the first row carrying the id. */
  lemma {:induction false} GetFirst<R>(rows: seq<R>, key: R -> Id, k: nat)
    requires k < |rows| && forall j :: 0 <= j < k ==> key(rows[j]) != key(rows[k])
    ensures Get(rows, key, key(rows[k])) == Some(rows[k])
  {
    if k > 0 {
      GetFirst(rows[1..], key, k - 1);
    }
  }

  /** `id = this.xId++; map.set(id, row)`: the row built from the counter
      is appended and the counter advances. */
  function Insert<R>(t: Table<R>, row: R): Table<R> {
    Table(t.rows + [row], t.next + 1)
  }

  /** Inserting the row the counter names keeps the table dense, and its
      id is fresh: larger than every id already stored. */
  lemma InsertKeepsDense<R>(t: Table<R>, key: R -> Id, row: R)
    requires Dense(t, key) && key(row) == t.next
    ensures Dense(Insert(t, row), key)
    ensures forall i :: 0 <= i < |t.rows| ==> key(t.rows[i]) < key(row)
  {
  }

  /** After inserting the counter's row, its id finds that row and every
      other id finds what it found before. */
  lemma InsertGet<R>(t: Table<R>, key: R -> Id, row: R, id: Id)
    requires Dense(t, key) && key(row) == t.next
    ensures Get(Insert(t, row).rows, key, id) == if id == t.next then Some(row) else Get(t.rows, key, id)
  {
    InsertKeepsDense(t, key, row);
    DenseGet(t, key, id);
    DenseGet(Insert(t, row), key, id);
  }

  /** `const x = map.get(id); if (x) map.set(id, f(x))`: the row under id is
      replaced in place, every other row is left alone. */
  function Put<R>(t: Table<R>, key: R -> Id, id: Id, f: R -> R): (r: Table<R>)
    ensures r.next == t.next && |r.rows| == |t.rows|
    ensures forall i :: 0 <= i < |t.rows| && key(t.rows[i]) != id ==> r.rows[i] == t.rows[i]
    ensures forall i :: 0 <= i < |t.rows| && key(t.rows[i]) == id ==> r.rows[i] == f(t.rows[i])
  {
    Table(seq(|t.rows|, i requires 0 <= i < |t.rows| => if key(t.rows[i]) == id then f(t.rows[i]) else t.rows[i]), t.next)
  }

  /** An update that keeps the id keeps the table dense; looking the id up
      afterwards yields the updated row, and an unknown id changes nothing. */
  lemma PutLookup<R>(t: Table<R>, key: R -> Id, id: Id, f: R -> R)
    requires Dense(t, key)
    requires forall i :: 0 <= i < |t.rows| ==> key(f(t.rows[i])) == key(t.rows[i])
    ensures Dense(Put(t, key, id, f), key)
    ensures Get(Put(t, key, id, f).rows, key, id) == (if 1 <= id <= |t.rows| then Some(f(t.rows[id - 1])) else None)
    ensures Get(t.rows, key, id).None? ==> Put(t, key, id, f) == t
    ensures forall k :: k != id ==> Get(Put(t, key, id, f).rows, key, k) == Get(t.rows, key, k)
  {
    var r := Put(t, key, id, f);
    forall k | k != id ensures Get(r.rows, key, k) == Get(t.rows, key, k) {
      DenseGet(r, key, k);
      DenseGet(t, key, k);
    }
    DenseGet(r, key, id);
    DenseGet(t, key, id);
    if Get(t.rows, key, id).None? {
      assert r.rows == t.rows;
    }
  }

  /** `array.filter(p)`: every element satisfying p, as often as it
      occurs, in the input's order. */
  function Filter<R(!new)>(xs: seq<R>, p: R -> bool): (r: seq<R>)
    ensures |r| <= |xs|
    ensures forall x :: x in r <==> x in xs && p(x)
    ensures multiset(r) <= multiset(xs)
    ensures forall x :: multiset(r)[x] == if p(x) then multiset(xs)[x] else 0
    ensures Text.IsSubsequence(r, xs)
  {
    if |xs| == 0 then []
    else
      var rest := Filter(xs[1..], p);
      assert xs == [xs[0]] + xs[1..];
      FilterStep(xs[0], xs[1..], rest, p);
      if p(xs[0]) then
        Text.SubsequenceKeepHead(xs[0], rest, xs[1..]);
        [xs[0]] + rest
      else
        Text.SubsequenceCons(xs[0], rest, xs[1..]);
        rest
  }

  /** One step of `filter`: the head is kept iff it satisfies p, so the
      count of each element follows from the tail's. */
  lemma FilterStep<R>(h: R, tail: seq<R>, rest: seq<R>, p: R -> bool)
    requires forall x :: multiset(rest)[x] == if p(x) then multiset(tail)[x] else 0
    ensures var r := if p(h) then [h] + rest else rest;
      forall x :: multiset(r)[x] == if p(x) then multiset([h] + tail)[x] else 0
  {
    assert multiset([h] + tail) == multiset{h} + multiset(tail);
    assert multiset([h] + rest) == multiset{h} + multiset(rest);
  }

  /** No element occurs twice. */
  ghost predicate Distinct<R>(xs: seq<R>) {
    forall i, j :: 0 <= i < j < |xs| ==> xs[i] != xs[j]
  }

  /** The rows of a dense table are pairwise distinct: their ids differ. */
  lemma DenseDistinct<R>(t: Table<R>, key: R -> Id)
    requires Dense(t, key)
    ensures Distinct(t.rows)
  {
    forall i, j | 0 <= i < j < |t.rows| ensures t.rows[i] != t.rows[j] {
      assert key(t.rows[i]) != key(t.rows[j]);
    }
  }

  /** Dropping the head of a distinct sequence keeps it distinct, and the
      head does not occur in the rest. */
  lemma DistinctTail<R>(xs: seq<R>)
    requires |xs| > 0 && Distinct(xs)
    ensures Distinct(xs[1..]) && xs[0] !in xs[1..]
  {
    var tail := xs[1..];
    forall i, j | 0 <= i < j < |tail| ensures tail[i] != tail[j] {
      assert tail[i] == xs[i + 1] && tail[j] == xs[j + 1];
    }
    forall i | 0 <= i < |tail| ensures tail[i] != xs[0] {
      assert tail[i] == xs[i + 1];
    }
  }

  /** `filter` on distinct rows yields distinct rows. */
  lemma {:induction false} FilterDistinct<R(!new)>(xs: seq<R>, p: R -> bool)
    requires Distinct(xs)
    ensures Distinct(Filter(xs, p))
  {
    if |xs| > 0 {
      DistinctTail(xs);
      FilterDistinct(xs[1..], p);
      var rest := Filter(xs[1..], p);
      if p(xs[0]) {
        var r := [xs[0]] + rest;
        forall i, j | 0 <= i < j < |r| ensures r[i] != r[j] {
          assert r[j] == rest[j - 1] && r[j] in rest;
          if i > 0 {
            assert r[i] == rest[i - 1];
          }
        }
      }
    }
  }

  /** On distinct rows, `filter` keeps each matching row exactly once: the
      result is as long as the set of matching rows. */
  lemma {:induction false} FilterCount<R(!new)>(xs: seq<R>, p: R -> bool)
    requires Distinct(xs)
    ensures |Filter(xs, p)| == |set x | x in xs && p(x)|
  {
    if |xs| == 0 {
      assert (set x | x in xs && p(x)) == {};
    } else {
      DistinctTail(xs);
      FilterCount(xs[1..], p);
      MatchingCons(xs, p);
    }
  }

  /** The matching elements of a non-empty sequence: those of its tail,
      plus the head when it matches. */
  lemma MatchingCons<R(!new)>(xs: seq<R>, p: R -> bool)
    requires |xs| > 0
    ensures (set x | x in xs && p(x)) == (set x | x in xs[1..] && p(x)) + (if p(xs[0]) then {xs[0]} else {})
  {
    assert forall x :: x in xs <==> x == xs[0] || x in xs[1..];
  }

  /** `filter` over a dense table keeps each matching row exactly once:
      its length is the size of any set holding exactly the matching rows. */
  lemma DenseFilterCount<R(!new)>(t: Table<R>, key: R -> Id, p: R -> bool, matching: set<R>)
    requires Dense(t, key)
    requires forall x :: x in matching <==> x in t.rows && p(x)
    ensures |Filter(t.rows, p)| == |matching|
  {
    DenseDistinct(t, key);
    FilterCount(t.rows, p);
    assert matching == set x | x in t.rows && p(x);
  }

  /** `array.some(p)`. */
  function Any<R>(xs: seq<R>, p: R -> bool): (b: bool)
    ensures b <==> exists i :: 0 <= i < |xs| && p(xs[i])
  {
    if |xs| == 0 then false
    else if p(xs[0]) then true
    else
      var b := Any(xs[1..], p);
      assert forall i :: 1 <= i < |xs| ==> xs[i] == xs[1..][i - 1];
      b
  }

  predicate SortedBy<R>(xs: seq<R>, key: R -> int) {
    forall i, j :: 0 <= i < j < |xs| ==> key(xs[i]) <= key(xs[j])
  }

  /** Insert x before the first element whose key is not smaller. */
  function InsertSorted<R(!new)>(x: R, xs: seq<R>, key: R -> int): (r: seq<R>)
    requires SortedBy(xs, key)
    ensures SortedBy(r, key)
    ensures multiset(r) == multiset(xs) + multiset{x}
  {
    if |xs| == 0 || key(x) <= key(xs[0]) then [x] + xs
    else
      var rest := InsertSorted(x, xs[1..], key);
      assert xs == [xs[0]] + xs[1..];
      SortedHeadBound(xs, key);
      InsertKeepsBound(x, key(xs[0]), xs[1..], rest, key);
      LeadSorted(xs[0], rest, key);
      [xs[0]] + rest
  }

  /** The head of a sorted sequence bounds the rest from below. */
  lemma SortedHeadBound<R>(xs: seq<R>, key: R -> int)
    requires |xs| > 0 && SortedBy(xs, key)
    ensures forall y :: y in xs[1..] ==> key(xs[0]) <= key(y)
  {
    forall y | y in xs[1..] ensures key(xs[0]) <= key(y) {
      var k :| 0 <= k < |xs[1..]| && xs[1..][k] == y;
      assert xs[k + 1] == y;
    }
  }

  /** A lower bound of ys and of x bounds every element of ys with x added. */
  lemma InsertKeepsBound<R>(x: R, lo: int, ys: seq<R>, rest: seq<R>, key: R -> int)
    requires multiset(rest) == multiset(ys) + multiset{x}
    requires lo <= key(x) && forall y :: y in ys ==> lo <= key(y)
    ensures forall y :: y in rest ==> lo <= key(y)
  {
    forall y | y in rest ensures lo <= key(y) {
      assert y in multiset(rest);
      if y != x {
        assert y in multiset(ys);
      }
    }
  }

  /** A head no greater than every element of a sorted tail keeps it sorted. */
  lemma LeadSorted<R(!new)>(h: R, xs: seq<R>, key: R -> int)
    requires SortedBy(xs, key) && forall y :: y in xs ==> key(h) <= key(y)
    ensures SortedBy([h] + xs, key)
  {
    forall i, j | 0 <= i < j < |[h] + xs| ensures key(([h] + xs)[i]) <= key(([h] + xs)[j]) {
      if i == 0 {
        assert ([h] + xs)[j] == xs[j - 1];
        assert xs[j - 1] in xs;
      } else {
        assert ([h] + xs)[i] == xs[i - 1] && ([h] + xs)[j] == xs[j - 1];
      }
    }
  }

  /** Sequences with the same multiset have the same members. */
  lemma SameMembers<R>(a: seq<R>, b: seq<R>)
    requires multiset(a) == multiset(b)
    ensures forall x :: x in a <==> x in b
  {
    forall x ensures x in a <==> x in b {
      assert x in a <==> x in multiset(a);
      assert x in b <==> x in multiset(b);
    }
  }

  /** `array.sort((a, b) => key(a) - key(b))`: ascending by key, a
      permutation of the input. */
  function SortBy<R(!new)>(xs: seq<R>, key: R -> int): (r: seq<R>)
    ensures SortedBy(r, key)
    ensures multiset(r) == multiset(xs)
  {
    if |xs| == 0 then []
    else
      assert xs == [xs[0]] + xs[1..];
      InsertSorted(xs[0], SortBy(xs[1..], key), key)
  }
}
