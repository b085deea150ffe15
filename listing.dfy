/**
  GET /api/votes: the polls whose end is not yet past, soonest-ending first
  (the query `find({ endsAt: { $gte: now } }).sort({ endsAt: 1 })`).
  The store is scanned in id order and the matches are sorted by end time.
 */
module Listing {
  import opened Polls

  predicate SortedByEnd(s: seq<Stored>)
  {
    forall i, j :: 0 <= i < j < |s| ==> s[i].poll.endsAt <= s[j].poll.endsAt
  }

  predicate DistinctIds(s: seq<Stored>)
  {
    forall i, j :: 0 <= i < j < |s| ==> s[i].id != s[j].id
  }

  /** Places `x` before the first entry that ends no earlier than it does. */
  function Insert(x: Stored, s: seq<Stored>): (r: seq<Stored>)
    ensures multiset(r) == multiset(s) + multiset{x}
  {
    if s == [] || x.poll.endsAt <= s[0].poll.endsAt then
      [x] + s
    else
      assert s == [s[0]] + s[1..];
      [s[0]] + Insert(x, s[1..])
  }

  /** Insertion sort by end time: a permutation of its input. */
  function SortByEnd(s: seq<Stored>): (r: seq<Stored>)
    ensures multiset(r) == multiset(s)
  {
    if s == [] then
      []
    else
      assert s == [s[0]] + s[1..];
      Insert(s[0], SortByEnd(s[1..]))
  }

  lemma {:induction false} InsertSorted(x: Stored, s: seq<Stored>)
    requires SortedByEnd(s)
    ensures SortedByEnd(Insert(x, s))
  {
    if s != [] && x.poll.endsAt > s[0].poll.endsAt {
      var rest := Insert(x, s[1..]);
      InsertSorted(x, s[1..]);
      forall k | 0 <= k < |rest| ensures s[0].poll.endsAt <= rest[k].poll.endsAt {
        assert rest[k] in multiset(rest);
        assert rest[k] == x || rest[k] in s[1..];
      }
    }
  }

  lemma {:induction false} InsertDistinct(x: Stored, s: seq<Stored>)
    requires DistinctIds(s)
    requires forall k :: 0 <= k < |s| ==> s[k].id != x.id
    ensures DistinctIds(Insert(x, s))
  {
    if s != [] && x.poll.endsAt > s[0].poll.endsAt {
      var rest := Insert(x, s[1..]);
      InsertDistinct(x, s[1..]);
      forall k | 0 <= k < |rest| ensures s[0].id != rest[k].id {
        assert rest[k] in multiset(rest);
        assert rest[k] == x || rest[k] in s[1..];
      }
    }
  }

  /** The sorted listing is ordered by end time and keeps ids distinct. */
  lemma {:induction false} SortByEndSorted(s: seq<Stored>)
    ensures SortedByEnd(SortByEnd(s))
    ensures DistinctIds(s) ==> DistinctIds(SortByEnd(s))
  {
    if s != [] {
      var rest := SortByEnd(s[1..]);
      SortByEndSorted(s[1..]);
      InsertSorted(s[0], rest);
      if DistinctIds(s) {
        forall k | 0 <= k < |rest| ensures rest[k].id != s[0].id {
          assert rest[k] in multiset(rest);
          assert rest[k] in s[1..];
        }
        InsertDistinct(s[0], rest);
      }
    }
  }

  /** The open polls with id below `n`, in increasing id order. */
  function Collect(t: Table, n: nat, now: int): (r: seq<Stored>)
    ensures forall i :: 0 <= i < |r| ==>
      r[i].id < n && r[i].id in t && r[i].poll == t[r[i].id] && IsOpen(r[i].poll, now)
    ensures forall id :: id < n && id in t && IsOpen(t[id], now) ==> Stored(id, t[id]) in r
    ensures forall i, j :: 0 <= i < j < |r| ==> r[i].id < r[j].id
  {
    if n == 0 then
      []
    else
      var prev := Collect(t, n - 1, now);
      if n - 1 in t && IsOpen(t[n - 1], now) then prev + [Stored(n - 1, t[n - 1])] else prev
  }

  /**
    The listing: exactly the polls that are still open at `now`, each once,
    ordered by non-decreasing end time. `bound` is the store's next id.
   */
  function ActivePolls(t: Table, bound: nat, now: int): (r: seq<Stored>)
    requires forall id :: id in t ==> id < bound
    ensures SortedByEnd(r)
    ensures DistinctIds(r)
    ensures forall i :: 0 <= i < |r| ==>
      r[i].id in t && r[i].poll == t[r[i].id] && IsOpen(r[i].poll, now)
    ensures forall id :: id in t && IsOpen(t[id], now) ==> Stored(id, t[id]) in r
    ensures t == map[] ==> r == []
  {
    var found := Collect(t, bound, now);
    var r := SortByEnd(found);
    SortByEndSorted(found);
    forall i | 0 <= i < |r|
      ensures r[i].id in t && r[i].poll == t[r[i].id] && IsOpen(r[i].poll, now)
    {
      assert r[i] in multiset(r);
      var j :| 0 <= j < |found| && found[j] == r[i];
    }
    forall id | id in t && IsOpen(t[id], now) ensures Stored(id, t[id]) in r {
      assert Stored(id, t[id]) in multiset(found);
    }
    r
  }
}
