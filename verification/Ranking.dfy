/** Stable sorting by a number, and taking the first few. */
module Ranking {
  import opened Text

  /** Puts `x` in front of everything that does not come strictly before it. */
  function Insert<A>(rank: A -> real, x: A, xs: seq<A>): seq<A> {
    if xs == [] || rank(x) <= rank(xs[0]) then [x] + xs else [xs[0]] + Insert(rank, x, xs[1..])
  }

  /** Sorts in ascending order of rank, keeping the order of equals. */
  function SortBy<A>(rank: A -> real, xs: seq<A>): seq<A> {
    if xs == [] then [] else Insert(rank, xs[0], SortBy(rank, xs[1..]))
  }

  ghost predicate Ascending<A>(rank: A -> real, xs: seq<A>) {
    forall i, j | 0 <= i < j < |xs| :: rank(xs[i]) <= rank(xs[j])
  }

  function Ranked<A>(rank: A -> real, r: real): A -> bool {
    (a: A) => rank(a) == r
  }

  lemma {:induction false} InsertContents<A>(rank: A -> real, x: A, xs: seq<A>)
    ensures multiset(Insert(rank, x, xs)) == multiset(xs)[x := multiset(xs)[x] + 1]
    ensures |Insert(rank, x, xs)| == |xs| + 1
    ensures forall y | y in Insert(rank, x, xs) :: y == x || y in xs
  {
    if xs != [] && rank(x) > rank(xs[0]) {
      InsertContents(rank, x, xs[1..]);
      assert xs == [xs[0]] + xs[1..];
    }
  }

  lemma {:induction false} InsertAscending<A>(rank: A -> real, x: A, xs: seq<A>)
    requires Ascending(rank, xs)
    ensures Ascending(rank, Insert(rank, x, xs))
  {
    if xs != [] && rank(x) > rank(xs[0]) {
      InsertAscending(rank, x, xs[1..]);
      InsertContents(rank, x, xs[1..]);
      var rest := Insert(rank, x, xs[1..]);
      forall j | 0 <= j < |rest| ensures rank(xs[0]) <= rank(rest[j]) {
        assert rest[j] in rest;
      }
    }
  }

  lemma FilterCons<A>(keep: A -> bool, x: A, xs: seq<A>)
    ensures Filter(keep, [x] + xs) == (if keep(x) then [x] else []) + Filter(keep, xs)
  {
    assert ([x] + xs)[1..] == xs;
  }

  lemma SwapEmpty<A>(a: seq<A>, b: seq<A>, c: seq<A>)
    requires a == [] || b == []
    ensures a + (b + c) == b + (a + c)
  {
  }

  lemma {:induction false} InsertStable<A>(rank: A -> real, x: A, xs: seq<A>, r: real)
    ensures Filter(Ranked(rank, r), Insert(rank, x, xs)) == Filter(Ranked(rank, r), [x] + xs)
  {
    if xs != [] && rank(x) > rank(xs[0]) {
      hide Filter;
      var keep, h, t := Ranked(rank, r), xs[0], xs[1..];
      InsertStable(rank, x, t, r);
      FilterCons(keep, h, Insert(rank, x, t));
      FilterCons(keep, x, t);
      FilterCons(keep, x, xs);
      FilterCons(keep, h, t);
      assert [h] + t == xs;
      SwapEmpty(if keep(h) then [h] else [], if keep(x) then [x] else [], Filter(keep, t));
    }
  }

  /** Sorting rearranges, orders, and keeps the order of those that rank equal. */
  lemma {:induction false} SortByOk<A>(rank: A -> real, xs: seq<A>, r: real)
    ensures multiset(SortBy(rank, xs)) == multiset(xs) && |SortBy(rank, xs)| == |xs|
    ensures Ascending(rank, SortBy(rank, xs))
    ensures Filter(Ranked(rank, r), SortBy(rank, xs)) == Filter(Ranked(rank, r), xs)
  {
    if xs != [] {
      var rest := SortBy(rank, xs[1..]);
      SortByOk(rank, xs[1..], r);
      InsertContents(rank, xs[0], rest);
      InsertAscending(rank, xs[0], rest);
      InsertStable(rank, xs[0], rest, r);
      assert ([xs[0]] + rest)[1..] == rest;
      assert xs == [xs[0]] + xs[1..];
    }
  }

  lemma SameMembers<A>(xs: seq<A>, ys: seq<A>)
    requires multiset(xs) == multiset(ys)
    ensures forall x :: x in xs <==> x in ys
  {
    forall x ensures x in xs <==> x in ys {
      assert x in multiset(xs) <==> x in multiset(ys);
    }
  }

  function Top<A>(xs: seq<A>, limit: nat): seq<A> {
    if |xs| <= limit then xs else xs[..limit]
  }

  /** `top` holds `limit` of the rows, or all of them, in ascending order, and no other row ranks before any of them. */
  ghost predicate IsTop<A>(rank: A -> real, xs: seq<A>, limit: nat, top: seq<A>, rest: seq<A>) {
    && multiset(top) + multiset(rest) == multiset(xs)
    && |top| == (if |xs| <= limit then |xs| else limit)
    && Ascending(rank, top)
    && forall t, u | t in top && u in rest :: rank(t) <= rank(u)
  }

  lemma TopIsTop<A>(rank: A -> real, xs: seq<A>, limit: nat)
    ensures var sorted := SortBy(rank, xs); var top := Top(sorted, limit);
      top <= sorted && IsTop(rank, xs, limit, top, sorted[|top|..])
  {
    SortByOk(rank, xs, 0.0);
    var sorted := SortBy(rank, xs);
    hide SortBy;
    var top := Top(sorted, limit);
    assert sorted == top + sorted[|top|..];
    Prefix(rank, sorted, |top|);
  }

  lemma Prefix<A>(rank: A -> real, xs: seq<A>, n: nat)
    requires Ascending(rank, xs) && n <= |xs|
    ensures Ascending(rank, xs[..n])
    ensures forall t, u | t in xs[..n] && u in xs[n..] :: rank(t) <= rank(u)
  {
    forall t, u | t in xs[..n] && u in xs[n..] ensures rank(t) <= rank(u) {
      var i :| 0 <= i < n && xs[i] == t;
      var j :| n <= j < |xs| && xs[j] == u;
    }
  }
}
