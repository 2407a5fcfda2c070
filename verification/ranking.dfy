/** Scored ids and the stable sort used by both index searches and by fusion. */
module Ranking {
  import opened Wrappers
  import opened Seqs

  /** An id with its score: a lexical rank, a vector distance or a fused score. */
  datatype Scored = Scored(id: string, score: real)

  datatype Direction = Ascending | Descending

  /** A score `a` must be placed strictly before a score `b`. */
  predicate Ahead(dir: Direction, a: real, b: real) {
    match dir
    case Ascending => a < b
    case Descending => a > b
  }

  ghost predicate SortedBy(dir: Direction, s: seq<Scored>) {
    forall i, j | 0 <= i < j < |s| :: !Ahead(dir, s[j].score, s[i].score)
  }

  /** The ids of `s`, in order. */
  function Ids(s: seq<Scored>): (r: seq<string>)
    ensures |r| == |s|
    ensures forall i | 0 <= i < |s| :: r[i] == s[i].id
  {
    if |s| == 0 then [] else [s[0].id] + Ids(s[1..])
  }

  lemma IdsCons(x: Scored, s: seq<Scored>)
    ensures Ids([x] + s) == [x.id] + Ids(s)
  {
    assert ([x] + s)[1..] == s;
  }

  lemma IdsAppend(s: seq<Scored>, t: seq<Scored>)
    ensures Ids(s + t) == Ids(s) + Ids(t)
  {
  }

  /** Inserts `x` in front of the first element it is not behind, so that it
      precedes every element of equal score. */
  function Insert(dir: Direction, x: Scored, s: seq<Scored>): (r: seq<Scored>)
    ensures |r| == |s| + 1
    ensures multiset(r) == multiset(s) + multiset{x}
    ensures forall k :: k in Ids(r) <==> k == x.id || k in Ids(s)
  {
    if |s| == 0 || !Ahead(dir, s[0].score, x.score) then [x] + s
    else
      assert s == [s[0]] + s[1..];
      [s[0]] + Insert(dir, x, s[1..])
  }

  lemma {:induction false} InsertSorted(dir: Direction, x: Scored, s: seq<Scored>)
    requires SortedBy(dir, s)
    ensures SortedBy(dir, Insert(dir, x, s))
  {
    if |s| > 0 && Ahead(dir, s[0].score, x.score) {
      InsertSorted(dir, x, s[1..]);
      var r := Insert(dir, x, s);
      var t := Insert(dir, x, s[1..]);
      assert r == [s[0]] + t;
      forall j | 0 < j < |r|
        ensures !Ahead(dir, r[j].score, s[0].score)
      {
        assert r[j] in multiset(t);
        assert r[j] == x || r[j] in s[1..];
      }
    }
  }

  lemma {:induction false} InsertDistinct(dir: Direction, x: Scored, s: seq<Scored>)
    requires Distinct(Ids(s)) && x.id !in Ids(s)
    ensures Distinct(Ids(Insert(dir, x, s)))
  {
    if |s| > 0 && Ahead(dir, s[0].score, x.score) {
      InsertDistinct(dir, x, s[1..]);
      assert Ids(s) == [s[0].id] + Ids(s[1..]);
      DistinctCons(s[0].id, Ids(s[1..]));
      assert s[0].id !in Ids(Insert(dir, x, s[1..]));
      assert Ids(Insert(dir, x, s)) == [s[0].id] + Ids(Insert(dir, x, s[1..]));
      DistinctCons(s[0].id, Ids(Insert(dir, x, s[1..])));
    } else {
      DistinctCons(x.id, Ids(s));
      assert Ids([x] + s) == [x.id] + Ids(s);
    }
  }

  /** Stable insertion sort: the result is a permutation of `s` ordered by
      `dir` (see SortIsStable for ties). */
  function Sort(dir: Direction, s: seq<Scored>): (r: seq<Scored>)
    ensures |r| == |s|
    ensures multiset(r) == multiset(s)
    ensures SortedBy(dir, r)
    ensures forall k :: k in Ids(r) <==> k in Ids(s)
  {
    if |s| == 0 then []
    else
      assert s == [s[0]] + s[1..];
      InsertSorted(dir, s[0], Sort(dir, s[1..]));
      Insert(dir, s[0], Sort(dir, s[1..]))
  }

  /** Sorting never introduces a repeated id. */
  lemma {:induction false} SortDistinct(dir: Direction, s: seq<Scored>)
    requires Distinct(Ids(s))
    ensures Distinct(Ids(Sort(dir, s)))
  {
    if |s| > 0 {
      assert Ids(s) == [s[0].id] + Ids(s[1..]);
      DistinctCons(s[0].id, Ids(s[1..]));
      SortDistinct(dir, s[1..]);
      InsertDistinct(dir, s[0], Sort(dir, s[1..]));
    }
  }

  /** The elements of `s` whose score is exactly `v`, in order. */
  function WithScore(s: seq<Scored>, v: real): seq<Scored> {
    if |s| == 0 then []
    else (if s[0].score == v then [s[0]] else []) + WithScore(s[1..], v)
  }

  lemma WithScoreCons(y: Scored, s: seq<Scored>, v: real)
    ensures WithScore([y] + s, v) == (if y.score == v then [y] else []) + WithScore(s, v)
  {
    assert ([y] + s)[1..] == s;
  }

  /** Two sequences one of which is empty can be swapped in front of a third. */
  lemma SwapEmpty<T>(a: seq<T>, b: seq<T>, w: seq<T>)
    requires a == [] || b == []
    ensures a + (b + w) == b + (a + w)
  {
    if a == [] {
      assert a + (b + w) == b + w;
      assert a + w == w;
    } else {
      assert b + (a + w) == a + w;
      assert b + w == w;
    }
  }

  lemma {:induction false} InsertWithScore(dir: Direction, x: Scored, s: seq<Scored>, v: real)
    ensures WithScore(Insert(dir, x, s), v) == (if x.score == v then [x] else []) + WithScore(s, v)
  {
    if |s| > 0 && Ahead(dir, s[0].score, x.score) {
      var rest := Insert(dir, x, s[1..]);
      var w := WithScore(s[1..], v);
      var a: seq<Scored> := if s[0].score == v then [s[0]] else [];
      var b: seq<Scored> := if x.score == v then [x] else [];
      assert WithScore(Insert(dir, x, s), v) == a + (b + w) by {
        assert Insert(dir, x, s) == [s[0]] + rest;
        WithScoreCons(s[0], rest, v);
        InsertWithScore(dir, x, s[1..], v);
      }
      assert WithScore(s, v) == a + w by {
        assert s == [s[0]] + s[1..];
        WithScoreCons(s[0], s[1..], v);
      }
      SwapEmpty(a, b, w);
    } else {
      WithScoreCons(x, s, v);
    }
  }

  /** Stability: among elements of equal score the sort keeps input order. */
  lemma {:induction false} SortIsStable(dir: Direction, s: seq<Scored>, v: real)
    ensures WithScore(Sort(dir, s), v) == WithScore(s, v)
  {
    if |s| > 0 {
      SortIsStable(dir, s[1..], v);
      InsertWithScore(dir, s[0], Sort(dir, s[1..]), v);
    }
  }

  /** The equal-score elements of a prefix are a prefix of the equal-score
      elements of the whole. */
  lemma {:induction false} WithScorePrefix(s: seq<Scored>, k: nat, v: real)
    requires k <= |s|
    ensures WithScore(s[..k], v) <= WithScore(s, v)
  {
    if k > 0 {
      WithScorePrefix(s[1..], k - 1, v);
      assert s[..k][1..] == s[1..][..k - 1];
    }
  }

  /** The ids `order` maps to a score under `f`, in the order of `order`. */
  function Select(order: seq<string>, f: string -> Option<real>): (r: seq<Scored>)
    ensures |r| <= |order|
    ensures forall x | x in r :: x.id in order && f(x.id) == Some(x.score)
    ensures forall k | k in order && f(k).Some? :: k in Ids(r)
    ensures forall k | k in Ids(r) :: k in order
    ensures Distinct(order) ==> Distinct(Ids(r))
  {
    if |order| == 0 then []
    else
      var rest := Select(order[1..], f);
      if f(order[0]).Some? then
        SelectKeep(order, f, rest);
        [Scored(order[0], f(order[0]).value)] + rest
      else
        SelectSkip(order, f, rest);
        rest
  }

  /** What `Select` promises of `r`, bundled for its two inductive steps. */
  ghost predicate SelectOk(order: seq<string>, f: string -> Option<real>, r: seq<Scored>) {
    && |r| <= |order|
    && (forall x | x in r :: x.id in order && f(x.id) == Some(x.score))
    && (forall k | k in order && f(k).Some? :: k in Ids(r))
    && (forall k | k in Ids(r) :: k in order)
    && (Distinct(order) ==> Distinct(Ids(r)))
  }

  lemma SelectKeep(order: seq<string>, f: string -> Option<real>, rest: seq<Scored>)
    requires |order| > 0 && f(order[0]).Some?
    requires SelectOk(order[1..], f, rest)
    ensures SelectOk(order, f, [Scored(order[0], f(order[0]).value)] + rest)
  {
    var y := Scored(order[0], f(order[0]).value);
    assert order == [order[0]] + order[1..];
    IdsCons(y, rest);
    if Distinct(order) {
      DistinctCons(order[0], order[1..]);
      DistinctCons(y.id, Ids(rest));
    }
  }

  lemma SelectSkip(order: seq<string>, f: string -> Option<real>, rest: seq<Scored>)
    requires |order| > 0 && f(order[0]).None?
    requires SelectOk(order[1..], f, rest)
    ensures SelectOk(order, f, rest)
  {
    assert order == [order[0]] + order[1..];
    if Distinct(order) {
      DistinctCons(order[0], order[1..]);
    }
  }

  /** Any element left out of a sorted prefix is not ahead of any element in it. */
  lemma PrefixDominates(dir: Direction, s: seq<Scored>, k: nat, x: Scored)
    requires SortedBy(dir, s) && k <= |s|
    requires x in s && x !in s[..k]
    ensures forall y | y in s[..k] :: !Ahead(dir, x.score, y.score)
  {
    var j :| 0 <= j < |s| && s[j] == x;
    assert j >= k;
  }

  /** The `limit` best entries of `order` under `f`, ascending (a negative
      limit keeps all): SQL's `ORDER BY score LIMIT limit` over the rows `f`
      selects, ties kept in rowid order. */
  function Top(order: seq<string>, f: string -> Option<real>, limit: int): (r: seq<Scored>)
    ensures SortedBy(Ascending, r)
    ensures Distinct(order) ==> Distinct(Ids(r))
    ensures 0 <= limit ==> |r| <= limit
    ensures forall x | x in r :: x.id in order && f(x.id) == Some(x.score)
    ensures forall k | k in order && f(k).Some? ::
      k in Ids(r) || (|r| == limit && forall x | x in r :: x.score <= f(k).value)
  {
    var candidates := Select(order, f);
    var r := SqlLimit(Sort(Ascending, candidates), limit);
    TopSound(candidates, limit);
    TopDistinct(order, candidates, limit);
    TopComplete(order, f, limit);
    r
  }

  lemma TopSound(candidates: seq<Scored>, limit: int)
    ensures forall x | x in SqlLimit(Sort(Ascending, candidates), limit) :: x in candidates
  {
    var sorted := Sort(Ascending, candidates);
    forall x | x in SqlLimit(sorted, limit) ensures x in candidates {
      assert x in multiset(sorted);
    }
  }

  lemma TopDistinct(order: seq<string>, candidates: seq<Scored>, limit: int)
    requires Distinct(order) ==> Distinct(Ids(candidates))
    ensures Distinct(order) ==> Distinct(Ids(SqlLimit(Sort(Ascending, candidates), limit)))
  {
    var sorted := Sort(Ascending, candidates);
    var r := SqlLimit(sorted, limit);
    assert r == sorted[..|r|];
    if Distinct(order) {
      SortDistinct(Ascending, candidates);
      forall i, j | 0 <= i < j < |r| ensures Ids(r)[i] != Ids(r)[j] {
        assert Ids(sorted)[i] != Ids(sorted)[j];
      }
    }
  }

  lemma TopComplete(order: seq<string>, f: string -> Option<real>, limit: int)
    ensures var r := SqlLimit(Sort(Ascending, Select(order, f)), limit);
      forall k | k in order && f(k).Some? ::
        k in Ids(r) || (|r| == limit && forall x | x in r :: x.score <= f(k).value)
  {
    var candidates := Select(order, f);
    var sorted := Sort(Ascending, candidates);
    var r := SqlLimit(sorted, limit);
    assert r == sorted[..|r|];
    forall k | k in order && f(k).Some?
      ensures k in Ids(r) || (|r| == limit && forall x | x in r :: x.score <= f(k).value)
    {
      assert k in Ids(sorted);
      var i :| 0 <= i < |sorted| && sorted[i].id == k;
      assert sorted[i] in multiset(candidates);
      assert f(k) == Some(sorted[i].score);
      if k !in Ids(r) {
        assert sorted[i] !in r;
        PrefixDominates(Ascending, sorted, |r|, sorted[i]);
        assert |r| == limit;
      }
    }
  }

  /** Each id paired with the score `score` gives it. */
  function Label(ids: seq<string>, score: string -> real): (r: seq<Scored>)
    ensures Ids(r) == ids
    ensures forall i | 0 <= i < |r| :: r[i] == Scored(ids[i], score(ids[i]))
  {
    var r := seq(|ids|, i requires 0 <= i < |ids| => Scored(ids[i], score(ids[i])));
    assert Ids(r) == ids;
    r
  }

  lemma IdsPrefix(s: seq<Scored>, n: nat)
    requires n <= |s|
    ensures Ids(s[..n]) == Ids(s)[..n]
  {
  }

  /** A prefix of a sorted sequence is sorted. */
  lemma SortedPrefix(dir: Direction, s: seq<Scored>, n: nat)
    requires SortedBy(dir, s) && n <= |s|
    ensures SortedBy(dir, s[..n])
  {
  }

  /** `s` sorted and cut to `limit` with JavaScript's `slice(0, limit)`. */
  function Ranked(dir: Direction, s: seq<Scored>, limit: int): (r: seq<Scored>)
    ensures r <= Sort(dir, s)
    ensures SortedBy(dir, r)
    ensures Distinct(Ids(s)) ==> Distinct(Ids(r))
    ensures 0 <= limit ==> |r| <= limit
    ensures 0 <= limit && |s| <= limit ==> |r| == |s|
    ensures forall x | x in r :: x in s
    ensures forall k | k in Ids(r) :: k in Ids(s)
  {
    var sorted := Sort(dir, s);
    var r := SliceTo(sorted, limit);
    assert r == sorted[..|r|];
    assert SortedBy(dir, r) by {
      SortedPrefix(dir, sorted, |r|);
    }
    assert Ids(r) == Ids(sorted)[..|r|] by {
      IdsPrefix(sorted, |r|);
    }
    assert Distinct(Ids(s)) ==> Distinct(Ids(r)) by {
      if Distinct(Ids(s)) {
        SortDistinct(dir, s);
      }
    }
    assert forall x | x in r :: x in s by {
      forall x | x in r ensures x in s {
        assert x in multiset(sorted);
      }
    }
    assert forall k | k in Ids(r) :: k in Ids(s) by {
      forall k | k in Ids(r) ensures k in Ids(s) {
        assert k in Ids(sorted);
      }
    }
    r
  }

  /** Ties keep input order: the equal-score elements `Ranked` keeps are a
      prefix of the equal-score elements of its input, in the same order. */
  lemma RankedTiesKeepOrder(dir: Direction, s: seq<Scored>, limit: int, v: real)
    ensures WithScore(Ranked(dir, s, limit), v) <= WithScore(s, v)
  {
    var sorted := Sort(dir, s);
    var r := Ranked(dir, s, limit);
    assert r == sorted[..|r|];
    WithScorePrefix(sorted, |r|, v);
    SortIsStable(dir, s, v);
  }

  /** What `Ranked` leaves out is not ahead of anything it keeps. */
  lemma RankedKeepsBest(dir: Direction, s: seq<Scored>, limit: int, x: Scored)
    requires x in s && x !in Ranked(dir, s, limit)
    ensures forall y | y in Ranked(dir, s, limit) :: !Ahead(dir, x.score, y.score)
  {
    var sorted := Sort(dir, s);
    var r := Ranked(dir, s, limit);
    assert r == sorted[..|r|];
    assert x in multiset(s);
    assert x in sorted;
    PrefixDominates(dir, sorted, |r|, x);
  }

  /** An id listed by `Ids(s)` belongs to some element of `s`. */
  lemma IdsMember(s: seq<Scored>, k: string) returns (x: Scored)
    requires k in Ids(s)
    ensures x in s && x.id == k
  {
    var i :| 0 <= i < |s| && Ids(s)[i] == k;
    x := s[i];
  }
}
