/** Sequence helpers shared by the store, the fusion step and the packer. */
module Seqs {

  /** No element occurs twice. */
  predicate Distinct<T(==)>(s: seq<T>) {
    forall i, j | 0 <= i < j < |s| :: s[i] != s[j]
  }

  lemma DistinctCons<T>(x: T, s: seq<T>)
    ensures Distinct([x] + s) <==> x !in s && Distinct(s)
  {
    if x !in s && Distinct(s) {
      forall i, j | 0 <= i < j < |[x] + s|
        ensures ([x] + s)[i] != ([x] + s)[j]
      {
        if i == 0 {
          assert ([x] + s)[j] == s[j - 1];
        }
      }
    }
    if Distinct([x] + s) {
      forall j | 0 <= j < |s| ensures s[j] != x {
        assert ([x] + s)[0] == x && ([x] + s)[j + 1] == s[j];
      }
      forall i, j | 0 <= i < j < |s| ensures s[i] != s[j] {
        assert ([x] + s)[i + 1] == s[i] && ([x] + s)[j + 1] == s[j];
      }
    }
  }

  lemma DistinctSnoc<T>(s: seq<T>, x: T)
    requires Distinct(s) && x !in s
    ensures Distinct(s + [x])
  {
    forall i, j | 0 <= i < j < |s + [x]| ensures (s + [x])[i] != (s + [x])[j] {
      if j == |s| {
        assert (s + [x])[i] == s[i];
      }
    }
  }

  function ToSet<T(!new)>(s: seq<T>): (r: set<T>)
    ensures forall x :: x in r <==> x in s
  {
    set x | x in s
  }

  /** JavaScript's `slice(0, n)` for a non-negative `n`. */
  function Take<T>(s: seq<T>, n: nat): (r: seq<T>)
    ensures |r| == if n < |s| then n else |s|
    ensures r <= s
  {
    if n < |s| then s[..n] else s
  }

  /** JavaScript's `slice(0, n)` for any integer `n`: a negative `n`
      counts back from the end of the sequence. */
  function SliceTo<T>(s: seq<T>, n: int): (r: seq<T>)
    ensures r <= s
    ensures 0 <= n ==> |r| == if n < |s| then n else |s|
    ensures n < 0 ==> |r| == if |s| + n < 0 then 0 else |s| + n
  {
    if 0 <= n then Take(s, n)
    else if |s| + n < 0 then []
    else s[..|s| + n]
  }

  /** SQLite's `LIMIT n`: a negative limit means no limit at all. */
  function SqlLimit<T>(s: seq<T>, n: int): (r: seq<T>)
    ensures r <= s
    ensures 0 <= n ==> |r| == if n < |s| then n else |s|
    ensures n < 0 ==> r == s
  {
    if n < 0 then s else Take(s, n)
  }

  /** The elements of `s` that are in `wanted`, in the order of `s`. */
  function Keep<T(==,!new)>(s: seq<T>, wanted: set<T>): (r: seq<T>)
    ensures forall x :: x in r <==> x in s && x in wanted
    ensures |r| <= |s|
  {
    if |s| == 0 then []
    else if s[0] in wanted then [s[0]] + Keep(s[1..], wanted)
    else Keep(s[1..], wanted)
  }

  lemma KeepNothing<T(!new)>(s: seq<T>)
    ensures Keep(s, {}) == []
  {
  }

  /** The elements of `s` that are not in `gone`, in their original order. */
  function Without<T(==,!new)>(s: seq<T>, gone: set<T>): (r: seq<T>)
    ensures forall x :: x in r <==> x in s && x !in gone
    ensures Distinct(s) ==> Distinct(r)
    ensures |r| <= |s|
  {
    if |s| == 0 then []
    else if s[0] in gone then Without(s[1..], gone)
    else [s[0]] + Without(s[1..], gone)
  }

  /** A sequence without repetitions has as many elements as its set. */
  lemma {:induction false} DistinctCardinality<T(!new)>(s: seq<T>)
    requires Distinct(s)
    ensures |ToSet(s)| == |s|
  {
    if |s| > 0 {
      DistinctCardinality(s[1..]);
      assert ToSet(s) == ToSet(s[1..]) + {s[0]};
      assert s[0] !in ToSet(s[1..]);
    }
  }

  /** Moving the head of `b` onto the end of `a` leaves the concatenation alone. */
  lemma AppendHead<T>(a: seq<T>, b: seq<T>)
    requires |b| > 0
    ensures (a + [b[0]]) + b[1..] == a + b
  {
  }

  lemma EmptyAppend<T>(s: seq<T>)
    ensures [] + s == s
  {
  }

  lemma {:induction false} SubsetCardinality<T>(a: set<T>, b: set<T>)
    requires a <= b
    ensures |a| <= |b|
    decreases |a|
  {
    if a != {} {
      var x :| x in a;
      SubsetCardinality(a - {x}, b - {x});
    }
  }

  /** A duplicate-free sequence drawn from `universe` is no longer than it. */
  lemma DistinctWithin<T(!new)>(s: seq<T>, universe: seq<T>)
    requires Distinct(s) && Distinct(universe)
    requires forall x | x in s :: x in universe
    ensures |s| <= |universe|
  {
    DistinctCardinality(s);
    DistinctCardinality(universe);
    assert ToSet(s) <= ToSet(universe);
    SubsetCardinality(ToSet(s), ToSet(universe));
  }
}
