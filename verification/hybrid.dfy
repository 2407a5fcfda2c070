/** Hybrid retrieval (src/retrieval/hybrid.ts): a lexical and a vector
    search, min-max normalisation of each side, averaging over the union of
    candidates, a stable descending sort, truncation and the fetch of the
    winning records. */
module Hybrid {
  import opened Wrappers
  import opened Seqs
  import opened MemoryTypes
  import opened Ranking
  import opened MemoryStore
  import opened Embeddings

  const DefaultLimit: int := 10
  const MaxLimit: int := 50

  datatype RetrieveOptions = RetrieveOptions(limit: Option<int>, types: Option<seq<MemoryType>>)

  /** `Math.min(options.limit ?? 10, 50)`. */
  function EffectiveLimit(opts: RetrieveOptions): (n: int)
    ensures n <= MaxLimit
    ensures opts.limit.None? ==> n == DefaultLimit
    ensures opts.limit.Some? && opts.limit.value <= MaxLimit ==> n == opts.limit.value
    ensures opts.limit.Some? && opts.limit.value > MaxLimit ==> n == MaxLimit
  {
    var l := opts.limit.GetOr(DefaultLimit);
    if l < MaxLimit then l else MaxLimit
  }

  function Min(s: seq<real>): (m: real)
    requires |s| > 0
    ensures m in s
    ensures forall i | 0 <= i < |s| :: m <= s[i]
  {
    if |s| == 1 then s[0]
    else
      var m := Min(s[1..]);
      assert s == [s[0]] + s[1..];
      if s[0] < m then s[0] else m
  }

  function Max(s: seq<real>): (m: real)
    requires |s| > 0
    ensures m in s
    ensures forall i | 0 <= i < |s| :: s[i] <= m
  {
    if |s| == 1 then s[0]
    else
      var m := Max(s[1..]);
      assert s == [s[0]] + s[1..];
      if s[0] > m then s[0] else m
  }

  /** `(s - lo) / range`, or its complement when `reverse`. */
  function Rescale(s: real, lo: real, range: real, reverse: bool): real
    requires range > 0.0
  {
    if reverse then 1.0 - (s - lo) / range else (s - lo) / range
  }

  lemma DivBounds(x: real, y: real)
    requires y > 0.0 && 0.0 <= x <= y
    ensures 0.0 <= x / y <= 1.0
  {
  }

  lemma DivMonotone(x: real, z: real, y: real)
    requires y > 0.0 && x <= z
    ensures x / y <= z / y
  {
  }

  lemma RescaleFacts(s: real, t: real, lo: real, hi: real, range: real, reverse: bool)
    requires lo <= s <= hi && lo <= t <= hi && range > 0.0
    requires range == hi - lo || (hi == lo && range == 1.0)
    ensures 0.0 <= Rescale(s, lo, range, reverse) <= 1.0
    ensures s <= t ==> (if reverse then Rescale(t, lo, range, reverse) <= Rescale(s, lo, range, reverse)
                        else Rescale(s, lo, range, reverse) <= Rescale(t, lo, range, reverse))
  {
    DivBounds(s - lo, range);
    if s <= t {
      DivMonotone(s - lo, t - lo, range);
    }
  }

  lemma RescaleBottom(lo: real, range: real, reverse: bool)
    requires range > 0.0
    ensures Rescale(lo, lo, range, reverse) == if reverse then 1.0 else 0.0
  {
    assert 0.0 / range == 0.0;
  }

  lemma RescaleTop(lo: real, hi: real, reverse: bool)
    requires lo < hi
    ensures Rescale(hi, lo, hi - lo, reverse) == if reverse then 0.0 else 1.0
  {
    assert (hi - lo) / (hi - lo) == 1.0;
  }

  /** The divisor `minMaxNorm` uses: `max - min || 1`. */
  function Range(scores: seq<real>): (range: real)
    requires |scores| > 0
    ensures range > 0.0
    ensures Min(scores) < Max(scores) ==> range == Max(scores) - Min(scores)
    ensures Min(scores) == Max(scores) ==> range == 1.0
  {
    if Max(scores) - Min(scores) == 0.0 then 1.0 else Max(scores) - Min(scores)
  }

  /** Every score rescaled against the same minimum and range. */
  function Normalize(scores: seq<real>, lo: real, range: real, reverse: bool): (r: seq<real>)
    requires range > 0.0
    ensures |r| == |scores|
    ensures forall i | 0 <= i < |scores| :: r[i] == Rescale(scores[i], lo, range, reverse)
  {
    seq(|scores|, i requires 0 <= i < |scores| => Rescale(scores[i], lo, range, reverse))
  }

  lemma NormalizeBounds(scores: seq<real>, reverse: bool)
    requires |scores| > 0
    ensures var r := Normalize(scores, Min(scores), Range(scores), reverse);
      forall i | 0 <= i < |r| :: 0.0 <= r[i] <= 1.0
  {
    forall i | 0 <= i < |scores|
      ensures 0.0 <= Rescale(scores[i], Min(scores), Range(scores), reverse) <= 1.0
    {
      RescaleFacts(scores[i], scores[i], Min(scores), Max(scores), Range(scores), reverse);
    }
  }

  lemma NormalizeEnds(scores: seq<real>, reverse: bool)
    requires |scores| > 0
    ensures var r := Normalize(scores, Min(scores), Range(scores), reverse);
      && (forall i | 0 <= i < |r| && scores[i] == Min(scores) :: r[i] == if reverse then 1.0 else 0.0)
      && (forall i | 0 <= i < |r| && scores[i] == Max(scores) && Min(scores) < Max(scores) ::
            r[i] == if reverse then 0.0 else 1.0)
  {
    NormalizeEndsWith(scores, Min(scores), Max(scores), Range(scores), reverse);
  }

  lemma NormalizeEndsWith(scores: seq<real>, lo: real, hi: real, range: real, reverse: bool)
    requires range > 0.0 && (lo < hi ==> range == hi - lo)
    ensures var r := Normalize(scores, lo, range, reverse);
      && (forall i | 0 <= i < |r| && scores[i] == lo :: r[i] == if reverse then 1.0 else 0.0)
      && (forall i | 0 <= i < |r| && scores[i] == hi && lo < hi :: r[i] == if reverse then 0.0 else 1.0)
  {
    RescaleBottom(lo, range, reverse);
    if lo < hi {
      RescaleTop(lo, hi, reverse);
    }
  }

  lemma NormalizeOrder(scores: seq<real>, reverse: bool)
    requires |scores| > 0
    ensures var r := Normalize(scores, Min(scores), Range(scores), reverse);
      forall i, j | 0 <= i < |r| && 0 <= j < |r| && scores[i] <= scores[j] ::
        if reverse then r[j] <= r[i] else r[i] <= r[j]
  {
    forall i, j | 0 <= i < |scores| && 0 <= j < |scores| && scores[i] <= scores[j]
      ensures var a := Rescale(scores[i], Min(scores), Range(scores), reverse);
        var b := Rescale(scores[j], Min(scores), Range(scores), reverse);
        if reverse then b <= a else a <= b
    {
      RescaleFacts(scores[i], scores[j], Min(scores), Max(scores), Range(scores), reverse);
    }
  }

  /** `minMaxNorm`: maps each score into [0, 1] by min-max normalisation;
      with `reverse` the smallest score becomes 1 and the largest 0. A
      constant sequence (one candidate included) falls back to a range of 1,
      so every score is then 1 when reversed. The order of scores is kept,
      or reversed with `reverse`. */
  function MinMaxNorm(scores: seq<real>, reverse: bool): (r: seq<real>)
    ensures |r| == |scores|
    ensures forall i | 0 <= i < |r| :: 0.0 <= r[i] <= 1.0
    ensures forall i | 0 <= i < |r| && scores[i] == Min(scores) :: r[i] == if reverse then 1.0 else 0.0
    ensures forall i | 0 <= i < |r| && scores[i] == Max(scores) && Min(scores) < Max(scores) ::
      r[i] == if reverse then 0.0 else 1.0
    ensures (forall i | 0 <= i < |scores| :: scores[i] == scores[0]) ==>
      forall i | 0 <= i < |r| :: r[i] == if reverse then 1.0 else 0.0
  {
    if |scores| == 0 then []
    else
      NormalizeBounds(scores, reverse);
      NormalizeEnds(scores, reverse);
      Normalize(scores, Min(scores), Range(scores), reverse)
  }

  /** `minMaxNorm` keeps the order of the scores, or reverses it with
      `reverse`. */
  lemma MinMaxNormOrder(scores: seq<real>, reverse: bool)
    ensures var r := MinMaxNorm(scores, reverse);
      forall i, j | 0 <= i < |r| && 0 <= j < |r| && scores[i] <= scores[j] ::
        if reverse then r[j] <= r[i] else r[i] <= r[j]
  {
    if |scores| > 0 {
      NormalizeOrder(scores, reverse);
    }
  }

  /** JavaScript `Map.prototype.set` on a map kept as its entry list: an
      existing key keeps its position and takes the new value, a new key is
      appended. */
  function MapSet(m: seq<Scored>, x: Scored): (r: seq<Scored>)
    ensures MapSetOk(m, x, r)
  {
    if |m| == 0 then
      assert Ids([x]) == [x.id];
      [x]
    else if m[0].id == x.id then
      MapSetReplace(m, x);
      [x] + m[1..]
    else
      var rest := MapSet(m[1..], x);
      MapSetSkip(m, x, rest);
      [m[0]] + rest
  }

  /** What `Map.prototype.set` does to the entry list: the key set gains
      the key, distinct keys stay distinct, and a new key goes at the end. */
  ghost predicate MapSetOk(m: seq<Scored>, x: Scored, r: seq<Scored>) {
    && (forall k :: k in Ids(r) <==> k == x.id || k in Ids(m))
    && (Distinct(Ids(m)) ==> Distinct(Ids(r)))
    && (x.id !in Ids(m) ==> r == m + [x])
  }

  lemma MapSetReplace(m: seq<Scored>, x: Scored)
    requires |m| > 0 && m[0].id == x.id
    ensures MapSetOk(m, x, [x] + m[1..])
  {
    assert Ids(m) == [m[0].id] + Ids(m[1..]);
    IdsCons(x, m[1..]);
    DistinctCons(m[0].id, Ids(m[1..]));
  }

  lemma MapSetSkip(m: seq<Scored>, x: Scored, rest: seq<Scored>)
    requires |m| > 0 && m[0].id != x.id
    requires MapSetOk(m[1..], x, rest)
    ensures MapSetOk(m, x, [m[0]] + rest)
  {
    assert Ids(m) == [m[0].id] + Ids(m[1..]);
    SkipKeys(m, x, rest);
    if Distinct(Ids(m)) {
      SkipDistinct(m, x, rest);
    }
    if x.id !in Ids(m) {
      SkipAppends(m, x, rest);
    }
  }

  lemma SkipKeys(m: seq<Scored>, x: Scored, rest: seq<Scored>)
    requires |m| > 0
    requires forall k :: k in Ids(rest) <==> k == x.id || k in Ids(m[1..])
    ensures forall k :: k in Ids([m[0]] + rest) <==> k == x.id || k in Ids(m)
  {
    assert Ids(m) == [m[0].id] + Ids(m[1..]);
    IdsCons(m[0], rest);
  }

  lemma SkipDistinct(m: seq<Scored>, x: Scored, rest: seq<Scored>)
    requires |m| > 0 && m[0].id != x.id && Distinct(Ids(m))
    requires forall k :: k in Ids(rest) <==> k == x.id || k in Ids(m[1..])
    requires Distinct(Ids(m[1..])) ==> Distinct(Ids(rest))
    ensures Distinct(Ids([m[0]] + rest))
  {
    assert Ids(m) == [m[0].id] + Ids(m[1..]);
    DistinctCons(m[0].id, Ids(m[1..]));
    assert m[0].id !in Ids(rest);
    IdsCons(m[0], rest);
    DistinctCons(m[0].id, Ids(rest));
  }

  lemma SkipAppends(m: seq<Scored>, x: Scored, rest: seq<Scored>)
    requires |m| > 0 && x.id !in Ids(m)
    requires x.id !in Ids(m[1..]) ==> rest == m[1..] + [x]
    ensures [m[0]] + rest == m + [x]
  {
    assert x.id !in Ids(m[1..]) by {
      assert Ids(m) == [m[0].id] + Ids(m[1..]);
    }
    assert m + [x] == [m[0]] + (m[1..] + [x]) by {
      assert m == [m[0]] + m[1..];
    }
  }

  /** The entry list of a JavaScript Map after `set` is called with each of
      `entries` in turn, starting from `acc`. */
  function MapFrom(acc: seq<Scored>, entries: seq<Scored>): (r: seq<Scored>)
    ensures forall k :: k in Ids(r) <==> k in Ids(acc) || k in Ids(entries)
    ensures Distinct(Ids(acc)) ==> Distinct(Ids(r))
    decreases |entries|
  {
    if |entries| == 0 then acc
    else
      assert Ids(entries) == [entries[0].id] + Ids(entries[1..]);
      MapFrom(MapSet(acc, entries[0]), entries[1..])
  }

  /** `new Map()` filled with `entries` in order. */
  function ToMap(entries: seq<Scored>): (r: seq<Scored>)
    ensures forall k :: k in Ids(r) <==> k in Ids(entries)
    ensures Distinct(Ids(r))
  {
    MapFrom([], entries)
  }

  /** Entries whose ids are already distinct pass through a Map unchanged. */
  lemma {:induction false} MapFromDistinct(acc: seq<Scored>, entries: seq<Scored>)
    requires Distinct(Ids(acc)) && Distinct(Ids(entries))
    requires forall k | k in Ids(entries) :: k !in Ids(acc)
    ensures MapFrom(acc, entries) == acc + entries
    decreases |entries|
  {
    if |entries| > 0 {
      var e := entries[0];
      var rest := entries[1..];
      var next := acc + [e];
      assert MapSet(acc, e) == next by {
        assert e.id in Ids(entries);
      }
      assert Distinct(Ids(rest)) && e.id !in Ids(rest) by {
        assert Ids(entries) == [e.id] + Ids(rest);
        DistinctCons(e.id, Ids(rest));
      }
      assert Distinct(Ids(next)) && forall k | k in Ids(next) :: k in Ids(acc) || k == e.id by {
        assert e.id in Ids(entries);
        assert MapSet(acc, e) == next;
      }
      assert forall k | k in Ids(rest) :: k !in Ids(next) by {
        forall k | k in Ids(rest) ensures k !in Ids(next) {
          assert Ids(entries) == [e.id] + Ids(rest);
          assert k in Ids(entries);
        }
      }
      assert MapFrom(acc, entries) == MapFrom(next, rest);
      MapFromDistinct(next, rest);
      AppendHead(acc, entries);
    }
  }

  lemma ToMapDistinct(entries: seq<Scored>)
    requires Distinct(Ids(entries))
    ensures ToMap(entries) == entries
  {
    assert Ids([]) == [];
    MapFromDistinct([], entries);
    EmptyAppend(entries);
  }

  /** `map.get(k)`: the score of the first entry with id `k`. */
  function Lookup(m: seq<Scored>, k: string): (r: Option<real>)
    ensures r.Some? <==> k in Ids(m)
    ensures r.Some? ==> Scored(k, r.value) in m
  {
    if |m| == 0 then None
    else if m[0].id == k then Some(m[0].score)
    else
      assert Ids(m) == [m[0].id] + Ids(m[1..]);
      Lookup(m[1..], k)
  }

  lemma {:induction false} LookupDistinct(m: seq<Scored>, i: nat)
    requires Distinct(Ids(m)) && i < |m|
    ensures Lookup(m, m[i].id) == Some(m[i].score)
    decreases i
  {
    if i > 0 {
      assert Ids(m)[0] != Ids(m)[i];
      assert m[0].id != m[i].id;
      assert m[1..][i - 1] == m[i];
      assert Ids(m) == [m[0].id] + Ids(m[1..]);
      DistinctCons(m[0].id, Ids(m[1..]));
      LookupDistinct(m[1..], i - 1);
    }
  }

  function Scores(m: seq<Scored>): (r: seq<real>)
    ensures |r| == |m|
    ensures forall i | 0 <= i < |m| :: r[i] == m[i].score
  {
    seq(|m|, i requires 0 <= i < |m| => m[i].score)
  }

  /** A side's candidates with their reversed min-max normalised scores:
      the best (lowest) rank or distance of the side becomes 1. */
  function Normalized(m: seq<Scored>): (r: seq<Scored>)
    ensures |r| == |m| && Ids(r) == Ids(m)
    ensures forall x | x in r :: 0.0 <= x.score <= 1.0
    ensures forall i | 0 <= i < |m| && m[i].score == Min(Scores(m)) :: r[i].score == 1.0
    ensures forall i | 0 <= i < |m| && m[i].score == Max(Scores(m)) && Min(Scores(m)) < Max(Scores(m)) ::
      r[i].score == 0.0
    ensures forall i, j | 0 <= i < |m| && 0 <= j < |m| && m[i].score <= m[j].score :: r[j].score <= r[i].score
  {
    var s := Scores(m);
    var norm := MinMaxNorm(s, true);
    if |m| == 0 then []
    else
      RescoredFacts(m, s, norm, Min(s), Max(s));
      RescoredOrder(m, s);
      Rescored(m, norm)
  }

  /** A better (lower) score never gets a lower normalised score once the
      scores are put back on their candidates. */
  lemma RescoredOrder(m: seq<Scored>, s: seq<real>)
    requires |s| == |m|
    requires forall i | 0 <= i < |m| :: s[i] == m[i].score
    ensures var r := Rescored(m, MinMaxNorm(s, true));
      forall i, j | 0 <= i < |m| && 0 <= j < |m| && m[i].score <= m[j].score :: r[j].score <= r[i].score
  {
    MinMaxNormOrder(s, true);
  }

  /** Scores that pass the bounds and the ends of `minMaxNorm` pass them
      once put back on their candidates. */
  lemma RescoredFacts(m: seq<Scored>, s: seq<real>, norm: seq<real>, lo: real, hi: real)
    requires |s| == |m| && |norm| == |m|
    requires forall i | 0 <= i < |m| :: s[i] == m[i].score
    requires forall i | 0 <= i < |norm| :: 0.0 <= norm[i] <= 1.0
    requires forall i | 0 <= i < |norm| && s[i] == lo :: norm[i] == 1.0
    requires forall i | 0 <= i < |norm| && s[i] == hi && lo < hi :: norm[i] == 0.0
    ensures var r := Rescored(m, norm);
      && (forall x | x in r :: 0.0 <= x.score <= 1.0)
      && (forall i | 0 <= i < |m| && m[i].score == lo :: r[i].score == 1.0)
      && (forall i | 0 <= i < |m| && m[i].score == hi && lo < hi :: r[i].score == 0.0)
  {
    var r := Rescored(m, norm);
    forall x | x in r ensures 0.0 <= x.score <= 1.0 {
      var i :| 0 <= i < |r| && r[i] == x;
    }
  }

  /** The candidates of `m`, in order, with the scores of `norm`. */
  function Rescored(m: seq<Scored>, norm: seq<real>): (r: seq<Scored>)
    requires |norm| == |m|
    ensures |r| == |m|
    ensures Ids(r) == Ids(m)
    ensures forall i | 0 <= i < |m| :: r[i] == Scored(m[i].id, norm[i])
  {
    var r := seq(|m|, i requires 0 <= i < |m| => Scored(m[i].id, norm[i]));
    assert Ids(r) == Ids(m);
    r
  }

  /** The ids of `a` followed by those of `b` not already in `a`: the
      insertion order of `new Set([...a, ...b])`. */
  function UnionIds(a: seq<string>, b: seq<string>): (r: seq<string>)
    ensures forall k :: k in r <==> k in a || k in b
    ensures a <= r
    ensures Distinct(a) && Distinct(b) ==> Distinct(r)
  {
    var rest := Without(b, ToSet(a));
    var r := a + rest;
    assert Distinct(a) && Distinct(b) ==> Distinct(r) by {
      if Distinct(a) && Distinct(b) {
        forall i, j | 0 <= i < j < |r| ensures r[i] != r[j] {
          if i < |a| && j >= |a| {
            assert r[j] in rest;
          }
        }
      }
    }
    r
  }

  /** The normalised score a side gives `k`, 0 when `k` is not on that side. */
  function SideScore(side: seq<Scored>, k: string): (v: real)
    ensures 0.0 <= v <= 1.0
    ensures k !in Ids(side) ==> v == 0.0
    ensures Distinct(Ids(side)) ==> forall i | 0 <= i < |side| && side[i].id == k :: v == Normalized(side)[i].score
  {
    SideScoreDistinct(side, k);
    match Lookup(Normalized(ToMap(side)), k)
    case Some(v) => v
    case None => 0.0
  }

  /** On a side without repeated ids, the normalised map holds each
      candidate's own normalised score. */
  lemma SideScoreDistinct(side: seq<Scored>, k: string)
    ensures Distinct(Ids(side)) ==>
      forall i | 0 <= i < |side| && side[i].id == k :: Lookup(Normalized(ToMap(side)), k) == Some(Normalized(side)[i].score)
  {
    if Distinct(Ids(side)) {
      ToMapDistinct(side);
      var norm := Normalized(side);
      forall i | 0 <= i < |side| && side[i].id == k
        ensures Lookup(norm, k) == Some(norm[i].score)
      {
        assert norm[i].id == Ids(norm)[i] == Ids(side)[i] == k;
        LookupDistinct(norm, i);
      }
    }
  }

  /** A better (lower) rank or distance on a side never yields a lower side
      score. */
  lemma SideScoreOrder(side: seq<Scored>, i: nat, j: nat)
    requires Distinct(Ids(side)) && i < |side| && j < |side|
    requires side[i].score <= side[j].score
    ensures SideScore(side, side[j].id) <= SideScore(side, side[i].id)
  {
  }

  /** The fused candidates, in union order (lexical ids in lexical order,
      then vector-only ids), each scored by the mean of its two normalised
      scores. */
  function Candidates(lexical: seq<Scored>, vector: seq<Scored>): (r: seq<Scored>)
    ensures Ids(r) == UnionIds(Ids(ToMap(lexical)), Ids(ToMap(vector)))
    ensures Distinct(Ids(r))
    ensures forall k :: k in Ids(r) <==> k in Ids(lexical) || k in Ids(vector)
    ensures forall x | x in r :: x.score == (SideScore(lexical, x.id) + SideScore(vector, x.id)) / 2.0
    ensures forall x | x in r :: 0.0 <= x.score <= 1.0
  {
    var all := UnionIds(Ids(ToMap(lexical)), Ids(ToMap(vector)));
    Label(all, k => (SideScore(lexical, k) + SideScore(vector, k)) / 2.0)
  }

  /** The fused ranking: candidates sorted by descending fused score (ties
      in union order) and cut to `limit` with `slice(0, limit)`. */
  function FusedRanking(lexical: seq<Scored>, vector: seq<Scored>, limit: int): (r: seq<Scored>)
    ensures r <= Sort(Descending, Candidates(lexical, vector))
    ensures SortedBy(Descending, r)
    ensures Distinct(Ids(r))
    ensures 0 <= limit ==> |r| <= limit
    ensures forall x | x in r :: x in Candidates(lexical, vector)
    ensures forall k | k in Ids(r) :: k in Ids(Candidates(lexical, vector))
    ensures 0 <= limit && |Candidates(lexical, vector)| <= limit ==> |r| == |Candidates(lexical, vector)|
  {
    Ranked(Descending, Candidates(lexical, vector), limit)
  }

  /** The ranking's scores are fused scores in [0, 1] of ids found by either
      search, and when the limit admits every candidate, every id found by
      either search is ranked. */
  lemma FusedRankingContents(lexical: seq<Scored>, vector: seq<Scored>, limit: int)
    ensures forall x | x in FusedRanking(lexical, vector, limit) :: 0.0 <= x.score <= 1.0
    ensures forall x | x in FusedRanking(lexical, vector, limit) ::
      x.score == (SideScore(lexical, x.id) + SideScore(vector, x.id)) / 2.0
    ensures forall k | k in Ids(FusedRanking(lexical, vector, limit)) :: k in Ids(lexical) || k in Ids(vector)
    ensures 0 <= limit && |Candidates(lexical, vector)| <= limit ==>
      forall k :: k in Ids(FusedRanking(lexical, vector, limit)) <==> k in Ids(lexical) || k in Ids(vector)
  {
    var candidates := Candidates(lexical, vector);
    var r := FusedRanking(lexical, vector, limit);
    if 0 <= limit && |candidates| <= limit {
      var sorted := Sort(Descending, candidates);
      assert r == sorted;
    }
  }

  /** Ties keep union order: among candidates of equal fused score, the
      ranking lists a prefix of them in the order the union produced them. */
  lemma FusedTiesKeepUnionOrder(lexical: seq<Scored>, vector: seq<Scored>, limit: int, v: real)
    ensures WithScore(FusedRanking(lexical, vector, limit), v) <= WithScore(Candidates(lexical, vector), v)
  {
    RankedTiesKeepOrder(Descending, Candidates(lexical, vector), limit, v);
  }

  /** Nothing left out of the ranking scores above anything in it. */
  lemma FusedRankingKeepsBest(lexical: seq<Scored>, vector: seq<Scored>, limit: int, x: Scored)
    requires x in Candidates(lexical, vector) && x !in FusedRanking(lexical, vector, limit)
    ensures forall y | y in FusedRanking(lexical, vector, limit) :: x.score <= y.score
  {
    RankedKeepsBest(Descending, Candidates(lexical, vector), limit, x);
  }

  /** A record whose indexed text matches the sanitised query. */
  predicate LexicalHit(st: Store, backend: SearchBackend, query: string, k: string)
    requires k in st.records
  {
    backend.rank(SanitizeQuery(query), IndexedColumns(st.records[k])).Some?
  }

  /** What every retrieved id is: a stored record that passes the kind
      filter and either matches the query or has an embedding. */
  predicate Retrievable(st: Store, backend: SearchBackend, query: string, types: Option<seq<MemoryType>>, k: string) {
    && k in st.records
    && PassesFilter(types, st.records[k].kind)
    && (LexicalHit(st, backend, query, k) || st.records[k].embedding.Some?)
  }

  /** The vector side of retrieval: empty when the query cannot be embedded
      or when the vector search throws (the source swallows both), and, as
      the search binds its parameters, empty whenever a kind filter is
      given. */
  function VectorSide(st: Store, backend: SearchBackend, embed: Embedder, query: string, limit: int, types: Option<seq<MemoryType>>)
    : (r: seq<Scored>)
    requires Valid(st)
    ensures embed(query).None? ==> r == []
    ensures embed(query).Some? && VectorSearch(st, backend, embed(query).value, limit, types).None? ==> r == []
    ensures embed(query).Some? && VectorSearch(st, backend, embed(query).value, limit, types).Some? ==>
      r == VectorSearch(st, backend, embed(query).value, limit, types).value
    ensures Filtered(types) ==> r == []
    ensures Distinct(Ids(r))
    ensures forall x | x in r ::
      && x.id in st.records
      && PassesFilter(types, st.records[x.id].kind)
      && st.records[x.id].embedding.Some?
  {
    match embed(query)
    case None => []
    case Some(v) =>
      match VectorSearch(st, backend, v, limit, types)
      case None => []
      case Some(hits) => hits
  }

  /** The vector side contributes nothing: the provider cannot embed the
      query, a kind filter is given, or the vector search throws (a
      dimension mismatch, say). */
  predicate VectorUnavailable(st: Store, backend: SearchBackend, embed: Embedder, query: string, limit: int, types: Option<seq<MemoryType>>)
    requires Valid(st)
  {
    embed(query).None? || Filtered(types) || VectorSearch(st, backend, embed(query).value, limit, types).None?
  }

  /** Fusing lexical hits with records that have an embedding ranks only
      retrievable ids, and only lexical hits when the vector side is empty. */
  lemma FusedRetrievable(st: Store, backend: SearchBackend, query: string, types: Option<seq<MemoryType>>,
                         lexical: seq<Scored>, vector: seq<Scored>, limit: int)
    requires forall x | x in lexical ::
      x.id in st.records && PassesFilter(types, st.records[x.id].kind) && LexicalHit(st, backend, query, x.id)
    requires forall x | x in vector ::
      x.id in st.records && PassesFilter(types, st.records[x.id].kind) && st.records[x.id].embedding.Some?
    ensures forall k | k in Ids(FusedRanking(lexical, vector, limit)) :: Retrievable(st, backend, query, types, k)
    ensures vector == [] ==>
      forall k | k in Ids(FusedRanking(lexical, vector, limit)) :: k in st.records && LexicalHit(st, backend, query, k)
  {
    var top := Ids(FusedRanking(lexical, vector, limit));
    FusedRankingContents(lexical, vector, limit);
    SidesRetrievable(st, backend, query, types, lexical, vector, top);
    if vector == [] {
      assert Ids(vector) == [];
      LexicalOnly(st, backend, query, types, lexical, top);
    }
  }

  lemma SidesRetrievable(st: Store, backend: SearchBackend, query: string, types: Option<seq<MemoryType>>,
                         lexical: seq<Scored>, vector: seq<Scored>, top: seq<string>)
    requires forall x | x in lexical ::
      x.id in st.records && PassesFilter(types, st.records[x.id].kind) && LexicalHit(st, backend, query, x.id)
    requires forall x | x in vector ::
      x.id in st.records && PassesFilter(types, st.records[x.id].kind) && st.records[x.id].embedding.Some?
    requires forall k | k in top :: k in Ids(lexical) || k in Ids(vector)
    ensures forall k | k in top :: Retrievable(st, backend, query, types, k)
  {
    forall k | k in top ensures Retrievable(st, backend, query, types, k) {
      if k in Ids(lexical) {
        var x := IdsMember(lexical, k);
      } else {
        var x := IdsMember(vector, k);
      }
    }
  }

  lemma LexicalOnly(st: Store, backend: SearchBackend, query: string, types: Option<seq<MemoryType>>,
                    lexical: seq<Scored>, top: seq<string>)
    requires forall x | x in lexical ::
      x.id in st.records && PassesFilter(types, st.records[x.id].kind) && LexicalHit(st, backend, query, x.id)
    requires forall k | k in top :: k in Ids(lexical)
    ensures forall k | k in top :: k in st.records && LexicalHit(st, backend, query, k)
  {
    forall k | k in top ensures k in st.records && LexicalHit(st, backend, query, k) {
      var x := IdsMember(lexical, k);
    }
  }

  /** The fused ranking `retrieveRelevantMemory` computes before fetching:
      both searches run with twice the effective limit, and the fused list
      is cut to the effective limit. A malformed lexical query fails the
      whole retrieval. */
  function FusedTop(st: Store, backend: SearchBackend, embed: Embedder, query: string, opts: RetrieveOptions)
    : (r: Result<seq<Scored>, StoreError>)
    requires Valid(st)
    ensures r.Failure? <==> FtsSearch(st, backend, query, 2 * EffectiveLimit(opts), opts.types).Failure?
    ensures r.Success? ==> r.value == FusedRanking(
      FtsSearch(st, backend, query, 2 * EffectiveLimit(opts), opts.types).value,
      VectorSide(st, backend, embed, query, 2 * EffectiveLimit(opts), opts.types),
      EffectiveLimit(opts))
    ensures r.Success? ==> SortedBy(Descending, r.value) && Distinct(Ids(r.value))
    ensures r.Success? ==> forall x | x in r.value :: 0.0 <= x.score <= 1.0
    ensures r.Success? && 0 <= EffectiveLimit(opts) ==> |r.value| <= EffectiveLimit(opts)
    ensures r.Success? ==> forall k | k in Ids(r.value) :: Retrievable(st, backend, query, opts.types, k)
    ensures r.Success? && VectorUnavailable(st, backend, embed, query, 2 * EffectiveLimit(opts), opts.types) ==>
      forall k | k in Ids(r.value) :: k in st.records && LexicalHit(st, backend, query, k)
  {
    var limit := EffectiveLimit(opts);
    match FtsSearch(st, backend, query, 2 * limit, opts.types)
    case Failure(e) => Failure(e)
    case Success(lexical) =>
      var vector := VectorSide(st, backend, embed, query, 2 * limit, opts.types);
      var top := FusedRanking(lexical, vector, limit);
      assert forall x | x in lexical ::
        x.id in st.records && PassesFilter(opts.types, st.records[x.id].kind) && LexicalHit(st, backend, query, x.id);
      FusedRetrievable(st, backend, query, opts.types, lexical, vector, limit);
      FusedRankingContents(lexical, vector, limit);
      Success(top)
  }
  /** Each fused score is the mean of the candidate's normalised lexical
      and vector scores. */
  lemma FusedTopScores(st: Store, backend: SearchBackend, embed: Embedder, query: string, opts: RetrieveOptions)
    requires Valid(st)
    ensures FusedTop(st, backend, embed, query, opts).Success? ==>
      var lexical := FtsSearch(st, backend, query, 2 * EffectiveLimit(opts), opts.types).value;
      var vector := VectorSide(st, backend, embed, query, 2 * EffectiveLimit(opts), opts.types);
      forall x | x in FusedTop(st, backend, embed, query, opts).value ::
        x.score == (SideScore(lexical, x.id) + SideScore(vector, x.id)) / 2.0
  {
    var limit := EffectiveLimit(opts);
    if FusedTop(st, backend, embed, query, opts).Success? {
      var lexical := FtsSearch(st, backend, query, 2 * limit, opts.types).value;
      var vector := VectorSide(st, backend, embed, query, 2 * limit, opts.types);
      FusedRankingContents(lexical, vector, limit);
    }
  }

  /** When every candidate fits under the limit, every record that matches
      a non-blank query and passes the kind filter is ranked, and so is
      every record the vector side found. */
  lemma FusedTopKeepsMatches(st: Store, backend: SearchBackend, embed: Embedder, query: string, opts: RetrieveOptions)
    requires Valid(st)
    ensures var limit := EffectiveLimit(opts);
      var fts := FtsSearch(st, backend, query, 2 * limit, opts.types);
      var vector := VectorSide(st, backend, embed, query, 2 * limit, opts.types);
      fts.Success? && 0 < limit && |Candidates(fts.value, vector)| <= limit ==>
        && (forall k | k in Ids(vector) :: k in Ids(FusedTop(st, backend, embed, query, opts).value))
        && (SanitizeQuery(query) != [] ==>
              forall k | k in st.records && PassesFilter(opts.types, st.records[k].kind) && LexicalHit(st, backend, query, k) ::
                k in Ids(FusedTop(st, backend, embed, query, opts).value))
  {
    var limit := EffectiveLimit(opts);
    var fts := FtsSearch(st, backend, query, 2 * limit, opts.types);
    var vector := VectorSide(st, backend, embed, query, 2 * limit, opts.types);
    if fts.Success? && 0 < limit && |Candidates(fts.value, vector)| <= limit {
      FusedRankingContents(fts.value, vector, limit);
      DistinctWithin(Ids(fts.value), Ids(Candidates(fts.value, vector)));
      assert |fts.value| < 2 * limit;
    }
  }

  /** Ties keep union order in the retrieved ranking too: records of equal
      fused score appear in the order lexical hits, then vector-only hits,
      were first found. */
  lemma FusedTopTiesKeepUnionOrder(st: Store, backend: SearchBackend, embed: Embedder, query: string, opts: RetrieveOptions, v: real)
    requires Valid(st)
    ensures var limit := EffectiveLimit(opts);
      var fts := FtsSearch(st, backend, query, 2 * limit, opts.types);
      var vector := VectorSide(st, backend, embed, query, 2 * limit, opts.types);
      fts.Success? ==>
        WithScore(FusedTop(st, backend, embed, query, opts).value, v) <= WithScore(Candidates(fts.value, vector), v)
  {
    var limit := EffectiveLimit(opts);
    var fts := FtsSearch(st, backend, query, 2 * limit, opts.types);
    var vector := VectorSide(st, backend, embed, query, 2 * limit, opts.types);
    if fts.Success? {
      FusedTiesKeepUnionOrder(fts.value, vector, limit, v);
    }
  }


  /** `retrieveRelevantMemory` as written: the ranked ids are handed to
      `getAllByIds`, which returns the records in rowid order, so
      the ranking decides which records come back but not their order. */
  function RetrieveRelevantMemory(st: Store, backend: SearchBackend, embed: Embedder, query: string, opts: RetrieveOptions)
    : (r: Result<seq<MemoryEntry>, StoreError>)
    requires Valid(st)
    ensures r.Failure? <==> FusedTop(st, backend, embed, query, opts).Failure?
    ensures r.Success? ==> EntryIds(r.value) == Keep(st.rowOrder, ToSet(Ids(FusedTop(st, backend, embed, query, opts).value)))
    ensures r.Success? ==> forall e | e in r.value :: e.id in st.records && st.records[e.id] == e
  {
    match FusedTop(st, backend, embed, query, opts)
    case Failure(e) => Failure(e)
    case Success(top) =>
      if |top| == 0 then
        assert ToSet(Ids(top)) == {};
        KeepNothing(st.rowOrder);
        Success([])
      else Success(GetAllByIds(st, Ids(top)))
  }

  /** The stored records for `ids`, in the order of `ids`. */
  function RecordsInOrder(st: Store, ids: seq<string>): (r: seq<MemoryEntry>)
    requires Valid(st)
    requires forall k | k in ids :: k in st.records
    ensures EntryIds(r) == ids
    ensures forall i | 0 <= i < |ids| :: r[i] == st.records[ids[i]]
  {
    var r := seq(|ids|, i requires 0 <= i < |ids| => st.records[ids[i]]);
    assert EntryIds(r) == ids;
    r
  }

  /** Retrieval returning the records in fused-rank order, best first. */
  function RetrieveRanked(st: Store, backend: SearchBackend, embed: Embedder, query: string, opts: RetrieveOptions)
    : (r: Result<seq<MemoryEntry>, StoreError>)
    requires Valid(st)
    ensures r.Failure? <==> FusedTop(st, backend, embed, query, opts).Failure?
    ensures r.Success? ==> EntryIds(r.value) == Ids(FusedTop(st, backend, embed, query, opts).value)
    ensures r.Success? ==> forall e | e in r.value :: e.id in st.records && st.records[e.id] == e
  {
    match FusedTop(st, backend, embed, query, opts)
    case Failure(e) => Failure(e)
    case Success(top) =>
      Success(RecordsInOrder(st, Ids(top)))
  }

  /** Records listed in rowid order and the same records listed in `ids`
      order have the same members. */
  lemma RowidOrderSameRecords(st: Store, ids: seq<string>, a: seq<MemoryEntry>)
    requires Valid(st)
    requires forall k | k in ids :: k in st.records
    requires EntryIds(a) == Keep(st.rowOrder, ToSet(ids))
    requires forall e | e in a :: e.id in st.records && st.records[e.id] == e
    ensures forall e :: e in a <==> e in RecordsInOrder(st, ids)
  {
    var b := RecordsInOrder(st, ids);
    assert forall k :: k in EntryIds(a) <==> k in ids;
    SameRecordsForward(st.records, ids, a, b);
    SameRecordsBackward(st.records, ids, a, b);
  }

  lemma SameRecordsForward(records: map<string, MemoryEntry>, ids: seq<string>, a: seq<MemoryEntry>, b: seq<MemoryEntry>)
    requires forall k | k in ids :: k in records
    requires |b| == |ids| && forall i | 0 <= i < |ids| :: b[i] == records[ids[i]]
    requires forall k | k in EntryIds(a) :: k in ids
    requires forall e | e in a :: e.id in records && records[e.id] == e
    ensures forall e | e in a :: e in b
  {
    forall e | e in a ensures e in b {
      var i :| 0 <= i < |a| && a[i] == e;
      assert EntryIds(a)[i] == e.id;
      assert e.id in EntryIds(a);
      var j :| 0 <= j < |ids| && ids[j] == e.id;
      assert b[j] == e;
    }
  }

  lemma SameRecordsBackward(records: map<string, MemoryEntry>, ids: seq<string>, a: seq<MemoryEntry>, b: seq<MemoryEntry>)
    requires forall k | k in ids :: k in records
    requires |b| == |ids| && forall i | 0 <= i < |ids| :: b[i] == records[ids[i]]
    requires forall k | k in ids :: k in EntryIds(a)
    requires forall e | e in a :: e.id in records && records[e.id] == e
    ensures forall e | e in b :: e in a
  {
    forall e | e in b ensures e in a {
      var j :| 0 <= j < |b| && b[j] == e;
      assert ids[j] in EntryIds(a);
      var i :| 0 <= i < |a| && EntryIds(a)[i] == ids[j];
      assert a[i] == e;
    }
  }

  /** Both versions return the same records; only their order differs. */
  lemma RankedHasSameRecords(st: Store, backend: SearchBackend, embed: Embedder, query: string, opts: RetrieveOptions)
    requires Valid(st)
    ensures RetrieveRelevantMemory(st, backend, embed, query, opts).Success? <==> RetrieveRanked(st, backend, embed, query, opts).Success?
    ensures RetrieveRelevantMemory(st, backend, embed, query, opts).Success? ==>
      forall e :: e in RetrieveRelevantMemory(st, backend, embed, query, opts).value <==> e in RetrieveRanked(st, backend, embed, query, opts).value
  {
    var a := RetrieveRelevantMemory(st, backend, embed, query, opts);
    if a.Success? {
      var top := FusedTop(st, backend, embed, query, opts).value;
      assert RetrieveRanked(st, backend, embed, query, opts).value == RecordsInOrder(st, Ids(top));
      RowidOrderSameRecords(st, Ids(top), a.value);
    }
  }

  /** Without a vector side, retrieval degrades to lexical search: every
      record returned matches the query lexically. */
  lemma DegradesToLexical(st: Store, backend: SearchBackend, embed: Embedder, query: string, opts: RetrieveOptions)
    requires Valid(st)
    requires VectorUnavailable(st, backend, embed, query, 2 * EffectiveLimit(opts), opts.types)
    ensures RetrieveRelevantMemory(st, backend, embed, query, opts).Success? ==>
      forall e | e in RetrieveRelevantMemory(st, backend, embed, query, opts).value ::
        e.id in st.records && LexicalHit(st, backend, query, e.id)
  {
    var a := RetrieveRelevantMemory(st, backend, embed, query, opts);
    if a.Success? {
      var top := FusedTop(st, backend, embed, query, opts).value;
      forall e | e in a.value ensures e.id in st.records && LexicalHit(st, backend, query, e.id) {
        var i :| 0 <= i < |a.value| && a.value[i] == e;
        assert EntryIds(a.value)[i] == e.id;
        assert e.id in Ids(top);
      }
    }
  }

  /** An empty store retrieves nothing (or reports a malformed query). */
  lemma EmptyStoreRetrievesNothing(backend: SearchBackend, embed: Embedder, query: string, opts: RetrieveOptions)
    ensures Valid(EmptyStore)
    ensures RetrieveRelevantMemory(EmptyStore, backend, embed, query, opts).Success? ==>
      RetrieveRelevantMemory(EmptyStore, backend, embed, query, opts).value == []
  {
    assert Valid(EmptyStore);
    var a := RetrieveRelevantMemory(EmptyStore, backend, embed, query, opts);
    if a.Success? {
      assert |EntryIds(a.value)| == 0;
    }
  }
}
