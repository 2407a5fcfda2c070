/** Context packing (src/retrieval/compress.ts): retrieved records rendered
    one per paragraph, packed greedily into an approximate token budget. */
module Compress {
  import opened Seqs
  import opened Text
  import opened MemoryTypes

  const CharsPerToken: nat := 4
  const DefaultMaxTokens: int := 2000
  const RawExcerptChars: nat := 200
  const Separator: string := "\n\n"

  /** One record as a line of context: its id, its kind and its summary,
      or the first 200 characters of its raw text when the summary is empty. */
  function Render(e: MemoryEntry): string {
    "[" + e.id + "] (" + TypeName(e.kind) + ") " + (if e.summary != "" then e.summary else Take(e.raw, RawExcerptChars))
  }

  /** The approximate token count of a text: its length divided by four,
      rounded up. */
  function Cost(text: string): (c: nat)
    ensures CharsPerToken * c >= |text|
    ensures CharsPerToken * c < |text| + CharsPerToken
  {
    (|text| + 3) / 4
  }

  function Sum(s: seq<nat>): nat {
    if |s| == 0 then 0 else Sum(s[..|s| - 1]) + s[|s| - 1]
  }

  lemma {:induction false} SumMonotone(s: seq<nat>, j: nat, k: nat)
    requires j <= k <= |s|
    ensures Sum(s[..j]) <= Sum(s[..k])
    decreases k - j
  {
    if j < k {
      SumMonotone(s, j, k - 1);
      assert s[..k][..k - 1] == s[..k - 1];
    }
  }

  function Renders(entries: seq<MemoryEntry>): (r: seq<string>)
    ensures |r| == |entries|
    ensures forall i | 0 <= i < |entries| :: r[i] == Render(entries[i])
  {
    seq(|entries|, i requires 0 <= i < |entries| => Render(entries[i]))
  }

  function Costs(entries: seq<MemoryEntry>): (r: seq<nat>)
    ensures |r| == |entries|
    ensures forall i | 0 <= i < |entries| :: r[i] == Cost(Render(entries[i]))
  {
    seq(|entries|, i requires 0 <= i < |entries| => Cost(Render(entries[i])))
  }

  lemma RendersSnoc(entries: seq<MemoryEntry>, i: nat)
    requires i < |entries|
    ensures Renders(entries[..i + 1]) == Renders(entries[..i]) + [Render(entries[i])]
  {
  }

  lemma SumSnoc(s: seq<nat>, i: nat)
    requires i < |s|
    ensures Sum(s[..i + 1]) == Sum(s[..i]) + s[i]
  {
    assert s[..i + 1][..i] == s[..i];
  }

  /** What the greedy packing keeps, stated without the loop: the first `k`
      entries, at least one when there is any; from the second entry on the
      running total stays within the budget; and the entry after the last one
      kept would have overflowed it. */
  predicate PackingOk(costs: seq<nat>, maxTokens: int, k: int) {
    && 0 <= k <= |costs|
    && (|costs| > 0 ==> k >= 1)
    && (k >= 2 ==> Sum(costs[..k]) <= maxTokens)
    && (k < |costs| ==> Sum(costs[..k + 1]) > maxTokens)
  }

  /** At most one count fits that description. */
  lemma PackingUnique(costs: seq<nat>, maxTokens: int, k1: int, k2: int)
    requires PackingOk(costs, maxTokens, k1) && PackingOk(costs, maxTokens, k2)
    ensures k1 == k2
  {
    if k1 < k2 {
      SumMonotone(costs, k1 + 1, k2);
      assert false;
    } else if k2 < k1 {
      SumMonotone(costs, k2 + 1, k1);
      assert false;
    }
  }

  function PackFrom(costs: seq<nat>, maxTokens: int, k: nat, total: nat): (r: nat)
    requires k <= |costs| && total == Sum(costs[..k])
    requires |costs| > 0 && k == 0 ==> total == 0
    requires k >= 2 ==> total <= maxTokens
    ensures PackingOk(costs, maxTokens, r)
    decreases |costs| - k
  {
    if k == |costs| then k
    else
      assert costs[..k + 1][..k] == costs[..k];
      if k >= 1 && total + costs[k] > maxTokens then k
      else PackFrom(costs, maxTokens, k + 1, total + costs[k])
  }

  /** How many entries the packing keeps. */
  function PackCount(costs: seq<nat>, maxTokens: int): (k: nat)
    ensures PackingOk(costs, maxTokens, k)
  {
    PackFrom(costs, maxTokens, 0, 0)
  }

  /** The packed context: the renderings of the entries a greedy packing
      keeps, joined by blank lines (`PackingUnique` shows there is only one
      such count). */
  function ContextText(entries: seq<MemoryEntry>, maxTokens: int): (r: string)
    ensures |entries| == 0 ==> r == ""
    ensures exists k | PackingOk(Costs(entries), maxTokens, k) :: r == Join(Renders(entries[..k]), Separator)
  {
    Join(Renders(entries[..PackCount(Costs(entries), maxTokens)]), Separator)
  }

  /** `compressForContext`: the greedy loop of the source. */
  method CompressForContext(entries: seq<MemoryEntry>, maxTokens: int) returns (r: string)
    ensures r == ContextText(entries, maxTokens)
  {
    var costs := Costs(entries);
    var total: nat := 0;
    var parts: seq<string> := [];
    var text: string := "";
    var i := 0;
    var full := false;
    while i < |entries| && !full
      invariant 0 <= i <= |entries|
      invariant parts == Renders(entries[..i])
      invariant total == Sum(costs[..i])
      invariant i >= 2 ==> total <= maxTokens
      invariant full ==> 1 <= i < |entries| && Sum(costs[..i + 1]) > maxTokens
      decreases |entries| - i, if full then 0 else 1
    {
      text := Render(entries[i]);
      var tokens := Cost(text);
      SumSnoc(costs, i);
      if total + tokens > maxTokens && |parts| > 0 {
        full := true;
      } else {
        RendersSnoc(entries, i);
        parts := parts + [text];
        total := total + tokens;
        i := i + 1;
      }
    }
    assert PackingOk(costs, maxTokens, i);
    PackingUnique(costs, maxTokens, i, PackCount(costs, maxTokens));
    r := Join(parts, Separator);
  }

  /** The best entry always makes it in, even when it alone exceeds the
      budget. */
  lemma FirstEntryKept(entries: seq<MemoryEntry>, maxTokens: int)
    requires |entries| > 0
    ensures Render(entries[0]) <= ContextText(entries, maxTokens)
  {
    var k := PackCount(Costs(entries), maxTokens);
    assert Renders(entries[..k])[0] == Render(entries[0]);
  }

  /** The packed context is empty exactly when there is nothing to pack:
      every rendering starts with the id's opening bracket. */
  lemma ContextEmptyIff(entries: seq<MemoryEntry>, maxTokens: int)
    ensures ContextText(entries, maxTokens) == "" <==> |entries| == 0
  {
    if |entries| > 0 {
      FirstEntryKept(entries, maxTokens);
      assert Render(entries[0])[0] == '[';
    }
  }

  /** An entry that alone exceeds the budget is returned on its own. */
  lemma OversizedFirstStandsAlone(entries: seq<MemoryEntry>, maxTokens: int)
    requires |entries| > 0 && Cost(Render(entries[0])) > maxTokens
    ensures ContextText(entries, maxTokens) == Render(entries[0])
  {
    var costs := Costs(entries);
    var k := PackCount(costs, maxTokens);
    assert costs[..1] == [costs[0]];
    if k >= 2 {
      SumMonotone(costs, 1, k);
      assert false;
    }
    assert entries[..1] == [entries[0]];
  }

  /** A larger budget never keeps fewer entries. */
  lemma LargerBudgetKeepsMore(costs: seq<nat>, small: int, large: int)
    requires small <= large
    ensures PackCount(costs, small) <= PackCount(costs, large)
  {
    var k1 := PackCount(costs, small);
    var k2 := PackCount(costs, large);
    if k2 < k1 {
      SumMonotone(costs, k2 + 1, k1);
      assert false;
    }
  }
}
