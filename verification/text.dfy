/** The JavaScript string operations the core relies on. A `char` is one
    Unicode scalar value, so strings holding characters outside the Basic
    Multilingual Plane (two UTF-16 code units in JavaScript) are not
    represented, and `|s|` is the source's `s.length` only for the others. */
module Text {

  /** The characters `String.prototype.trim` removes: ECMAScript's
      WhiteSpace (including every Unicode space separator) and
      LineTerminator code points. */
  predicate IsSpace(c: char) {
    || c == ' ' || c == '\t' || c == '\n' || c == '\r'
    || c == '\U{000B}' || c == '\U{000C}' || c == '\U{00A0}' || c == '\U{1680}'
    || ('\U{2000}' <= c <= '\U{200A}')
    || c == '\U{2028}' || c == '\U{2029}' || c == '\U{202F}' || c == '\U{205F}'
    || c == '\U{3000}' || c == '\U{FEFF}'
  }

  predicate AllSpace(s: string) {
    forall i | 0 <= i < |s| :: IsSpace(s[i])
  }

  /** The number of whitespace characters at the front of `s`. */
  function LeadingSpace(s: string): (n: nat)
    ensures n <= |s|
    ensures AllSpace(s[..n])
    ensures n < |s| ==> !IsSpace(s[n])
  {
    if |s| == 0 || !IsSpace(s[0]) then 0
    else
      var m := LeadingSpace(s[1..]);
      assert s[..m + 1] == [s[0]] + s[1..][..m];
      m + 1
  }

  /** The number of whitespace characters at the end of `s`. */
  function TrailingSpace(s: string): (n: nat)
    ensures n <= |s|
    ensures AllSpace(s[|s| - n..])
    ensures n < |s| ==> !IsSpace(s[|s| - n - 1])
  {
    if |s| == 0 || !IsSpace(s[|s| - 1]) then 0
    else
      var t := s[..|s| - 1];
      var m := TrailingSpace(t);
      var u := s[|s| - (m + 1)..];
      var w := t[|t| - m..];
      assert AllSpace(u) by {
        forall j | 0 <= j < m + 1 ensures IsSpace(u[j]) {
          if j < m {
            assert u[j] == w[j];
          }
        }
      }
      m + 1
  }

  /** `r` is `s` with its surrounding whitespace cut off: `s` is some
      whitespace, then `r`, then some whitespace, and `r` is empty or
      neither starts nor ends with whitespace. */
  predicate TrimmedFrom(s: string, r: string) {
    && (r == [] || (!IsSpace(r[0]) && !IsSpace(r[|r| - 1])))
    && exists a | 0 <= a <= |s| - |r| :: AllSpace(s[..a]) && s[a..a + |r|] == r && AllSpace(s[a + |r|..])
  }

  /** `String.prototype.trim`. */
  function Trim(s: string): (r: string)
    ensures |r| <= |s|
    ensures TrimmedFrom(s, r)
    ensures r == [] <==> AllSpace(s)
  {
    var lead := LeadingSpace(s);
    if lead == |s| then
      AllSpaceTrimmed(s);
      []
    else
      var trail := TrailingSpace(s);
      CoreBetween(s, lead, trail);
      s[lead..|s| - trail]
  }

  /** A text whose leading whitespace is all of it trims to nothing. */
  lemma AllSpaceTrimmed(s: string)
    requires LeadingSpace(s) == |s|
    ensures AllSpace(s) && TrimmedFrom(s, [])
  {
    assert s[..|s|] == s;
    assert s[0..0] == [];
    assert s[0..] == s;
  }

  /** A non-whitespace character at `lead` after whitespace, and a maximal
      whitespace suffix of length `trail`, bound a non-empty core. */
  lemma CoreBetween(s: string, lead: nat, trail: nat)
    requires lead < |s| && AllSpace(s[..lead]) && !IsSpace(s[lead])
    requires lead + trail <= |s| && AllSpace(s[|s| - trail..])
    requires lead + trail < |s| ==> !IsSpace(s[|s| - trail - 1])
    ensures lead + trail < |s|
    ensures TrimmedFrom(s, s[lead..|s| - trail]) && !AllSpace(s)
  {
    var r := s[lead..|s| - trail];
    assert r[0] == s[lead];
    assert r[|r| - 1] == s[|s| - trail - 1];
    assert s[lead + |r|..] == s[|s| - trail..];
    assert s[lead..lead + |r|] == r;
  }

  /** The description determines the result: any `r` it fits is `Trim(s)`. */
  lemma TrimmedFromUnique(s: string, r: string)
    requires TrimmedFrom(s, r)
    ensures r == Trim(s)
  {
    var t := Trim(s);
    if r == [] {
      EmptyCore(s, r);
    } else if t == [] {
      EmptyCore(s, t);
      NonEmptyCore(s, r);
    } else {
      CoresAgree(s, r, t);
    }
  }

  /** An empty core leaves only whitespace. */
  lemma EmptyCore(s: string, r: string)
    requires TrimmedFrom(s, r) && r == []
    ensures AllSpace(s)
  {
    var a :| 0 <= a <= |s| - |r| && AllSpace(s[..a]) && s[a..a + |r|] == r && AllSpace(s[a + |r|..]);
    SpaceAround(s, a);
  }

  /** A non-empty core holds a non-whitespace character. */
  lemma NonEmptyCore(s: string, r: string)
    requires TrimmedFrom(s, r) && r != []
    ensures !AllSpace(s)
  {
    var a :| 0 <= a <= |s| - |r| && AllSpace(s[..a]) && s[a..a + |r|] == r && AllSpace(s[a + |r|..]);
    assert s[a] == r[0];
  }

  /** Two non-empty cores of the same text are equal. */
  lemma CoresAgree(s: string, r: string, t: string)
    requires TrimmedFrom(s, r) && r != []
    requires TrimmedFrom(s, t) && t != []
    ensures r == t
  {
    var a :| 0 <= a <= |s| - |r| && AllSpace(s[..a]) && s[a..a + |r|] == r && AllSpace(s[a + |r|..]);
    var b :| 0 <= b <= |s| - |t| && AllSpace(s[..b]) && s[b..b + |t|] == t && AllSpace(s[b + |t|..]);
    SameCore(s, r, a, t, b);
  }

  /** Whitespace up to `a` and whitespace from `a` on is whitespace throughout. */
  lemma SpaceAround(s: string, a: nat)
    requires a <= |s| && AllSpace(s[..a]) && AllSpace(s[a..])
    ensures AllSpace(s)
  {
    forall i | 0 <= i < |s| ensures IsSpace(s[i]) {
      if i < a {
        assert s[i] == s[..a][i];
      } else {
        assert s[i] == s[a..][i - a];
      }
    }
  }

  /** Two non-empty cores of `s`, each with whitespace-free ends and only
      whitespace around it, coincide. */
  lemma SameCore(s: string, r: string, a: nat, t: string, b: nat)
    requires r != [] && !IsSpace(r[0]) && !IsSpace(r[|r| - 1])
    requires t != [] && !IsSpace(t[0]) && !IsSpace(t[|t| - 1])
    requires a + |r| <= |s| && AllSpace(s[..a]) && s[a..a + |r|] == r && AllSpace(s[a + |r|..])
    requires b + |t| <= |s| && AllSpace(s[..b]) && s[b..b + |t|] == t && AllSpace(s[b + |t|..])
    ensures r == t
  {
    SameStart(s, r, a, t, b);
    SameStart(s, t, b, r, a);
    SameEnd(s, r, a, t, b);
    SameEnd(s, t, b, r, a);
  }

  /** The core cannot start after another core's first character. */
  lemma SameStart(s: string, r: string, a: nat, t: string, b: nat)
    requires r != [] && t != [] && !IsSpace(t[0])
    requires a + |r| <= |s| && AllSpace(s[..a])
    requires b + |t| <= |s| && s[b..b + |t|] == t
    ensures a <= b
  {
  }

  /** The core cannot end before another core's last character. */
  lemma SameEnd(s: string, r: string, a: nat, t: string, b: nat)
    requires r != [] && t != [] && !IsSpace(t[|t| - 1])
    requires a + |r| <= |s| && AllSpace(s[a + |r|..])
    requires b + |t| <= |s| && s[b..b + |t|] == t
    ensures b + |t| <= a + |r|
  {
  }

  predicate IsQuote(c: char) {
    c == '"' || c == '\''
  }

  /** `s.replace(/["']/g, "")`: every double and single quote removed,
      every other character kept, in order. */
  function StripQuotes(s: string): (r: string)
    ensures forall i | 0 <= i < |r| :: !IsQuote(r[i])
    ensures forall c | !IsQuote(c) :: multiset(r)[c] == multiset(s)[c]
    ensures (forall i | 0 <= i < |s| :: !IsQuote(s[i])) ==> r == s
  {
    if |s| == 0 then []
    else if IsQuote(s[0]) then
      assert s == [s[0]] + s[1..];
      StripQuotes(s[1..])
    else
      assert s == [s[0]] + s[1..];
      [s[0]] + StripQuotes(s[1..])
  }

  /** A single character is dropped when it is a quote and kept otherwise. */
  lemma StripQuotesChar(c: char)
    ensures StripQuotes([c]) == if IsQuote(c) then [] else [c]
  {
    assert [c][1..] == [];
  }

  /** Quote stripping works piecewise, so the kept characters stay in
      their original order. */
  lemma {:induction false} StripQuotesAppend(a: string, b: string)
    ensures StripQuotes(a + b) == StripQuotes(a) + StripQuotes(b)
    decreases |a|
  {
    if |a| == 0 {
      assert a + b == b;
    } else {
      assert (a + b)[0] == a[0];
      assert (a + b)[1..] == a[1..] + b;
      StripQuotesAppend(a[1..], b);
    }
  }

  /** Trimming a quote-free text leaves it quote-free. */
  lemma TrimKeepsQuoteFree(s: string)
    requires forall i | 0 <= i < |s| :: !IsQuote(s[i])
    ensures forall i | 0 <= i < |Trim(s)| :: !IsQuote(Trim(s)[i])
  {
    var lo, hi := TrimSlice(s);
    var r := s[lo..hi];
    forall i | 0 <= i < |r| ensures !IsQuote(r[i]) {
      assert r[i] == s[lo + i];
    }
  }

  /** The trim of `s` is one of its slices. */
  lemma TrimSlice(s: string) returns (lo: nat, hi: nat)
    ensures lo <= hi <= |s| && Trim(s) == s[lo..hi]
  {
    lo := LeadingSpace(s);
    if lo == |s| {
      hi := lo;
    } else {
      hi := |s| - TrailingSpace(s);
      CoreBetween(s, lo, |s| - hi);
    }
  }

  /** A text with no surrounding whitespace is its own trim. */
  lemma TrimUnpadded(s: string)
    requires |s| > 0 && !IsSpace(s[0]) && !IsSpace(s[|s| - 1])
    ensures Trim(s) == s
  {
    assert LeadingSpace(s) == 0;
    assert TrailingSpace(s) == 0;
    assert s[0..|s| - 0] == s;
  }

  /** `parts.join(sep)`. */
  function Join(parts: seq<string>, sep: string): (r: string)
    ensures |parts| == 0 ==> r == []
    ensures |parts| > 0 ==> parts[0] <= r
    ensures |parts| == 1 ==> r == parts[0]
  {
    if |parts| == 0 then []
    else if |parts| == 1 then parts[0]
    else parts[0] + sep + Join(parts[1..], sep)
  }
}
