/** The slug normalisation of RoutesGenerator::findDvsPageRoutes:
    `preg_replace_callback('/([^[\}]+)(?:$|\{)/', strtolower, $slug)`.

    The regex engine is modelled as it runs: at each position it takes the
    greedy run of characters other than `[` and `}`, then backtracks until
    the run is followed by the end of the string or by a `{`; a match is
    lower-cased (with its `{`) and scanning resumes after it, a failed
    position is copied and scanning resumes one character later.
    `Lowered` below says, character by character, which characters that
    process lower-cases, and `NormaliseSlugSpec` proves the two agree. */
module SlugNormalisation {
  import opened Common

  /** The characters the run `[^[\}]+` cannot contain. */
  predicate IsStop(c: char) {
    c == '[' || c == '}'
  }

  /** Where the greedy run starting at i ends: the first `[` or `}` at or
      after i, or the end of the string. */
  function RunEnd(s: string, i: nat): (e: nat)
    requires i <= |s|
    ensures i <= e <= |s|
    ensures forall j :: i <= j < e ==> !IsStop(s[j])
    ensures e < |s| ==> IsStop(s[e])
    decreases |s| - i
  {
    if i == |s| || IsStop(s[i]) then i else RunEnd(s, i + 1)
  }

  /** Backtracking over the run [p, k): the longest end k' in (p, k] after
      which `$` or `\{` matches. */
  function Backtrack(s: string, p: nat, k: nat): (m: Option<nat>)
    requires p <= k <= |s|
    ensures m.Some? ==> p < m.value <= k && (m.value == |s| || s[m.value] == '{')
    ensures m.Some? ==> forall j :: m.value < j <= k ==> j < |s| && s[j] != '{'
    ensures m.None? ==> forall j :: p < j <= k ==> j < |s| && s[j] != '{'
    decreases k
  {
    if k <= p then None
    else if k == |s| || s[k] == '{' then Some(k)
    else Backtrack(s, p, k - 1)
  }

  /** `preg_replace_callback` from position p to the end of the slug. */
  function ReplaceFrom(s: string, p: nat): (r: string)
    requires p <= |s|
    ensures |r| == |s| - p
    decreases |s| - p
  {
    if p == |s| then []
    else match Backtrack(s, p, RunEnd(s, p))
      case None => [s[p]] + ReplaceFrom(s, p + 1)
      case Some(k) =>
        // the match is s[p..k] followed by the `{` when it stopped at one
        var next := if k < |s| then k + 1 else k;
        LowerStr(s[p..next]) + ReplaceFrom(s, next)
  }

  /** The slug as findDvsPageRoutes stores it back into `$page->slug`. */
  function NormaliseSlug(slug: string): (r: string)
    ensures |r| == |slug|
  {
    ReplaceFrom(slug, 0)
  }

  /** A character is lower-cased exactly when its `[`/`}`-free run reaches
      the end of the string, or a `{` follows it inside that run. */
  predicate Lowered(s: string, i: nat)
    requires i < |s|
  {
    var e := RunEnd(s, i);
    e == |s| || exists j :: i < j < e && s[j] == '{'
  }

  /** What the character at i becomes. */
  function ExpectedAt(s: string, i: nat): char
    requires i < |s|
  {
    if Lowered(s, i) then LowerChar(s[i]) else s[i]
  }

  /** The independent, character-wise description of the result. */
  function Expected(s: string): (r: string)
    ensures |r| == |s|
    ensures forall i :: 0 <= i < |s| ==> r[i] == ExpectedAt(s, i)
  {
    seq(|s|, i requires 0 <= i < |s| => ExpectedAt(s, i))
  }

  /** Every position of one greedy run sees the same run end. */
  lemma RunEndWithin(s: string, p: nat, i: nat)
    requires p <= |s| && p <= i <= RunEnd(s, p)
    ensures RunEnd(s, i) == RunEnd(s, p)
  {
  }

  /** A position where the regex fails to match is copied unchanged. */
  lemma NoMatchKept(s: string, p: nat)
    requires p < |s| && Backtrack(s, p, RunEnd(s, p)).None?
    ensures !Lowered(s, p)
  {
    var e := RunEnd(s, p);
    assert e < |s| by {
      if e > p { assert e < |s|; }
    }
  }

  /** A match at p lower-cases exactly the characters `Lowered` names. */
  lemma MatchLowered(s: string, p: nat, k: nat)
    requires p < |s| && Backtrack(s, p, RunEnd(s, p)) == Some(k)
    ensures forall i :: p <= i < k ==> Lowered(s, i)
  {
    var e := RunEnd(s, p);
    assert k < |s| ==> k < e;
    forall i | p <= i < k
      ensures Lowered(s, i)
    {
      RunEndWithin(s, p, i);
      if k < |s| {
        assert i < k < RunEnd(s, i) && s[k] == '{';
      }
    }
  }

  lemma MatchSegment(s: string, p: nat, k: nat, next: nat)
    requires p < |s| && Backtrack(s, p, RunEnd(s, p)) == Some(k)
    requires next == if k < |s| then k + 1 else k
    ensures next <= |s|
    ensures LowerStr(s[p..next]) == Expected(s)[p..next]
  {
    MatchLowered(s, p, k);
    forall i | p <= i < next
      ensures LowerStr(s[p..next])[i - p] == Expected(s)[i]
    {
      if i == k {
        LowerCharFacts(s[k]);
      }
    }
  }

  /** One step of the scan where the regex fails at p. */
  lemma ReplaceFromNoMatch(s: string, p: nat)
    requires p < |s| && Backtrack(s, p, RunEnd(s, p)).None?
    ensures ReplaceFrom(s, p) == [s[p]] + ReplaceFrom(s, p + 1)
  {
  }

  /** One step of the scan where the regex matches at p. */
  lemma ReplaceFromMatch(s: string, p: nat, k: nat, next: nat)
    requires p < |s| && Backtrack(s, p, RunEnd(s, p)) == Some(k)
    requires next == if k < |s| then k + 1 else k
    ensures ReplaceFrom(s, p) == LowerStr(s[p..next]) + ReplaceFrom(s, next)
  {
  }

  lemma ExpectedSplit(s: string, p: nat, next: nat)
    requires p <= next <= |s|
    ensures Expected(s)[p..] == Expected(s)[p..next] + Expected(s)[next..]
  {
  }

  /** The scan from p, where the regex fails, agrees with `Expected`. */
  lemma {:induction false} NoMatchStep(s: string, p: nat)
    requires p < |s| && Backtrack(s, p, RunEnd(s, p)).None?
    ensures ReplaceFrom(s, p) == Expected(s)[p..]
    decreases |s| - p, 0
  {
    ReplaceFromIsExpected(s, p + 1);
    NoMatchKept(s, p);
    ReplaceFromNoMatch(s, p);
    ExpectedSplit(s, p, p + 1);
    var e := Expected(s);
    assert e[p] == s[p];
    assert e[p..p + 1] == [s[p]];
  }

  /** The scan from p, where the regex matches up to k, agrees with
      `Expected`. */
  lemma {:induction false} MatchStep(s: string, p: nat, k: nat)
    requires p < |s| && Backtrack(s, p, RunEnd(s, p)) == Some(k)
    ensures ReplaceFrom(s, p) == Expected(s)[p..]
    decreases |s| - p, 0
  {
    var next := if k < |s| then k + 1 else k;
    ReplaceFromIsExpected(s, next);
    MatchSegment(s, p, k, next);
    ReplaceFromMatch(s, p, k, next);
    ExpectedSplit(s, p, next);
  }

  lemma {:induction false} ReplaceFromIsExpected(s: string, p: nat)
    requires p <= |s|
    ensures ReplaceFrom(s, p) == Expected(s)[p..]
    decreases |s| - p, 1
  {
    if p < |s| {
      match Backtrack(s, p, RunEnd(s, p))
      case None => NoMatchStep(s, p);
      case Some(k) => MatchStep(s, p, k);
    }
  }

  /** The regex rewrite agrees with the character-wise description: the
      slug keeps its length and every character is either kept or replaced
      by its ASCII lower case, as `Lowered` decides. */
  lemma NormaliseSlugSpec(s: string)
    ensures NormaliseSlug(s) == Expected(s)
    ensures |NormaliseSlug(s)| == |s|
    ensures forall i :: 0 <= i < |s| ==>
      NormaliseSlug(s)[i] == (if Lowered(s, i) then LowerChar(s[i]) else s[i])
  {
    ReplaceFromIsExpected(s, 0);
  }

  /** The name of a placeholder is never touched: every character after a
      `{` and before the next `}` is kept, provided no other `{` opens in
      between. */
  lemma PlaceholderKept(s: string, open: nat, close: nat)
    requires open < close < |s|
    requires s[open] == '{' && s[close] == '}'
    requires forall m :: open < m < close ==> s[m] != '{' && s[m] != '}'
    ensures forall i :: open < i < close ==> NormaliseSlug(s)[i] == s[i]
  {
    NormaliseSlugSpec(s);
    forall i | open < i < close
      ensures !Lowered(s, i)
    {
      var e := RunEnd(s, i);
      assert e <= close;
    }
  }

  /** A trailing run that reaches the end of the slug without meeting a
      `[` or `}` is lower-cased entirely (placeholders in it included). */
  lemma TrailingRunLowered(s: string, i: nat)
    requires i <= |s|
    requires forall j :: i <= j < |s| ==> !IsStop(s[j])
    ensures NormaliseSlug(s)[i..] == LowerStr(s[i..])
  {
    NormaliseSlugSpec(s);
    forall j | i <= j < |s|
      ensures Lowered(s, j)
    {
      RunEndWithin(s, i, j);
    }
  }

  /** Two strings with the same delimiters (`{`, `}`, `[`) at the same
      positions lower-case the same positions. */
  predicate SameDelimiters(s: string, t: string) {
    |s| == |t| &&
    forall i :: 0 <= i < |s| ==>
      IsStop(s[i]) == IsStop(t[i]) && (s[i] == '{') == (t[i] == '{')
  }

  lemma {:induction false} RunEndSameDelimiters(s: string, t: string, i: nat)
    requires SameDelimiters(s, t) && i <= |s|
    ensures RunEnd(s, i) == RunEnd(t, i)
    decreases |s| - i
  {
    if i < |s| && !IsStop(s[i]) {
      RunEndSameDelimiters(s, t, i + 1);
    }
  }

  lemma LoweredSameDelimiters(s: string, t: string, i: nat)
    requires SameDelimiters(s, t) && i < |s|
    ensures Lowered(s, i) == Lowered(t, i)
  {
    RunEndSameDelimiters(s, t, i);
    var e := RunEnd(s, i);
    if exists j :: i < j < e && s[j] == '{' {
      var j :| i < j < e && s[j] == '{';
      assert t[j] == '{';
    }
    if exists j :: i < j < e && t[j] == '{' {
      var j :| i < j < e && t[j] == '{';
      assert s[j] == '{';
    }
  }

  /** Normalising a normalised slug changes nothing: lower-casing never
      moves the `{`, `}` and `[` the regex keys on, and lower-casing twice
      is lower-casing once. */
  lemma NormaliseSlugIdempotent(s: string)
    ensures NormaliseSlug(NormaliseSlug(s)) == NormaliseSlug(s)
  {
    var t := NormaliseSlug(s);
    NormaliseSlugSpec(s);
    NormaliseSlugSpec(t);
    assert SameDelimiters(s, t) by {
      forall i | 0 <= i < |s|
        ensures IsStop(s[i]) == IsStop(t[i]) && (s[i] == '{') == (t[i] == '{')
      {
        LowerCharFacts(s[i]);
      }
    }
    forall i | 0 <= i < |t|
      ensures NormaliseSlug(t)[i] == t[i]
    {
      LoweredSameDelimiters(s, t, i);
      LowerCharFacts(s[i]);
    }
  }

  /** A character followed, inside its run, by a `{` is lower-cased. */
  lemma LoweredBeforeBrace(s: string, i: nat, j: nat)
    requires i < j < |s| && s[j] == '{'
    requires forall m :: i <= m < j ==> !IsStop(s[m])
    ensures Lowered(s, i)
  {
    assert RunEnd(s, i) > j;
  }

  /** A character with no `{` between it and the next `[` or `}` is kept. */
  lemma KeptBeforeStop(s: string, i: nat, c: nat)
    requires i <= c < |s| && IsStop(s[c])
    requires forall m :: i < m < c ==> s[m] != '{'
    ensures !Lowered(s, i)
  {
    assert RunEnd(s, i) <= c;
  }

  lemma LoweredAt(s: string, i: nat)
    requires i < |s| && Lowered(s, i)
    ensures NormaliseSlug(s)[i] == LowerChar(s[i])
  {
    NormaliseSlugSpec(s);
  }

  lemma KeptAt(s: string, i: nat)
    requires i < |s| && !Lowered(s, i)
    ensures NormaliseSlug(s)[i] == s[i]
  {
    NormaliseSlugSpec(s);
  }

  /** The delimiters themselves are never changed. */
  lemma DelimiterKept(s: string, i: nat)
    requires i < |s| && (s[i] == '{' || IsStop(s[i]))
    ensures NormaliseSlug(s)[i] == s[i]
  {
    NormaliseSlugSpec(s);
    LowerCharFacts(s[i]);
  }

  /** The documented example: path segments are lower-cased, the
      placeholder name is kept. */
  lemma BlogExample(s: string, t: string)
    requires s == "/Blog/{Category}/Post" && t == "/blog/{Category}/post"
    ensures NormaliseSlug(s) == t
  {
    var r := NormaliseSlug(s);
    BlogHead(s, t);
    BlogPlaceholder(s, t);
    BlogTail(s, t);
    assert r == r[..6] + r[6..16] + r[16..];
  }

  lemma BlogHead(s: string, t: string)
    requires s == "/Blog/{Category}/Post" && t == "/blog/{Category}/post"
    ensures NormaliseSlug(s)[..6] == t[..6]
  {
    forall i | 0 <= i < 6
      ensures NormaliseSlug(s)[i] == t[i]
    {
      LoweredBeforeBrace(s, i, 6);
      LoweredAt(s, i);
    }
  }

  lemma BlogPlaceholder(s: string, t: string)
    requires s == "/Blog/{Category}/Post" && t == "/blog/{Category}/post"
    ensures NormaliseSlug(s)[6..16] == t[6..16]
  {
    PlaceholderKept(s, 6, 15);
    DelimiterKept(s, 6);
    DelimiterKept(s, 15);
  }

  lemma BlogTail(s: string, t: string)
    requires s == "/Blog/{Category}/Post" && t == "/blog/{Category}/post"
    ensures NormaliseSlug(s)[16..] == t[16..]
  {
    TrailingRunLowered(s, 16);
  }

  /** With a `{` nested inside a placeholder the run reaches back over the
      outer `{`: the first name is lower-cased, only the innermost kept. */
  lemma NestedBraceExample(s: string, t: string)
    requires s == "x{A{B}" && t == "x{a{B}"
    ensures NormaliseSlug(s) == t
  {
    var r := NormaliseSlug(s);
    LoweredBeforeBrace(s, 0, 1);
    LoweredAt(s, 0);
    DelimiterKept(s, 1);
    LoweredBeforeBrace(s, 2, 3);
    LoweredAt(s, 2);
    DelimiterKept(s, 3);
    KeptBeforeStop(s, 4, 5);
    KeptAt(s, 4);
    DelimiterKept(s, 5);
    assert r[0] == t[0] && r[1] == t[1] && r[2] == t[2];
    assert r[3] == t[3] && r[4] == t[4] && r[5] == t[5];
  }
}
