/** The route-name allocator of PagesManager: a starting candidate, made
    from the suggested name and the page's language, is extended by
    `-1`, `-2`, … while the name is taken, at most one hundred times. */
module RouteNaming {
  import opened Common
  import opened PageStore

  /** The `$sanity++ < 100` budget of the allocation loop. */
  const MaxSuffixes: nat := 100

  /** The candidate after n collisions: suffixes accumulate, so after two
      collisions on `about` the candidate is `about-1-2`. */
  function Suffixed(start: string, n: nat): string
    decreases n
  {
    if n == 0 then start else Suffixed(start, n - 1) + "-" + NatToString(n)
  }

  /** Each candidate extends the previous ones and is strictly longer. */
  lemma {:induction false} SuffixedGrows(start: string, m: nat, n: nat)
    requires m <= n
    ensures Suffixed(start, m) <= Suffixed(start, n)
    ensures m < n ==> |Suffixed(start, m)| < |Suffixed(start, n)|
    decreases n
  {
    if m < n {
      SuffixedGrows(start, m, n - 1);
      assert Suffixed(start, n) == Suffixed(start, n - 1) + ("-" + NatToString(n));
    }
  }

  /** The number of suffixes the loop appends, looking from the n-th
      candidate on: the first free candidate, or the last one allowed. */
  function FreeIndex(taken: set<string>, start: string, n: nat): (k: nat)
    requires n <= MaxSuffixes
    ensures n <= k <= MaxSuffixes
    ensures forall j :: n <= j < k ==> Suffixed(start, j) in taken
    ensures k < MaxSuffixes ==> Suffixed(start, k) !in taken
    decreases MaxSuffixes - n
  {
    if Suffixed(start, n) !in taken || n == MaxSuffixes then n
    else FreeIndex(taken, start, n + 1)
  }

  /** The name findAvailableRoute returns for a starting candidate. */
  function Allocate(taken: set<string>, start: string): string {
    Suffixed(start, FreeIndex(taken, start, 0))
  }

  /** The allocator returns a free name unless every one of the hundred
      and one candidates is taken, and it always extends the starting
      candidate. */
  lemma AllocateSpec(taken: set<string>, start: string)
    ensures (exists j :: 0 <= j <= MaxSuffixes && Suffixed(start, j) !in taken) ==> Allocate(taken, start) !in taken
    ensures start <= Allocate(taken, start)
  {
    SuffixedGrows(start, 0, FreeIndex(taken, start, 0));
    forall j | 0 <= j <= MaxSuffixes && Suffixed(start, j) !in taken
      ensures Allocate(taken, start) !in taken
    {
      FreeIndexFree(taken, start, 0, j);
    }
  }

  /** A free j-th candidate, at or after the n-th, makes the loop stop on a
      free one. */
  lemma {:induction false} FreeIndexFree(taken: set<string>, start: string, n: nat, j: nat)
    requires n <= j <= MaxSuffixes && Suffixed(start, j) !in taken
    ensures Suffixed(start, FreeIndex(taken, start, n)) !in taken
    decreases MaxSuffixes - n
  {
    if Suffixed(start, n) in taken && n < MaxSuffixes {
      FreeIndexFree(taken, start, n + 1, j);
    }
  }

  /** One turn of the allocation loop: a taken candidate below the budget
      passes the search on to the next one. */
  lemma FreeIndexStep(taken: set<string>, start: string, n: nat)
    requires n < MaxSuffixes && Suffixed(start, n) in taken
    ensures FreeIndex(taken, start, n) == FreeIndex(taken, start, n + 1)
    ensures Suffixed(start, n + 1) == Suffixed(start, n) + "-" + NatToString(n + 1)
  {
  }

  /** A free starting candidate is returned unchanged, and only then. */
  lemma AllocateUnchanged(taken: set<string>, start: string)
    ensures Allocate(taken, start) == start <==> start !in taken
  {
    var k := FreeIndex(taken, start, 0);
    if k > 0 {
      SuffixedGrows(start, 0, k);
    }
  }

  /** When all one hundred and one candidates are taken the allocator gives
      up and returns the last one, a taken name, without an error. */
  lemma AllocateExhausted(taken: set<string>, start: string)
    requires forall n :: 0 <= n <= MaxSuffixes ==> Suffixed(start, n) in taken
    ensures Allocate(taken, start) == Suffixed(start, MaxSuffixes)
    ensures Allocate(taken, start) in taken
  {
  }

  /** `about` and `about-1` taken: the next name is `about-1-2`, not `about-2`. */
  lemma AccumulatingExample(taken: set<string>)
    requires taken == {"about", "about-1"}
    ensures Allocate(taken, "about") == "about-1-2"
  {
    assert NatToString(1) == "1";
    assert NatToString(2) == "2";
    assert Suffixed("about", 1) == "about-1";
    assert Suffixed("about", 2) == "about-1-2";
    assert FreeIndex(taken, "about", 0) == 2;
  }

  /** The starting candidate: `<language code>-<suggested>` for a language
      other than the primary one, the suggested name otherwise; an unknown
      language id throws, as `findOrFail` does. */
  function StartCandidate(suggested: string, languageId: int, primaryLanguageId: int,
                          languages: map<int, string>): (r: Outcome<string>)
    ensures languageId == primaryLanguageId ==> r == Returned(suggested)
    ensures languageId != primaryLanguageId ==>
      (r.Returned? <==> languageId in languages) &&
      (r.Returned? ==> r.value == languages[languageId] + "-" + suggested)
  {
    if languageId != primaryLanguageId then
      if languageId in languages then Returned(languages[languageId] + "-" + suggested)
      else Raised(NotFoundMessage("Devise\\Models\\DvsLanguage", languageId))
    else Returned(suggested)
  }

  /** findAvailableRoute as a whole: the allocation starting from the
      language-prefixed candidate. */
  function AvailableRoute(taken: set<string>, suggested: string, languageId: int, primaryLanguageId: int,
                          languages: map<int, string>): Outcome<string>
  {
    match StartCandidate(suggested, languageId, primaryLanguageId, languages)
    case Raised(m) => Raised(m)
    case Returned(start) => Returned(Allocate(taken, start))
  }

  /** The allocated name for a non-primary language always begins with the
      language code and a dash. */
  lemma AvailableRoutePrefixed(taken: set<string>, suggested: string, languageId: int, primaryLanguageId: int,
                               languages: map<int, string>)
    requires languageId != primaryLanguageId && languageId in languages
    ensures var r := AvailableRoute(taken, suggested, languageId, primaryLanguageId, languages);
      r.Returned? && languages[languageId] + "-" + suggested <= r.value
  {
    AllocateSpec(taken, languages[languageId] + "-" + suggested);
  }
}
