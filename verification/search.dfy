/** The search box: which episodes a search term keeps, and the count label
    shown next to it. */
module Search {
  import opened Wrappers
  import opened Text
  import opened Decimal
  import opened Episodes
  import opened Subsequences

  /** The filter's test, given the term already lower-cased: the lower-cased
      name or the lower-cased summary contains it. No other field is read. */
  predicate Matches(e: Episode, loweredTerm: string)
    ensures Matches(e, loweredTerm)
            <==> (exists i :: OccursAt(Lower(e.name), loweredTerm, i))
                 || (exists i :: OccursAt(Lower(e.summary), loweredTerm, i))
  {
    Includes(Lower(e.name), loweredTerm) || Includes(Lower(e.summary), loweredTerm)
  }

  /** `Array.prototype.filter` with the test above. */
  function FilterEpisodes(episodes: seq<Episode>, loweredTerm: string): (r: seq<Episode>)
    ensures |r| <= |episodes|
    ensures forall i :: 0 <= i < |r| ==> Matches(r[i], loweredTerm)
  {
    if |episodes| == 0 then []
    else
      (if Matches(episodes[0], loweredTerm) then [episodes[0]] else [])
      + FilterEpisodes(episodes[1..], loweredTerm)
  }

  /** `searchEpisodes`: lower-case the term once, then filter the full list.
      An episode is in the result exactly when it is in the full list and
      passes the test with the lower-cased term. */
  function SearchEpisodes(all: seq<Episode>, term: string): (r: seq<Episode>)
    ensures |r| <= |all|
    ensures forall e :: e in r <==> e in all && Matches(e, Lower(term))
  {
    FilterMembership(all, Lower(term));
    FilterEpisodes(all, Lower(term))
  }

  lemma FilterMembership(episodes: seq<Episode>, loweredTerm: string)
    ensures forall e ::
              e in FilterEpisodes(episodes, loweredTerm) <==> e in episodes && Matches(e, loweredTerm)
  {
    forall e {
      FilterCounts(episodes, loweredTerm, e);
    }
  }

  /** The filter deletes episodes and never reorders the ones it keeps. */
  lemma {:induction false} FilterIsSubsequence(episodes: seq<Episode>, loweredTerm: string)
    ensures IsSubsequence(FilterEpisodes(episodes, loweredTerm), episodes)
  {
    if |episodes| == 0 {
      assert Embedding([], [], episodes);
    } else {
      var rest := FilterEpisodes(episodes[1..], loweredTerm);
      FilterIsSubsequence(episodes[1..], loweredTerm);
      SubsequenceOfTail(rest, episodes);
      if !Matches(episodes[0], loweredTerm) {
        assert FilterEpisodes(episodes, loweredTerm) == rest;
      }
    }
  }

  /** Each episode is kept as many times as it occurs in the input when it
      matches, and dropped entirely when it does not. */
  lemma {:induction false} FilterCounts(episodes: seq<Episode>, loweredTerm: string, e: Episode)
    ensures multiset(FilterEpisodes(episodes, loweredTerm))[e]
            == if Matches(e, loweredTerm) then multiset(episodes)[e] else 0
  {
    if |episodes| > 0 {
      FilterCounts(episodes[1..], loweredTerm, e);
      assert episodes == [episodes[0]] + episodes[1..];
    }
  }

  /** Filtering distributes over concatenation of episode lists. */
  lemma {:induction false} FilterAppend(a: seq<Episode>, b: seq<Episode>, loweredTerm: string)
    ensures FilterEpisodes(a + b, loweredTerm)
            == FilterEpisodes(a, loweredTerm) + FilterEpisodes(b, loweredTerm)
  {
    if |a| == 0 {
      assert a + b == b;
    } else {
      assert (a + b)[1..] == a[1..] + b;
      FilterAppend(a[1..], b, loweredTerm);
    }
  }

  /** The filter keeps every episode exactly when every episode matches. */
  lemma {:induction false} FilterKeepsAllIff(episodes: seq<Episode>, loweredTerm: string)
    ensures FilterEpisodes(episodes, loweredTerm) == episodes
            <==> forall i :: 0 <= i < |episodes| ==> Matches(episodes[i], loweredTerm)
  {
    if |episodes| > 0 {
      FilterKeepsAllIff(episodes[1..], loweredTerm);
      if !Matches(episodes[0], loweredTerm) {
        assert |FilterEpisodes(episodes, loweredTerm)| < |episodes|;
      }
    }
  }

  /** Soundness and completeness of the search: an episode is in the result
      exactly when it is in the full list and its lower-cased name or
      lower-cased summary contains the lower-cased term somewhere; it occurs
      in the result as often as in the full list. */
  lemma SearchKeepsExactlyMatches(all: seq<Episode>, term: string, e: Episode)
    ensures e in SearchEpisodes(all, term)
            <==> e in all
                 && ((exists i :: OccursAt(Lower(e.name), Lower(term), i))
                     || (exists i :: OccursAt(Lower(e.summary), Lower(term), i)))
    ensures e in SearchEpisodes(all, term) ==> multiset(SearchEpisodes(all, term))[e] == multiset(all)[e]
  {
    FilterCounts(all, Lower(term), e);
  }

  /** The search result is an order-preserving subsequence of the full list. */
  lemma SearchIsSubsequence(all: seq<Episode>, term: string)
    ensures IsSubsequence(SearchEpisodes(all, term), all)
  {
    FilterIsSubsequence(all, Lower(term));
  }

  /** The empty term keeps every episode, in order. */
  lemma SearchEmptyTermKeepsAll(all: seq<Episode>)
    ensures SearchEpisodes(all, "") == all
  {
    forall i | 0 <= i < |all|
      ensures Matches(all[i], "")
    {
      IncludesEmpty(Lower(all[i].name));
    }
    FilterKeepsAllIff(all, "");
  }

  /** Terms that differ only in letter case give the same result; in
      particular, an upper-cased term finds the same episodes. */
  lemma SearchIgnoresCase(all: seq<Episode>, t1: string, t2: string)
    requires EqualIgnoringCase(t1, t2)
    ensures SearchEpisodes(all, t1) == SearchEpisodes(all, t2)
    ensures SearchEpisodes(all, Upper(t1)) == SearchEpisodes(all, t1)
  {
    LowerEqualIffEqualIgnoringCase(t1, t2);
    LowerOfUpper(t1);
  }

  /** Searching the result again with the same term changes nothing. */
  lemma SearchIdempotent(all: seq<Episode>, term: string)
    ensures SearchEpisodes(SearchEpisodes(all, term), term) == SearchEpisodes(all, term)
  {
    FilterKeepsAllIff(SearchEpisodes(all, term), Lower(term));
  }

  /** The count label `Displaying <shown>/<total> episodes`; it reads back as
      the two numbers it was built from, and its length leaves room only for
      their plain renderings (no leading zeros). */
  function CountLabel(shown: nat, total: nat): (r: string)
    ensures ParseCountLabel(r) == Some((shown, total))
    ensures |r| == 21 + |NatToString(shown)| + |NatToString(total)|
  {
    NatPairRoundTrip("Displaying ", shown, "/", total, " episodes");
    "Displaying " + NatToString(shown) + "/" + NatToString(total) + " episodes"
  }

  /** Reads a count label back into its two numbers. */
  function ParseCountLabel(text: string): Option<(nat, nat)> {
    ParsePair(text, "Displaying ", "/", " episodes")
  }

  /** The label set up before any search: every episode is displayed. */
  function SetupCountLabel(all: seq<Episode>): (r: string)
    ensures ParseCountLabel(r) == Some((|all|, |all|))
    ensures |r| == 21 + 2 * |NatToString(|all|)|
  {
    CountLabel(|all|, |all|)
  }

  /** The label after a search: it reads back as the number of episodes kept,
      out of the full list's length, and the first never exceeds the second. */
  function SearchCountLabel(all: seq<Episode>, term: string): (r: string)
    ensures ParseCountLabel(r) == Some((|SearchEpisodes(all, term)|, |all|))
    ensures |r| == 21 + |NatToString(|SearchEpisodes(all, term)|)| + |NatToString(|all|)|
    ensures |SearchEpisodes(all, term)| <= |all|
  {
    CountLabel(|SearchEpisodes(all, term)|, |all|)
  }

  /** The label set up at load time reads `n/n`, and is the label the empty
      search produces. */
  lemma SetupCountLabelIsEmptySearch(all: seq<Episode>)
    ensures ParseCountLabel(SetupCountLabel(all)) == Some((|all|, |all|))
    ensures SetupCountLabel(all) == SearchCountLabel(all, "")
  {
    SearchEmptyTermKeepsAll(all);
  }
}
