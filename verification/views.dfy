/** What the page shows after each event: the count label and the cards at
    load time (`setup`) and after typing in the search box (`searchEpisodes`);
    only the cards after choosing in the selector (`selectEpisode`), which
    leaves the label with its earlier text. */
module Views {
  import opened Wrappers
  import opened Decimal
  import opened Episodes
  import opened Subsequences
  import opened Search
  import opened Selection
  import opened Cards

  datatype View = View(countLabel: string, cards: seq<Card>)

  /** The page right after load: one card per episode, in list order, and a
      label that reads n/n. */
  function SetupView(all: seq<Episode>): (r: View)
    ensures ParseCountLabel(r.countLabel) == Some((|all|, |all|))
    ensures |r.countLabel| == 21 + 2 * |NatToString(|all|)|
    ensures |r.cards| == |all|
    ensures forall i :: 0 <= i < |all| ==> r.cards[i] == MakeCard(all[i])
  {
    View(SetupCountLabel(all), MakePage(all))
  }

  /** The page after the search box holds `term`: one card per episode the
      search keeps, in order; the label's first number is the number of cards
      drawn, and its second the full list's length. */
  function SearchView(all: seq<Episode>, term: string): (r: View)
    ensures ParseCountLabel(r.countLabel) == Some((|r.cards|, |all|))
    ensures |r.countLabel| == 21 + |NatToString(|r.cards|)| + |NatToString(|all|)|
    ensures |r.cards| <= |all|
    ensures |r.cards| == |SearchEpisodes(all, term)|
    ensures forall i :: 0 <= i < |r.cards| ==> r.cards[i] == MakeCard(SearchEpisodes(all, term)[i])
  {
    View(SearchCountLabel(all, term), MakePage(SearchEpisodes(all, term)))
  }

  /** The cards after choosing `selected`; None when the id matches no episode.
      The label is not touched. */
  function SelectCards(all: seq<Episode>, selected: Selected): (r: Option<seq<Card>>)
    ensures selected.ShowAll? ==> r == Some(MakePage(all))
    ensures selected.EpisodeId? ==>
              (r.Some? <==> exists j :: 0 <= j < |all| && all[j].id == selected.id)
    ensures selected.EpisodeId? && r.Some? ==>
              exists e :: e in all && e.id == selected.id && r.value == [MakeCard(e)]
  {
    match SelectEpisode(all, selected)
    case Some(list) =>
      var cards := MakePage(list);
      assert selected.EpisodeId? ==> cards == [MakeCard(list[0])];
      Some(cards)
    case None => None
  }

  /** Clearing the search box restores exactly the page shown at load time. */
  lemma EmptySearchIsSetupView(all: seq<Episode>)
    ensures SearchView(all, "") == SetupView(all)
  {
    SetupCountLabelIsEmptySearch(all);
    SearchEmptyTermKeepsAll(all);
  }

  /** The cards drawn after a search are the load-time cards with some left
      out, in the same order. */
  lemma SearchViewConsistent(all: seq<Episode>, term: string)
    ensures |SearchView(all, term).cards| <= |SetupView(all).cards|
    ensures IsSubsequence(SearchView(all, term).cards, SetupView(all).cards)
  {
    var kept := SearchEpisodes(all, term);
    SearchIsSubsequence(all, term);
    var idx :| Embedding(idx, kept, all);
    var keptCards, allCards := MakePage(kept), MakePage(all);
    forall i | 0 <= i < |idx|
      ensures idx[i] < |allCards| && keptCards[i] == allCards[idx[i]]
    {
      assert kept[i] == all[idx[i]];
    }
    assert Embedding(idx, keptCards, allCards);
  }

  /** Choosing "all" draws the load-time cards, for every list. */
  lemma SelectAllShowsSetupCards(all: seq<Episode>)
    ensures SelectCards(all, ShowAll) == Some(SetupView(all).cards)
  {
  }

  /** Choosing an id draws exactly one card: that of the first episode with
      that id. */
  lemma SelectIdShowsFirstCard(all: seq<Episode>, id: int, j: nat)
    requires j < |all| && all[j].id == id
    requires forall k :: 0 <= k < j ==> all[k].id != id
    ensures SelectCards(all, EpisodeId(id)) == Some([MakeCard(all[j])])
  {
    SelectPicksFirstMatch(all, id, j);
    assert MakePage([all[j]]) == [MakeCard(all[j])];
  }

  /** With no episodes the page draws no cards and reads "Displaying 0/0 episodes". */
  lemma EmptyListView()
    ensures SetupView([]).cards == []
    ensures SetupView([]).countLabel == "Displaying 0/0 episodes"
  {
  }
}
