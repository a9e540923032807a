/** The episode selector: its option list, and what choosing an option shows. */
module Selection {
  import opened Wrappers
  import opened Text
  import opened Episodes

  /** The selector's value: the "all" entry, or the id of one episode. */
  datatype Selected = ShowAll | EpisodeId(id: int)

  /** One entry of the selector: the value it submits and the text it shows. */
  datatype SelectorOption = SelectorOption(value: Selected, text: string)

  /** `Array.prototype.find` on the id, as the position of the first episode
      carrying `id`; None when no episode carries it. */
  function FindIndex(all: seq<Episode>, id: int): (r: Option<nat>)
    ensures r.Some? ==> r.value < |all| && all[r.value].id == id
    ensures r.Some? ==> forall j :: 0 <= j < r.value ==> all[j].id != id
    ensures r.None? ==> forall j :: 0 <= j < |all| ==> all[j].id != id
  {
    if |all| == 0 then None
    else if all[0].id == id then Some(0)
    else
      match FindIndex(all[1..], id)
      case Some(k) => Some(k + 1)
      case None => None
  }

  /** `selectEpisode`: the "all" entry shows the full list; an id shows the
      one-element list of the first episode with that id. An id no episode
      carries yields None. */
  function SelectEpisode(all: seq<Episode>, selected: Selected): (r: Option<seq<Episode>>)
    ensures selected.ShowAll? ==> r == Some(all)
    ensures selected.EpisodeId? ==>
              (r.Some? <==> exists j :: 0 <= j < |all| && all[j].id == selected.id)
    ensures selected.EpisodeId? && r.Some? ==>
              |r.value| == 1 && r.value[0] in all && r.value[0].id == selected.id
  {
    match selected
    case ShowAll => Some(all)
    case EpisodeId(id) =>
      match FindIndex(all, id)
      case Some(i) => Some([all[i]])
      case None => None
  }

  /** Selecting an id shows the episode at the first position carrying that id,
      even when later episodes carry the same id. */
  lemma SelectPicksFirstMatch(all: seq<Episode>, id: int, j: nat)
    requires j < |all| && all[j].id == id
    requires forall k :: 0 <= k < j ==> all[k].id != id
    ensures SelectEpisode(all, EpisodeId(id)) == Some([all[j]])
  {
    var r := FindIndex(all, id);
    assert r.Some?;
    assert r.value == j;
  }

  /** The text of an episode's entry: its code, " - ", and its name. */
  function OptionText(e: Episode): string {
    MakeEpisodeCode(e.season, e.number) + " - " + e.name
  }

  /** The entry made for one episode: its id as the value. */
  function EpisodeOption(e: Episode): SelectorOption {
    SelectorOption(EpisodeId(e.id), OptionText(e))
  }

  function EpisodeOptions(all: seq<Episode>): (r: seq<SelectorOption>)
    ensures |r| == |all|
    ensures forall i :: 0 <= i < |r| ==> r[i] == EpisodeOption(all[i])
  {
    if |all| == 0 then [] else [EpisodeOption(all[0])] + EpisodeOptions(all[1..])
  }

  /** `populateEpisodeSelector`: the "all" entry, then one entry per episode in
      list order. */
  function SelectorOptions(all: seq<Episode>): (r: seq<SelectorOption>)
    ensures |r| == |all| + 1
    ensures r[0] == SelectorOption(ShowAll, "Show All Episodes")
    ensures forall i :: 0 <= i < |all| ==> r[i + 1] == EpisodeOption(all[i])
  {
    var entries := EpisodeOptions(all);
    assert forall i :: 0 <= i < |all| ==> ([SelectorOption(ShowAll, "Show All Episodes")] + entries)[i + 1] == entries[i];
    [SelectorOption(ShowAll, "Show All Episodes")] + entries
  }

  /** Every entry of the selector selects something: the "all" entry the full
      list, and the entry made for the episode at position i an episode with
      the same id (the one at position i itself when ids are distinct). */
  lemma EveryOptionSelects(all: seq<Episode>, i: nat)
    requires i < |SelectorOptions(all)|
    ensures SelectEpisode(all, SelectorOptions(all)[i].value).Some?
    ensures i > 0 ==> SelectEpisode(all, SelectorOptions(all)[i].value).value[0].id == all[i - 1].id
  {
    if i > 0 {
      assert SelectorOptions(all)[i] == EpisodeOptions(all)[i - 1];
    }
  }

  /** An episode's entry starts with exactly its code, which reads back as its
      season and episode numbers, and goes on with " - " and the episode name. */
  lemma OptionTextReadsBack(e: Episode)
    ensures |OptionText(e)| == |MakeEpisodeCode(e.season, e.number)| + 3 + |e.name|
    ensures OptionText(e)[..|MakeEpisodeCode(e.season, e.number)|] == MakeEpisodeCode(e.season, e.number)
    ensures DecodeEpisodeCode(OptionText(e)[..|MakeEpisodeCode(e.season, e.number)|])
            == Some((e.season, e.number))
    ensures OptionText(e)[|MakeEpisodeCode(e.season, e.number)|..] == " - " + e.name
  {
    var code := MakeEpisodeCode(e.season, e.number);
    EpisodeCodeRoundTrip(e.season, e.number);
    assert OptionText(e) == code + (" - " + e.name);
    SplitConcat(code, " - " + e.name);
  }
}
