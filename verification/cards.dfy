/** The text of the card drawn for each episode (`makePageForEpisodes`): a
    title, an info line, an optional image and a summary box. */
module Cards {
  import opened Wrappers
  import opened Text
  import opened Decimal
  import opened Episodes

  datatype Image = Image(src: string, alt: string)

  /** The summary box holds the episode's summary as markup, or a plain-text
      placeholder when the summary is empty. */
  datatype SummaryBox = Markup(html: string) | Placeholder(text: string)

  datatype Card = Card(title: string, info: string, image: Option<Image>, summary: SummaryBox)

  const NoSummaryText: string := "No summary for this episode."

  /** The heading: the episode name, " - ", and the episode code. */
  function CardTitle(e: Episode): string {
    e.name + " - " + MakeEpisodeCode(e.season, e.number)
  }

  /** Reads an info line back into its season and episode numbers. */
  function ParseCardInfo(info: string): Option<(nat, nat)> {
    ParsePair(info, "Season ", " Episode ", "")
  }

  /** The info line "Season <season> Episode <number>", numbers unpadded. */
  function CardInfo(e: Episode): string {
    "Season " + NatToString(e.season) + " Episode " + NatToString(e.number)
  }

  /** An image is drawn exactly when the episode has a non-empty medium image
      URL; it shows that URL, with the episode name as alternative text. */
  function CardImage(e: Episode): (r: Option<Image>)
    ensures r.Some? <==> e.image.Some? && e.image.value != []
    ensures r.Some? ==> r.value.src == e.image.value && r.value.alt == e.name
  {
    if e.image.Some? && |e.image.value| > 0 then Some(Image(e.image.value, e.name)) else None
  }

  /** A non-empty summary is shown as markup; an empty one is replaced by the
      placeholder text. */
  function CardSummary(e: Episode): (r: SummaryBox)
    ensures r.Markup? ==> r.html == e.summary && |r.html| > 0
    ensures r.Placeholder? ==> e.summary == [] && r.text == NoSummaryText
  {
    if |e.summary| > 0 then Markup(e.summary) else Placeholder(NoSummaryText)
  }

  function MakeCard(e: Episode): Card {
    Card(CardTitle(e), CardInfo(e), CardImage(e), CardSummary(e))
  }

  /** The cards of `makePageForEpisodes`: one per episode, in list order. */
  function MakePage(episodes: seq<Episode>): (r: seq<Card>)
    ensures |r| == |episodes|
    ensures forall i :: 0 <= i < |r| ==> r[i] == MakeCard(episodes[i])
  {
    if |episodes| == 0 then [] else [MakeCard(episodes[0])] + MakePage(episodes[1..])
  }

  /** The title starts with the episode name, goes on with " - ", and ends
      with exactly the episode code, which reads back as the season and number. */
  lemma CardTitleReadsBack(e: Episode)
    ensures |CardTitle(e)| == |e.name| + 3 + |MakeEpisodeCode(e.season, e.number)|
    ensures CardTitle(e)[..|e.name|] == e.name
    ensures CardTitle(e)[|e.name|..|e.name| + 3] == " - "
    ensures CardTitle(e)[|e.name| + 3..] == MakeEpisodeCode(e.season, e.number)
    ensures DecodeEpisodeCode(CardTitle(e)[|e.name| + 3..]) == Some((e.season, e.number))
  {
    var code := MakeEpisodeCode(e.season, e.number);
    EpisodeCodeRoundTrip(e.season, e.number);
    SplitConcat(e.name + " - ", code);
    SplitConcat(e.name, " - ");
  }

  /** The info line reads back as the episode's season and number, and its
      length leaves room only for their plain renderings (no leading zeros). */
  lemma CardInfoReadsBack(e: Episode)
    ensures ParseCardInfo(CardInfo(e)) == Some((e.season, e.number))
    ensures |CardInfo(e)| == 16 + |NatToString(e.season)| + |NatToString(e.number)|
  {
    assert CardInfo(e) == "Season " + NatToString(e.season) + " Episode " + NatToString(e.number) + "";
    NatPairRoundTrip("Season ", e.season, " Episode ", e.number, "");
  }

  /** The card of one episode: its title starts with the name and ends with a
      code that reads back as the season and number, its info line reads back
      the same way, and its summary box is never blank. */
  lemma MakeCardReadsBack(e: Episode)
    ensures |MakeCard(e).title| >= |e.name| + 3
    ensures MakeCard(e).title[..|e.name|] == e.name
    ensures MakeCard(e).title[|e.name|..|e.name| + 3] == " - "
    ensures MakeCard(e).title[|e.name| + 3..] == MakeEpisodeCode(e.season, e.number)
    ensures DecodeEpisodeCode(MakeCard(e).title[|e.name| + 3..]) == Some((e.season, e.number))
    ensures ParseCardInfo(MakeCard(e).info) == Some((e.season, e.number))
    ensures |MakeCard(e).info| == 16 + |NatToString(e.season)| + |NatToString(e.number)|
    ensures match MakeCard(e).summary
            case Markup(html) => html == e.summary && html != []
            case Placeholder(text) => e.summary == [] && text != []
  {
    CardTitleReadsBack(e);
    CardInfoReadsBack(e);
  }

  /** The id is not shown: episodes that differ only in id get the same card. */
  lemma CardIgnoresId(e: Episode, id: int)
    ensures MakeCard(e.(id := id)) == MakeCard(e)
  {
  }

  /** The cards of a concatenated list are the cards of its first part
      followed by the cards of its second part. */
  lemma {:induction false} MakePageAppend(a: seq<Episode>, b: seq<Episode>)
    ensures MakePage(a + b) == MakePage(a) + MakePage(b)
  {
    if |a| == 0 {
      assert a + b == b;
    } else {
      assert (a + b)[1..] == a[1..] + b;
      MakePageAppend(a[1..], b);
    }
  }
}
