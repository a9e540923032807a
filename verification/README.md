# TV-show episode page — a Dafny model of its page logic

The application is a browser page that lists every episode of a TV show as a card. It has a search box that narrows the list and a selector that shows a single episode. This project models the pure logic of `script.js` with its DOM calls removed:

- the episode code `S<ss>E<ee>` (`padToTwoDigits`, `makeEpisodeCode`);
- the search filter and its count label `Displaying k/n episodes` (`searchEpisodes`, and the label set in `setup`);
- the selector: its list of entries (`populateEpisodeSelector`, text only) and what choosing an entry shows (`selectEpisode`);
- the text of each episode card (`makePageForEpisodes`): title, info line, optional image, and a summary box;
- the page after each event: at load time and after a search, a count label plus a list of cards; after a selection, only the list of cards, while the label keeps its earlier text.

Modules, leaf first:

- `Wrappers`: `Option`.
- `Text`: ASCII case mapping, plus `Includes`, which models `String.prototype.includes`.
- `Decimal`: the decimal rendering of naturals. It also has `ParsePair`, a reader for labels of the shape `prefix <digits> sep <digits> suffix`. `ParsePair` is the inverse of the rendering; the round-trip lemmas read labels back with it.
- `Subsequences`: order-preserving subsequence, defined by an increasing position embedding.
- `Episodes`: the `Episode` record and the episode code.
- `Search`: the filter and the count label.
- `Selection`: the selector.
- `Cards`: the card text.
- `Views`: the page after each event.

The episode list that `getAllEpisodes()` returns is a parameter everywhere. The value chosen in the selector is `ShowAll` or `EpisodeId(id)`.

## Model

| member | source | states |
|---|---|---|
| Episodes.PadToTwoDigits | script.js:97-102 | the padded number is all digits and at least two characters long; for 0..99 it is exactly the tens digit followed by the ones digit |
| Episodes.PadToTwoDigitsProperties | script.js:97-102 | the padded number reads back as the number; it has length 2 exactly for 0..99; it starts with "0" exactly for numbers below ten; from 10 on it is the plain decimal rendering |
| Decimal.NatToString | script.js:99-101 | the rendering of a number (what `"0" + number` and `number.toString()` produce) is a non-empty digit string with no leading zero, except for 0 itself |
| Decimal.ParseNatToString | script.js:99-101 | reading the rendering back gives the number |
| Decimal.NatToStringLength | script.js:97-102 | the rendering has one digit below 10, two digits for 10..99, and three or more from 100 on |
| Episodes.MakeEpisodeCode | script.js:104-106 | the code starts with 'S'; 'E' sits right after the padded season; the length is 2 plus the two padded lengths |
| Episodes.EpisodeCodeRoundTrip | script.js:104-106 | decoding a code gives back the season and episode it was made from, for all naturals |
| Episodes.EpisodeCodeInjective | script.js:104-106 | distinct (season, episode) pairs get distinct codes |
| Episodes.EpisodeCodeTwoDigitShape | script.js:97-106 | for season and episode up to 99 the code is the six characters S, two season digits, E, two episode digits |
| Episodes.EpisodeCodeExamples | script.js:104-106 | season 1 episode 2 gives "S01E02"; season 12 episode 3 gives "S12E03" |
| Text.Lower | script.js:42 | the lower-cased string differs from the original only in the case of its letters, and contains no upper-case letter |
| Text.Includes | script.js:46-47 | `includes` answers true exactly when the term occurs at some position of the string |
| Text.IncludesEmpty | script.js:46-47 | every string includes the empty string |
| Text.LowerEqualIffEqualIgnoringCase | script.js:42 | two strings lower-case to the same string exactly when they differ only in the case of their letters |
| Text.LowerOfUpper | script.js:42 | lower-casing an upper-cased string gives the lower-cased original |
| Search.Matches | script.js:45-48 | an episode passes the test exactly when the (already lower-cased) term occurs in its lower-cased name or its lower-cased summary |
| Search.FilterEpisodes | script.js:45-49 | the filter's result is no longer than its input, and every kept episode passes the name-or-summary test |
| Search.SearchEpisodes | script.js:41-49 | the search result is no longer than the full list, and an episode is in it exactly when it is in the full list and passes the test with the lower-cased term |
| Search.FilterIsSubsequence | script.js:45-49 | the filter's result is an order-preserving subsequence of its input |
| Search.FilterCounts | script.js:45-49 | a matching episode is kept as often as it occurs in the input; a non-matching one never appears |
| Search.FilterAppend | script.js:45-49 | filtering a concatenation is the concatenation of the filtered parts |
| Search.FilterKeepsAllIff | script.js:45-49 | the filter returns its input unchanged exactly when every episode matches |
| Search.SearchKeepsExactlyMatches | script.js:42-48 | an episode is in the result exactly when it is in the full list and the lower-cased term occurs in its lower-cased name or lower-cased summary; a kept episode keeps its multiplicity |
| Search.SearchIsSubsequence | script.js:42-49 | the search result keeps the full list's order |
| Search.SearchEmptyTermKeepsAll | script.js:42-49 | the empty term keeps the whole list, in order |
| Search.SearchIgnoresCase | script.js:42-48 | terms that differ only in letter case give the same result, and an upper-cased term gives the same result as the original |
| Search.SearchIdempotent | script.js:42-49 | searching the result again with the same term changes nothing |
| Search.CountLabel | script.js:52 | a count label reads back as the two numbers it was built from, and its length is that of the fixed words plus the two plain renderings, so no leading zeros appear |
| Search.SetupCountLabel | script.js:32 | the label set at load time reads back as (n, n) for a list of n episodes, and its length is that of the fixed words plus two plain renderings of n, so no leading zeros appear |
| Search.SearchCountLabel | script.js:51-52 | after a search the label reads back as (kept count, full length), its length is that of the fixed words plus the two plain renderings, so no leading zeros appear, and the kept count never exceeds the full length |
| Search.SetupCountLabelIsEmptySearch | script.js:32 | the label set at load time reads n/n and equals the label of the empty search |
| Selection.FindIndex | script.js:89-91 | the found position holds the id and no earlier position does; None means no position holds it |
| Selection.SelectEpisode | script.js:85-94 | "all" gives the full list; an id gives a result exactly when some episode carries it, and that result is one episode from the list with that id |
| Selection.SelectPicksFirstMatch | script.js:89-93 | selecting an id shows the episode at the first position carrying it |
| Selection.OptionTextReadsBack | script.js:71-72 | an entry's text starts with exactly the episode code, which reads back as the episode's season and number, and goes on with " - " and the episode name |
| Selection.EpisodeOptions | script.js:68-74 | one entry per episode, in list order, whose value is the episode's id |
| Selection.SelectorOptions | script.js:61-74 | the selector has one entry more than the list; the first entry is "Show All Episodes" with value "all", and entry i + 1 is the entry made for episode i |
| Selection.EveryOptionSelects | script.js:68-93 | every selector entry selects something; the entry made for an episode selects an episode with that episode's id |
| Cards.CardTitleReadsBack | script.js:122-123 | the title starts with the episode name, goes on with " - ", and ends with exactly the episode code, which reads back as the season and number |
| Cards.CardInfoReadsBack | script.js:127-128 | the info line reads back as the season and number, and its length is that of the fixed words plus the two plain renderings, so no leading zeros appear |
| Cards.CardImage | script.js:131-136 | an image is drawn exactly when the medium URL is present and non-empty; it shows that URL with the episode name as alternative text |
| Cards.CardSummary | script.js:138-143 | a non-empty summary is shown as markup; an empty one is replaced by the placeholder text |
| Cards.MakeCardReadsBack | script.js:121-143 | a card's title is the name, " - ", and exactly the episode code, which reads back as the season and number; its info line reads back the same way and has exactly the length of the plain renderings; its summary box is never blank |
| Cards.MakePage | script.js:117-147 | one card per episode, in list order |
| Cards.CardIgnoresId | script.js:117-147 | the id is not shown: two episodes that differ only in id get the same card |
| Cards.MakePageAppend | script.js:117-118 | the cards of one concatenated list are the cards of its first part followed by the cards of its second part |
| Views.SetupView | script.js:32-38 | at load time the label reads back as (n, n) with no leading zeros (its length is fixed by the plain rendering of n), and there is one card per episode, in list order |
| Views.SearchView | script.js:51-54 | after a search there is one card per kept episode, card i being the card of the i-th kept episode, and the label reads back as (number of cards drawn, full length) with no leading zeros (its length is fixed by the plain renderings) |
| Views.SelectCards | script.js:85-94 | "all" draws the cards of the full list; an id draws something exactly when an episode carries it, and then exactly one card, that of an episode with that id; the label is not touched |
| Views.EmptySearchIsSetupView | script.js:32-54 | clearing the search box restores exactly the label and cards shown at load time |
| Views.SearchViewConsistent | script.js:51-54 | the cards drawn after a search are the load-time cards with some left out, in order |
| Views.SelectAllShowsSetupCards | script.js:85-86 | choosing "all" draws the load-time cards, for every list including the empty one |
| Views.SelectIdShowsFirstCard | script.js:88-93 | choosing an id draws exactly the card of the first episode with that id |
| Views.EmptyListView | script.js:32-38 | with no episodes the page draws no cards and reads "Displaying 0/0 episodes" |

## Left out

- DOM construction and event wiring are left out: element creation, `appendChild`, `innerHTML`, `getElementById`, event listeners and `window.onload`. The model keeps only the text these calls write.
- The TVMaze credit paragraph at the top of every page (script.js:112-115) is fixed markup and is left out.
- `getAllEpisodes()` is not part of this model. Its result is a parameter.
- The summary is an opaque string. Its HTML is never interpreted. The filter therefore also matches text inside tags, as the code does: the term "p" matches every summary that contains `<p>`. This follows the code.
- Text.Lower: case mapping is ASCII-only. JavaScript's `toLowerCase` also maps non-ASCII letters.
- Selection.SelectEpisode: the selector's value is `ShowAll` or an integer id. JavaScript's loose comparison of a string value with a numeric id is not modelled.
- Selection.SelectEpisode: an id that matches no episode gives None, which means "not modelled", not "page unchanged". The code draws `[undefined]`: it first empties the card list and draws the credit line (script.js:110-115), then fails when reading the missing episode's name. The user sees an empty page while the label keeps its earlier text. Every entry the selector offers does select an episode (`Selection.EveryOptionSelects`).
- Decimal.NatToString: JavaScript numbers are not unbounded. From 10^21 on, `number.toString()` and string concatenation give exponent form such as "1e+21", and not every integer above 2^53 can be represented exactly. The model renders every natural as plain digits, so its claims about season and episode numbers (for example `Episodes.EpisodeCodeRoundTrip` "for all naturals") hold for the source only below those bounds.
- Search.FilterEpisodes: name and summary are always strings in the model. In the source, an episode whose summary (or name) is null or missing makes `toLowerCase` throw during a search (script.js:46-47), so neither the label nor the cards are updated. The card would have shown the placeholder for it (script.js:139-143). This error path is not modelled.
- Episodes.PadToTwoDigits: season and episode numbers are naturals. For a negative number the code would produce strings such as "0-5". That case is excluded.
- A term made only of whitespace is searched literally, as the code does. It is not treated as an empty term.
- With no episodes, the code draws no empty-state message: only the label "Displaying 0/0 episodes" and no cards. The model follows the code.
- The request cache, the show list, genre search and navigation between shows and episodes are not part of this model. `script.js` contains none of them.
