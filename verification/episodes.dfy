/** The episode record the page works on, and the `S<ss>E<ee>` episode code
    built from its season and episode numbers. */
module Episodes {
  import opened Wrappers
  import opened Decimal

  /** One episode of the catalog. `image` is the `image.medium` URL when the
      catalog supplies one. Season and episode numbers are natural numbers. */
  datatype Episode = Episode(
    id: int,
    season: nat,
    number: nat,
    name: string,
    summary: string,
    image: Option<string>)

  /** `padToTwoDigits`: numbers below ten get a leading "0"; all others are
      rendered as they are. */
  function PadToTwoDigits(n: nat): (r: string)
    ensures AllDigits(r) && |r| >= 2
    ensures n <= 99 ==> r == [DigitChar(n / 10), DigitChar(n % 10)]
  {
    if n < 10 then "0" + NatToString(n)
    else
      assert n <= 99 ==> NatToString(n / 10) == [DigitChar(n / 10)];
      NatToString(n)
  }

  /** The padded rendering reads back as `n`; it is exactly two characters long
      for 0..99; it starts with a zero exactly for single-digit numbers; and from
      10 on it is the plain rendering of `n`. */
  lemma PadToTwoDigitsProperties(n: nat)
    ensures ParseDecimal(PadToTwoDigits(n)) == n
    ensures |PadToTwoDigits(n)| == 2 <==> n <= 99
    ensures PadToTwoDigits(n)[0] == '0' <==> n < 10
    ensures n >= 10 ==> PadToTwoDigits(n) == NatToString(n)
  {
    NatToStringLength(n);
    ParseNatToString(n);
    if n < 10 {
      var r := PadToTwoDigits(n);
      assert r[..1] == "0";
    }
  }

  /** `makeEpisodeCode`: "S", the padded season, "E", the padded episode number. */
  function MakeEpisodeCode(season: nat, number: nat): (r: string)
    ensures |r| == 2 + |PadToTwoDigits(season)| + |PadToTwoDigits(number)|
    ensures r[0] == 'S' && r[1 + |PadToTwoDigits(season)|] == 'E'
  {
    "S" + PadToTwoDigits(season) + "E" + PadToTwoDigits(number)
  }

  /** Reads an episode code back into its season and episode numbers. */
  function DecodeEpisodeCode(code: string): Option<(nat, nat)> {
    ParsePair(code, "S", "E", "")
  }

  /** Every code decodes to the season and episode it was made from. */
  lemma EpisodeCodeRoundTrip(season: nat, number: nat)
    ensures DecodeEpisodeCode(MakeEpisodeCode(season, number)) == Some((season, number))
  {
    PadToTwoDigitsProperties(season);
    PadToTwoDigitsProperties(number);
    assert MakeEpisodeCode(season, number)
           == "S" + PadToTwoDigits(season) + "E" + PadToTwoDigits(number) + "";
    ParsePairRoundTrip("S", PadToTwoDigits(season), "E", PadToTwoDigits(number), "");
  }

  /** Distinct (season, episode) pairs get distinct codes. */
  lemma EpisodeCodeInjective(s1: nat, e1: nat, s2: nat, e2: nat)
    requires MakeEpisodeCode(s1, e1) == MakeEpisodeCode(s2, e2)
    ensures s1 == s2 && e1 == e2
  {
    EpisodeCodeRoundTrip(s1, e1);
    EpisodeCodeRoundTrip(s2, e2);
  }

  /** For seasons and episodes up to 99 the code is six characters:
      S, two season digits, E, two episode digits. */
  lemma EpisodeCodeTwoDigitShape(season: nat, number: nat)
    requires season <= 99 && number <= 99
    ensures MakeEpisodeCode(season, number)
            == ['S', DigitChar(season / 10), DigitChar(season % 10),
                'E', DigitChar(number / 10), DigitChar(number % 10)]
    ensures |MakeEpisodeCode(season, number)| == 6
  {
  }

  /** Two sample codes: season 1 episode 2, and season 12 episode 3. */
  lemma EpisodeCodeExamples()
    ensures MakeEpisodeCode(1, 2) == "S01E02"
    ensures MakeEpisodeCode(12, 3) == "S12E03"
  {
  }
}
