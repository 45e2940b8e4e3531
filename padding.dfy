/**
 * The zero-padding policy for the season, episode and part fields of a
 * generated label.
 */
module Padding {
  import opened Tokens

  /** Zeros before the season text: one, unless the season is 10 or more or already starts with '0'. */
  function SeasonPad(season: string): string
    requires IsToken(season)
  {
    if Value(season) < 10 && season[0] != '0' then "0" else ""
  }

  /** Zeros before an episode index, scaled to the size of the folder (`total` files). */
  function EpisodePad(total: nat, episode: nat): string {
    if total >= 100 && episode < 10 then "00"
    else if total >= 100 && episode < 100 then "0"
    else if episode < 10 then "0"
    else ""
  }

  /** Zeros before a part index. */
  function PartPad(part: nat): string {
    if part < 10 then "0" else ""
  }

  /** The season field as it appears after "S". */
  function SeasonField(season: string): (f: string)
    requires IsToken(season)
  {
    SeasonPad(season) + season
  }

  /** The episode field as it appears after "E". */
  function EpisodeField(total: nat, episode: nat): string {
    EpisodePad(total, episode) + Decimal(episode)
  }

  /** The part field as it appears after " Part ". */
  function PartField(part: nat): string {
    PartPad(part) + Decimal(part)
  }

  /** Prepending zeros keeps a digit string all digits. */
  lemma ZerosThenDigits(z: string, t: string)
    requires z == "" || z == "0" || z == "00"
    requires AllDigits(t)
    ensures AllDigits(z + t) && Value(z + t) == Value(t)
  {
    if z == "0" {
      LeadingZero(t);
    } else if z == "00" {
      var u := "0" + t;
      LeadingZero(t);
      assert AllDigits(u);
      LeadingZero(u);
      assert z + t == "0" + u;
    } else {
      assert z + t == t;
    }
  }

  /**
   * The season field reads as the same number, is written with at least two
   * digits when the season text has no leading zero, and is the season text
   * itself when that text starts with '0' or the season is 10 or more.
   */
  lemma SeasonFieldShape(season: string)
    requires IsToken(season)
    ensures AllDigits(SeasonField(season)) && Value(SeasonField(season)) == Value(season)
    ensures season[0] != '0' ==> |SeasonField(season)| == if |season| == 1 then 2 else |season|
    ensures season[0] == '0' || Value(season) >= 10 ==> SeasonField(season) == season
  {
    var pad := SeasonPad(season);
    ZerosThenDigits(pad, season);
    if season[0] != '0' {
      if |season| == 1 {
        assert season[..0] == [];
        assert Value(season) == DigitValue(season[0]) < 10;
        assert pad == "0";
      } else {
        ValueAtLeastTen(season);
        assert pad == "";
      }
    }
  }

  /**
   * The episode field reads as the episode number; in a folder of fewer than
   * 100 files it is exactly two characters for episodes below 100, and in a
   * folder of 100 files or more it is exactly three characters for episodes
   * below 1000.
   */
  lemma EpisodeFieldShape(total: nat, episode: nat)
    ensures AllDigits(EpisodeField(total, episode)) && Value(EpisodeField(total, episode)) == episode
    ensures total < 100 && episode < 100 ==> |EpisodeField(total, episode)| == 2
    ensures total >= 100 && episode < 1000 ==> |EpisodeField(total, episode)| == 3
    ensures total < 100 && episode >= 10 ==> EpisodeField(total, episode) == Decimal(episode)
    ensures total >= 100 && episode >= 100 ==> EpisodeField(total, episode) == Decimal(episode)
  {
    DecimalLength(episode);
    ZerosThenDigits(EpisodePad(total, episode), Decimal(episode));
  }

  /** The part field reads as the part number and is exactly two characters below 100. */
  lemma PartFieldShape(part: nat)
    ensures AllDigits(PartField(part)) && Value(PartField(part)) == part
    ensures part < 100 ==> |PartField(part)| == 2
    ensures part >= 10 ==> PartField(part) == Decimal(part)
  {
    DecimalLength(part);
    ZerosThenDigits(PartPad(part), Decimal(part));
  }
}
