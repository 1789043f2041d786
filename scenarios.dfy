/**
 * Worked selections on small inputs: a platform's older record is dropped,
 * a Sony record of the current month is shown, and a Sony record of an
 * earlier month is shown through the fallback.
 */
module Scenarios {
  import opened Seqs
  import opened Dates
  import opened Releases
  import Text

  function Release(platform: string, date: Date): Game
  {
    Game(platform, date, "", "", "", "")
  }

  lemma SonyIsSony()
    ensures IsSony("sony")
  {
    var t := Text.ToLower("sony");
    assert t[0] == 's' && t[1] == 'o' && t[2] == 'n' && t[3] == 'y';
  }

  /** A selection over a single platform is a one-entry map. */
  lemma OnlyPlatform(games: seq<Game>, today: Date, p: string)
    requires Platforms(games) == {p}
    ensures Selection(games, today) == map[p := Selection(games, today)[p]]
  {
  }

  /** Both records of a two-record list are of platform `p`. */
  lemma PairOnPlatform(a: Game, b: Game, p: string)
    requires a.platform == p && b.platform == p
    ensures OnPlatform([a, b], p) == [a, b]
  {
    var own := (g: Game) => g.platform == p;
    assert [a, b][..1] == [a] && [a][..0] == [];
    assert Filter([a, b], own) == Filter([a], own) + [b];
    assert Filter([a], own) == Filter([], own) + [a];
  }

  /** Of two records, only the strictly later one is the most recent. */
  lemma PairMostRecent(a: Game, b: Game)
    requires Stamp(a.date) < Stamp(b.date)
    ensures MostRecent([a, b]) == [b]
  {
    var games := [a, b];
    assert games[..1] == [a] && [a][..0] == [];
    assert MostRecentStamp(games) == Stamp(b.date);
    var latest := (g: Game) => IsMostRecent(games, g.date);
    assert Filter(games, latest) == Filter([a], latest) + [b];
    assert Filter([a], latest) == Filter([], latest);
  }

  /** Two xbox records, of January 10 and 12: only the later one is shown. */
  lemma LatestXboxOnly()
    ensures var older := Release("xbox", Date(2024, 0, 10, 0));
      var newer := Release("xbox", Date(2024, 0, 12, 0));
      Selection([older, newer], Date(2024, 0, 20, 0)) == map["xbox" := [newer]]
  {
    var older := Release("xbox", Date(2024, 0, 10, 0));
    var newer := Release("xbox", Date(2024, 0, 12, 0));
    var games := [older, newer];
    var today := Date(2024, 0, 20, 0);
    assert Platforms(games) == {"xbox"} by {
      assert games[0].platform == "xbox";
    }
    assert !IsSony("xbox") by {
      assert Text.ToLower("xbox")[0] == 'x';
    }
    PairOnPlatform(older, newer, "xbox");
    PairMostRecent(older, newer);
    FallbackKeepsNonSony(games, today, "xbox");
    assert Selection(games, today)["xbox"] == [newer];
    OnlyPlatform(games, today, "xbox");
  }

  /** A Sony record dated in today's month is shown. */
  lemma SonyThisMonth()
    ensures var r := Release("sony", Date(2024, 0, 5, 0));
      Selection([r], Date(2024, 0, 20, 0)) == map["sony" := [r]]
  {
    var r := Release("sony", Date(2024, 0, 5, 0));
    var today := Date(2024, 0, 20, 0);
    SonyIsSony();
    assert InCurrentMonth(r.date, today);
    SingleRecordSelected(r, today);
  }

  /** A Sony record of last December is still shown, through the fallback. */
  lemma SonyLastMonthFallsBack()
    ensures var r := Release("sony", Date(2023, 11, 5, 0));
      Selection([r], Date(2024, 0, 20, 0)) == map["sony" := [r]]
  {
    var r := Release("sony", Date(2023, 11, 5, 0));
    var today := Date(2024, 0, 20, 0);
    SonyIsSony();
    assert !InCurrentMonth(r.date, today);
    SingleRecordSelected(r, today);
  }
}
