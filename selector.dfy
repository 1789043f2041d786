/**
 * The release selector as the page runs it: one pass over the records that
 * fills a per-platform accumulator, then a pass over the accumulator's keys
 * that refills the empty lists. Each method is proved against the functions
 * of module Releases.
 */
module Selector {
  import opened Seqs
  import opened Dates
  import opened Releases

  /**
   * The `reduce` over `games`: every platform seen gets a list; a record is
   * pushed onto its platform's list when the platform's rule keeps it.
   */
  method GroupByPlatform(games: seq<Game>, today: Date) returns (acc: map<string, seq<Game>>)
    ensures acc.Keys == Platforms(games)
    ensures forall p :: p in acc ==> acc[p] == FirstPass(games, today, p)
  {
    acc := map[];
    var i := 0;
    while i < |games|
      invariant 0 <= i <= |games|
      invariant acc.Keys == Platforms(games[..i])
      invariant forall p :: p in acc ==> acc[p] == GroupSoFar(games[..i], games, today, p)
    {
      ghost var before := acc;
      var game := games[i];
      if game.platform !in acc {
        acc := acc[game.platform := []];
      }
      var kept := KeepsRecord(games, today, game);
      if kept {
        acc := acc[game.platform := acc[game.platform] + [game]];
      }

      assert games[..i + 1] == games[..i] + [game];
      GroupStep(games[..i], games[..i + 1], games, today, game, before, acc);
      i := i + 1;
    }
    assert games[..i] == games;
    GroupDone(games, today, acc);
  }

  /**
   * The body of the `reduce` for one record: Sony records must fall in
   * today's month and year; other records must carry their platform's most
   * recent date, taken over the whole input.
   */
  method KeepsRecord(games: seq<Game>, today: Date, game: Game) returns (kept: bool)
    requires game in games
    ensures kept == Kept(games, today, game)
    ensures kept <==> if IsSony(game.platform) then InCurrentMonth(game.date, today)
                      else NoLaterOnPlatform(games, game.platform, game.date)
  {
    var isSony := IsSony(game.platform);
    if isSony {
      kept := InCurrentMonth(game.date, today);
    } else {
      var platformGames := OnPlatform(games, game.platform);
      OnOwnPlatform(games, game);
      var mostRecent := MostRecentStamp(platformGames);
      kept := Stamp(game.date) == mostRecent;
    }
  }

  /** Once every record is read, each list is its platform's first-pass list. */
  lemma GroupDone(games: seq<Game>, today: Date, acc: map<string, seq<Game>>)
    requires forall p :: p in acc ==> acc[p] == GroupSoFar(games, games, today, p)
    ensures forall p :: p in acc ==> acc[p] == FirstPass(games, today, p)
  {
    forall p | p in acc
      ensures acc[p] == FirstPass(games, today, p)
    {
      GroupSoFarIsFirstPass(games, today, p);
    }
  }

  /** One turn of the `reduce`: the accumulator describes one more record. */
  lemma GroupStep(prefix: seq<Game>, next: seq<Game>, games: seq<Game>, today: Date, game: Game,
                  before: map<string, seq<Game>>, after: map<string, seq<Game>>)
    requires next == prefix + [game]
    requires before.Keys == Platforms(prefix)
    requires forall p :: p in before ==> before[p] == GroupSoFar(prefix, games, today, p)
    requires var started := if game.platform in before then before else before[game.platform := []];
      after == if Kept(games, today, game) then started[game.platform := started[game.platform] + [game]] else started
    ensures after.Keys == Platforms(next)
    ensures forall p :: p in after ==> after[p] == GroupSoFar(next, games, today, p)
  {
    PlatformsSnoc(prefix, game);
    forall p | p in after
      ensures after[p] == GroupSoFar(prefix + [game], games, today, p)
    {
      GroupEntryStep(prefix, games, today, game, p, before, after);
    }
  }

  /** One turn of the `reduce`, seen from the list of one platform `p`. */
  lemma GroupEntryStep(prefix: seq<Game>, games: seq<Game>, today: Date, game: Game, p: string,
                       before: map<string, seq<Game>>, after: map<string, seq<Game>>)
    requires p in after
    requires before.Keys == Platforms(prefix)
    requires p in before ==> before[p] == GroupSoFar(prefix, games, today, p)
    requires var started := if game.platform in before then before else before[game.platform := []];
      after == if Kept(games, today, game) then started[game.platform := started[game.platform] + [game]] else started
    ensures after[p] == GroupSoFar(prefix + [game], games, today, p)
  {
    GroupSoFarSnoc(prefix, games, today, game, p);
    if p !in before {
      GroupSoFarUnseen(prefix, games, today, p);
    }
  }

  /**
   * The `forEach` over the accumulator's keys: an empty list is replaced by
   * the platform's latest-dated records; a non-empty one is left alone.
   */
  method FillEmptyGroups(games: seq<Game>, grouped: map<string, seq<Game>>)
    returns (result: map<string, seq<Game>>)
    ensures result.Keys == grouped.Keys
    ensures forall p :: p in result ==>
      result[p] == if grouped[p] == [] then MostRecent(OnPlatform(games, p)) else grouped[p]
    ensures forall p :: p in result && p in Platforms(games) ==> result[p] != []
  {
    result := grouped;
    var todo := grouped.Keys;
    while todo != {}
      invariant todo <= grouped.Keys
      invariant result.Keys == grouped.Keys
      invariant forall p :: p in result ==>
        result[p] == if p in todo || grouped[p] != [] then grouped[p] else MostRecent(OnPlatform(games, p))
      decreases todo
    {
      var platform :| platform in todo;
      if result[platform] == [] {
        var platformGames := OnPlatform(games, platform);
        result := result[platform := MostRecent(platformGames)];
      }
      todo := todo - {platform};
    }
    forall p | p in result && p in Platforms(games)
      ensures result[p] != []
    {
      OnPlatformShape(games, p);
      MostRecentSpec(OnPlatform(games, p));
    }
  }

  /** Both passes: the selection the page renders. */
  method SelectReleases(games: seq<Game>, today: Date) returns (grouped: map<string, seq<Game>>)
    ensures grouped == Selection(games, today)
  {
    var first := GroupByPlatform(games, today);
    grouped := FillEmptyGroups(games, first);
    assert forall p :: p in grouped ==> grouped[p] == Selected(games, today, p);
  }
}
