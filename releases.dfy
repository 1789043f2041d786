/**
 * Which release records the page shows for each platform, stated as
 * functions of the input list and of "today".
 *
 * Records are grouped under their exact `platform` string. A platform whose
 * name lower-cases to `sony` keeps the records of today's month and year;
 * every other platform keeps the records carrying its latest scrape date.
 * A group left empty falls back to its latest-dated records.
 */
module Releases {
  import opened Seqs
  import opened Dates
  import Text

  datatype Game = Game(
    platform: string,
    date: Date,
    title: string,
    image: string,
    link: string,
    trailer: string)

  /** The platform strings that occur in `games`. */
  function Platforms(games: seq<Game>): (ps: set<string>)
    ensures forall k :: 0 <= k < |games| ==> games[k].platform in ps
    ensures forall p :: p in ps ==> exists k :: 0 <= k < |games| && games[k].platform == p
  {
    set g | g in games :: g.platform
  }

  /** `games.filter(g => g.platform === p)`: input records of exactly platform `p`. */
  function OnPlatform(games: seq<Game>, p: string): (r: seq<Game>)
    ensures |r| <= |games|
    ensures forall k :: 0 <= k < |r| ==> r[k] in games && r[k].platform == p
  {
    FilterIn(games, (g: Game) => g.platform == p);
    var r := Filter(games, (g: Game) => g.platform == p);
    assert forall k :: 0 <= k < |r| ==> r[k] in r;
    r
  }

  /**
   * The platform gets the Sony treatment, `platform.toLowerCase() === 'sony'`:
   * exactly the strings that spell `sony` in any mix of cases.
   */
  predicate IsSony(p: string): (r: bool)
    ensures r <==> Text.EqualsIgnoringCase(p, "sony")
  {
    Text.ToLowerMatches(p, "sony");
    Text.ToLower(p) == "sony"
  }

  /** `getMostRecentScrapeDate` as a stamp: the largest `getTime()` in `gs`. */
  function MostRecentStamp(gs: seq<Game>): (m: int)
    requires gs != []
    ensures forall k :: 0 <= k < |gs| ==> Stamp(gs[k].date) <= m
    ensures exists k :: 0 <= k < |gs| && Stamp(gs[k].date) == m
  {
    var last := Stamp(gs[|gs| - 1].date);
    if |gs| == 1 then last
    else
      var init := gs[..|gs| - 1];
      var m0 := MostRecentStamp(init);
      assert forall k :: 0 <= k < |init| ==> init[k] == gs[k];
      if m0 < last then last else m0
  }

  /**
   * `d` carries the most recent date of `gs`. For an empty `gs` the source's
   * maximum is an invalid `Date`, which equals no date.
   */
  predicate IsMostRecent(gs: seq<Game>, d: Date)
  {
    gs != [] && Stamp(d) == MostRecentStamp(gs)
  }

  /**
   * The records of `gs` dated at its most recent date, in input order: each
   * is a record of `gs` with no later record, and a non-empty `gs` keeps one.
   */
  function MostRecent(gs: seq<Game>): (r: seq<Game>)
    ensures |r| <= |gs|
    ensures gs != [] ==> r != []
    ensures forall k :: 0 <= k < |r| ==> r[k] in gs && Latest(gs, r[k].date)
  {
    FilterIn(gs, (g: Game) => IsMostRecent(gs, g.date));
    SomeMostRecent(gs);
    Filter(gs, (g: Game) => IsMostRecent(gs, g.date))
  }

  /** Some record of a non-empty list carries its most recent date. */
  lemma SomeMostRecent(gs: seq<Game>)
    ensures gs != [] ==> exists g :: g in gs && IsMostRecent(gs, g.date)
  {
    if gs != [] {
      var j :| 0 <= j < |gs| && Stamp(gs[j].date) == MostRecentStamp(gs);
      assert gs[j] in gs;
    }
  }

  /** The records of `gs` dated in today's month and year, in input order. */
  function InMonth(gs: seq<Game>, today: Date): (r: seq<Game>)
    ensures |r| <= |gs|
    ensures forall k :: 0 <= k < |r| ==> r[k] in gs && InCurrentMonth(r[k].date, today)
  {
    FilterIn(gs, (g: Game) => InCurrentMonth(g.date, today));
    var r := Filter(gs, (g: Game) => InCurrentMonth(g.date, today));
    assert forall k :: 0 <= k < |r| ==> r[k] in r;
    r
  }

  /** No input record of platform `p` is dated later than `d`. */
  ghost predicate NoLaterOnPlatform(games: seq<Game>, p: string, d: Date)
  {
    forall k :: 0 <= k < |games| && games[k].platform == p ==> Stamp(games[k].date) <= Stamp(d)
  }

  /**
   * Whether the first pass keeps record `g` of the input `games`: a Sony
   * record when it is dated in today's month and year, any other record when
   * no record of its platform is dated later.
   */
  predicate Kept(games: seq<Game>, today: Date, g: Game): (r: bool)
    ensures g in games ==>
      (r <==> if IsSony(g.platform) then InCurrentMonth(g.date, today)
              else NoLaterOnPlatform(games, g.platform, g.date))
  {
    MostRecentOnPlatform(games, g);
    if IsSony(g.platform) then InCurrentMonth(g.date, today)
    else IsMostRecent(OnPlatform(games, g.platform), g.date)
  }

  /** A record carries its platform's most recent date exactly when no record of the platform is later. */
  lemma MostRecentOnPlatform(games: seq<Game>, g: Game)
    ensures g in games ==>
      (IsMostRecent(OnPlatform(games, g.platform), g.date) <==> NoLaterOnPlatform(games, g.platform, g.date))
  {
    if g in games {
      OnOwnPlatform(games, g);
      IsMostRecentIffLatest(OnPlatform(games, g.platform), g);
      LatestOnPlatform(games, g.platform, g.date);
    }
  }

  /** The first pass's list for platform `p`, built from the records in `prefix`. */
  function GroupSoFar(prefix: seq<Game>, games: seq<Game>, today: Date, p: string): seq<Game>
  {
    Filter(prefix, (g: Game) => g.platform == p && Kept(games, today, g))
  }

  /**
   * The list of platform `p` after the first pass over all of `games`: input
   * records of `p` only, and never empty for a platform other than Sony that
   * occurs in the input.
   */
  function FirstPass(games: seq<Game>, today: Date, p: string): (r: seq<Game>)
    ensures forall k :: 0 <= k < |r| ==> r[k] in games && r[k].platform == p
    ensures p in Platforms(games) && !IsSony(p) ==> r != []
  {
    var pg := OnPlatform(games, p);
    OnPlatformShape(games, p);
    if IsSony(p) then InMonth(pg, today) else MostRecent(pg)
  }

  /**
   * The list of platform `p` after the fallback pass: input records of `p`
   * only, and never empty for a platform that occurs in the input.
   */
  function Selected(games: seq<Game>, today: Date, p: string): (r: seq<Game>)
    ensures forall k :: 0 <= k < |r| ==> r[k] in games && r[k].platform == p
    ensures p in Platforms(games) ==> r != []
  {
    var first := FirstPass(games, today, p);
    OnPlatformShape(games, p);
    if first == [] then MostRecent(OnPlatform(games, p)) else first
  }

  /** The whole selection: one entry per platform seen in the input, none of them empty. */
  function Selection(games: seq<Game>, today: Date): (r: map<string, seq<Game>>)
    ensures r.Keys == Platforms(games)
    ensures forall p :: p in r ==> r[p] != []
  {
    map p | p in Platforms(games) :: Selected(games, today, p)
  }

  // ---------------------------------------------------------------------
  // Properties

  /** The records of platform `p`: exactly those of the input with that platform, in input order. */
  lemma OnPlatformShape(games: seq<Game>, p: string)
    ensures forall g :: g in OnPlatform(games, p) <==> g in games && g.platform == p
    ensures IsSubseq(OnPlatform(games, p), games)
    ensures p in Platforms(games) <==> OnPlatform(games, p) != []
  {
    FilterIn(games, (g: Game) => g.platform == p);
    FilterIsSubseq(games, (g: Game) => g.platform == p);
    if p in Platforms(games) {
      var k :| 0 <= k < |games| && games[k].platform == p;
      assert games[k] in OnPlatform(games, p);
    }
  }

  /** Every record is among the records of its own platform. */
  lemma OnOwnPlatform(games: seq<Game>, g: Game)
    requires g in games
    ensures g in OnPlatform(games, g.platform)
  {
    FilterIn(games, (h: Game) => h.platform == g.platform);
  }

  /** The records of `gs` in today's month: exactly those, in order. */
  lemma InMonthShape(gs: seq<Game>, today: Date)
    ensures forall g :: g in InMonth(gs, today) <==> g in gs && InCurrentMonth(g.date, today)
    ensures IsSubseq(InMonth(gs, today), gs)
  {
    FilterIn(gs, (g: Game) => InCurrentMonth(g.date, today));
    FilterIsSubseq(gs, (g: Game) => InCurrentMonth(g.date, today));
  }

  /** Subsequences compose. */
  lemma {:induction false} SubseqTrans(xs: seq<Game>, ys: seq<Game>, zs: seq<Game>)
    requires IsSubseq(xs, ys) && IsSubseq(ys, zs)
    ensures IsSubseq(xs, zs)
    decreases |zs|
  {
    if xs != [] && ys != [] && zs != [] {
      var xs', ys', zs' := xs[..|xs| - 1], ys[..|ys| - 1], zs[..|zs| - 1];
      if ys[|ys| - 1] == zs[|zs| - 1] && IsSubseq(ys', zs') {
        if xs[|xs| - 1] == ys[|ys| - 1] && IsSubseq(xs', ys') {
          SubseqTrans(xs', ys', zs');
        } else {
          SubseqTrans(xs, ys', zs');
        }
      } else {
        SubseqTrans(xs, ys, zs');
      }
    }
  }

  /** No record of `gs` is dated later than `d`. */
  ghost predicate Latest(gs: seq<Game>, d: Date)
  {
    forall k :: 0 <= k < |gs| ==> Stamp(gs[k].date) <= Stamp(d)
  }

  /** For a record of `gs`, carrying the most recent date means no record is later. */
  lemma IsMostRecentIffLatest(gs: seq<Game>, g: Game)
    requires g in gs
    ensures IsMostRecent(gs, g.date) <==> Latest(gs, g.date)
  {
    var j :| 0 <= j < |gs| && Stamp(gs[j].date) == MostRecentStamp(gs);
    var i :| 0 <= i < |gs| && gs[i] == g;
    if Latest(gs, g.date) {
      assert Stamp(gs[j].date) <= Stamp(g.date);
    }
  }

  /**
   * The most-recent rule: a record of `gs` is kept exactly when no record of
   * `gs` is later, some record is always kept, and input order is kept.
   */
  lemma MostRecentSpec(gs: seq<Game>)
    ensures forall g :: g in MostRecent(gs) <==> g in gs && Latest(gs, g.date)
    ensures gs != [] ==> MostRecent(gs) != []
    ensures IsSubseq(MostRecent(gs), gs)
  {
    FilterIn(gs, (g: Game) => IsMostRecent(gs, g.date));
    FilterIsSubseq(gs, (g: Game) => IsMostRecent(gs, g.date));
    forall g | g in gs
      ensures IsMostRecent(gs, g.date) <==> Latest(gs, g.date)
    {
      IsMostRecentIffLatest(gs, g);
    }
    if gs != [] {
      var j :| 0 <= j < |gs| && Stamp(gs[j].date) == MostRecentStamp(gs);
      assert gs[j] in MostRecent(gs);
    }
  }

  /** Reading one more record adds its platform to the platforms seen. */
  lemma PlatformsSnoc(prefix: seq<Game>, game: Game)
    ensures Platforms(prefix + [game]) == Platforms(prefix) + {game.platform}
  {
    assert forall k :: 0 <= k < |prefix| ==> (prefix + [game])[k] == prefix[k];
    assert (prefix + [game])[|prefix|] == game;
  }

  /** Reading one more record pushes it onto its own platform's list when it is kept. */
  lemma GroupSoFarSnoc(prefix: seq<Game>, games: seq<Game>, today: Date, game: Game, p: string)
    ensures GroupSoFar(prefix + [game], games, today, p) ==
      GroupSoFar(prefix, games, today, p) + (if game.platform == p && Kept(games, today, game) then [game] else [])
  {
    FilterSnoc(prefix, game, (g: Game) => g.platform == p && Kept(games, today, g));
  }

  /** A platform not yet seen has an empty list. */
  lemma GroupSoFarUnseen(prefix: seq<Game>, games: seq<Game>, today: Date, p: string)
    requires p !in Platforms(prefix)
    ensures GroupSoFar(prefix, games, today, p) == []
  {
    FilterEmpty(prefix, (g: Game) => g.platform == p && Kept(games, today, g));
  }

  /** The first pass, record by record, builds the per-platform rule. */
  lemma GroupSoFarIsFirstPass(games: seq<Game>, today: Date, p: string)
    ensures GroupSoFar(games, games, today, p) == FirstPass(games, today, p)
  {
    var pg := OnPlatform(games, p);
    var kept := (g: Game) => Kept(games, today, g);
    OnPlatformShape(games, p);
    FilterFilter(games, (g: Game) => g.platform == p, kept, (g: Game) => g.platform == p && Kept(games, today, g));
    if IsSony(p) {
      FilterCongruent(pg, kept, (g: Game) => InCurrentMonth(g.date, today));
    } else {
      FilterCongruent(pg, kept, (g: Game) => IsMostRecent(pg, g.date));
    }
  }

  /** The fallback pass changes no list of a platform other than Sony. */
  lemma FallbackKeepsNonSony(games: seq<Game>, today: Date, p: string)
    requires p in Platforms(games) && !IsSony(p)
    ensures Selection(games, today)[p] == FirstPass(games, today, p)
  {
  }

  /**
   * Keys: exactly the platforms seen in the input. Lists: non-empty, each a
   * subsequence of the input in input order, all of exactly that platform.
   */
  lemma SelectionShape(games: seq<Game>, today: Date)
    ensures Selection(games, today).Keys == Platforms(games)
    ensures forall p :: p in Selection(games, today) ==>
      && Selection(games, today)[p] != []
      && IsSubseq(Selection(games, today)[p], games)
      && forall g :: g in Selection(games, today)[p] ==> g.platform == p
  {
    forall p | p in Selection(games, today)
      ensures Selection(games, today)[p] != []
      ensures IsSubseq(Selection(games, today)[p], games)
      ensures forall g :: g in Selection(games, today)[p] ==> g.platform == p
    {
      SelectedShape(games, today, p);
    }
  }

  /** One platform's list: non-empty, in input order, all of that platform. */
  lemma SelectedShape(games: seq<Game>, today: Date, p: string)
    requires p in Platforms(games)
    ensures Selected(games, today, p) != []
    ensures IsSubseq(Selected(games, today, p), games)
    ensures forall g :: g in Selected(games, today, p) ==> g in games && g.platform == p
  {
    var pg := OnPlatform(games, p);
    OnPlatformShape(games, p);
    MostRecentSpec(pg);
    InMonthShape(pg, today);
    var s := Selected(games, today, p);
    SubseqTrans(s, pg, games);
  }

  /**
   * A platform other than Sony shows exactly its records dated at the
   * platform's latest `getTime()`.
   */
  lemma NonSonySelection(games: seq<Game>, today: Date, p: string)
    requires p in Platforms(games) && !IsSony(p)
    ensures Selection(games, today)[p] == MostRecent(OnPlatform(games, p))
    ensures forall g :: g in Selection(games, today)[p] <==>
      && g in games && g.platform == p
      && forall k :: 0 <= k < |games| && games[k].platform == p ==> Stamp(games[k].date) <= Stamp(g.date)
  {
    var pg := OnPlatform(games, p);
    FallbackKeepsNonSony(games, today, p);
    MostRecentSpec(pg);
    OnPlatformShape(games, p);
    forall d: Date
      ensures Latest(pg, d) <==>
        forall k :: 0 <= k < |games| && games[k].platform == p ==> Stamp(games[k].date) <= Stamp(d)
    {
      LatestOnPlatform(games, p, d);
    }
  }

  /** Being latest among a platform's records, read off the whole input. */
  lemma LatestOnPlatform(games: seq<Game>, p: string, d: Date)
    ensures Latest(OnPlatform(games, p), d) <==> NoLaterOnPlatform(games, p, d)
  {
    var pg := OnPlatform(games, p);
    OnPlatformShape(games, p);
    if Latest(pg, d) {
      forall k | 0 <= k < |games| && games[k].platform == p
        ensures Stamp(games[k].date) <= Stamp(d)
      {
        assert games[k] in pg;
      }
    }
    if forall k :: 0 <= k < |games| && games[k].platform == p ==> Stamp(games[k].date) <= Stamp(d) {
      forall j | 0 <= j < |pg|
        ensures Stamp(pg[j].date) <= Stamp(d)
      {
        assert pg[j] in pg;
      }
    }
  }

  /**
   * A Sony platform with records in today's month and year shows exactly
   * those records, in input order.
   */
  lemma SonySelection(games: seq<Game>, today: Date, p: string)
    requires IsSony(p)
    requires exists k :: 0 <= k < |games| && games[k].platform == p && InCurrentMonth(games[k].date, today)
    ensures p in Selection(games, today)
    ensures Selection(games, today)[p] == InMonth(OnPlatform(games, p), today)
    ensures forall g :: g in Selection(games, today)[p] <==>
      g in games && g.platform == p && InCurrentMonth(g.date, today)
  {
    var k :| 0 <= k < |games| && games[k].platform == p && InCurrentMonth(games[k].date, today);
    var pg := OnPlatform(games, p);
    OnPlatformShape(games, p);
    InMonthShape(pg, today);
    assert games[k] in InMonth(pg, today);
  }

  /**
   * A Sony platform with no record in today's month falls back to its
   * latest-dated records.
   */
  lemma SonyFallback(games: seq<Game>, today: Date, p: string)
    requires p in Platforms(games) && IsSony(p)
    requires forall k :: 0 <= k < |games| && games[k].platform == p ==> !InCurrentMonth(games[k].date, today)
    ensures Selection(games, today)[p] == MostRecent(OnPlatform(games, p))
    ensures Selection(games, today)[p] != []
  {
    var pg := OnPlatform(games, p);
    OnPlatformShape(games, p);
    assert forall k :: 0 <= k < |pg| ==> pg[k] in games && !InCurrentMonth(pg[k].date, today) by {
      forall k | 0 <= k < |pg| ensures pg[k] in games && pg[k].platform == p {
        assert pg[k] in pg;
      }
    }
    FilterEmpty(pg, (g: Game) => InCurrentMonth(g.date, today));
    MostRecentSpec(pg);
  }

  /** The filters of the selection on a one-record input. */
  lemma SingleRecordLists(r: Game, today: Date)
    ensures OnPlatform([r], r.platform) == [r]
    ensures MostRecent([r]) == [r]
    ensures InMonth([r], today) == if InCurrentMonth(r.date, today) then [r] else []
  {
    assert [r][..0] == [];
    var own := (g: Game) => g.platform == r.platform;
    assert Filter([r], own) == Filter([], own) + [r];
    var latest := (g: Game) => IsMostRecent([r], g.date);
    assert latest(r);
    assert Filter([r], latest) == Filter([], latest) + [r];
    var inMonth := (g: Game) => InCurrentMonth(g.date, today);
    assert Filter([r], inMonth) == Filter([], inMonth) + (if inMonth(r) then [r] else []);
  }

  /**
   * A platform with a single record always shows it: for Sony either because
   * it is in today's month or through the fallback.
   */
  lemma SingleRecordSelected(r: Game, today: Date)
    ensures Selection([r], today) == map[r.platform := [r]]
    ensures IsSony(r.platform) && InCurrentMonth(r.date, today) ==> FirstPass([r], today, r.platform) == [r]
    ensures IsSony(r.platform) && !InCurrentMonth(r.date, today) ==> FirstPass([r], today, r.platform) == []
  {
    SingleRecordLists(r, today);
    assert Selected([r], today, r.platform) == [r];
    assert Platforms([r]) == {r.platform} by {
      assert [r][0] == r;
    }
  }
}
