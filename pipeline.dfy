/** The unification pipeline and its cache (src/lib/api.ts:471-979): the
    unified record is built step by step from the primary (RAWG) record, then
    overwritten and extended by the secondary (IGDB) record when an IGDB id is
    known; `getUnifiedGameData` serves any cached row and runs the pipeline
    only for a slug it has never stored. */
module GamePipeline {
  import opened Wrappers
  import opened Text
  import opened KeyedMap
  import opened IdentityMatch
  import opened TimeParse
  import opened GameMerge

  // ----- Inputs -----

  /** The fields of the RAWG record the pipeline reads. */
  datatype RawgRecord = RawgRecord(
    id: int,
    name: string,
    website: string,                       // empty when absent
    developers: seq<string>,
    genres: Option<seq<Genre>>,
    tags: Option<seq<RawTag>>,
    clip: Option<Clip>,
    esrb: Option<EsrbRating>,
    ageRatings: Option<seq<RawgAgeRating>>)

  /** The IGDB fields that `Object.assign` copies over verbatim. */
  datatype IgdbDetails = IgdbDetails(
    summary: Option<string>,
    franchises: Option<seq<string>>,
    gameEngines: Option<seq<string>>,
    gameModes: Option<seq<string>>,
    playerPerspectives: Option<seq<string>>,
    themes: Option<seq<string>>,
    alternativeNames: Option<seq<string>>)

  /** The full IGDB record (`fetchFullIgdbData`). */
  datatype IgdbGame = IgdbGame(
    details: IgdbDetails,
    involvedCompanies: Option<seq<InvolvedCompany>>,
    screenshotUrls: Option<seq<string>>,
    ageRatingIds: Option<seq<int>>,
    genres: Option<seq<Genre>>,
    videos: Option<seq<Video>>)

  /** A full-record request: it throws (not ok), finds nothing, or finds a game. */
  datatype FullFetch = FetchThrew | NoGame | Found(game: IgdbGame)

  /** Every IGDB answer the block reads, as values. The second full-record
      request (for keywords) only matters through whether it throws: its field
      list does not ask for `keywords`, so it never yields any. */
  datatype IgdbResponses = IgdbResponses(
    full: FullFetch,
    times: TimesResponse,
    companyNames: map<int, string>,
    ageRatings: AgeRatingResponses,
    languagePairs: Option<seq<SupportPair>>,
    languageNames: map<int, string>,
    supportTypeNames: map<int, string>,
    refetchThrows: bool)

  // ----- The unified record -----

  /** `age_ratings`: RAWG's own array (copied by the spread) or the unified shape. */
  datatype AgeRatingList = RawgAgeRatingList(raw: seq<RawgAgeRating>) | UnifiedAgeRatings(ratings: seq<AgeRating>)

  datatype UnifiedGame = UnifiedGame(
    rawgId: int,
    name: string,
    screenshots: seq<Screenshot>,
    website: Option<string>,
    developers: seq<string>,
    publishers: seq<string>,
    completionTimes: Option<CompletionTimes>,
    igdbDetails: Option<IgdbDetails>,
    genres: Option<seq<Genre>>,
    ageRatings: Option<AgeRatingList>,
    videoData: Option<VideoData>,
    supportedLanguages: Option<map<string, LanguageSupport>>,
    tags: Option<seq<Tag>>)

  predicate AgeRatingsEmpty(a: Option<AgeRatingList>) {
    match a
    case None => true
    case Some(RawgAgeRatingList(raw)) => |raw| == 0
    case Some(UnifiedAgeRatings(rs)) => |rs| == 0
  }

  /** The record built from RAWG alone, before the IGDB block. */
  function RawgBase(g: RawgRecord, rawgShots: seq<Screenshot>): (u: UnifiedGame)
    ensures u.rawgId == g.id && u.screenshots == rawgShots && u.developers == g.developers
    ensures u.publishers == [] && u.tags.None? && u.videoData.None? && u.genres == g.genres
    ensures u.website.Some? <==> g.website != ""
  {
    UnifiedGame(g.id, g.name, rawgShots,
      if g.website != "" then Some(g.website) else None,
      g.developers, [], None, None, g.genres,
      if g.ageRatings.Some? then Some(RawgAgeRatingList(g.ageRatings.value)) else None,
      None, None, None)
  }

  /** The age-rating fallback: when the list is missing or empty and RAWG offers
      some rating, the converted RAWG ratings replace it. */
  function WithAgeRatingFallback(a: Option<AgeRatingList>, g: RawgRecord): (r: Option<AgeRatingList>)
    ensures !AgeRatingsEmpty(a) ==> r == a
    ensures AgeRatingsEmpty(a) && |FallbackList(g.esrb, g.ageRatings)| > 0 ==>
      r == Some(UnifiedAgeRatings(FallbackList(g.esrb, g.ageRatings)))
    ensures AgeRatingsEmpty(a) && |FallbackList(g.esrb, g.ageRatings)| == 0 ==> r == a
  {
    if AgeRatingsEmpty(a) && |FallbackList(g.esrb, g.ageRatings)| > 0
    then Some(UnifiedAgeRatings(FallbackList(g.esrb, g.ageRatings)))
    else a
  }

  // ----- The record each step leaves, as values -----

  /** The record after the first half of the IGDB block. */
  function IgdbDataOf(u: UnifiedGame, full: IgdbGame, igdb: IgdbResponses): UnifiedGame {
    var times := CompletionTimesOf(igdb.times);
    var involved := full.involvedCompanies.GetOr([]);
    var companies := if |involved| > 0 then MergeCompanies(u.developers, involved, igdb.companyNames)
                     else (u.developers, u.publishers);
    var urls := full.screenshotUrls.GetOr([]);
    u.(completionTimes := if times.Some? then times else u.completionTimes,
       developers := companies.0, publishers := companies.1,
       screenshots := if |urls| > 0 then FirstByKey(u.screenshots + IgdbScreenshots(urls), ShotKey) else u.screenshots)
  }

  /** The record after the second half of the IGDB block. */
  function IgdbDetailsOf(u: UnifiedGame, full: IgdbGame, igdb: IgdbResponses): UnifiedGame {
    var videos := full.videos.GetOr([]);
    u.(igdbDetails := Some(full.details),
       genres := full.genres,
       ageRatings := Some(UnifiedAgeRatings(IgdbAgeRatings(full.ageRatingIds, igdb.ageRatings))),
       videoData := if |videos| > 0 then Some(IgdbVideos(videos)) else u.videoData,
       supportedLanguages := Some(if igdb.languagePairs.Some?
                                  then Fold(igdb.languagePairs.value, igdb.languageNames, igdb.supportTypeNames)
                                  else map[]))
  }

  /** The record after the tag step, when the keyword re-fetch did not throw. */
  function KeywordTagsOf(u: UnifiedGame, rawgTags: Option<seq<RawTag>>): UnifiedGame {
    if |rawgTags.GetOr([])| > 0 then u.(tags := Some(Sourced(rawgTags.GetOr([]), "rawg"))) else u
  }

  /** The record after the two RAWG fallbacks. */
  function RawgFallbacksOf(u: UnifiedGame, g: RawgRecord): UnifiedGame {
    u.(videoData := if u.videoData.Some? then u.videoData else ChooseVideo([], g.clip),
       ageRatings := WithAgeRatingFallback(u.ageRatings, g))
  }

  /** The whole pipeline from a RAWG record and a resolved IGDB id: nothing
      when an IGDB request the block relies on throws, else the record. */
  function Unified(g: RawgRecord, rawgShots: seq<Screenshot>, igdbId: Option<int>, igdb: IgdbResponses): Option<UnifiedGame> {
    var base := RawgBase(g, rawgShots);
    if !UsesIgdb(igdbId) || igdb.full.NoGame? then Some(RawgFallbacksOf(base, g))
    else if igdb.full.FetchThrew? || igdb.refetchThrows then None
    else
      var full := igdb.full.game;
      Some(RawgFallbacksOf(KeywordTagsOf(IgdbDetailsOf(IgdbDataOf(base, full, igdb), full, igdb), g.tags), g))
  }

  /** A pipeline result always carries the RAWG record's id and name, and it
      is missing exactly when IGDB is used and one of its requests throws. */
  lemma UnifiedKeepsIdentity(g: RawgRecord, rawgShots: seq<Screenshot>, igdbId: Option<int>, igdb: IgdbResponses)
    ensures Unified(g, rawgShots, igdbId, igdb).None? <==>
      UsesIgdb(igdbId) && (igdb.full.FetchThrew? || (igdb.full.Found? && igdb.refetchThrows))
    ensures Unified(g, rawgShots, igdbId, igdb).Some? ==>
      Unified(g, rawgShots, igdbId, igdb).value.rawgId == g.id &&
      Unified(g, rawgShots, igdbId, igdb).value.name == g.name
  {
  }

  /** The first half of the IGDB block: completion times, companies and
      screenshots. Each field keeps its old value when IGDB has nothing for it. */
  method ApplyIgdbData(u: UnifiedGame, full: IgdbGame, igdb: IgdbResponses) returns (v: UnifiedGame)
    ensures v.rawgId == u.rawgId && v.name == u.name && v.website == u.website
    ensures v.igdbDetails == u.igdbDetails && v.genres == u.genres && v.ageRatings == u.ageRatings
    ensures v.videoData == u.videoData && v.supportedLanguages == u.supportedLanguages && v.tags == u.tags
    ensures CompletionTimesOf(igdb.times).Some? ==> v.completionTimes == CompletionTimesOf(igdb.times)
    ensures CompletionTimesOf(igdb.times).None? ==> v.completionTimes == u.completionTimes
    ensures |full.involvedCompanies.GetOr([])| == 0 ==> v.developers == u.developers && v.publishers == u.publishers
    ensures |full.involvedCompanies.GetOr([])| > 0 ==>
      (v.developers, v.publishers) == MergeCompanies(u.developers, full.involvedCompanies.GetOr([]), igdb.companyNames)
    ensures |full.screenshotUrls.GetOr([])| == 0 ==> v.screenshots == u.screenshots
    ensures |full.screenshotUrls.GetOr([])| > 0 ==>
      v.screenshots == FirstByKey(u.screenshots + IgdbScreenshots(full.screenshotUrls.GetOr([])), ShotKey)
    ensures v == IgdbDataOf(u, full, igdb)
  {
    v := u;
    var times := CompletionTimesOf(igdb.times);
    if times.Some? {
      v := v.(completionTimes := times);
    }
    var involved := full.involvedCompanies.GetOr([]);
    if |involved| > 0 {
      var merged := MergeCompanies(v.developers, involved, igdb.companyNames);
      v := v.(developers := merged.0, publishers := merged.1);
    }
    var urls := full.screenshotUrls.GetOr([]);
    if |urls| > 0 {
      var shots := MergeScreenshots(v.screenshots, urls);
      v := v.(screenshots := shots);
    }
  }

  /** The second half of the IGDB block: the copied details, IGDB's genres
      (the `Object.assign` overwrites them before the genre "merge", which
      then only compares IGDB's list with itself), the IGDB age ratings, the
      videos and the language fold. */
  method ApplyIgdbDetails(u: UnifiedGame, full: IgdbGame, igdb: IgdbResponses) returns (v: UnifiedGame)
    ensures v.rawgId == u.rawgId && v.name == u.name && v.website == u.website
    ensures v.completionTimes == u.completionTimes && v.developers == u.developers
    ensures v.publishers == u.publishers && v.screenshots == u.screenshots && v.tags == u.tags
    ensures v.igdbDetails == Some(full.details)
    ensures v.genres == GenresAsWritten(u.genres, full.genres) && v.genres == full.genres
    ensures v.ageRatings == Some(UnifiedAgeRatings(IgdbAgeRatings(full.ageRatingIds, igdb.ageRatings)))
    ensures |full.videos.GetOr([])| > 0 ==> v.videoData == Some(IgdbVideos(full.videos.GetOr([])))
    ensures |full.videos.GetOr([])| == 0 ==> v.videoData == u.videoData
    ensures igdb.languagePairs.None? ==> v.supportedLanguages == Some(map[])
    ensures igdb.languagePairs.Some? ==>
      v.supportedLanguages == Some(Fold(igdb.languagePairs.value, igdb.languageNames, igdb.supportTypeNames))
    ensures v == IgdbDetailsOf(u, full, igdb)
  {
    var finalAgeRatings := IgdbAgeRatings(full.ageRatingIds, igdb.ageRatings);
    // Object.assign
    v := u.(igdbDetails := Some(full.details),
            genres := full.genres,
            ageRatings := Some(UnifiedAgeRatings(finalAgeRatings)));
    // the genre "merge" then runs against the genres just overwritten
    if full.genres.Some? && |full.genres.value| > 0 {
      v := v.(genres := Some(AppendNew(v.genres.GetOr([]), full.genres.value, GenreName)));
    }
    GenresAsWrittenDropsRawg(u.genres, full.genres);
    var videos := full.videos.GetOr([]);
    if |videos| > 0 {
      v := v.(videoData := Some(IgdbVideos(videos)));
    }
    var languages := FoldLanguages(igdb.languagePairs, igdb.languageNames, igdb.supportTypeNames);
    v := v.(supportedLanguages := Some(languages));
  }

  /** The two fallbacks after the IGDB block: RAWG's clip when no video was
      set, and the converted RAWG ratings when the list is missing or empty. */
  method ApplyRawgFallbacks(u: UnifiedGame, g: RawgRecord) returns (v: UnifiedGame)
    ensures v.videoData == (if u.videoData.Some? then u.videoData else ChooseVideo([], g.clip))
    ensures v.ageRatings == WithAgeRatingFallback(u.ageRatings, g)
    ensures v == RawgFallbacksOf(u, g)
  {
    v := u;
    if v.videoData.None? && g.clip.Some? {
      v := v.(videoData := Some(RawgClip(g.clip.value)));
    }
    if AgeRatingsEmpty(v.ageRatings) {
      var fallback := RawgAgeRatings(g.esrb, g.ageRatings);
      if |fallback| > 0 {
        v := v.(ageRatings := Some(UnifiedAgeRatings(fallback)));
      }
    }
  }

  /** Without keywords the merged tag list is RAWG's, marked `rawg`. */
  lemma NoKeywordsKeepsRawgTags(tags: seq<RawTag>)
    ensures Sourced(tags, "rawg") + FirstByKey(Sourced([], "igdb"), TagKey) == Sourced(tags, "rawg")
  {
    assert Sourced([], "igdb") == [];
    assert FirstByKey(Sourced([], "igdb"), TagKey) == [];
  }

  /** The tag step: the keyword re-fetch throws, which abandons the pipeline,
      or yields no keywords, so the tags become RAWG's alone when it has any. */
  method ApplyKeywordTags(u: UnifiedGame, rawgTags: Option<seq<RawTag>>, refetchThrows: bool)
    returns (r: Option<UnifiedGame>)
    ensures refetchThrows <==> r.None?
    ensures r.Some? && |rawgTags.GetOr([])| == 0 ==> r.value == u
    ensures r.Some? && |rawgTags.GetOr([])| > 0 ==> r.value == u.(tags := Some(Sourced(rawgTags.GetOr([]), "rawg")))
    ensures r.Some? ==> r.value == KeywordTagsOf(u, rawgTags)
  {
    if refetchThrows {
      return None;
    }
    // the keyword re-fetch never asks for keywords, so IGDB adds no tags
    var tags := MergeTags(rawgTags, []);
    NoKeywordsKeepsRawgTags(rawgTags.GetOr([]));
    if tags.Some? {
      return Some(u.(tags := tags));
    }
    r := Some(u);
  }

  /** The IGDB block once the full record is found: its fields are merged in,
      then the keyword re-fetch either throws, which abandons the pipeline,
      or yields no keywords, so the tags are RAWG's alone. */
  method MergeIgdb(u: UnifiedGame, rawgTags: Option<seq<RawTag>>, full: IgdbGame, igdb: IgdbResponses)
    returns (r: Option<UnifiedGame>)
    requires u.tags.None?
    ensures igdb.refetchThrows <==> r.None?
    ensures r.Some? ==> r.value.rawgId == u.rawgId && r.value.name == u.name && r.value.website == u.website
    ensures r.Some? && CompletionTimesOf(igdb.times).Some? ==> r.value.completionTimes == CompletionTimesOf(igdb.times)
    ensures r.Some? && CompletionTimesOf(igdb.times).None? ==> r.value.completionTimes == u.completionTimes
    ensures r.Some? && |full.involvedCompanies.GetOr([])| == 0 ==>
      r.value.developers == u.developers && r.value.publishers == u.publishers
    ensures r.Some? && |full.involvedCompanies.GetOr([])| > 0 ==>
      (r.value.developers, r.value.publishers) == MergeCompanies(u.developers, full.involvedCompanies.GetOr([]), igdb.companyNames)
    ensures r.Some? && |full.screenshotUrls.GetOr([])| == 0 ==> r.value.screenshots == u.screenshots
    ensures r.Some? && |full.screenshotUrls.GetOr([])| > 0 ==>
      r.value.screenshots == FirstByKey(u.screenshots + IgdbScreenshots(full.screenshotUrls.GetOr([])), ShotKey)
    ensures r.Some? ==> r.value.igdbDetails == Some(full.details) && r.value.genres == full.genres
    ensures r.Some? ==> r.value.ageRatings == Some(UnifiedAgeRatings(IgdbAgeRatings(full.ageRatingIds, igdb.ageRatings)))
    ensures r.Some? && |full.videos.GetOr([])| > 0 ==> r.value.videoData == Some(IgdbVideos(full.videos.GetOr([])))
    ensures r.Some? && |full.videos.GetOr([])| == 0 ==> r.value.videoData == u.videoData
    ensures r.Some? && igdb.languagePairs.None? ==> r.value.supportedLanguages == Some(map[])
    ensures r.Some? && igdb.languagePairs.Some? ==>
      r.value.supportedLanguages == Some(Fold(igdb.languagePairs.value, igdb.languageNames, igdb.supportTypeNames))
    ensures r.Some? && |rawgTags.GetOr([])| == 0 ==> r.value.tags.None?
    ensures r.Some? && |rawgTags.GetOr([])| > 0 ==> r.value.tags == Some(Sourced(rawgTags.GetOr([]), "rawg"))
    ensures r.Some? ==> r.value == KeywordTagsOf(IgdbDetailsOf(IgdbDataOf(u, full, igdb), full, igdb), rawgTags)
  {
    var v := ApplyIgdbData(u, full, igdb);
    v := ApplyIgdbDetails(v, full, igdb);
    r := ApplyKeywordTags(v, rawgTags, igdb.refetchThrows);
  }

  /** The IGDB block runs: an IGDB id is known and truthy. */
  predicate UsesIgdb(igdbId: Option<int>) {
    igdbId.Some? && igdbId.value != 0
  }

  /** The IGDB block runs and both of its full-record requests succeed. */
  predicate Merges(igdbId: Option<int>, igdb: IgdbResponses) {
    UsesIgdb(igdbId) && igdb.full.Found? && !igdb.refetchThrows
  }

  /** The pipeline after the RAWG record is known and the IGDB id resolved.
      Nothing fails without IGDB; with it, a throwing full-record request or
      keyword re-fetch makes the whole pipeline yield nothing. */
  method Unify(g: RawgRecord, rawgShots: seq<Screenshot>, igdbId: Option<int>, igdb: IgdbResponses)
    returns (r: Option<UnifiedGame>)
    ensures !UsesIgdb(igdbId) || igdb.full.NoGame? ==>
      r == Some(RawgBase(g, rawgShots).(
        videoData := ChooseVideo([], g.clip),
        ageRatings := WithAgeRatingFallback(RawgBase(g, rawgShots).ageRatings, g)))
    ensures UsesIgdb(igdbId) && (igdb.full.FetchThrew? || (igdb.full.Found? && igdb.refetchThrows)) ==> r.None?
    ensures Merges(igdbId, igdb) ==> r.Some? && r.value.rawgId == g.id && r.value.name == g.name
    ensures Merges(igdbId, igdb) ==> r.value.completionTimes == CompletionTimesOf(igdb.times)
    ensures Merges(igdbId, igdb) && |igdb.full.game.involvedCompanies.GetOr([])| == 0 ==>
      r.value.developers == g.developers && r.value.publishers == []
    ensures Merges(igdbId, igdb) && |igdb.full.game.involvedCompanies.GetOr([])| > 0 ==>
      (r.value.developers, r.value.publishers) ==
        MergeCompanies(g.developers, igdb.full.game.involvedCompanies.GetOr([]), igdb.companyNames)
    ensures Merges(igdbId, igdb) && |igdb.full.game.screenshotUrls.GetOr([])| == 0 ==>
      r.value.screenshots == rawgShots
    ensures Merges(igdbId, igdb) && |igdb.full.game.screenshotUrls.GetOr([])| > 0 ==>
      r.value.screenshots == FirstByKey(rawgShots + IgdbScreenshots(igdb.full.game.screenshotUrls.GetOr([])), ShotKey)
    ensures Merges(igdbId, igdb) ==>
      r.value.igdbDetails == Some(igdb.full.game.details) &&
      r.value.genres == igdb.full.game.genres
    ensures Merges(igdbId, igdb) ==>
      r.value.ageRatings ==
        WithAgeRatingFallback(Some(UnifiedAgeRatings(IgdbAgeRatings(igdb.full.game.ageRatingIds, igdb.ageRatings))), g)
    ensures Merges(igdbId, igdb) ==> r.value.videoData == ChooseVideo(igdb.full.game.videos.GetOr([]), g.clip)
    ensures Merges(igdbId, igdb) && igdb.languagePairs.None? ==> r.value.supportedLanguages == Some(map[])
    ensures Merges(igdbId, igdb) && igdb.languagePairs.Some? ==>
      r.value.supportedLanguages == Some(Fold(igdb.languagePairs.value, igdb.languageNames, igdb.supportTypeNames))
    ensures Merges(igdbId, igdb) && |g.tags.GetOr([])| == 0 ==> r.value.tags.None?
    ensures Merges(igdbId, igdb) && |g.tags.GetOr([])| > 0 ==> r.value.tags == Some(Sourced(g.tags.GetOr([]), "rawg"))
    ensures r == Unified(g, rawgShots, igdbId, igdb)
  {
    var u := RawgBase(g, rawgShots);
    if UsesIgdb(igdbId) {
      match igdb.full
      case FetchThrew =>
        return None;
      case NoGame =>
      case Found(full) =>
        var merged := MergeIgdb(u, g.tags, full, igdb);
        if merged.None? {
          return None;
        }
        u := merged.value;
    }
    u := ApplyRawgFallbacks(u, g);
    r := Some(u);
  }

  /** Without an IGDB match the record keeps RAWG's raw age ratings whenever
      RAWG sent any, so the fallback conversion only runs for an empty list. */
  lemma RawgOnlyKeepsRawAgeRatings(g: RawgRecord, rawgShots: seq<Screenshot>)
    requires g.ageRatings.Some? && |g.ageRatings.value| > 0
    ensures WithAgeRatingFallback(RawgBase(g, rawgShots).ageRatings, g) == Some(RawgAgeRatingList(g.ageRatings.value))
  {
  }

  /** Whenever the fallback replaces the list, it is never left empty, and its
      first entry is the named ESRB rating when RAWG has one. */
  lemma FallbackLeadsWithEsrb(a: Option<AgeRatingList>, g: RawgRecord)
    requires AgeRatingsEmpty(a) && g.esrb.Some? && g.esrb.value.name != ""
    ensures var r := WithAgeRatingFallback(a, g);
      r.Some? && r.value.UnifiedAgeRatings? && |r.value.ratings| > 0 &&
      r.value.ratings[0] == AgeRating(g.esrb.value.id, "ESRB", g.esrb.value.name, [])
  {
  }

  // ----- The cache -----

  /** One cached row. `gameData` is `None` for the `{}` written when only the
      IGDB match is remembered. `updatedAt` is in milliseconds. */
  datatype CacheRow = CacheRow(
    rawgId: Option<int>,
    igdbId: Option<int>,
    gameData: Option<UnifiedGame>,
    updatedAt: int,
    upvotes: int,
    downvotes: int,
    views: int)

  /** The tags-fix applied to cached data: when the first tag has no source,
      every tag is marked as coming from RAWG. */
  function FixTags(tags: Option<seq<Tag>>): (r: Option<seq<Tag>>)
    ensures tags.None? || |tags.value| == 0 || tags.value[0].source.Some? ==> r == tags
    ensures tags.Some? && |tags.value| > 0 && tags.value[0].source.None? ==>
      r.Some? && |r.value| == |tags.value| &&
      forall i :: 0 <= i < |r.value| ==>
        r.value[i] == tags.value[i].(source := Some("rawg"))
  {
    match tags
    case None => None
    case Some(ts) =>
      if |ts| > 0 && ts[0].source.None?
      then Some(seq(|ts|, i requires 0 <= i < |ts| => ts[i].(source := Some("rawg"))))
      else tags
  }

  /** After the fix, every tag has a source whenever the first one did not. */
  lemma FixTagsIdempotent(tags: Option<seq<Tag>>)
    ensures FixTags(FixTags(tags)) == FixTags(tags)
  {
  }

  /** What `getUnifiedGameData` answers: the game data with its counters. */
  datatype GameResponse = GameResponse(data: Option<UnifiedGame>, upvotes: int, downvotes: int, views: int)

  /** `getUnifiedGameData` either answers or throws. */
  datatype Outcome = Answer(response: GameResponse) | Thrown

  const CacheDays := 7
  const DayMillis := 86400000

  /** Whether a row counts as fresh at time `now`. Both branches of the code
      answer the same way, so freshness decides nothing. */
  predicate Fresh(row: CacheRow, now: int) {
    row.updatedAt > now - CacheDays * DayMillis
  }

  /** The answer built from a cached row, fresh or stale. */
  function Served(row: CacheRow): (r: GameResponse)
    ensures r.upvotes == row.upvotes && r.downvotes == row.downvotes && r.views == row.views
    ensures row.gameData.None? ==> r.data.None?
    ensures row.gameData.Some? ==>
      r.data == Some(row.gameData.value.(tags := FixTags(row.gameData.value.tags)))
  {
    var data := match row.gameData
      case None => None
      case Some(d) => Some(d.(tags := FixTags(d.tags)));
    GameResponse(data, row.upvotes, row.downvotes, row.views)
  }

  /** How the IGDB id was settled: found or not, or the attempt to remember the
      match failed (the upsert throws, and the pipeline yields nothing). */
  datatype Resolution = Resolved(igdbId: Option<int>) | RememberFailed

  /** A RAWG id appears on at most one row. */
  ghost predicate UniqueRawgIds(rows: map<string, CacheRow>) {
    forall s, t :: s in rows && t in rows && s != t && rows[s].rawgId.Some? ==>
      rows[s].rawgId != rows[t].rawgId
  }

  /** Some row other than `slug`'s holds the RAWG id. */
  ghost predicate HeldElsewhere(rows: map<string, CacheRow>, slug: string, rawgId: int) {
    exists s :: s in rows && s != slug && rows[s].rawgId == Some(rawgId)
  }

  /** The row holding a RAWG id, if any. */
  ghost function RowFor(rows: map<string, CacheRow>, rawgId: int): Option<CacheRow> {
    if exists s :: s in rows && rows[s].rawgId == Some(rawgId) then
      var s :| s in rows && rows[s].rawgId == Some(rawgId);
      Some(rows[s])
    else None
  }

  /** How the IGDB id is resolved against a table: the remembered non-zero id,
      else the first IGDB hit, which is remembered unless another row holds
      the RAWG id, in which case the write throws. */
  ghost function ResolutionOf(rows: map<string, CacheRow>, slug: string, g: RawgRecord,
                              slugQuery: QueryResult, fallbackQuery: QueryResult): Resolution {
    var cached := RowFor(rows, g.id);
    if cached.Some? && cached.value.igdbId.Some? && cached.value.igdbId.value != 0 then
      Resolved(cached.value.igdbId)
    else
      match FetchFromIgdb(slugQuery, fallbackQuery)
      case None => Resolved(None)
      case Some(c) => if HeldElsewhere(rows, slug, g.id) then RememberFailed else Resolved(Some(c.id))
  }

  /** What `fetchAndProcessGameDataFromAPIs` yields against a table: nothing
      when RAWG does not know the game, the match cannot be remembered, or an
      IGDB request the merge relies on throws; else the unified record. */
  ghost function Pipeline(rows: map<string, CacheRow>, slug: string, rawg: Option<RawgRecord>,
                          rawgShots: seq<Screenshot>, slugQuery: QueryResult, fallbackQuery: QueryResult,
                          igdb: IgdbResponses): Option<UnifiedGame> {
    if rawg.None? then None
    else
      var res := ResolutionOf(rows, slug, rawg.value, slugQuery, fallbackQuery);
      if res.RememberFailed? then None else Unified(rawg.value, rawgShots, res.igdbId, igdb)
  }

  class GameCache {
    /** The cache table, keyed by slug. */
    var rows: map<string, CacheRow>

    /** A RAWG id appears on at most one row, as the table's unique key demands. */
    ghost predicate Valid()
      reads this
    {
      UniqueRawgIds(rows)
    }

    constructor ()
      ensures rows == map[] && Valid()
    {
      rows := map[];
    }

    /** `findUnique({ where: { rawgId } })`. */
    method FindByRawgId(rawgId: int) returns (row: Option<CacheRow>)
      requires Valid()
      ensures row.Some? <==> exists s :: s in rows && rows[s].rawgId == Some(rawgId)
      ensures row.Some? ==> exists s :: s in rows && rows[s] == row.value && row.value.rawgId == Some(rawgId)
      ensures row == RowFor(rows, rawgId)
    {
      if s :| s in rows && rows[s].rawgId == Some(rawgId) {
        row := Some(rows[s]);
      } else {
        row := None;
      }
    }

    /** The match-remembering upsert (src/lib/api.ts:625-640): update the slug's
        row, or create one with empty game data. It fails, changing nothing,
        when another row already holds the RAWG id. */
    method RememberMatch(slug: string, rawgId: int, igdbId: int, now: int) returns (ok: bool)
      requires Valid()
      modifies this
      ensures Valid()
      ensures ok <==> !HeldElsewhere(old(rows), slug, rawgId)
      ensures !ok ==> rows == old(rows)
      ensures ok && slug in old(rows) ==>
        rows == old(rows)[slug := old(rows)[slug].(rawgId := Some(rawgId), igdbId := Some(igdbId), updatedAt := now)]
      ensures ok && slug !in old(rows) ==>
        rows == old(rows)[slug := CacheRow(Some(rawgId), Some(igdbId), None, now, 0, 0, 0)]
    {
      if exists s :: s in rows && s != slug && rows[s].rawgId == Some(rawgId) {
        return false;
      }
      var row := if slug in rows then rows[slug].(rawgId := Some(rawgId), igdbId := Some(igdbId), updatedAt := now)
                 else CacheRow(Some(rawgId), Some(igdbId), None, now, 0, 0, 0);
      rows := rows[slug := row];
      ok := true;
    }

    /** The IGDB id for a RAWG record: the remembered one when a row with this
        RAWG id holds one, else the first hit of the IGDB queries, which is
        then remembered. A query without hits is not remembered. */
    method ResolveIgdbId(slug: string, g: RawgRecord, slugQuery: QueryResult, fallbackQuery: QueryResult, now: int)
      returns (res: Resolution)
      requires Valid()
      modifies this
      ensures Valid()
      ensures res.Resolved? && res.igdbId.None? ==> rows == old(rows)
      ensures FetchFromIgdb(slugQuery, fallbackQuery).None? ==> rows == old(rows)
      ensures res.RememberFailed? ==> rows == old(rows)
      ensures forall s :: s in old(rows) && s != slug ==> s in rows && rows[s] == old(rows)[s]
      ensures res == ResolutionOf(old(rows), slug, g, slugQuery, fallbackQuery)
      ensures slug !in old(rows) ==> slug !in rows || rows[slug].gameData.None?
    {
      var cached := FindByRawgId(g.id);
      if cached.Some? && cached.value.igdbId.Some? && cached.value.igdbId.value != 0 {
        return Resolved(cached.value.igdbId);
      }
      var candidate := FetchFromIgdb(slugQuery, fallbackQuery);
      if candidate.None? {
        return Resolved(None);
      }
      var ok := RememberMatch(slug, g.id, candidate.value.id, now);
      if !ok {
        return RememberFailed;
      }
      res := Resolved(Some(candidate.value.id));
    }

    /** `fetchAndProcessGameDataFromAPIs`: nothing when RAWG does not know the
        game or a step throws; otherwise the unified record. */
    method ProcessGameData(slug: string, rawg: Option<RawgRecord>, rawgShots: seq<Screenshot>,
                           slugQuery: QueryResult, fallbackQuery: QueryResult, igdb: IgdbResponses, now: int)
      returns (r: Option<UnifiedGame>)
      requires Valid()
      modifies this
      ensures Valid()
      ensures rawg.None? ==> r.None? && rows == old(rows)
      ensures r.Some? ==> r.value.rawgId == rawg.value.id
      ensures forall s :: s in old(rows) && s != slug ==> s in rows && rows[s] == old(rows)[s]
      ensures FetchFromIgdb(slugQuery, fallbackQuery).None? ==> rows == old(rows)
      ensures r == Pipeline(old(rows), slug, rawg, rawgShots, slugQuery, fallbackQuery, igdb)
      ensures slug !in old(rows) ==> slug !in rows || rows[slug].gameData.None?
    {
      if rawg.None? {
        return None;
      }
      var g := rawg.value;
      var res := ResolveIgdbId(slug, g, slugQuery, fallbackQuery, now);
      if res.RememberFailed? {
        return None;
      }
      r := Unify(g, rawgShots, res.igdbId, igdb);
    }

    /** `getUnifiedGameData`: any row for the slug is served, fresh or stale,
        with its own counters. With no row the pipeline runs; if it yields
        nothing the call throws and the final write is skipped, else the data
        is written (a failed write is ignored) and answered with zero counters. */
    method GetUnifiedGameData(slug: string, rawg: Option<RawgRecord>, rawgShots: seq<Screenshot>,
                              slugQuery: QueryResult, fallbackQuery: QueryResult, igdb: IgdbResponses,
                              now: int, writeFails: bool)
      returns (out: Outcome)
      requires Valid()
      modifies this
      ensures Valid()
      ensures slug in old(rows) ==> out == Answer(Served(old(rows)[slug])) && rows == old(rows)
      ensures slug !in old(rows) && out.Answer? ==>
        out.response.upvotes == 0 && out.response.downvotes == 0 && out.response.views == 0 &&
        rawg.Some? && out.response.data.Some? && out.response.data.value.rawgId == rawg.value.id
      ensures slug !in old(rows) && out.Answer? && !writeFails ==>
        slug in rows && rows[slug].gameData == out.response.data
      ensures forall s :: s in old(rows) && s != slug ==> s in rows && rows[s] == old(rows)[s]
      ensures out.Thrown? <==>
        slug !in old(rows) && Pipeline(old(rows), slug, rawg, rawgShots, slugQuery, fallbackQuery, igdb).None?
      ensures out.Thrown? ==> slug !in rows || rows[slug].gameData.None?
      ensures slug !in old(rows) && out.Answer? ==>
        out.response.data == Pipeline(old(rows), slug, rawg, rawgShots, slugQuery, fallbackQuery, igdb)
    {
      if slug in rows {
        var row := rows[slug];
        // The fresh branch and the stale branch answer identically.
        if Fresh(row, now) {
          return Answer(Served(row));
        }
        return Answer(Served(row));
      }
      var built := ProcessGameData(slug, rawg, rawgShots, slugQuery, fallbackQuery, igdb, now);
      if built.None? {
        return Thrown;
      }
      if !writeFails {
        Store(slug, built.value, now);
      }
      out := Answer(GameResponse(built, 0, 0, 0));
    }

    /** The final upsert: the slug's row gets the data, keeping its other fields. */
    method Store(slug: string, data: UnifiedGame, now: int)
      requires Valid()
      modifies this
      ensures Valid()
      ensures slug in old(rows) ==> rows == old(rows)[slug := old(rows)[slug].(gameData := Some(data), updatedAt := now)]
      ensures slug !in old(rows) ==> rows == old(rows)[slug := CacheRow(None, None, Some(data), now, 0, 0, 0)]
    {
      var row := if slug in rows then rows[slug].(gameData := Some(data), updatedAt := now)
                 else CacheRow(None, None, Some(data), now, 0, 0, 0);
      rows := rows[slug := row];
    }
  }
}
