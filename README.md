# nerdgamer core, modelled in Dafny

nerdgamer is a game-catalogue web application. This project models its core
and proves properties of the model:

- **Unification pipeline** (`src/lib/api.ts`). It builds one unified game
  record from the primary catalogue (RAWG) and the secondary catalogue
  (IGDB).
  - Cross-source identity resolution: `findBestIgdbMatch`, and
    `fetchFromIgdb`, which is what the pipeline actually calls.
  - Normalisation of time-to-beat fields (`parseTimeField`).
  - The merge, fold and fallback blocks that combine the two records:
    - companies;
    - screenshots;
    - age ratings;
    - genres;
    - videos;
    - languages;
    - tags.
  - The game cache: which row is served, when the pipeline runs, and what is
    written.
- **Page components**:
  - the comment thread;
  - the age-rating panel;
  - search-as-you-type ranking;
  - the time-to-beat panel;
  - the screenshot gallery;
  - the store links;
  - the system-requirements panel.
- **Pages and routes**:
  - the popular-games page with infinite scroll;
  - the registration route;
  - the registration, login and profile forms;
  - the `/admin` gate.

How source forms map to Dafny:

- Pure code is written as datatypes and functions.
- A component or page whose handlers update state is a `class` whose methods
  name what they modify: the gallery, the popular list, the three account
  forms, the comment form and the cache table.
- Loops in the source are `method`s with invariants. Each is proved equal to
  a specification function, and the properties are proved about that
  function:
  - the best-match scan;
  - the comment count;
  - the nesting walk;
  - the screenshot and tag de-duplication filters;
  - the language fold;
  - the fallback push loop;
  - the in-place sort of search results.

Inputs the model takes as parameters:

- Every answer of a remote service (RAWG, IGDB, the application's own API).
- Database reads and writes, the bcrypt hash and the JWT check.
- Fuse.js search results.
- The clock.

## Model

| member | source | states |
|---|---|---|
| IdentityMatch.NamePoints | src/lib/api.ts:1023-1031 | fuzzy points are at most 2, and exactly 2 when the hit has a score under 0.3 |
| IdentityMatch.Score | src/lib/api.ts:1023-1071 | a score never exceeds the documented maximum 8, and reaching the threshold 5 needs an exact name or a matching year |
| IdentityMatch.MaxScore | src/lib/api.ts:1009-1076 | the best score bounds every hit's score and is attained by some hit |
| IdentityMatch.FindBestIgdbMatch | src/lib/api.ts:988-1084 | no candidates gives nothing; a match is returned iff some hit's best score reaches 5; the match is the first hit with the best score |
| IdentityMatch.FetchFromIgdb | src/lib/api.ts:194-239 | a hit comes back iff either query returned one; the slug query's first hit wins over the fallback query's |
| IdentityMatch.UnscoredFirstHitAccepted | src/lib/api.ts:194-239 | since the pipeline never scores, a first hit scoring below the threshold is still taken as the match |
| TimeParse.RoundDiv | src/lib/api.ts:268 | `Math.round(v / d)` is the nearest integer to v/d, with halves rounded up |
| TimeParse.ParseTimeField | src/lib/api.ts:262-282 | falsy fields give nothing; bare numbers above 10000 are seconds converted to hours, other numbers are hours; objects with amount and unit convert seconds and minutes to hours and keep any other unit lower-cased; other objects pass through as hours |
| TimeParse.UnitCaseIgnored | src/lib/api.ts:266 | the unit of an object field is read case-insensitively |
| TimeParse.ParsedUnitIsHoursOrLowered | src/lib/api.ts:262-282 | every parsed time is in hours unless the object named another unit, which is kept lower-cased and is neither s nor m |
| TimeParse.ConversionExamples | src/lib/api.ts:267-279 | 90 m becomes 2 h; 7200 s becomes 2 h; 10000 stays 10000 h; 10800 becomes 3 h |
| TimeParse.CompletionTimesOf | src/lib/api.ts:258-288 | nothing unless the answer is ok with a first row; otherwise each of the three fields is parsed |
| CompletionTimesView.JsRem | src/components/CompletionTimes.tsx:21 | JavaScript `%`: the remainder takes the dividend's sign and equals Euclidean `%` for non-negative dividends |
| CompletionTimesView.FormatTime | src/components/CompletionTimes.tsx:7-30 | a missing time reads "N/A"; hours read "1 hour" or "n hours", minutes "1 minute" or "n minutes"; seconds are worded as hours and minutes; any other unit reads as the number, a space and the lower-cased unit |
| CompletionTimesView.HoursWordingInjective | src/components/CompletionTimes.tsx:13-15 | two hour counts that read the same are equal |
| CompletionTimesView.SecondsBreakdown | src/components/CompletionTimes.tsx:19-26 | a time in seconds is worded as whole hours plus whole minutes (under 60), the largest split not above the value |
| CompletionTimesView.Panel | src/components/CompletionTimes.tsx:32-58 | nothing iff all three times are absent; otherwise one row per present time, never reading "N/A" |
| CompletionTimesView.RowIf | src/components/CompletionTimes.tsx:41-57 | a row is shown exactly for a present time, with its formatted text |
| CompletionTimesView.NotAvailableOnlyForMissing | src/components/CompletionTimes.tsx:7-30 | no present time is worded "N/A" |
| KeyedMap.MapValuesKeys | src/app/popular/page.tsx:21 | the values of a Map built from a list carry each key once, in order of first occurrence |
| KeyedMap.MapValuesLast | src/app/popular/page.tsx:21 | each Map value is the last element given with its key |
| KeyedMap.FilterFirstByKey | src/lib/api.ts:713-719 | the seen-set filter loop computes the first-occurrence list |
| KeyedMap.FirstByKeyKeys | src/lib/api.ts:713-719 | the filter keeps each key once, in order of first occurrence |
| KeyedMap.FirstByKeyFirst | src/lib/api.ts:713-719 | each kept element is the first element with its key |
| KeyedMap.FirstByKeyUnique | src/lib/api.ts:713-719 | no two kept elements share a key, and every input key is kept |
| KeyedMap.FirstByKeyKeepsDistinctPrefix | src/lib/api.ts:711-712 | a prefix whose keys are already distinct comes through whole and first |
| GameMerge.KeepUnseen | src/lib/api.ts:696 | the kept entries are exactly the incoming ones whose lower-cased name was not seen |
| GameMerge.KeepUnseenAppend | src/lib/api.ts:696 | the filter distributes over concatenation, so it keeps order and repeats |
| GameMerge.KeepUnseenSnoc | src/lib/api.ts:696 | element by element, an entry is kept iff its lower-cased name is unseen |
| GameMerge.AppendNew | src/lib/api.ts:691-702 | the result is the existing list followed by the incoming entries, in order, whose lower-cased names are not among the existing ones |
| GameMerge.AppendNewKeepsIncomingDuplicates | src/lib/api.ts:691-697 | two new entries with the same name are both appended |
| GameMerge.KeepUnseenOfSeen | src/lib/api.ts:696 | entries whose names were all seen are all dropped |
| GameMerge.KeepUnseenOfNothing | src/lib/api.ts:701 | against no names at all everything is kept, so IGDB publishers are all added |
| GameMerge.CompanyName | src/lib/api.ts:682-688 | a resolved company name is used even when empty; otherwise the Unknown text |
| GameMerge.RoleNames | src/lib/api.ts:674-688 | at most one name per involved company |
| GameMerge.RoleNamesHeld | src/lib/api.ts:674-688 | every listed name is the resolved name of an involved company holding the role |
| GameMerge.RoleNamesSingleton | src/lib/api.ts:674-688 | one company contributes its resolved name exactly when it holds the role |
| GameMerge.RoleNamesAppend | src/lib/api.ts:674-688 | the names of two lists of companies are those of each, in order |
| GameMerge.MergeCompanies | src/lib/api.ts:655-703 | the developers are RAWG's followed by each IGDB developer name, in IGDB order, not already among them; publishers are IGDB's publisher names |
| GameMerge.IgdbScreenshot | src/lib/api.ts:707-710 | the id is `igdb-` plus the last path segment; a URL without `thumb` is kept as the image; otherwise the image is the URL with its first `thumb` replaced by `1080p` |
| GameMerge.MergeScreenshots | src/lib/api.ts:705-720 | unchanged when IGDB has no screenshots; otherwise RAWG's then IGDB's, keeping the first of each URL up to `?` |
| GameMerge.ScreenshotMergeUnique | src/lib/api.ts:711-719 | after the merge no two screenshots share a URL, and every URL of either source is present |
| GameMerge.ScreenshotMergeRawgFirst | src/lib/api.ts:711-712 | RAWG screenshots with distinct URLs lead the merged list unchanged |
| GameMerge.TextOr | src/lib/api.ts:756-757 | the table text when it is present and non-empty, else the fallback |
| GameMerge.Descriptions | src/lib/api.ts:758-760 | only non-empty descriptions survive; one id gives its text exactly when the table has a non-empty one |
| GameMerge.DescriptionsAppend | src/lib/api.ts:758-760 | the descriptions of two id lists are those of each, in order |
| GameMerge.DescriptionsResolve | src/lib/api.ts:758-760 | every kept description is the text of a listed descriptor id |
| GameMerge.JoinAgeRating | src/lib/api.ts:754-761 | a joined rating keeps its id; its organisation and rating are the table texts or the Unknown/Not Rated fallbacks; its descriptors are the resolved descriptions |
| GameMerge.Positive | src/lib/api.ts:725 | keeps exactly the positive ids |
| GameMerge.Accepted | src/lib/api.ts:727 | keeps exactly the ids the validity check accepts |
| GameMerge.IgdbAgeRatings | src/lib/api.ts:722-766 | empty unless an accepted positive id exists and the object request succeeds; then one joined rating per fetched object |
| GameMerge.GenresAsWrittenDropsRawg | src/lib/api.ts:769-789 | as written, the record ends with exactly IGDB's genres (see Findings) |
| GameMerge.GenresAsWrittenExample | src/lib/api.ts:776-789 | a RAWG-only genre is lost |
| GameMerge.MergeGenres | src/lib/api.ts:781-789 | the intended merge: RAWG's genres first, and every IGDB genre's name present afterwards |
| GameMerge.ChooseVideo | src/lib/api.ts:791-797 | IGDB videos when there are some; otherwise RAWG's clip exactly when present |
| GameMerge.FoldLanguages | src/lib/api.ts:806-851 | an empty table when the request was not ok, else the fold of the pairs |
| GameMerge.FoldKeys | src/lib/api.ts:838-844 | a language has an entry iff one of its pairs resolves |
| GameMerge.FoldFlags | src/lib/api.ts:835-847 | each of audio, subtitles and interface is on iff some pair of the language has a type whose lower-cased name contains the word |
| GameMerge.FoldStepFlags | src/lib/api.ts:836-847 | after one step a flag is on iff it was on or the step's pair grants it |
| GameMerge.ApplyPair | src/lib/api.ts:838-848 | the in-place updates of one support pair leave the table equal to one step of the fold: an unresolved pair changes nothing, a resolved one ORs its three flags into its language's entry |
| GameMerge.FoldStepMonotone | src/lib/api.ts:842-847 | a flag once set stays set |
| GameMerge.Sourced | src/lib/api.ts:855-862 | each tag keeps its id and name and gains the source |
| GameMerge.MergeTags | src/lib/api.ts:893-906 | nothing when both lists are empty; otherwise RAWG tags, then keywords without later case-insensitive repeats among themselves |
| GameMerge.TagsNotCheckedAgainstRawg | src/lib/api.ts:894-902 | a keyword repeating a RAWG tag's name is kept beside it |
| GameMerge.CategoryOrganization | src/lib/api.ts:959-966 | codes 1 to 7 name ESRB, PEGI, CERO, USK, GRAC, CLASSIND and ACB; anything else is Unknown |
| GameMerge.RatingLabel | src/lib/api.ts:970 | title, else description, else the number's text; never empty |
| GameMerge.FallbackList | src/lib/api.ts:944-975 | the named ESRB rating first when present, then each RAWG rating converted, in order |
| GameMerge.RawgAgeRatings | src/lib/api.ts:942-979 | the push loop yields the fallback list |
| GameMerge.RawgAgeRatingsLabelled | src/lib/api.ts:967-973 | every converted rating names an organisation and has a label |
| GamePipeline.RawgBase | src/lib/api.ts:591-605 | the starting record holds RAWG's id, screenshots and developers, no publishers, tags or video, and a website exactly when RAWG gave a non-empty one |
| GamePipeline.WithAgeRatingFallback | src/lib/api.ts:942-979 | a non-empty list is kept; an empty or missing one is replaced by the fallback list when that is non-empty |
| GamePipeline.ApplyIgdbData | src/lib/api.ts:648-720 | completion times, companies and screenshots are set from IGDB where it has them; every other field is unchanged |
| GamePipeline.ApplyIgdbDetails | src/lib/api.ts:722-851 | details copied; genres are exactly IGDB's, as the `Object.assign` overwrite leaves them; IGDB age ratings; IGDB videos when present; languages folded; nothing else changes |
| GamePipeline.ApplyRawgFallbacks | src/lib/api.ts:910-916 | RAWG's clip only when no video was set, and the age-rating fallback |
| GamePipeline.ApplyKeywordTags | src/lib/api.ts:854-907 | a throwing keyword re-fetch yields nothing; otherwise the tags become RAWG's, marked `rawg`, when RAWG has any, and nothing else changes |
| GamePipeline.NoKeywordsKeepsRawgTags | src/lib/api.ts:892-903 | with no IGDB keywords the merged, deduplicated tag list is exactly RAWG's tags marked `rawg` |
| GamePipeline.MergeIgdb | src/lib/api.ts:648-907 | with the full IGDB record found: companies, screenshots merged; completion times, details, age ratings, videos and languages from IGDB; genres exactly IGDB's; tags RAWG's; identity fields RAWG's; absent exactly when the keyword re-fetch throws |
| GamePipeline.Unify | src/lib/api.ts:607-981 | without IGDB the record is RAWG's with fallbacks; a throwing IGDB fetch gives nothing; otherwise each field as MergeIgdb sets it, genres exactly IGDB's, then the fallbacks; the result is `Unified` |
| GamePipeline.UnifiedKeepsIdentity | src/lib/api.ts:607-981 | the pipeline yields nothing exactly when IGDB is used and one of its record requests throws; a result keeps RAWG's id and name |
| GamePipeline.RawgOnlyKeepsRawAgeRatings | src/lib/api.ts:596-600 | without IGDB, RAWG's own rating array survives whenever it is non-empty |
| GamePipeline.FallbackLeadsWithEsrb | src/lib/api.ts:943-954 | a replaced list is non-empty and starts with the named ESRB rating |
| GamePipeline.FixTags | src/lib/api.ts:497-501 | when the first cached tag has no source, every tag is marked `rawg`; otherwise nothing changes |
| GamePipeline.FixTagsIdempotent | src/lib/api.ts:497-501 | the tag fix is idempotent |
| GamePipeline.Served | src/lib/api.ts:502 | a served answer carries the row's counters and its data with fixed tags |
| GamePipeline.GameCache.FindByRawgId | src/lib/api.ts:611-613 | a row is found iff some row has this RAWG id, and it is that row (`RowFor`) |
| GamePipeline.GameCache.RememberMatch | src/lib/api.ts:625-640 | updates or creates the slug's row with the ids; fails and changes nothing iff another row holds the RAWG id |
| GamePipeline.GameCache.ResolveIgdbId | src/lib/api.ts:608-642 | the resolution is `ResolutionOf` the old table: a remembered non-zero id, else the first query hit, failing when another row holds the RAWG id; no hit writes nothing; other slugs' rows are untouched; a new slug's row never gets game data here |
| GamePipeline.GameCache.ProcessGameData | src/lib/api.ts:563-985 | the result is `Pipeline` of the old table: nothing without a RAWG record, when the match cannot be remembered or an IGDB record request throws, else `Unified`; only the slug's row may change |
| GamePipeline.GameCache.GetUnifiedGameData | src/lib/api.ts:475-560 | any row for the slug is served, fresh or stale, writing nothing; it throws exactly when there is no row and `Pipeline` yields nothing, and then no game data is stored; otherwise the answer carries `Pipeline`'s record with zero counters, stored when the write succeeds |
| GamePipeline.GameCache.Store | src/lib/api.ts:533-546 | the upsert sets the slug's data and keeps the row's other fields |
| Comments.Nodes | src/components/CommentsSection.tsx:21-29 | a subtree's pre-order list starts at its root |
| Comments.HasVisibleRepliesIff | src/components/CommentsSection.tsx:21-29 | a comment has visible replies iff some comment below it, at any depth, is not deleted |
| Comments.AnyVisibleIff | src/components/CommentsSection.tsx:23-27 | in a forest, some live root or visible reply exists iff some comment is not deleted |
| Comments.HiddenIffSubtreeDeleted | src/components/CommentsSection.tsx:90-95 | a comment renders nothing iff its whole subtree is deleted |
| Comments.VisibleCount | src/components/CommentsSection.tsx:242-255 | the count never exceeds the number of comments |
| Comments.CountVisibleComments | src/components/CommentsSection.tsx:242-255 | the recursive count equals the number of visible comments of the whole forest in pre-order |
| Comments.NothingDeletedCountsAll | src/components/CommentsSection.tsx:242-255 | with nothing deleted, every comment counts |
| Comments.AllHiddenCountsNothing | src/components/CommentsSection.tsx:242-255 | hidden comments count nothing |
| Comments.Filter | src/components/CommentsSection.tsx:231-237 | filtering keeps exactly the elements that satisfy the test |
| Comments.FilterKeepsOrder | src/components/CommentsSection.tsx:231-237 | filtering keeps the order |
| Comments.IndexById | src/components/CommentsSection.tsx:226-230 | the index holds one entry per id of the list, as `Object.values` lists it, and every id starts with no replies |
| Comments.NestComments | src/components/CommentsSection.tsx:225-239 | the roots are the entries without a listed parent; each id's replies are the entries naming it |
| Comments.PlacedOnce | src/components/CommentsSection.tsx:231-237 | each entry is placed exactly once: under the parent it names when that parent is listed, else among the roots |
| Comments.EntriesDistinct | src/components/CommentsSection.tsx:228-230 | the index carries every id once, in order of first occurrence |
| Comments.ReplyListed | src/components/CommentsSection.tsx:232-233 | an entry naming a listed parent is among that parent's replies |
| Comments.RootIsPath | src/components/CommentsSection.tsx:234-235 | a root starts a path of the tree |
| Comments.ExtendPath | src/components/CommentsSection.tsx:232-233 | a path extends through a reply |
| Comments.ReachableFromRoot | src/components/CommentsSection.tsx:225-239 | with acyclic parent links, every entry is reachable from a root |
| Comments.NestedReachable | src/components/CommentsSection.tsx:225-239 | the nesting drops no comment whose parent links end at a root |
| Comments.SiblingsKeepOrder | src/components/CommentsSection.tsx:231-237 | replies to one parent keep the index's order |
| Comments.AlnumOnly | src/components/CommentsSection.tsx:51 | keeps exactly the ASCII letters and digits of the name: each kept character comes from it, each of its letters and digits is kept; one character is kept iff alphanumeric |
| Comments.AlnumOnlyAppend | src/components/CommentsSection.tsx:51 | filtering a concatenation filters each piece, in order |
| Comments.AlnumOnlyOfSymbols | src/components/CommentsSection.tsx:51 | a name without letters or digits filters to nothing |
| Comments.Initials | src/components/CommentsSection.tsx:50-52 | "U" for an empty name; otherwise the first two (or fewer) kept letters and digits, upper-cased |
| Comments.InitialsSkipSymbols | src/components/CommentsSection.tsx:50-52 | symbols and spaces in front of a name do not change its initials |
| Comments.AlnumNameInitials | src/components/CommentsSection.tsx:50-52 | an alphanumeric name shows its first two characters upper-cased |
| Comments.NoAlnumNoInitials | src/components/CommentsSection.tsx:50-52 | a non-empty name without letters or digits shows no initials |
| Comments.CommentForm.constructor | src/components/CommentsSection.tsx:260-262 | the form starts empty and idle |
| Comments.CommentForm.HandleSubmit | src/components/CommentsSection.tsx:273-300 | logged out: an error only; blank text: nothing; otherwise the untrimmed text is sent and success clears it, failure sets the error |
| Comments.BlankNeverSent | src/components/CommentsSection.tsx:279 | whitespace-only text trims to empty and is never sent |
| AgeRatingDisplay.RatingColor | src/components/AgeRatingDisplay.tsx:13-19 | red iff a mature code, orange iff teen and not mature, green iff everyone and neither, else neutral; codes upper-cased |
| AgeRatingDisplay.ColorIgnoresCase | src/components/AgeRatingDisplay.tsx:14 | the colour does not depend on case |
| AgeRatingDisplay.EighteenBeatsTeen | src/components/AgeRatingDisplay.tsx:15-16 | "eighteen" is red although it contains "teen" |
| AgeRatingDisplay.FindBoard | src/components/AgeRatingDisplay.tsx:28 | the first rating whose board contains the name, or none |
| AgeRatingDisplay.FirstBoard | src/components/AgeRatingDisplay.tsx:27-30 | the first board in priority order that has a rating |
| AgeRatingDisplay.ChooseRatingByPriority | src/components/AgeRatingDisplay.tsx:24-31 | the chosen rating is the first of the highest-priority board present, else the first rating |
| AgeRatingDisplay.EsrbPreferred | src/components/AgeRatingDisplay.tsx:25-30 | any ESRB rating makes the first ESRB rating the one summarised |
| AgeRatingDisplay.FirstDigitRun | src/components/AgeRatingDisplay.tsx:50 | `/\d+/` finds nothing iff there is no digit; a match is a non-empty run of digits |
| AgeRatingDisplay.FirstDigitRunPlace | src/components/AgeRatingDisplay.tsx:50 | the run starts at the first digit and is maximal |
| AgeRatingDisplay.WordLabel | src/components/AgeRatingDisplay.tsx:34-43 | one result per contained word, tested in source order (each rule applies only when the earlier words are absent); none iff no word is contained |
| AgeRatingDisplay.CodeLabel | src/components/AgeRatingDisplay.tsx:45-50 | the five ESRB codes map to their labels; any other text with a digit run gives "+" and that run; none iff neither |
| AgeRatingDisplay.MapLabel | src/components/AgeRatingDisplay.tsx:34-50 | the word rules first, the code rules only when no word matched; a mapped label is "Everyone" or "+" and digits; no mapping only when no digit occurs |
| AgeRatingDisplay.SimpleAgeRating | src/components/AgeRatingDisplay.tsx:22-52 | nothing for an absent or empty list; otherwise the mapped label of the chosen rating's lower-cased text, else that text itself when non-empty, else nothing |
| AgeRatingDisplay.UnmappedLabelVerbatim | src/components/AgeRatingDisplay.tsx:51 | an unrecognised label without digits comes back in its original case |
| AgeRatingDisplay.SimpleLabelShapes | src/components/AgeRatingDisplay.tsx:34-51 | every label is a fixed word, "+" and digits, or the chosen rating's own text |
| AgeRatingDisplay.EveryoneTenFirst | src/components/AgeRatingDisplay.tsx:34-35 | "Everyone 10+" is summarised as "+10" |
| AgeRatingDisplay.RenderPanel | src/components/AgeRatingDisplay.tsx:54-136 | nothing iff the list is absent or empty; otherwise the summary and one coloured badge per rating, showing the rating's own text, "N/A" exactly for a missing rating |
| AgeRatingDisplay.BadgeOf | src/components/AgeRatingDisplay.tsx:93-130 | a badge shows the rating's text when it has one, else "N/A", coloured by that value, with the rating's board |
| SearchRank.TitleSimilarity | src/components/SearchInput.tsx:32-39 | on trimmed lower-cased text: 10000 iff equal, 5000 iff contained, 2000 iff every word contained, else 0 |
| SearchRank.OneWordSkipsWordTier | src/components/SearchInput.tsx:37 | a query without spaces never lands in the all-words tier |
| SearchRank.BlankQueryMatches | src/components/SearchInput.tsx:35-36 | a blank query scores at least 5000 against any name |
| SearchRank.SimilarityIgnoresCaseOfName | src/components/SearchInput.tsx:33-34 | the name's case does not matter |
| SearchRank.FirstYearFrom | src/components/SearchInput.tsx:49 | the first position of a `(19\|20)\d\d` pattern |
| SearchRank.YearText | src/components/SearchInput.tsx:49 | the four matched characters, all digits |
| SearchRank.QueryYear | src/components/SearchInput.tsx:49-51 | a year iff the query contains the pattern, always in 1900-2099, and it is the decimal value of the first match's four digits |
| SearchRank.RenderedYearAt | src/components/SearchInput.tsx:49 | the rendering of a year from 1900 to 2099 matches the pattern |
| SearchRank.LeadingYearRead | src/components/SearchInput.tsx:49-51 | a query starting with a year from 1900 to 2099 names that year, whatever follows |
| SearchRank.YearBoostOf | src/components/SearchInput.tsx:49-56 | 3000 iff the query's year equals the release year, else 0 |
| SearchRank.FirstYearOnly | src/components/SearchInput.tsx:49 | only the first year in the query counts |
| SearchRank.RecencyBonus | src/components/SearchInput.tsx:82-94 | 2000, 1000, 500 or 0 by years since release; 0 when undated |
| SearchRank.RecencyMonotone | src/components/SearchInput.tsx:87-93 | the bonus never grows with age |
| SearchRank.ExactTitleWins | src/components/SearchInput.tsx:42-97 | at equal engagement and age, an exact title outranks any other |
| SearchRank.FirstSmaller | src/components/SearchInput.tsx:112-116 | the first position with a smaller key |
| SearchRank.SortByKeySorted | src/components/SearchInput.tsx:112-116 | the sort yields a non-increasing permutation of its input |
| SearchRank.InsertLast | src/components/SearchInput.tsx:112-116 | one in-place pass inserts the next element stably into the sorted prefix |
| SearchRank.SortResults | src/components/SearchInput.tsx:112-116 | the in-place sort leaves the array equal to the stable non-increasing sort |
| SearchRank.ShowResults | src/components/SearchInput.tsx:107-123 | nothing for an empty query; otherwise the array is sorted by relevance and the first seven are shown |
| SearchRank.ShownAreTop | src/components/SearchInput.tsx:118 | at most seven are shown, in order, and none left out scores higher |
| Requirements.KeepNonBlank | src/components/SystemRequirements.tsx:13-14 | every kept line is a non-empty trimmed input line, every non-blank input line is kept trimmed, one line is kept iff not blank |
| Requirements.KeepNonBlankAppend | src/components/SystemRequirements.tsx:13-14 | filtering two pieces of text keeps the lines of each, in order |
| Requirements.FormatRequirements | src/components/SystemRequirements.tsx:9-15 | nothing for an absent or empty text; otherwise the trimmed non-blank lines of the text split at line feeds |
| Requirements.FormattedLinesClean | src/components/SystemRequirements.tsx:9-15 | every shown line is non-empty, trimmed and a single line |
| Requirements.FormatJoinRoundTrip | src/components/SystemRequirements.tsx:11-14 | clean lines joined by line feeds format back to themselves |
| Requirements.FormatIdempotent | src/components/SystemRequirements.tsx:9-15 | formatting the joined output gives the same lines |
| Requirements.BlankLinesDropped | src/components/SystemRequirements.tsx:13-14 | whitespace-only lines are dropped and the others trimmed |
| Requirements.RenderRequirements | src/components/SystemRequirements.tsx:17-22 | nothing iff both lists are empty, else both |
| Gallery.NextIndex | src/components/ScreenshotGallery.tsx:29 | the next index stays in range |
| Gallery.PrevIndex | src/components/ScreenshotGallery.tsx:25 | the previous index stays in range |
| Gallery.PrevNextInverse | src/components/ScreenshotGallery.tsx:23-30 | previous and next undo each other |
| Gallery.StepForwardIsRotation | src/components/ScreenshotGallery.tsx:27-30 | k presses within one lap move k places, wrapping once |
| Gallery.FullCycleReturns | src/components/ScreenshotGallery.tsx:27-30 | one press per screenshot returns to the start |
| Gallery.CounterText | src/components/ScreenshotGallery.tsx:117 | the counter has a slash |
| Gallery.CounterTextInjective | src/components/ScreenshotGallery.tsx:117 | different screenshots show different counters |
| Gallery.ScreenshotGallery.constructor | src/components/ScreenshotGallery.tsx:10-16 | a gallery with screenshots starts closed at the first |
| Gallery.ScreenshotGallery.OpenModal | src/components/ScreenshotGallery.tsx:18-21 | opens the viewer at the clicked screenshot |
| Gallery.ScreenshotGallery.CloseModal | src/components/ScreenshotGallery.tsx:22 | closes the viewer and keeps the index |
| Gallery.ScreenshotGallery.Prev | src/components/ScreenshotGallery.tsx:23-26 | moves to the previous index with wrap-around, index kept in range |
| Gallery.ScreenshotGallery.Next | src/components/ScreenshotGallery.tsx:27-30 | moves to the next index with wrap-around, index kept in range |
| Gallery.ScreenshotGallery.KeyDown | src/components/ScreenshotGallery.tsx:33-42 | keys do nothing while closed; arrows step and Escape closes while open |
| StoreLinks.KnownStorePage | src/components/StoreLinks.tsx:23-39 | exactly the eight known store slugs have a non-empty landing page |
| StoreLinks.StoreUrl | src/components/StoreLinks.tsx:16-43 | never empty: the direct link, else the known page, else the domain, else "#" |
| StoreLinks.PlaceholderOnlyWhenNothingKnown | src/components/StoreLinks.tsx:16-43 | "#" iff an unknown store has neither link nor domain (or they are "#") |
| StoreLinks.DirectLinkWins | src/components/StoreLinks.tsx:18-20 | a direct link overrides the store's slug and domain |
| StoreLinks.RenderStoreLinks | src/components/StoreLinks.tsx:45-60 | nothing iff the list is absent or empty, else one link per store in order |
| FormRules.ValidEmailIff | src/app/register/page.tsx:18-20 | the first-'@' reading accepts exactly what `^[^\s@]+@[^\s@]+\.[^\s@]+$` matches |
| FormRules.ValidEmailMatchesPattern | src/app/login/page.tsx:16-18 | an accepted email matches the pattern |
| FormRules.PatternIsValidEmail | src/app/login/page.tsx:16-18 | a matching email is accepted |
| FormRules.ValidEmailNonEmpty | src/app/register/page.tsx:18-20 | an accepted email has at least five characters |
| FormRules.PasswordExamples | src/app/register/page.tsx:21-23 | "Secret1!" passes; no upper case, seven characters, or a line feed fail |
| FormRules.ErrorOr | src/app/register/page.tsx:49 | the server's error text when non-empty, else the fallback |
| RegisterRoute.FindFirst | src/app/api/register/route.ts:20 | a found user matches the email or the username; nothing iff no user does |
| RegisterRoute.WithoutHash | src/app/api/register/route.ts:43 | the answer has every stored column but `passwordHash` |
| RegisterRoute.Post | src/app/api/register/route.ts:7-50 | unreadable body gives 500; failed field checks give 400 with their messages |
| RegisterRoute.BadRequestIff | src/app/api/register/route.ts:12-17 | 400 iff a readable body fails a field check |
| RegisterRoute.ConflictIff | src/app/api/register/route.ts:19-28 | 409 iff the body is well formed and some user has the email or the username |
| RegisterRoute.FindFirstAt | src/app/api/register/route.ts:20 | the lookup returns the first user in table order holding the email or the username |
| RegisterRoute.ConflictMessage | src/app/api/register/route.ts:19-28 | the 409 message is the email one iff the first conflicting user holds the email, else the username one |
| RegisterRoute.CreatedIff | src/app/api/register/route.ts:19-44 | 201 iff the body is well formed, no user holds the email or the username, the hash is computed and the insert succeeds |
| RegisterRoute.EmailConflictFirst | src/app/api/register/route.ts:22-24 | when the first conflicting user has both, the email message wins |
| RegisterRoute.CreatedWithoutHash | src/app/api/register/route.ts:30-44 | 201 only for a new, well-formed user, answered with its row without the hash |
| RegisterRoute.FailuresCarryError | src/app/api/register/route.ts:7-50 | the status is 201, 400, 409 or 500, and only 201 lacks an error message |
| AccountPages.RegisterCheck | src/app/register/page.tsx:30-37 | passes iff the email and the password are valid; the email is checked first |
| AccountPages.ClientAcceptancePassesServerLength | src/app/register/page.tsx:30-43 | what handleSubmit sends, with a username, passes the route's first check |
| AccountPages.ClientAcceptanceWellFormed | src/app/register/page.tsx:30-43 | with a well-formed username, it passes both route checks |
| AccountPages.RegisterForm.constructor | src/app/register/page.tsx:9-15 | the form starts empty and idle |
| AccountPages.RegisterForm.HandleSubmit | src/app/register/page.tsx:25-57 | a failed check sets its message and sends nothing; otherwise the fields are sent and the reply sets the error or the success with a redirect |
| AccountPages.LoginCheck | src/app/login/page.tsx:24-34 | the email message iff an '@' identifier is invalid; the short message iff the password is 1 to 7 long; otherwise passes |
| AccountPages.UsernameAndEmptyPasswordPass | src/app/login/page.tsx:25-30 | a user name with an empty password passes handleSubmit's checks |
| AccountPages.LoginForm.constructor | src/app/login/page.tsx:9-13 | the form starts empty and idle |
| AccountPages.LoginForm.HandleSubmit | src/app/login/page.tsx:20-56 | ends not loading; a failed check sends nothing; a reply navigates home or sets the error; a rejected request sets the network error |
| AccountPages.PasswordUpdateCheck | src/app/profile/page.tsx:25-36 | each message exactly when its check is the first to fail; passes iff all hold |
| AccountPages.PasswordForm.constructor | src/app/profile/page.tsx:9-13 | the form starts empty |
| AccountPages.PasswordForm.HandlePasswordUpdate | src/app/profile/page.tsx:21-55 | a failed check sends nothing; success clears the three fields; failure keeps them and sets the error |
| AdminGate.Middleware | middleware.ts:5-30 | outside /admin every request passes; a redirect keeps the origin and drops the query |
| AdminGate.AdminOutcomes | middleware.ts:9-26 | under /admin: no user goes to /login, a non-admin to /, an admin passes |
| AdminGate.PassesIff | middleware.ts:5-30 | a request passes iff it is outside /admin or comes from an admin |
| AdminGate.PrefixIsTextual | middleware.ts:9 | the function's own prefix test is textual: handed /administrator it redirects |
| AdminGate.Gate | middleware.ts:5-34 | paths the matcher does not name pass untouched; matched paths get the gate's decision |
| AdminGate.MatchedIsUnderPrefix | middleware.ts:9-34 | every path the matcher names passes the gate's prefix test |
| AdminGate.GatePassesIff | middleware.ts:5-34 | a request passes iff its path is not matched or it comes from an admin |
| AdminGate.AdministratorNotGated | middleware.ts:32-34 | /administrator is not matched, so it passes whatever the caller |
| PopularPage.Skip | src/app/popular/page.tsx:17 | the offset is a multiple of 30 that recovers the page |
| PopularPage.RequestPathInjective | src/app/popular/page.tsx:17 | different pages send different requests |
| PopularPage.Accumulate | src/app/popular/page.tsx:19-23 | the merged list is never longer than both lists together |
| PopularPage.AccumulateDistinct | src/app/popular/page.tsx:20-22 | the merged list has no repeated slug and holds every slug of both lists |
| PopularPage.AccumulatePlacement | src/app/popular/page.tsx:20-22 | each slug sits where it first appears and carries the last game with it |
| PopularPage.AccumulateKeepsOrder | src/app/popular/page.tsx:20-22 | the games already shown keep their places |
| PopularPage.PopularList.constructor | src/app/popular/page.tsx:9-12 | empty list, loading, more expected, page 0 |
| PopularPage.PopularList.StartLoad | src/app/popular/page.tsx:16-17 | marks loading and requests the current page |
| PopularPage.PopularList.BatchArrived | src/app/popular/page.tsx:19-25 | merges the batch keeping slugs distinct, records hasMore, stops loading |
| PopularPage.PopularList.SentinelVisible | src/app/popular/page.tsx:34-40 | the page advances by one only when more remain and nothing is loading |

## Left out

- Network, database and service calls are not modelled: fetch, Prisma, IGDB token retrieval and response parsing. Their answers are parameters, and the user table is a sequence read in table order.
- bcrypt hashing and JWT verification are parameters: a hash or failure, and a decoding function.
- Fuse.js fuzzy search is foreign code. Its hits arrive as input, in search order, each with its optional score.
- Date arithmetic is not modelled. Release years, the current year and timestamps are integers given as inputs.
- Floating point is not modelled:
  - time values are integers;
  - `Math.round` is modelled only for the divisions the source performs;
  - the popularity sum of `calculateRelevanceScore` (src/components/SearchInput.tsx:58-79) is an integer input.
- SearchRank.RelevanceScore: only the tiers and the boosts are modelled.
- Case mapping covers ASCII letters only. Whitespace is ECMAScript's `\s` set. Lengths count characters, not UTF-16 units.
- The RAWG search fallback (src/lib/api.ts:565-580) is not modelled: the RAWG record is an input, absent when neither lookup found it.
- Additions, series and parent games (src/lib/api.ts:918-940) are not modelled. They only add fields, and failures are ignored.
- `getValidAgeRatingIds` and `fetchIgdbDataByIds` are not modelled. Their results are the `accepted` set and the lookup tables.
- The comments query in `getUnifiedGameData` is not modelled. Comments are not part of the modelled answer.
- Concurrency is not modelled: two requests racing on the same cache row, and React's batching of state updates.
- React rendering is not modelled. Rendering is modelled as the data each component shows: rows, badges, links and lines.
- The comment thread's fetch, `reloadComments`, deletion and voting are not modelled, nor the profile page's `handleDeleteAccount`.
- `stringToColor` for avatars is not modelled.
- The duplicate copies of `getSimpleAgeRating` in other components are not part of this model.
- The 2-second `setTimeout` before redirecting to the login page is modelled as a flag, `redirectScheduled`.
- Debouncing of the search input is not modelled. The query is the debounced value.
- AccountPages.RegisterForm.HandleSubmit: a request that rejects leaves `isLoading` set, as the source does. The rejection itself (an uncaught promise) is not modelled.
- RegisterRoute.Post: `request.json()` fields that are not strings are not modelled. A field is a string or absent.
- GamePipeline.MergeIgdb: the IGDB company request (src/lib/api.ts:658-671) is assumed to answer; a throw from its unchecked `json()` is not modelled, so "absent exactly when the keyword re-fetch throws" holds relative to the company names given.
- The IGDB age-rating join (src/lib/api.ts:755-762) builds `{ id, description }` descriptor objects and `{ name }` / `{ rating }` wrappers; the model keeps only the texts, and drops the descriptor ids.
- The RAWG rating fallback's `rating_cover_url` (src/lib/api.ts:951, 971) is not modelled: it is copied or left undefined and nothing reads it.
- The browser's native form constraints are not modelled: `required`, `minLength`, `maxLength`, `pattern` and `type="email"` on the register, login and profile forms (src/app/register/page.tsx:82-127, src/app/login/page.tsx:81-102, src/app/profile/page.tsx:94-113). The submit handlers are modelled as if always invoked, so their checks are the only ones stated.
- Comment ids are assumed not to be integer-like strings. `Object.values` lists integer-like keys first, in ascending order, so for such ids the index order in `Comments.IndexById` would differ from the list order.
- The framework's matcher is modelled as `/admin` or any path starting with `/admin/`; trailing-slash and locale normalisation are not modelled.

## Findings

The pipeline members follow the code as written, so their genres are IGDB's. `GameMerge.MergeGenres` is the corrected merge, with its property proved on its own.

| source | as written | input that shows it | evidently intended | confidence | as-written member | corrected member |
|---|---|---|---|---|---|---|
| src/lib/api.ts:769-789 | `Object.assign` sets `genres` to IGDB's list before the "merge genres from both sources" block, which then compares IGDB's genres only with themselves | RAWG genres [Action], IGDB genres [Shooter]: the record ends with [Shooter] | RAWG's genres followed by each IGDB genre whose name is new | high (not executed) | GameMerge.GenresAsWrittenDropsRawg | GameMerge.MergeGenres |
