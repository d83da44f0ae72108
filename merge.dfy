/** The merge, fold and fallback blocks of `fetchAndProcessGameDataFromAPIs`
    (src/lib/api.ts:591-979): how the primary (RAWG) record and the secondary
    (IGDB) record are combined, list by list. Every response from a remote
    service is an input value here. */
module GameMerge {
  import opened Wrappers
  import opened Text
  import opened KeyedMap

  // ----- Shared record shapes -----

  datatype ShotId = RawgShotId(n: int) | IgdbShotId(text: string)
  datatype Screenshot = Screenshot(id: ShotId, image: string)

  /** A tag; `source` is absent on tags cached before the field existed. */
  datatype Tag = Tag(id: int, name: string, source: Option<string>)
  /** A tag or keyword as a service returns it. */
  datatype RawTag = RawTag(id: int, name: string)

  datatype Genre = Genre(id: int, name: string, slug: string)

  /** One age rating in the unified shape. */
  datatype AgeRating = AgeRating(id: int, organization: string, rating: string, descriptors: seq<string>)

  datatype Video = Video(name: string, videoId: string)
  datatype Clip = Clip(clip: string, preview: string)
  /** The unified record's video: IGDB's videos or RAWG's clip, never both. */
  datatype VideoData = IgdbVideos(videos: seq<Video>) | RawgClip(clip: Clip)

  datatype LanguageSupport = LanguageSupport(audio: bool, subtitles: bool, ui: bool)

  // ----- Case-insensitive "append the new ones" -----

  function LowerNames<T>(xs: seq<T>, name: T -> string): (r: seq<string>)
    ensures |r| == |xs| && forall i :: 0 <= i < |xs| ==> r[i] == Lower(name(xs[i]))
  {
    seq(|xs|, i requires 0 <= i < |xs| => Lower(name(xs[i])))
  }

  /** `incoming.filter(x => !seen.has(name(x).toLowerCase()))`. */
  function KeepUnseen<T>(incoming: seq<T>, seen: seq<string>, name: T -> string): (r: seq<T>)
    ensures |r| <= |incoming|
    ensures forall i :: 0 <= i < |r| ==> r[i] in incoming && Lower(name(r[i])) !in seen
    ensures forall i :: 0 <= i < |incoming| && Lower(name(incoming[i])) !in seen ==> incoming[i] in r
  {
    if incoming == [] then []
    else
      var rest := KeepUnseen(incoming[1..], seen, name);
      assert forall i :: 1 <= i < |incoming| ==> incoming[i] == incoming[1..][i - 1];
      if Lower(name(incoming[0])) in seen then rest else [incoming[0]] + rest
  }

  /** The filter distributes over concatenation, so it keeps the order and the
      repeats of what it lets through. */
  lemma {:induction false} KeepUnseenAppend<T>(a: seq<T>, b: seq<T>, seen: seq<string>, name: T -> string)
    ensures KeepUnseen(a + b, seen, name) == KeepUnseen(a, seen, name) + KeepUnseen(b, seen, name)
  {
    if a == [] {
      assert a + b == b;
    } else {
      assert (a + b)[0] == a[0];
      assert (a + b)[1..] == a[1..] + b;
      KeepUnseenAppend(a[1..], b, seen, name);
    }
  }

  /** The filter one element at a time: an element is kept iff its lower-cased
      name is unseen. */
  lemma KeepUnseenSnoc<T>(s: seq<T>, x: T, seen: seq<string>, name: T -> string)
    ensures KeepUnseen(s + [x], seen, name) ==
      KeepUnseen(s, seen, name) + (if Lower(name(x)) in seen then [] else [x])
  {
    KeepUnseenAppend(s, [x], seen, name);
    assert [x][1..] == [];
  }

  /** `[...existing, ...incoming.filter(x => !existingNames.has(name(x).toLowerCase()))]`. */
  function AppendNew<T>(existing: seq<T>, incoming: seq<T>, name: T -> string): (r: seq<T>)
    ensures |existing| <= |r| && r[..|existing|] == existing
    ensures forall i :: |existing| <= i < |r| ==>
      r[i] in incoming && Lower(name(r[i])) !in LowerNames(existing, name)
    ensures forall i :: 0 <= i < |incoming| && Lower(name(incoming[i])) !in LowerNames(existing, name) ==>
      incoming[i] in r
    ensures r == existing + KeepUnseen(incoming, LowerNames(existing, name), name)
  {
    var added := KeepUnseen(incoming, LowerNames(existing, name), name);
    assert forall i :: |existing| <= i < |existing| + |added| ==> (existing + added)[i] == added[i - |existing|];
    existing + added
  }

  /** Entries are compared with each other only through the existing names:
      two new entries with the same name are both appended. */
  lemma AppendNewKeepsIncomingDuplicates<T>(existing: seq<T>, x: T, name: T -> string)
    requires Lower(name(x)) !in LowerNames(existing, name)
    ensures AppendNew(existing, [x, x], name) == existing + [x, x]
  {
    var seen := LowerNames(existing, name);
    assert [x, x][1..] == [x];
    assert [x][1..] == [];
    assert KeepUnseen([x, x], seen, name) == [x, x];
  }

  /** Nothing is appended whose name is already among the names it is checked against. */
  lemma {:induction false} KeepUnseenOfSeen<T>(incoming: seq<T>, seen: seq<string>, name: T -> string)
    requires forall i :: 0 <= i < |incoming| ==> Lower(name(incoming[i])) in seen
    ensures KeepUnseen(incoming, seen, name) == []
  {
    if incoming != [] {
      assert forall i :: 0 <= i < |incoming[1..]| ==> incoming[1..][i] == incoming[i + 1];
      KeepUnseenOfSeen(incoming[1..], seen, name);
    }
  }

  /** Against no names at all, everything is new. */
  lemma {:induction false} KeepUnseenOfNothing<T>(incoming: seq<T>, name: T -> string)
    ensures KeepUnseen(incoming, [], name) == incoming
  {
    if incoming != [] {
      KeepUnseenOfNothing(incoming[1..], name);
    }
  }

  // ----- Developers and publishers (src/lib/api.ts:590-594, 655-703) -----

  /** One `involved_companies` entry of the IGDB record. */
  datatype InvolvedCompany = InvolvedCompany(companyId: int, developer: bool, publisher: bool)

  const UnknownDeveloper := "Unknown Developer"
  const UnknownPublisher := "Unknown Publisher"

  /** `String(companyMap.get(id) ?? unknown)`: a resolved name is used even when empty. */
  function CompanyName(companyNames: map<int, string>, id: int, unknown: string): (r: string)
    ensures id in companyNames ==> r == companyNames[id]
    ensures id !in companyNames ==> r == unknown
  {
    if id in companyNames then companyNames[id] else unknown
  }

  /** The company holds the role: developer, or else publisher. */
  predicate HasRole(c: InvolvedCompany, isDeveloper: bool) {
    if isDeveloper then c.developer else c.publisher
  }

  /** The names of the involved companies with the given role, in order. */
  function RoleNames(involved: seq<InvolvedCompany>, companyNames: map<int, string>,
                     isDeveloper: bool, unknown: string): (r: seq<string>)
    ensures |r| <= |involved|
  {
    if involved == [] then []
    else
      var c := involved[0];
      var rest := RoleNames(involved[1..], companyNames, isDeveloper, unknown);
      if HasRole(c, isDeveloper) then [CompanyName(companyNames, c.companyId, unknown)] + rest
      else rest
  }

  /** Every listed name is the resolved name of an involved company holding the role. */
  lemma {:induction false} RoleNamesHeld(involved: seq<InvolvedCompany>, companyNames: map<int, string>,
                                         isDeveloper: bool, unknown: string, i: int)
    requires 0 <= i < |RoleNames(involved, companyNames, isDeveloper, unknown)|
    ensures exists j :: 0 <= j < |involved| && HasRole(involved[j], isDeveloper) &&
                        RoleNames(involved, companyNames, isDeveloper, unknown)[i] ==
                        CompanyName(companyNames, involved[j].companyId, unknown)
  {
    var r := RoleNames(involved, companyNames, isDeveloper, unknown);
    var rest := RoleNames(involved[1..], companyNames, isDeveloper, unknown);
    if HasRole(involved[0], isDeveloper) && i == 0 {
      assert HasRole(involved[0], isDeveloper) && r[0] == CompanyName(companyNames, involved[0].companyId, unknown);
    } else {
      var k := if HasRole(involved[0], isDeveloper) then i - 1 else i;
      assert r[i] == rest[k];
      RoleNamesHeld(involved[1..], companyNames, isDeveloper, unknown, k);
      var j :| 0 <= j < |involved[1..]| && HasRole(involved[1..][j], isDeveloper) &&
        rest[k] == CompanyName(companyNames, involved[1..][j].companyId, unknown);
      assert involved[1..][j] == involved[j + 1];
      assert HasRole(involved[j + 1], isDeveloper) && r[i] == CompanyName(companyNames, involved[j + 1].companyId, unknown);
    }
  }

  /** One company contributes its name exactly when it holds the role. */
  lemma RoleNamesSingleton(c: InvolvedCompany, companyNames: map<int, string>, isDeveloper: bool, unknown: string)
    ensures RoleNames([c], companyNames, isDeveloper, unknown) ==
      if HasRole(c, isDeveloper) then [CompanyName(companyNames, c.companyId, unknown)] else []
  {
    assert [c][1..] == [];
  }

  /** The names of the role holders of two pieces are those of each, in order:
      every role holder is listed, in `involved_companies` order. */
  lemma {:induction false} RoleNamesAppend(a: seq<InvolvedCompany>, b: seq<InvolvedCompany>,
                                           companyNames: map<int, string>, isDeveloper: bool, unknown: string)
    ensures RoleNames(a + b, companyNames, isDeveloper, unknown) ==
      RoleNames(a, companyNames, isDeveloper, unknown) + RoleNames(b, companyNames, isDeveloper, unknown)
  {
    if a == [] {
      assert a + b == b;
    } else {
      assert (a + b)[0] == a[0];
      assert (a + b)[1..] == a[1..] + b;
      RoleNamesAppend(a[1..], b, companyNames, isDeveloper, unknown);
    }
  }

  function Identity(s: string): string { s }

  /** The developer and publisher lists after the IGDB block: RAWG's developers,
      then each IGDB developer name not already among them, in IGDB's order;
      the publishers (which start empty) are IGDB's publisher names. */
  function MergeCompanies(rawgDevelopers: seq<string>, involved: seq<InvolvedCompany>,
                          companyNames: map<int, string>): (r: (seq<string>, seq<string>))
    ensures |rawgDevelopers| <= |r.0| && r.0[..|rawgDevelopers|] == rawgDevelopers
    ensures forall i :: |rawgDevelopers| <= i < |r.0| ==>
      Lower(r.0[i]) !in LowerNames(rawgDevelopers, Identity)
    ensures r.0 == AppendNew(rawgDevelopers, RoleNames(involved, companyNames, true, UnknownDeveloper), Identity)
    ensures r.1 == RoleNames(involved, companyNames, false, UnknownPublisher)
  {
    var devs := RoleNames(involved, companyNames, true, UnknownDeveloper);
    var pubs := RoleNames(involved, companyNames, false, UnknownPublisher);
    var p := AppendNew([], pubs, Identity);
    KeepUnseenOfNothing(pubs, Identity);
    assert p == pubs;
    (AppendNew(rawgDevelopers, devs, Identity), p)
  }

  // ----- Screenshots (src/lib/api.ts:705-720) -----

  /** An IGDB screenshot: its id is `igdb-` and the URL's last path segment,
      its image the URL with the first `thumb` replaced by `1080p`. */
  function IgdbScreenshot(url: string): (r: Screenshot)
    ensures r.id == IgdbShotId("igdb-" + LastPiece(url, '/'))
    ensures !Contains(url, "thumb") ==> r.image == url
    ensures Contains(url, "thumb") ==>
      exists k :: 0 <= k && k + 5 <= |url| && OccursAt(url, "thumb", k) &&
        (forall j :: 0 <= j < k ==> !OccursAt(url, "thumb", j)) &&
        r.image == url[..k] + "1080p" + url[k + 5..]
  {
    var shot := Screenshot(IgdbShotId("igdb-" + LastPiece(url, '/')), ReplaceFirst(url, "thumb", "1080p"));
    if Contains(url, "thumb") then ReplaceFirstOccurrence(url, "thumb", "1080p"); shot else shot
  }

  function IgdbScreenshots(urls: seq<string>): (r: seq<Screenshot>)
    ensures |r| == |urls| && forall i :: 0 <= i < |urls| ==> r[i] == IgdbScreenshot(urls[i])
  {
    seq(|urls|, i requires 0 <= i < |urls| => IgdbScreenshot(urls[i]))
  }

  /** Screenshots are told apart by their image URL up to the first `?`. */
  function ShotKey(s: Screenshot): string {
    Split(s.image, '?')[0]
  }

  /** The screenshot list after the IGDB block: unchanged when IGDB has none,
      else RAWG's then IGDB's, keeping the first screenshot of each URL. */
  method MergeScreenshots(rawg: seq<Screenshot>, igdbUrls: seq<string>) returns (r: seq<Screenshot>)
    ensures |igdbUrls| == 0 ==> r == rawg
    ensures |igdbUrls| > 0 ==> r == FirstByKey(rawg + IgdbScreenshots(igdbUrls), ShotKey)
  {
    if |igdbUrls| == 0 {
      return rawg;
    }
    var igdbScreens := IgdbScreenshots(igdbUrls);
    r := FilterFirstByKey(rawg + igdbScreens, ShotKey);
  }

  /** After a merge no two screenshots share a URL, and every URL of either
      source is present. */
  lemma ScreenshotMergeUnique(rawg: seq<Screenshot>, igdbUrls: seq<string>)
    ensures var r := FirstByKey(rawg + IgdbScreenshots(igdbUrls), ShotKey);
      (forall i, j :: 0 <= i < j < |r| ==> ShotKey(r[i]) != ShotKey(r[j])) &&
      (forall i :: 0 <= i < |rawg| ==> ShotKey(rawg[i]) in Keys(r, ShotKey)) &&
      (forall i :: 0 <= i < |igdbUrls| ==> ShotKey(IgdbScreenshot(igdbUrls[i])) in Keys(r, ShotKey))
  {
    var igdb := IgdbScreenshots(igdbUrls);
    var all := rawg + igdb;
    FirstByKeyUnique(all, ShotKey);
    forall i | 0 <= i < |rawg|
      ensures ShotKey(rawg[i]) in Keys(FirstByKey(all, ShotKey), ShotKey)
    {
      assert all[i] == rawg[i];
    }
    forall i | 0 <= i < |igdbUrls|
      ensures ShotKey(IgdbScreenshot(igdbUrls[i])) in Keys(FirstByKey(all, ShotKey), ShotKey)
    {
      assert all[|rawg| + i] == igdb[i];
    }
  }

  /** RAWG's screenshots lead the merged list when their URLs were distinct. */
  lemma ScreenshotMergeRawgFirst(rawg: seq<Screenshot>, igdbUrls: seq<string>)
    requires forall i, j :: 0 <= i < j < |rawg| ==> ShotKey(rawg[i]) != ShotKey(rawg[j])
    ensures var r := FirstByKey(rawg + IgdbScreenshots(igdbUrls), ShotKey);
      |rawg| <= |r| && r[..|rawg|] == rawg
  {
    FirstByKeyKeepsDistinctPrefix(rawg, IgdbScreenshots(igdbUrls), ShotKey);
  }

  // ----- IGDB age ratings (src/lib/api.ts:722-771) -----

  /** An `age_ratings` object with its reference fields. */
  datatype AgeRatingObject = AgeRatingObject(
    id: int, organization: Option<int>, category: Option<int>, descriptors: seq<int>)

  /** What the age-rating requests return: the ids the per-id check accepts,
      the fetched objects (`None` when the request threw), and the three
      id-to-text tables built from the detail requests. */
  datatype AgeRatingResponses = AgeRatingResponses(
    accepted: set<int>,
    objects: Option<seq<AgeRatingObject>>,
    organizations: map<int, string>,
    categories: map<int, string>,
    contents: map<int, string>)

  const UnknownOrganization := "Unknown Org"
  const NotRated := "Not Rated"

  /** `table.get(id) || fallback`: an empty or missing text gives the fallback. */
  function TextOr(table: map<int, string>, id: Option<int>, fallback: string): (r: string)
    ensures id.Some? && id.value in table && table[id.value] != "" ==> r == table[id.value]
    ensures !(id.Some? && id.value in table && table[id.value] != "") ==> r == fallback
  {
    if id.Some? && id.value in table && table[id.value] != "" then table[id.value] else fallback
  }

  /** The content descriptors whose description resolves to a non-empty text. */
  function Descriptions(ids: seq<int>, contents: map<int, string>): (r: seq<string>)
    ensures |r| <= |ids|
    ensures forall i :: 0 <= i < |r| ==> r[i] != ""
    ensures |ids| == 1 ==> r == if ids[0] in contents && contents[ids[0]] != "" then [contents[ids[0]]] else []
  {
    if ids == [] then []
    else
      var rest := Descriptions(ids[1..], contents);
      if ids[0] in contents && contents[ids[0]] != "" then [contents[ids[0]]] + rest else rest
  }

  /** The descriptions of two pieces are those of each, in order: every
      descriptor with a text is kept, in the listed order. */
  lemma {:induction false} DescriptionsAppend(a: seq<int>, b: seq<int>, contents: map<int, string>)
    ensures Descriptions(a + b, contents) == Descriptions(a, contents) + Descriptions(b, contents)
  {
    if a == [] {
      assert a + b == b;
    } else {
      assert (a + b)[0] == a[0];
      assert (a + b)[1..] == a[1..] + b;
      DescriptionsAppend(a[1..], b, contents);
    }
  }

  /** Every kept description is the text of one of the listed descriptor ids. */
  lemma {:induction false} DescriptionsResolve(ids: seq<int>, contents: map<int, string>, i: nat)
    requires i < |Descriptions(ids, contents)|
    ensures exists j :: 0 <= j < |ids| && ids[j] in contents && contents[ids[j]] == Descriptions(ids, contents)[i]
  {
    var rest := Descriptions(ids[1..], contents);
    var kept := ids[0] in contents && contents[ids[0]] != "";
    if kept && i == 0 {
      assert ids[0] in contents && contents[ids[0]] == Descriptions(ids, contents)[0];
    } else {
      var i' := if kept then i - 1 else i;
      assert Descriptions(ids, contents)[i] == rest[i'];
      DescriptionsResolve(ids[1..], contents, i');
      var j :| 0 <= j < |ids[1..]| && ids[1..][j] in contents && contents[ids[1..][j]] == rest[i'];
      assert ids[j + 1] == ids[1..][j];
    }
  }

  /** One fetched object joined with the three tables: the id is kept, the
      organisation and category always name something, and only descriptors
      with a text survive. */
  function JoinAgeRating(o: AgeRatingObject, responses: AgeRatingResponses): (r: AgeRating)
    ensures r.id == o.id && r.organization != "" && r.rating != ""
    ensures forall d :: 0 <= d < |r.descriptors| ==> r.descriptors[d] != ""
    ensures r.organization == TextOr(responses.organizations, o.organization, UnknownOrganization)
    ensures r.rating == TextOr(responses.categories, o.category, NotRated)
    ensures r.descriptors == Descriptions(o.descriptors, responses.contents)
  {
    AgeRating(o.id,
      TextOr(responses.organizations, o.organization, UnknownOrganization),
      TextOr(responses.categories, o.category, NotRated),
      Descriptions(o.descriptors, responses.contents))
  }

  function Positive(ids: seq<int>): (r: seq<int>)
    ensures forall i :: 0 <= i < |r| ==> r[i] > 0 && r[i] in ids
    ensures forall i :: 0 <= i < |ids| && ids[i] > 0 ==> ids[i] in r
  {
    if ids == [] then []
    else
      var rest := Positive(ids[1..]);
      assert forall j :: 0 <= j < |ids[1..]| ==> ids[1..][j] == ids[j + 1];
      if ids[0] > 0 then [ids[0]] + rest else rest
  }

  function Accepted(ids: seq<int>, accepted: set<int>): (r: seq<int>)
    ensures forall i :: 0 <= i < |r| ==> r[i] in accepted && r[i] in ids
    ensures forall i :: 0 <= i < |ids| && ids[i] in accepted ==> ids[i] in r
  {
    if ids == [] then []
    else
      var rest := Accepted(ids[1..], accepted);
      assert forall j :: 0 <= j < |ids[1..]| ==> ids[1..][j] == ids[j + 1];
      if ids[0] in accepted then [ids[0]] + rest else rest
  }

  /** `finalAgeRatings`: empty unless some positive id is accepted and the
      object request succeeds; then one joined rating per fetched object. */
  function IgdbAgeRatings(ids: Option<seq<int>>, responses: AgeRatingResponses): (r: seq<AgeRating>)
    ensures Accepted(Positive(ids.GetOr([])), responses.accepted) == [] ==> r == []
    ensures responses.objects.None? ==> r == []
    ensures Accepted(Positive(ids.GetOr([])), responses.accepted) != [] && responses.objects.Some? ==>
      (|r| == |responses.objects.value| &&
       forall i :: 0 <= i < |r| ==> r[i] == JoinAgeRating(responses.objects.value[i], responses))
  {
    var candidates := Positive(ids.GetOr([]));
    if candidates == [] then []
    else
      var valid := Accepted(candidates, responses.accepted);
      if valid == [] then []
      else
        match responses.objects
        case None => []
        case Some(objects) =>
          seq(|objects|, i requires 0 <= i < |objects| => JoinAgeRating(objects[i], responses))
  }

  // ----- Genres (src/lib/api.ts:773-789) -----

  function GenreName(g: Genre): string { g.name }

  /** The genres as the code computes them: `Object.assign` first sets them to
      IGDB's list, and the "merge" then compares IGDB's list with itself. */
  function GenresAsWritten(rawg: Option<seq<Genre>>, igdb: Option<seq<Genre>>): Option<seq<Genre>> {
    var genres := igdb;
    if igdb.Some? && |igdb.value| > 0 then
      Some(AppendNew(genres.GetOr([]), igdb.value, GenreName))
    else genres
  }

  /** Whatever RAWG's genres were, the record ends up with exactly IGDB's. */
  lemma GenresAsWrittenDropsRawg(rawg: Option<seq<Genre>>, igdb: Option<seq<Genre>>)
    ensures GenresAsWritten(rawg, igdb) == igdb
  {
    if igdb.Some? && |igdb.value| > 0 {
      var xs := igdb.value;
      var seen := LowerNames(xs, GenreName);
      assert forall i :: 0 <= i < |xs| ==> Lower(GenreName(xs[i])) == seen[i];
      KeepUnseenOfSeen(xs, seen, GenreName);
      assert AppendNew(xs, xs, GenreName) == xs + KeepUnseen(xs, seen, GenreName);
      assert xs + [] == xs;
    }
  }

  /** A RAWG genre not known to IGDB is lost. */
  lemma GenresAsWrittenExample()
    ensures GenresAsWritten(Some([Genre(4, "Action", "action")]), Some([Genre(5, "Shooter", "shooter")]))
            == Some([Genre(5, "Shooter", "shooter")])
  {
    GenresAsWrittenDropsRawg(Some([Genre(4, "Action", "action")]), Some([Genre(5, "Shooter", "shooter")]));
  }

  /** The genre merge the code's comment describes: RAWG's genres, then each
      IGDB genre whose name is not already present. */
  function MergeGenres(rawg: Option<seq<Genre>>, igdb: Option<seq<Genre>>): (r: Option<seq<Genre>>)
    ensures (igdb.None? || |igdb.value| == 0) ==> r == rawg
    ensures igdb.Some? && |igdb.value| > 0 ==>
      r.Some? && |rawg.GetOr([])| <= |r.value| && r.value[..|rawg.GetOr([])|] == rawg.GetOr([]) &&
      forall i :: 0 <= i < |igdb.value| ==>
        Lower(igdb.value[i].name) in LowerNames(r.value, GenreName)
  {
    if igdb.Some? && |igdb.value| > 0 then
      var existing := rawg.GetOr([]);
      var merged := AppendNew(existing, igdb.value, GenreName);
      assert forall i :: 0 <= i < |igdb.value| ==>
        Lower(igdb.value[i].name) in LowerNames(merged, GenreName) by {
        forall i | 0 <= i < |igdb.value|
          ensures Lower(igdb.value[i].name) in LowerNames(merged, GenreName)
        {
          var g := igdb.value[i];
          if Lower(GenreName(g)) in LowerNames(existing, GenreName) {
            var k :| 0 <= k < |existing| && LowerNames(existing, GenreName)[k] == Lower(GenreName(g));
            assert merged[k] == existing[k];
            assert LowerNames(merged, GenreName)[k] == Lower(GenreName(g));
          } else {
            assert g in merged;
            var k :| 0 <= k < |merged| && merged[k] == g;
            assert LowerNames(merged, GenreName)[k] == Lower(GenreName(g));
          }
        }
      }
      Some(merged)
    else rawg
  }

  // ----- Video (src/lib/api.ts:790-796, 912-918) -----

  /** IGDB's videos when it has some, else RAWG's clip when present, else nothing. */
  function ChooseVideo(igdbVideos: seq<Video>, rawgClip: Option<Clip>): (r: Option<VideoData>)
    ensures |igdbVideos| > 0 ==> r == Some(IgdbVideos(igdbVideos))
    ensures |igdbVideos| == 0 ==> (r.Some? <==> rawgClip.Some?)
    ensures |igdbVideos| == 0 && rawgClip.Some? ==> r == Some(RawgClip(rawgClip.value))
  {
    if |igdbVideos| > 0 then Some(IgdbVideos(igdbVideos))
    else if rawgClip.Some? then Some(RawgClip(rawgClip.value))
    else None
  }

  // ----- Language support (src/lib/api.ts:798-851) -----

  /** One `language_supports` entry: a language id and a support-type id. */
  datatype SupportPair = SupportPair(language: int, supportType: int)

  /** `langMap[id]`, or nothing when the id is unknown or its name is empty. */
  function Resolve(table: map<int, string>, id: int): Option<string> {
    if id in table && table[id] != "" then Some(table[id]) else None
  }

  /** The pair resolves to this language name, with a type whose lower-cased
      name contains `word`. */
  predicate PairGrants(p: SupportPair, languages: map<int, string>, types: map<int, string>,
                       name: string, word: string) {
    Resolve(languages, p.language) == Some(name) && Resolve(types, p.supportType).Some? &&
    Contains(Lower(Resolve(types, p.supportType).value), word)
  }

  predicate Resolves(p: SupportPair, languages: map<int, string>, types: map<int, string>) {
    Resolve(languages, p.language).Some? && Resolve(types, p.supportType).Some?
  }

  /** One `forEach` step of the fold. Type names are lower-cased as the type
      table is built, so the flag words match in any case. */
  function FoldStep(acc: map<string, LanguageSupport>, p: SupportPair,
                    languages: map<int, string>, types: map<int, string>): map<string, LanguageSupport>
  {
    var langName := Resolve(languages, p.language);
    var supportType := Resolve(types, p.supportType);
    if langName.None? || supportType.None? then acc
    else
      var name, t := langName.value, Lower(supportType.value);
      var entry := if name in acc then acc[name] else LanguageSupport(false, false, false);
      acc[name := LanguageSupport(entry.audio || Contains(t, "audio"),
                                  entry.subtitles || Contains(t, "subtitles"),
                                  entry.ui || Contains(t, "interface"))]
  }

  /** The table the fold builds from the pairs, in order. */
  function Fold(ps: seq<SupportPair>, languages: map<int, string>, types: map<int, string>): map<string, LanguageSupport> {
    if ps == [] then map[]
    else FoldStep(Fold(ps[..|ps| - 1], languages, types), ps[|ps| - 1], languages, types)
  }

  /** `supportedLanguagesData`: empty when the request was not ok, else the fold. */
  method FoldLanguages(pairs: Option<seq<SupportPair>>, languages: map<int, string>, types: map<int, string>)
    returns (r: map<string, LanguageSupport>)
    ensures pairs.None? ==> r == map[]
    ensures pairs.Some? ==> r == Fold(pairs.value, languages, types)
  {
    r := map[];
    if pairs.None? {
      return;
    }
    var ps := pairs.value;
    for k := 0 to |ps|
      invariant r == Fold(ps[..k], languages, types)
    {
      assert ps[..k + 1][..k] == ps[..k];
      r := ApplyPair(r, ps[k], languages, types);
    }
    assert ps[..|ps|] == ps;
  }

  /** The body of the `forEach`: a resolved pair creates its language's entry
      when missing and sets each flag its type name mentions. */
  method ApplyPair(acc: map<string, LanguageSupport>, p: SupportPair, languages: map<int, string>, types: map<int, string>)
    returns (r: map<string, LanguageSupport>)
    ensures r == FoldStep(acc, p, languages, types)
  {
    r := acc;
    var langName := Resolve(languages, p.language);
    var supportType := Resolve(types, p.supportType);
    if langName.Some? && supportType.Some? {
      var name := langName.value;
      var t := Lower(supportType.value);
      if name !in r {
        r := r[name := LanguageSupport(false, false, false)];
      }
      if Contains(t, "audio") { r := r[name := r[name].(audio := true)]; }
      if Contains(t, "subtitles") { r := r[name := r[name].(subtitles := true)]; }
      if Contains(t, "interface") { r := r[name := r[name].(ui := true)]; }
    }
  }

  /** A language has an entry iff one of its pairs resolved. */
  lemma {:induction false} FoldKeys(ps: seq<SupportPair>, languages: map<int, string>, types: map<int, string>, name: string)
    ensures name in Fold(ps, languages, types) <==>
      exists i :: 0 <= i < |ps| && Resolves(ps[i], languages, types) && Resolve(languages, ps[i].language) == Some(name)
  {
    if ps != [] {
      var init := ps[..|ps| - 1];
      FoldKeys(init, languages, types, name);
      assert forall i :: 0 <= i < |init| ==> init[i] == ps[i];
    }
  }

  /** Each flag is on iff some pair of that language has a type naming it. */
  lemma {:induction false} FoldFlags(ps: seq<SupportPair>, languages: map<int, string>, types: map<int, string>, name: string)
    requires name in Fold(ps, languages, types)
    ensures Fold(ps, languages, types)[name].audio <==>
      exists i :: 0 <= i < |ps| && PairGrants(ps[i], languages, types, name, "audio")
    ensures Fold(ps, languages, types)[name].subtitles <==>
      exists i :: 0 <= i < |ps| && PairGrants(ps[i], languages, types, name, "subtitles")
    ensures Fold(ps, languages, types)[name].ui <==>
      exists i :: 0 <= i < |ps| && PairGrants(ps[i], languages, types, name, "interface")
  {
    var init := ps[..|ps| - 1];
    var last := ps[|ps| - 1];
    assert forall i :: 0 <= i < |init| ==> init[i] == ps[i];
    var acc := Fold(init, languages, types);
    FoldStepFlags(acc, last, languages, types, name);
    if name in acc {
      FoldFlags(init, languages, types, name);
    } else {
      FoldKeys(init, languages, types, name);
      forall i | 0 <= i < |init|
        ensures !PairGrants(ps[i], languages, types, name, "audio")
        ensures !PairGrants(ps[i], languages, types, name, "subtitles")
        ensures !PairGrants(ps[i], languages, types, name, "interface")
      {
        assert !(Resolves(init[i], languages, types) && Resolve(languages, init[i].language) == Some(name));
      }
    }
  }

  /** After one step a flag is on iff it was on before or the step's pair grants it. */
  lemma FoldStepFlags(acc: map<string, LanguageSupport>, p: SupportPair,
                      languages: map<int, string>, types: map<int, string>, name: string)
    requires name in FoldStep(acc, p, languages, types)
    ensures FoldStep(acc, p, languages, types)[name].audio <==>
      (name in acc && acc[name].audio) || PairGrants(p, languages, types, name, "audio")
    ensures FoldStep(acc, p, languages, types)[name].subtitles <==>
      (name in acc && acc[name].subtitles) || PairGrants(p, languages, types, name, "subtitles")
    ensures FoldStep(acc, p, languages, types)[name].ui <==>
      (name in acc && acc[name].ui) || PairGrants(p, languages, types, name, "interface")
  {
  }

  /** A flag, once on, stays on: the fold only ever adds. */
  lemma FoldStepMonotone(acc: map<string, LanguageSupport>, p: SupportPair,
                         languages: map<int, string>, types: map<int, string>, name: string)
    requires name in acc
    ensures name in FoldStep(acc, p, languages, types)
    ensures acc[name].audio ==> FoldStep(acc, p, languages, types)[name].audio
    ensures acc[name].subtitles ==> FoldStep(acc, p, languages, types)[name].subtitles
    ensures acc[name].ui ==> FoldStep(acc, p, languages, types)[name].ui
  {
  }

  // ----- Tags (src/lib/api.ts:853-909) -----

  function TagKey(t: Tag): string { Lower(t.name) }

  function Sourced(tags: seq<RawTag>, source: string): (r: seq<Tag>)
    ensures |r| == |tags|
    ensures forall i :: 0 <= i < |tags| ==> r[i] == Tag(tags[i].id, tags[i].name, Some(source))
  {
    seq(|tags|, i requires 0 <= i < |tags| => Tag(tags[i].id, tags[i].name, Some(source)))
  }

  /** The merged tag list: RAWG's tags marked `rawg`, then IGDB's keywords
      marked `igdb` with later case-insensitive repeats among the keywords
      dropped; nothing when both are empty (the field is then left unset). */
  method MergeTags(rawgTags: Option<seq<RawTag>>, igdbKeywords: seq<RawTag>) returns (r: Option<seq<Tag>>)
    ensures r.None? <==> (|rawgTags.GetOr([])| == 0 && |igdbKeywords| == 0)
    ensures r.Some? ==> r.value == Sourced(rawgTags.GetOr([]), "rawg") + FirstByKey(Sourced(igdbKeywords, "igdb"), TagKey)
  {
    var rawg := Sourced(rawgTags.GetOr([]), "rawg");
    var igdb := FilterFirstByKey(Sourced(igdbKeywords, "igdb"), TagKey);
    if |igdbKeywords| > 0 {
      FirstByKeyUnique(Sourced(igdbKeywords, "igdb"), TagKey);
      assert TagKey(Sourced(igdbKeywords, "igdb")[0]) in Keys(igdb, TagKey);
    }
    var merged := rawg + igdb;
    if |merged| > 0 {
      r := Some(merged);
    } else {
      r := None;
    }
  }

  /** The keyword de-duplication does not look at RAWG's tags: a keyword that
      repeats a RAWG tag's name is kept beside it. */
  lemma TagsNotCheckedAgainstRawg()
    ensures Sourced([RawTag(1, "Shooter")], "rawg") + FirstByKey(Sourced([RawTag(2, "shooter")], "igdb"), TagKey)
         == [Tag(1, "Shooter", Some("rawg")), Tag(2, "shooter", Some("igdb"))]
  {
    var igdb := Sourced([RawTag(2, "shooter")], "igdb");
    assert igdb[..0] == [];
    assert FirstByKey(igdb, TagKey) == [Tag(2, "shooter", Some("igdb"))];
  }

  // ----- RAWG age-rating fallback (src/lib/api.ts:942-976) -----

  datatype EsrbRating = EsrbRating(id: int, name: string)

  /** A RAWG `age_ratings` entry; an empty title or description is falsy. */
  datatype RawgAgeRating = RawgAgeRating(
    id: int, category: int, title: string, description: string, rating: Option<int>)

  /** The organisation named by a RAWG category code. */
  function CategoryOrganization(category: int): (r: string)
    ensures 1 <= category <= 7 ==> r == ["ESRB", "PEGI", "CERO", "USK", "GRAC", "CLASSIND", "ACB"][category - 1]
    ensures !(1 <= category <= 7) ==> r == "Unknown"
  {
    if category == 1 then "ESRB"
    else if category == 2 then "PEGI"
    else if category == 3 then "CERO"
    else if category == 4 then "USK"
    else if category == 5 then "GRAC"
    else if category == 6 then "CLASSIND"
    else if category == 7 then "ACB"
    else "Unknown"
  }

  /** `title || description || String(rating)`. */
  function RatingLabel(ar: RawgAgeRating): (r: string)
    ensures ar.title != "" ==> r == ar.title
    ensures ar.title == "" && ar.description != "" ==> r == ar.description
    ensures r != ""
  {
    if ar.title != "" then ar.title
    else if ar.description != "" then ar.description
    else match ar.rating
      case Some(n) => IntToString(n)
      case None => "undefined"
  }

  function ConvertRawgRating(ar: RawgAgeRating): AgeRating {
    AgeRating(ar.id, CategoryOrganization(ar.category), RatingLabel(ar), [])
  }

  /** The fallback list: the ESRB rating first when it has a name, then every
      RAWG rating converted, in order. */
  function FallbackList(esrb: Option<EsrbRating>, ratings: Option<seq<RawgAgeRating>>): (r: seq<AgeRating>)
    ensures var lead := if esrb.Some? && esrb.value.name != "" then 1 else 0;
      |r| == lead + |ratings.GetOr([])| &&
      (lead == 1 ==> r[0] == AgeRating(esrb.value.id, "ESRB", esrb.value.name, [])) &&
      forall i :: 0 <= i < |ratings.GetOr([])| ==> r[lead + i] == ConvertRawgRating(ratings.GetOr([])[i])
  {
    var lead := if esrb.Some? && esrb.value.name != "" then [AgeRating(esrb.value.id, "ESRB", esrb.value.name, [])] else [];
    var rs := ratings.GetOr([]);
    lead + seq(|rs|, i requires 0 <= i < |rs| => ConvertRawgRating(rs[i]))
  }

  /** The loop that pushes the fallback ratings one by one. */
  method RawgAgeRatings(esrb: Option<EsrbRating>, ratings: Option<seq<RawgAgeRating>>)
    returns (r: seq<AgeRating>)
    ensures r == FallbackList(esrb, ratings)
  {
    r := [];
    if esrb.Some? && esrb.value.name != "" {
      r := r + [AgeRating(esrb.value.id, "ESRB", esrb.value.name, [])];
    }
    var lead := |r|;
    var rs := ratings.GetOr([]);
    for k := 0 to |rs|
      invariant |r| == lead + k
      invariant lead == 1 ==> r[0] == AgeRating(esrb.value.id, "ESRB", esrb.value.name, [])
      invariant lead == (if esrb.Some? && esrb.value.name != "" then 1 else 0)
      invariant forall i :: 0 <= i < k ==> r[lead + i] == ConvertRawgRating(rs[i])
    {
      r := r + [ConvertRawgRating(rs[k])];
    }
  }

  /** Every fallback rating names an organisation and carries a non-empty label. */
  lemma RawgAgeRatingsLabelled(ar: RawgAgeRating)
    ensures ConvertRawgRating(ar).organization != "" && ConvertRawgRating(ar).rating != ""
  {
  }
}
