/** Cross-source identity resolution (src/lib/api.ts): the weighted scoring of
    `findBestIgdbMatch`, and `fetchFromIgdb`, which is what the pipeline
    actually uses: it takes the first hit of the slug query, else the first hit
    of the name-and-year query, and never scores anything. The fuzzy search
    (Fuse.js) is foreign: its hits arrive as input, in search order, each with
    its optional score. */
module IdentityMatch {
  import opened Wrappers
  import opened Text

  /** The primary (RAWG) record's matching fields. */
  datatype RawgGame = RawgGame(
    name: string,
    releaseYear: Option<int>,   // year of `released`, when the date is present
    platforms: seq<string>,
    developers: seq<string>)

  /** A secondary (IGDB) candidate. */
  datatype Candidate = Candidate(
    id: int,
    name: string,
    alternativeNames: seq<string>,
    releaseYear: Option<int>,   // year of `first_release_date`, when it is truthy
    platforms: seq<string>,
    companies: seq<string>)

  /** One fuzzy-search result: the candidate and Fuse's score (0 is a perfect match). */
  datatype SearchHit = SearchHit(item: Candidate, score: Option<real>)

  const StrongNameScore: real := 0.3
  const ConfidenceThreshold: nat := 5
  const MaxPossibleScore: nat := 8

  function AllNames(c: Candidate): seq<string> {
    [c.name] + c.alternativeNames
  }

  function LowerAll(xs: seq<string>): (r: seq<string>)
    ensures |r| == |xs| && forall i :: 0 <= i < |xs| ==> r[i] == Lower(xs[i])
  {
    seq(|xs|, i requires 0 <= i < |xs| => Lower(xs[i]))
  }

  function NormalizedNames(xs: seq<string>): (r: seq<string>)
    ensures |r| == |xs| && forall i :: 0 <= i < |xs| ==> r[i] == Lower(Trim(xs[i]))
  {
    seq(|xs|, i requires 0 <= i < |xs| => Lower(Trim(xs[i])))
  }

  /** Fuzzy name points: 2 for a strong match, 1 for any other scored hit, 0 without a score. */
  function NamePoints(hit: SearchHit): (p: nat)
    ensures p <= 2
    ensures p == 2 <==> (hit.score.Some? && hit.score.value < StrongNameScore)
  {
    match hit.score
    case None => 0
    case Some(s) => if s < StrongNameScore then 2 else 1
  }

  /** The trimmed, lower-cased primary name is one of the candidate's names. */
  predicate ExactName(game: RawgGame, c: Candidate) {
    Lower(Trim(game.name)) in NormalizedNames(AllNames(c))
  }

  predicate SameYear(game: RawgGame, c: Candidate) {
    game.releaseYear.Some? && c.releaseYear.Some? && game.releaseYear.value == c.releaseYear.value
  }

  /** Some name of `a` equals some name of `b`, ignoring case. */
  predicate Overlap(a: seq<string>, b: seq<string>) {
    exists i | 0 <= i < |a| :: Lower(a[i]) in LowerAll(b)
  }

  /** The total confidence score of one hit. */
  function Score(game: RawgGame, hit: SearchHit): (s: nat)
    ensures s <= MaxPossibleScore
    ensures s >= ConfidenceThreshold ==> ExactName(game, hit.item) || SameYear(game, hit.item)
  {
    NamePoints(hit)
    + (if ExactName(game, hit.item) then 2 else 0)
    + (if SameYear(game, hit.item) then 2 else 0)
    + (if Overlap(game.platforms, hit.item.platforms) then 1 else 0)
    + (if Overlap(game.developers, hit.item.companies) then 1 else 0)
  }

  /** The score of every hit, in search order. */
  function Scores(game: RawgGame, hits: seq<SearchHit>): (r: seq<nat>)
    ensures |r| == |hits| && forall j :: 0 <= j < |hits| ==> r[j] == Score(game, hits[j])
  {
    seq(|hits|, j requires 0 <= j < |hits| => Score(game, hits[j]))
  }

  /** The largest element of a non-empty sequence. */
  function Max(xs: seq<nat>): (m: nat)
    requires |xs| > 0
    ensures forall j :: 0 <= j < |xs| ==> xs[j] <= m
    ensures exists j :: 0 <= j < |xs| && xs[j] == m
  {
    if |xs| == 1 then xs[0]
    else
      var m := Max(xs[..|xs| - 1]);
      assert forall j :: 0 <= j < |xs| - 1 ==> xs[..|xs| - 1][j] == xs[j];
      if xs[|xs| - 1] > m then xs[|xs| - 1] else m
  }

  /** The highest score among the hits. */
  function MaxScore(game: RawgGame, hits: seq<SearchHit>): (m: nat)
    requires |hits| > 0
    ensures forall j :: 0 <= j < |hits| ==> Score(game, hits[j]) <= m
    ensures exists j :: 0 <= j < |hits| && Score(game, hits[j]) == m
  {
    var xs := Scores(game, hits);
    var m := Max(xs);
    assert exists j :: 0 <= j < |xs| && xs[j] == m;
    m
  }

  /** Hit `i` reaches the maximum and no earlier hit does. */
  predicate IsFirstBest(game: RawgGame, hits: seq<SearchHit>, i: int)
    requires |hits| > 0
  {
    0 <= i < |hits| &&
    Score(game, hits[i]) == MaxScore(game, hits) &&
    forall j :: 0 <= j < i ==> Score(game, hits[j]) < Score(game, hits[i])
  }

  /** `findBestIgdbMatch`: the first hit with the highest score, when that score
      reaches the confidence floor; nothing for an empty candidate list. */
  method FindBestIgdbMatch(game: RawgGame, candidates: seq<Candidate>, hits: seq<SearchHit>)
    returns (r: Option<Candidate>)
    ensures |candidates| == 0 ==> r == None
    ensures r.Some? <==>
      |candidates| > 0 && |hits| > 0 && MaxScore(game, hits) >= ConfidenceThreshold
    ensures r.Some? ==> exists i :: IsFirstBest(game, hits, i) && r.value == hits[i].item
  {
    if |candidates| == 0 {
      return None;
    }
    var best: Option<Candidate> := None;
    var bestScore := 0;
    ghost var bestIndex := 0;
    for k := 0 to |hits|
      invariant best.None? <==> k == 0
      invariant 0 <= bestIndex <= k && (k > 0 ==> bestIndex < k)
      invariant k > 0 ==> best == Some(hits[bestIndex].item)
      invariant k > 0 ==> bestScore == Score(game, hits[bestIndex])
      invariant forall j :: 0 <= j < k ==> Score(game, hits[j]) <= bestScore
      invariant forall j :: 0 <= j < bestIndex ==> Score(game, hits[j]) < bestScore
    {
      var currentScore := Score(game, hits[k]);
      if best.None? || currentScore > bestScore {
        best, bestScore, bestIndex := Some(hits[k].item), currentScore, k;
      }
    }
    if |hits| > 0 {
      var m := MaxScore(game, hits);
      assert bestScore == m by {
        var j :| 0 <= j < |hits| && Score(game, hits[j]) == m;
      }
      assert IsFirstBest(game, hits, bestIndex);
    }
    if best.Some? && bestScore >= ConfidenceThreshold {
      r := best;
    } else {
      r := None;
    }
  }

  /** The answer of one IGDB games query: the request failed, or these hits. */
  datatype QueryResult = Failed | Returned(hits: seq<Candidate>)

  /** `fetchFromIgdb`: the first hit of the exact-slug query, else the first hit
      of the name-and-year fallback query, else nothing. */
  function FetchFromIgdb(slugQuery: QueryResult, fallbackQuery: QueryResult): (r: Option<Candidate>)
    ensures r.Some? <==>
      (slugQuery.Returned? && |slugQuery.hits| > 0) ||
      (fallbackQuery.Returned? && |fallbackQuery.hits| > 0)
    ensures slugQuery.Returned? && |slugQuery.hits| > 0 ==> r == Some(slugQuery.hits[0])
    ensures r.Some? && !(slugQuery.Returned? && |slugQuery.hits| > 0) ==>
      r == Some(fallbackQuery.hits[0])
  {
    if slugQuery.Returned? && |slugQuery.hits| > 0 then Some(slugQuery.hits[0])
    else if fallbackQuery.Returned? && |fallbackQuery.hits| > 0 then Some(fallbackQuery.hits[0])
    else None
  }

  /** Because the pipeline calls `fetchFromIgdb` and never the scorer, a first
      hit that shares nothing with the primary record is still taken as the match. */
  lemma UnscoredFirstHitAccepted()
    ensures exists game: RawgGame, c: Candidate ::
      FetchFromIgdb(Returned([c]), Failed) == Some(c) &&
      Score(game, SearchHit(c, None)) < ConfidenceThreshold
  {
    var game := RawgGame("a", None, [], []);
    var c := Candidate(1, "ab", [], None, [], []);
    TrimFixed(game.name);
    TrimFixed(c.name);
    var names := NormalizedNames(AllNames(c));
    assert |names| == 1 && |names[0]| == 2;
    assert |Lower(Trim(game.name))| == 1;
    assert !ExactName(game, c);
    assert !SameYear(game, c);
    assert FetchFromIgdb(Returned([c]), Failed) == Some(c);
    assert Score(game, SearchHit(c, None)) < ConfidenceThreshold;
  }
}
