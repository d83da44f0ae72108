/** The infinite-scroll list of popular games (src/app/popular/page.tsx):
    pages of thirty are requested by offset and merged into one list without
    repeated slugs. */
module PopularPage {
  import opened Text
  import opened KeyedMap

  const PageSize: nat := 30

  /** A listed game, as far as the page reads it. */
  datatype PopularGame = PopularGame(slug: string, name: string, views: int)

  function Slug(g: PopularGame): string { g.slug }

  /** The offset of page `page`. */
  function Skip(page: nat): (skip: nat)
    ensures skip % PageSize == 0 && skip / PageSize == page
  {
    page * PageSize
  }

  const RequestPrefix := "/api/games/all-popular?skip="
  const RequestSuffix := "&take=30"

  /** The request for page `page`. */
  function RequestPath(page: nat): string {
    RequestPrefix + NatToString(Skip(page)) + RequestSuffix
  }

  /** Different pages send different requests. */
  lemma RequestPathInjective(p: nat, q: nat)
    requires RequestPath(p) == RequestPath(q)
    ensures p == q
  {
    var a := NatToString(Skip(p));
    var b := NatToString(Skip(q));
    assert |a| == |b|;
    assert RequestPath(p)[|RequestPrefix|..|RequestPrefix| + |a|] == a;
    assert RequestPath(q)[|RequestPrefix|..|RequestPrefix| + |b|] == b;
    NatToStringInjective(Skip(p), Skip(q));
  }

  /** `Array.from(new Map([...prev, ...batch].map(g => [g.slug, g])).values())`. */
  function Accumulate(prev: seq<PopularGame>, batch: seq<PopularGame>): (r: seq<PopularGame>)
    ensures |r| <= |prev| + |batch|
  {
    MapValues(prev + batch, Slug)
  }

  predicate DistinctSlugs(games: seq<PopularGame>) {
    forall i, j :: 0 <= i < j < |games| ==> games[i].slug != games[j].slug
  }

  /** The merged list has no repeated slug and holds every slug of both lists. */
  lemma AccumulateDistinct(prev: seq<PopularGame>, batch: seq<PopularGame>)
    ensures DistinctSlugs(Accumulate(prev, batch))
    ensures forall s :: s in Keys(Accumulate(prev, batch), Slug) <==> s in Keys(prev + batch, Slug)
  {
    var r := Accumulate(prev, batch);
    MapValuesKeys(prev + batch, Slug);
    DedupDistinct(Keys(prev + batch, Slug));
    DedupMembers(Keys(prev + batch, Slug));
    forall i, j | 0 <= i < j < |r| ensures r[i].slug != r[j].slug {
      assert Keys(r, Slug)[i] == r[i].slug && Keys(r, Slug)[j] == r[j].slug;
    }
  }

  /** Each slug sits where it first appears but carries the last game seen
      under it, as a JavaScript Map does. */
  lemma AccumulatePlacement(prev: seq<PopularGame>, batch: seq<PopularGame>, i: nat)
    requires i < |Accumulate(prev, batch)|
    ensures Keys(Accumulate(prev, batch), Slug) == Dedup(Keys(prev + batch, Slug))
    ensures Accumulate(prev, batch)[i].slug in Keys(prev + batch, Slug)
    ensures Accumulate(prev, batch)[i] == (prev + batch)[LastIndex(Keys(prev + batch, Slug), Accumulate(prev, batch)[i].slug)]
  {
    MapValuesKeys(prev + batch, Slug);
    MapValuesLast(prev + batch, Slug, i);
  }

  /** A list already free of repeats keeps its order at the front: new pages
      only add games after the ones shown. */
  lemma AccumulateKeepsOrder(prev: seq<PopularGame>, batch: seq<PopularGame>)
    requires DistinctSlugs(prev)
    ensures |prev| <= |Accumulate(prev, batch)|
    ensures forall i :: 0 <= i < |prev| ==> Accumulate(prev, batch)[i].slug == prev[i].slug
  {
    var xs := prev + batch;
    MapValuesKeys(xs, Slug);
    FirstByKeyKeys(xs, Slug);
    FirstByKeyKeepsDistinctPrefix(prev, batch, Slug);
    var r := Accumulate(prev, batch);
    var f := FirstByKey(xs, Slug);
    assert Keys(r, Slug) == Keys(f, Slug);
    forall i | 0 <= i < |prev| ensures r[i].slug == prev[i].slug {
      assert Keys(r, Slug)[i] == r[i].slug;
      assert Keys(f, Slug)[i] == f[i].slug;
      assert f[..|prev|][i] == prev[i];
    }
  }

  /** The page's state: the games shown, whether a load is running, whether
      the server reported more, and the page last requested. */
  class PopularList {
    var games: seq<PopularGame>
    var loading: bool
    var hasMore: bool
    var page: nat

    ghost predicate Valid()
      reads this
    {
      DistinctSlugs(games)
    }

    constructor ()
      ensures Valid()
      ensures games == [] && loading && hasMore && page == 0
    {
      games := [];
      loading := true;
      hasMore := true;
      page := 0;
    }

    /** The start of `loadGames`: mark loading and request the current page. */
    method StartLoad() returns (path: string)
      requires Valid()
      modifies this
      ensures Valid()
      ensures path == RequestPath(page) && loading
      ensures games == old(games) && hasMore == old(hasMore) && page == old(page)
    {
      loading := true;
      path := RequestPrefix + NatToString(page * PageSize) + RequestSuffix;
    }

    /** The end of `loadGames`: merge the batch, record `hasMore`, stop loading. */
    method BatchArrived(batch: seq<PopularGame>, more: bool)
      requires Valid()
      modifies this
      ensures Valid()
      ensures games == Accumulate(old(games), batch) && hasMore == more && !loading && page == old(page)
    {
      AccumulateDistinct(games, batch);
      games := MapValues(games + batch, Slug);
      hasMore := more;
      loading := false;
    }

    /** The scroll sentinel comes into view: the observer exists only while
        more pages remain and no load is running, and then moves one page on. */
    method SentinelVisible()
      requires Valid()
      modifies this
      ensures Valid()
      ensures page == (if old(hasMore) && !old(loading) then old(page) + 1 else old(page))
      ensures games == old(games) && hasMore == old(hasMore) && loading == old(loading)
    {
      if hasMore && !loading {
        page := page + 1;
      }
    }
  }
}
