/** The "Where to Buy" panel (src/components/StoreLinks.tsx): one link per
    store offering the game. */
module StoreLinks {
  import opened Wrappers

  /** A store entry: the store's slug and domain and the direct link to the game. */
  datatype Store = Store(id: int, slug: string, domain: string, url: string)

  /** The landing page used for the known stores when there is no direct link. */
  function KnownStorePage(slug: string): (r: Option<string>)
    ensures r.Some? ==> r.value != ""
    ensures r.Some? <==> slug in {"steam", "gog", "epic-games", "xbox-store", "playstation-store", "nintendo", "itch", "humble"}
  {
    match slug
    case "steam" => Some("https://store.steampowered.com")
    case "gog" => Some("https://www.gog.com")
    case "epic-games" => Some("https://store.epicgames.com")
    case "xbox-store" => Some("https://www.xbox.com/games/store")
    case "playstation-store" => Some("https://store.playstation.com")
    case "nintendo" => Some("https://www.nintendo.com/store")
    case "itch" => Some("https://itch.io")
    case "humble" => Some("https://www.humblebundle.com/store")
    case _ => None
  }

  /** `getStoreUrl`: the direct link when there is one, else the known
      store's landing page, else the store's domain, else "#". */
  function StoreUrl(store: Store): (r: string)
    ensures r != ""
    ensures store.url != "" ==> r == store.url
    ensures store.url == "" && KnownStorePage(store.slug).Some? ==> r == KnownStorePage(store.slug).value
    ensures store.url == "" && KnownStorePage(store.slug).None? ==> r == (if store.domain != "" then store.domain else "#")
  {
    if store.url != "" then store.url
    else match KnownStorePage(store.slug)
      case Some(page) => page
      case None => if store.domain != "" then store.domain else "#"
  }

  /** The link is "#" only for an unknown store with neither link nor domain. */
  lemma PlaceholderOnlyWhenNothingKnown(store: Store)
    ensures StoreUrl(store) == "#" <==>
      (store.url == "" || store.url == "#") &&
      (store.url == "#" || (KnownStorePage(store.slug).None? && (store.domain == "" || store.domain == "#")))
  {
  }

  /** A direct link wins over everything the store itself says. */
  lemma DirectLinkWins(store: Store, slug: string, domain: string)
    requires store.url != ""
    ensures StoreUrl(store) == StoreUrl(store.(slug := slug, domain := domain))
  {
  }

  /** The panel: nothing for an absent or empty list, else one link per store in order. */
  function RenderStoreLinks(stores: Option<seq<Store>>): (r: Option<seq<string>>)
    ensures r.None? <==> stores.None? || |stores.value| == 0
    ensures r.Some? ==>
      |r.value| == |stores.value| && forall i :: 0 <= i < |r.value| ==> r.value[i] == StoreUrl(stores.value[i])
  {
    if stores.None? || |stores.value| == 0 then None
    else Some(seq(|stores.value|, i requires 0 <= i < |stores.value| => StoreUrl(stores.value[i])))
  }
}
