/**
 * The selection loops of `check_steam_free_games`, `check_steam_discounts` and `check_epic_free_games`, applied
 * to feeds that were already fetched. A feed whose request raised is `None`; a request answered with a status
 * other than 200 gives an empty feed. The app-details requests are oracle functions of `SteamApi`.
 */
module Storefronts {
  import opened Common
  import opened Listings
  import opened Ranking

  /** An entry of one of the Steam featured feeds, the feeds' categories concatenated in the order the source
      visits them. Absent fields are `None`; a missing `discount_percent` is 0. */
  datatype FeaturedItem = FeaturedItem(id: Option<int>, name: Option<string>, discountPercent: int,
                                       originalPrice: Option<int>, finalPrice: Option<int>)

  /**
   * The answers of the Steam app-details endpoint, per app id as text: `plainDetails` for the request of
   * `is_game_free_to_play`, `ruDetails` for the first request of `get_game_details` and `usPrice` for its
   * fallback price request. `None` stands for a request that failed or was not a success.
   */
  datatype SteamApi = SteamApi(plainDetails: string -> Option<AppData>,
                               ruDetails: string -> Option<AppData>,
                               usPrice: string -> Option<PriceOverview>)

  const FreeSearchLimit: nat := 10
  const DiscountSearchLimit: nat := 30
  const MinDiscount: int := 90

  /** `is_game_free_to_play`: the `is_free` flag of a successful response, false otherwise. */
  function FreeToPlay(api: SteamApi, key: string): (r: bool)
    ensures api.plainDetails(key).None? ==> !r
    ensures api.plainDetails(key).Some? ==> (r <==> api.plainDetails(key).value.isFree)
  {
    var r := api.plainDetails(key);
    r.Some? && r.value.isFree
  }

  /** `get_game_details` for one app id. */
  function GameDetails(api: SteamApi, id: string): Option<Details> {
    GetGameDetails(api.ruDetails(id), api.usPrice(id))
  }

  /** Python's truth test of `game.get('id')`: present and not zero. */
  predicate HasId(g: FeaturedItem) {
    g.id.Some? && g.id.value != 0
  }

  /** `str(app_id)`, the key under which a featured entry is tracked. */
  function Key(g: FeaturedItem): string
    requires HasId(g)
  {
    IntToDecimal(g.id.value)
  }

  /** Python's slice `s[:n]`. */
  function Take<T>(s: seq<T>, n: nat): (r: seq<T>)
    ensures |r| <= n && |r| <= |s| && r == s[..|r|]
    ensures |s| >= n ==> |r| == n
  {
    if |s| <= n then s else s[..n]
  }

  /** The ids of a list of listings: the `found_ids` set of the selection loops. */
  function Ids(s: seq<Listing>): set<string> {
    set k | 0 <= k < |s| :: s[k].id
  }

  lemma IdsAppend(s: seq<Listing>, l: Listing)
    ensures Ids(s + [l]) == Ids(s) + {l.id}
  {
    var t := s + [l];
    forall x | x in Ids(t) ensures x in Ids(s) + {l.id} {
      var k :| 0 <= k < |t| && t[k].id == x;
      if k < |s| { assert s[k] == t[k]; }
    }
    forall x | x in Ids(s) ensures x in Ids(t) {
      var k :| 0 <= k < |s| && s[k].id == x;
      assert t[k] == s[k];
    }
    assert t[|s|] == l;
  }

  /** Appending a listing whose id is new keeps the ids distinct. */
  lemma DistinctIdsAppend(s: seq<Listing>, l: Listing)
    requires DistinctIds(s) && l.id !in Ids(s)
    ensures DistinctIds(s + [l]) && Ids(s + [l]) == Ids(s) + {l.id}
  {
    IdsAppend(s, l);
    var t := s + [l];
    forall a, b | 0 <= a < b < |t| ensures t[a].id != t[b].id {
      assert t[a] == s[a];
      if b == |s| {
        assert s[a].id in Ids(s);
      } else {
        assert t[b] == s[b];
      }
    }
  }

  // ---------------------------------------------------------------------------------------------------------
  // check_steam_free_games

  /** A featured entry that the first loop turns into a giveaway: 100% off, with an id, not free-to-play. */
  predicate FeaturedGiveaway(api: SteamApi, g: FeaturedItem) {
    g.discountPercent == 100 && HasId(g) && !FreeToPlay(api, Key(g))
  }

  function FeaturedGiveawayListing(g: FeaturedItem): Listing
    requires HasId(g)
  {
    Listing(Key(g), g.name.GetOr(UnknownTitle), SteamAppUrl + Key(g), Steam, Giveaway(None))
  }

  /** A searched id that the second loop turns into a giveaway: details exist and the original price is positive. */
  predicate SearchGiveaway(api: SteamApi, id: string) {
    var d := GameDetails(api, id);
    d.Some? && d.value.originalPrice > 0
  }

  function SearchGiveawayListing(id: string, d: Details): Listing {
    Listing(id, d.name, SteamAppUrl + id, Steam, Giveaway(None))
  }

  /** Featured entry `i` is the first qualifying one with its key. */
  ghost predicate FirstFeaturedGiveaway(api: SteamApi, featured: seq<FeaturedItem>, i: int) {
    && 0 <= i < |featured| && FeaturedGiveaway(api, featured[i])
    && forall j :: 0 <= j < i && FeaturedGiveaway(api, featured[j]) ==> Key(featured[j]) != Key(featured[i])
  }

  /** Searched id `i` qualifies, is no featured giveaway's key, and does not occur earlier in the search. */
  ghost predicate FirstSearchGiveaway(api: SteamApi, featured: seq<FeaturedItem>, search: seq<string>, i: int) {
    && 0 <= i < |search| && SearchGiveaway(api, search[i])
    && (forall j :: 0 <= j < |featured| && FeaturedGiveaway(api, featured[j]) ==> Key(featured[j]) != search[i])
    && (forall j :: 0 <= j < i ==> search[j] != search[i])
  }

  /** `l` is what the first loop makes of the first featured giveaway with its key. */
  ghost predicate FromFeaturedGiveaway(api: SteamApi, featured: seq<FeaturedItem>, l: Listing) {
    exists i :: FirstFeaturedGiveaway(api, featured, i) && l == FeaturedGiveawayListing(featured[i])
  }

  /** `l` is what the second loop makes of a searched id that no earlier entry claimed. */
  ghost predicate FromSearchGiveaway(api: SteamApi, featured: seq<FeaturedItem>, search: seq<string>, l: Listing) {
    exists i :: FirstSearchGiveaway(api, featured, search, i)
                && l == SearchGiveawayListing(search[i], GameDetails(api, search[i]).value)
  }

  /**
   * `check_steam_free_games`: the featured entries at 100% off that are not free-to-play, then the first ten
   * searched ids whose original price is positive, each id once. When the featured request raises, the search
   * is never made and the result is empty.
   */
  method CheckSteamFreeGames(api: SteamApi, featured: Option<seq<FeaturedItem>>, searchIds: seq<string>)
    returns (games: seq<Listing>)
    ensures featured.None? ==> games == []
    ensures DistinctIds(games)
    ensures forall k :: 0 <= k < |games| ==>
              FromFeaturedGiveaway(api, featured.GetOr([]), games[k])
              || FromSearchGiveaway(api, featured.GetOr([]), Take(searchIds, FreeSearchLimit), games[k])
    ensures featured.Some? ==>
              forall i :: 0 <= i < |featured.value| && FeaturedGiveaway(api, featured.value[i]) ==>
                Key(featured.value[i]) in Ids(games)
    ensures featured.Some? ==>
              var search := Take(searchIds, FreeSearchLimit);
              forall i :: 0 <= i < |search| && SearchGiveaway(api, search[i]) ==> search[i] in Ids(games)
  {
    games := [];
    if featured.None? {
      return;
    }
    var items := featured.value;
    var foundIds: set<string> := {};
    for i := 0 to |items|
      invariant foundIds == Ids(games) && DistinctIds(games)
      invariant forall k :: 0 <= k < |games| ==> FromFeaturedGiveaway(api, items, games[k])
      invariant forall j :: 0 <= j < i && FeaturedGiveaway(api, items[j]) ==> Key(items[j]) in foundIds
    {
      var game := items[i];
      if game.discountPercent == 100 && HasId(game) && Key(game) !in foundIds {
        if !FreeToPlay(api, Key(game)) {
          var listing := FeaturedGiveawayListing(game);
          assert FirstFeaturedGiveaway(api, items, i);
          DistinctIdsAppend(games, listing);
          foundIds := foundIds + {listing.id};
          games := games + [listing];
        }
      }
    }
    var search := Take(searchIds, FreeSearchLimit);
    for i := 0 to |search|
      invariant foundIds == Ids(games) && DistinctIds(games)
      invariant forall k :: 0 <= k < |games| ==>
                  FromFeaturedGiveaway(api, items, games[k]) || FromSearchGiveaway(api, items, search, games[k])
      invariant forall j :: 0 <= j < |items| && FeaturedGiveaway(api, items[j]) ==> Key(items[j]) in foundIds
      invariant forall j :: 0 <= j < i && SearchGiveaway(api, search[j]) ==> search[j] in foundIds
    {
      var appId := search[i];
      if appId !in foundIds {
        var details := GameDetails(api, appId);
        if details.Some? && details.value.originalPrice > 0 {
          var listing := SearchGiveawayListing(appId, details.value);
          assert FirstSearchGiveaway(api, items, search, i);
          DistinctIdsAppend(games, listing);
          foundIds := foundIds + {appId};
          games := games + [listing];
        }
      }
    }
  }

  // ---------------------------------------------------------------------------------------------------------
  // check_steam_discounts

  /** A discount at least 90% and below 100%: the test both discovery loops apply. */
  predicate InDiscountRange(d: int) {
    MinDiscount <= d < 100
  }

  /** A searched id whose details exist with a discount in range. */
  predicate SearchDiscount(api: SteamApi, id: string) {
    var d := GameDetails(api, id);
    d.Some? && InDiscountRange(d.value.discountPercent)
  }

  function SearchDiscountListing(id: string, d: Details): Listing {
    Listing(id, d.name, SteamAppUrl + id, Steam, Discount(d.discountPercent, d.originalPrice, d.finalPrice, d.currency))
  }

  /** A featured entry with a discount in range and an id. */
  predicate FeaturedDiscount(g: FeaturedItem) {
    InDiscountRange(g.discountPercent) && HasId(g)
  }

  /** `game.get(field, 0) // 100 if game.get(field) else 0`. */
  function FeedPrice(cents: Option<int>): int {
    if cents.Some? && cents.value != 0 then CentsToUnits(cents.value) else 0
  }

  function FeaturedDiscountListing(g: FeaturedItem): Listing
    requires HasId(g)
  {
    Listing(Key(g), g.name.GetOr(UnknownTitle), SteamAppUrl + Key(g), Steam,
            Discount(g.discountPercent, FeedPrice(g.originalPrice), FeedPrice(g.finalPrice), DefaultCurrency))
  }

  ghost predicate FirstSearchDiscount(api: SteamApi, search: seq<string>, i: int) {
    && 0 <= i < |search| && SearchDiscount(api, search[i])
    && forall j :: 0 <= j < i ==> search[j] != search[i]
  }

  ghost predicate FirstFeaturedDiscount(api: SteamApi, search: seq<string>, featured: seq<FeaturedItem>, i: int) {
    && 0 <= i < |featured| && FeaturedDiscount(featured[i])
    && (forall j :: 0 <= j < |search| && SearchDiscount(api, search[j]) ==> search[j] != Key(featured[i]))
    && forall j :: 0 <= j < i && FeaturedDiscount(featured[j]) ==> Key(featured[j]) != Key(featured[i])
  }

  /** `l` was discovered by the search loop, from the first occurrence of a qualifying id. */
  ghost predicate FromSearchDiscount(api: SteamApi, search: seq<string>, l: Listing) {
    exists i :: FirstSearchDiscount(api, search, i) && l == SearchDiscountListing(search[i], GameDetails(api, search[i]).value)
  }

  /** `l` was discovered by the featured loop, from the first qualifying entry with a key the search did not claim. */
  ghost predicate FromFeaturedDiscount(api: SteamApi, search: seq<string>, featured: seq<FeaturedItem>, l: Listing) {
    exists i :: FirstFeaturedDiscount(api, search, featured, i) && l == FeaturedDiscountListing(featured[i])
  }

  /** The listings the search loop has discovered once it visited `search`, in the order found. */
  function SearchDiscoveries(api: SteamApi, search: seq<string>): seq<Listing>
    decreases |search|
  {
    if search == [] then []
    else
      var found := SearchDiscoveries(api, search[..|search| - 1]);
      var id := search[|search| - 1];
      if id !in Ids(found) && SearchDiscount(api, id)
      then found + [SearchDiscountListing(id, GameDetails(api, id).value)]
      else found
  }

  /** The listings discovered once the featured loop, starting from `found`, visited `featured`. */
  function FeaturedDiscoveries(found: seq<Listing>, featured: seq<FeaturedItem>): seq<Listing>
    decreases |featured|
  {
    if featured == [] then found
    else
      var before := FeaturedDiscoveries(found, featured[..|featured| - 1]);
      var g := featured[|featured| - 1];
      if FeaturedDiscount(g) && Key(g) !in Ids(before)
      then before + [FeaturedDiscountListing(g)]
      else before
  }

  /** One step of the search loop. */
  lemma SearchDiscoveriesStep(api: SteamApi, search: seq<string>, i: nat)
    requires i < |search|
    ensures var found := SearchDiscoveries(api, search[..i]);
            SearchDiscoveries(api, search[..i + 1])
            == if search[i] !in Ids(found) && SearchDiscount(api, search[i])
               then found + [SearchDiscountListing(search[i], GameDetails(api, search[i]).value)]
               else found
  {
    assert search[..i + 1][..i] == search[..i];
  }

  /** One step of the featured loop. */
  lemma FeaturedDiscoveriesStep(found: seq<Listing>, featured: seq<FeaturedItem>, i: nat)
    requires i < |featured|
    ensures var before := FeaturedDiscoveries(found, featured[..i]);
            FeaturedDiscoveries(found, featured[..i + 1])
            == if FeaturedDiscount(featured[i]) && Key(featured[i]) !in Ids(before)
               then before + [FeaturedDiscountListing(featured[i])]
               else before
  {
    assert featured[..i + 1][..i] == featured[..i];
  }

  /** Everything both discovery loops find, in discovery order. */
  function Discovered(api: SteamApi, search: seq<string>, featured: seq<FeaturedItem>): seq<Listing> {
    FeaturedDiscoveries(SearchDiscoveries(api, search), featured)
  }

  /** What the search loop promises of what it found in `search`. */
  ghost predicate SearchFindings(api: SteamApi, search: seq<string>, d: seq<Listing>) {
    && DistinctIds(d)
    && (forall k :: 0 <= k < |d| ==> d[k].deal.Discount? && InDiscountRange(Percent(d[k])))
    && (forall k :: 0 <= k < |d| ==> FromSearchDiscount(api, search, d[k]))
    && (forall i :: 0 <= i < |search| && SearchDiscount(api, search[i]) ==> search[i] in Ids(d))
  }

  /** What both discovery loops promise of what they found. */
  ghost predicate DiscountFindings(api: SteamApi, search: seq<string>, featured: seq<FeaturedItem>, d: seq<Listing>) {
    && DistinctIds(d)
    && (forall k :: 0 <= k < |d| ==> d[k].deal.Discount? && InDiscountRange(Percent(d[k])))
    && (forall k :: 0 <= k < |d| ==> FromSearchDiscount(api, search, d[k]) || FromFeaturedDiscount(api, search, featured, d[k]))
    && (forall i :: 0 <= i < |search| && SearchDiscount(api, search[i]) ==> search[i] in Ids(d))
    && (forall i :: 0 <= i < |featured| && FeaturedDiscount(featured[i]) ==> Key(featured[i]) in Ids(d))
  }

  /** A listing found from a prefix of the search is found from the whole search. */
  lemma FromSearchPrefix(api: SteamApi, search: seq<string>, n: nat, l: Listing)
    requires n <= |search| && FromSearchDiscount(api, search[..n], l)
    ensures FromSearchDiscount(api, search, l)
  {
    var i :| FirstSearchDiscount(api, search[..n], i)
             && l == SearchDiscountListing(search[..n][i], GameDetails(api, search[..n][i]).value);
    forall j | 0 <= j < i ensures search[j] != search[i] {
      assert search[..n][j] == search[j];
    }
    assert FirstSearchDiscount(api, search, i);
  }

  /** A listing found from a prefix of the featured feed is found from the whole feed. */
  lemma FromFeaturedPrefix(api: SteamApi, search: seq<string>, featured: seq<FeaturedItem>, n: nat, l: Listing)
    requires n <= |featured| && FromFeaturedDiscount(api, search, featured[..n], l)
    ensures FromFeaturedDiscount(api, search, featured, l)
  {
    var i :| FirstFeaturedDiscount(api, search, featured[..n], i) && l == FeaturedDiscountListing(featured[..n][i]);
    forall j | 0 <= j < i && FeaturedDiscount(featured[j]) ensures Key(featured[j]) != Key(featured[i]) {
      assert featured[..n][j] == featured[j];
    }
    assert FirstFeaturedDiscount(api, search, featured, i);
  }

  /** The search loop's promises, about its reference definition. */
  lemma {:induction false} SearchDiscoveriesSpec(api: SteamApi, search: seq<string>)
    ensures SearchFindings(api, search, SearchDiscoveries(api, search))
    decreases |search|
  {
    if search != [] {
      SearchDiscoveriesSpec(api, search[..|search| - 1]);
      SearchFindingsStep(api, search);
    }
  }

  /** Visiting one more searched id keeps the search loop's promises. */
  lemma SearchFindingsStep(api: SteamApi, search: seq<string>)
    requires search != []
    requires SearchFindings(api, search[..|search| - 1], SearchDiscoveries(api, search[..|search| - 1]))
    ensures SearchFindings(api, search, SearchDiscoveries(api, search))
  {
    var n := |search|;
    var found := SearchDiscoveries(api, search[..n - 1]);
    var id := search[n - 1];
    SearchFindingsPrefix(api, search, found);
    if id !in Ids(found) && SearchDiscount(api, id) {
      SearchFindingsAppend(api, search, found);
    }
  }

  /** What was found in all but the last searched id keeps its promises about the whole search. */
  lemma SearchFindingsPrefix(api: SteamApi, search: seq<string>, found: seq<Listing>)
    requires search != [] && SearchFindings(api, search[..|search| - 1], found)
    ensures forall k :: 0 <= k < |found| ==> FromSearchDiscount(api, search, found[k])
    ensures forall i :: 0 <= i < |search| - 1 && SearchDiscount(api, search[i]) ==> search[i] in Ids(found)
  {
    var n := |search|;
    var pre := search[..n - 1];
    forall k | 0 <= k < |found| ensures FromSearchDiscount(api, search, found[k]) {
      FromSearchPrefix(api, search, n - 1, found[k]);
    }
    forall i | 0 <= i < n - 1 && SearchDiscount(api, search[i]) ensures search[i] in Ids(found) {
      assert pre[i] == search[i];
    }
  }

  /** A searched id that qualifies and is new extends what was found with its listing. */
  lemma SearchFindingsAppend(api: SteamApi, search: seq<string>, found: seq<Listing>)
    requires search != [] && DistinctIds(found)
    requires forall k :: 0 <= k < |found| ==> found[k].deal.Discount? && InDiscountRange(Percent(found[k]))
    requires forall k :: 0 <= k < |found| ==> FromSearchDiscount(api, search, found[k])
    requires forall i :: 0 <= i < |search| - 1 && SearchDiscount(api, search[i]) ==> search[i] in Ids(found)
    requires search[|search| - 1] !in Ids(found) && SearchDiscount(api, search[|search| - 1])
    ensures var id := search[|search| - 1];
            SearchFindings(api, search, found + [SearchDiscountListing(id, GameDetails(api, id).value)])
  {
    var n := |search|;
    var id := search[n - 1];
    var l := SearchDiscountListing(id, GameDetails(api, id).value);
    assert FirstSearchDiscount(api, search, n - 1);
    DistinctIdsAppend(found, l);
    var d := found + [l];
    forall k | 0 <= k < |d|
      ensures FromSearchDiscount(api, search, d[k]) && d[k].deal.Discount? && InDiscountRange(Percent(d[k]))
    {
      if k < |found| { assert d[k] == found[k]; }
    }
  }

  /** The discovery loops' promises, about the reference definition. */
  lemma {:induction false} DiscoveredSpec(api: SteamApi, search: seq<string>, featured: seq<FeaturedItem>)
    ensures DiscountFindings(api, search, featured, Discovered(api, search, featured))
    decreases |featured|
  {
    if featured == [] {
      SearchDiscoveriesSpec(api, search);
    } else {
      DiscoveredSpec(api, search, featured[..|featured| - 1]);
      DiscountFindingsStep(api, search, featured);
    }
  }

  /** Visiting one more featured entry keeps the discovery loops' promises. */
  lemma DiscountFindingsStep(api: SteamApi, search: seq<string>, featured: seq<FeaturedItem>)
    requires featured != []
    requires DiscountFindings(api, search, featured[..|featured| - 1], Discovered(api, search, featured[..|featured| - 1]))
    ensures DiscountFindings(api, search, featured, Discovered(api, search, featured))
  {
    var n := |featured|;
    var before := Discovered(api, search, featured[..n - 1]);
    var g := featured[n - 1];
    DiscountFindingsPrefix(api, search, featured, before);
    if FeaturedDiscount(g) && Key(g) !in Ids(before) {
      DiscountFindingsAppend(api, search, featured, before);
    }
  }

  /** What was found before the last featured entry keeps its promises about the whole feed. */
  lemma DiscountFindingsPrefix(api: SteamApi, search: seq<string>, featured: seq<FeaturedItem>, before: seq<Listing>)
    requires featured != [] && DiscountFindings(api, search, featured[..|featured| - 1], before)
    ensures forall k :: 0 <= k < |before| ==>
              FromSearchDiscount(api, search, before[k]) || FromFeaturedDiscount(api, search, featured, before[k])
    ensures forall i :: 0 <= i < |featured| - 1 && FeaturedDiscount(featured[i]) ==> Key(featured[i]) in Ids(before)
  {
    var n := |featured|;
    var pre := featured[..n - 1];
    forall k | 0 <= k < |before|
      ensures FromSearchDiscount(api, search, before[k]) || FromFeaturedDiscount(api, search, featured, before[k])
    {
      if !FromSearchDiscount(api, search, before[k]) {
        FromFeaturedPrefix(api, search, featured, n - 1, before[k]);
      }
    }
    forall i | 0 <= i < n - 1 && FeaturedDiscount(featured[i]) ensures Key(featured[i]) in Ids(before) {
      assert pre[i] == featured[i];
    }
  }

  /** A featured entry that qualifies with a new key extends what was found with its listing. */
  lemma DiscountFindingsAppend(api: SteamApi, search: seq<string>, featured: seq<FeaturedItem>, before: seq<Listing>)
    requires featured != [] && DistinctIds(before)
    requires forall k :: 0 <= k < |before| ==> before[k].deal.Discount? && InDiscountRange(Percent(before[k]))
    requires forall k :: 0 <= k < |before| ==>
               FromSearchDiscount(api, search, before[k]) || FromFeaturedDiscount(api, search, featured, before[k])
    requires forall i :: 0 <= i < |search| && SearchDiscount(api, search[i]) ==> search[i] in Ids(before)
    requires forall i :: 0 <= i < |featured| - 1 && FeaturedDiscount(featured[i]) ==> Key(featured[i]) in Ids(before)
    requires FeaturedDiscount(featured[|featured| - 1]) && Key(featured[|featured| - 1]) !in Ids(before)
    ensures DiscountFindings(api, search, featured, before + [FeaturedDiscountListing(featured[|featured| - 1])])
  {
    var n := |featured|;
    var l := FeaturedDiscountListing(featured[n - 1]);
    assert FirstFeaturedDiscount(api, search, featured, n - 1);
    DistinctIdsAppend(before, l);
    var d := before + [l];
    forall k | 0 <= k < |d|
      ensures FromSearchDiscount(api, search, d[k]) || FromFeaturedDiscount(api, search, featured, d[k])
      ensures d[k].deal.Discount? && InDiscountRange(Percent(d[k]))
    {
      if k < |before| { assert d[k] == before[k]; }
    }
  }

  /** Every first qualifying searched id and every first qualifying featured entry is discovered, as the listing
      made of it. */
  lemma CandidatesDiscovered(api: SteamApi, search: seq<string>, featured: seq<FeaturedItem>, discovered: seq<Listing>)
    requires DistinctIds(discovered)
    requires forall k :: 0 <= k < |discovered| ==>
               FromSearchDiscount(api, search, discovered[k]) || FromFeaturedDiscount(api, search, featured, discovered[k])
    requires forall i :: 0 <= i < |search| && SearchDiscount(api, search[i]) ==> search[i] in Ids(discovered)
    requires forall i :: 0 <= i < |featured| && FeaturedDiscount(featured[i]) ==> Key(featured[i]) in Ids(discovered)
    ensures forall i :: FirstSearchDiscount(api, search, i) ==>
              SearchDiscountListing(search[i], GameDetails(api, search[i]).value) in discovered
    ensures forall i :: FirstFeaturedDiscount(api, search, featured, i) ==> FeaturedDiscountListing(featured[i]) in discovered
  {
    forall i | FirstSearchDiscount(api, search, i)
      ensures SearchDiscountListing(search[i], GameDetails(api, search[i]).value) in discovered
    {
      var k :| 0 <= k < |discovered| && discovered[k].id == search[i];
      forall j | FirstFeaturedDiscount(api, search, featured, j) ensures FeaturedDiscountListing(featured[j]) != discovered[k] {
        assert Key(featured[j]) != search[i];
      }
      assert FromSearchDiscount(api, search, discovered[k]);
      var i' :| FirstSearchDiscount(api, search, i')
                && discovered[k] == SearchDiscountListing(search[i'], GameDetails(api, search[i']).value);
      assert i' == i;
    }
    forall i | FirstFeaturedDiscount(api, search, featured, i) ensures FeaturedDiscountListing(featured[i]) in discovered {
      var k :| 0 <= k < |discovered| && discovered[k].id == Key(featured[i]);
      forall j | FirstSearchDiscount(api, search, j)
        ensures SearchDiscountListing(search[j], GameDetails(api, search[j]).value) != discovered[k]
      {
        assert search[j] != Key(featured[i]);
      }
      assert FromFeaturedDiscount(api, search, featured, discovered[k]);
      var i' :| FirstFeaturedDiscount(api, search, featured, i') && discovered[k] == FeaturedDiscountListing(featured[i']);
      assert i' == i;
    }
  }

  /** The discovery part of `check_steam_discounts`: the searched ids in range, then the featured entries in
      range, each id once, in the order found. */
  method CollectDiscounts(api: SteamApi, search: seq<string>, featured: seq<FeaturedItem>)
    returns (discovered: seq<Listing>)
    ensures DistinctIds(discovered)
    ensures forall k :: 0 <= k < |discovered| ==> discovered[k].deal.Discount? && InDiscountRange(Percent(discovered[k]))
    ensures forall k :: 0 <= k < |discovered| ==>
              FromSearchDiscount(api, search, discovered[k]) || FromFeaturedDiscount(api, search, featured, discovered[k])
    ensures forall i :: 0 <= i < |search| && SearchDiscount(api, search[i]) ==> search[i] in Ids(discovered)
    ensures forall i :: 0 <= i < |featured| && FeaturedDiscount(featured[i]) ==> Key(featured[i]) in Ids(discovered)
    ensures discovered == Discovered(api, search, featured)
  {
    discovered := [];
    var foundIds: set<string> := {};
    for i := 0 to |search|
      invariant foundIds == Ids(discovered) && discovered == SearchDiscoveries(api, search[..i])
    {
      SearchDiscoveriesStep(api, search, i);
      var appId := search[i];
      if appId !in foundIds {
        var details := GameDetails(api, appId);
        if details.Some? {
          var discount := details.value.discountPercent;
          if discount >= MinDiscount && discount < 100 {
            var listing := SearchDiscountListing(appId, details.value);
            IdsAppend(discovered, listing);
            foundIds := foundIds + {appId};
            discovered := discovered + [listing];
          }
        }
      }
    }
    assert search[..|search|] == search;
    for i := 0 to |featured|
      invariant foundIds == Ids(discovered)
      invariant discovered == FeaturedDiscoveries(SearchDiscoveries(api, search), featured[..i])
    {
      FeaturedDiscoveriesStep(SearchDiscoveries(api, search), featured, i);
      var game := featured[i];
      var discount := game.discountPercent;
      if discount >= MinDiscount && discount < 100 {
        if HasId(game) && Key(game) !in foundIds {
          var listing := FeaturedDiscountListing(game);
          IdsAppend(discovered, listing);
          foundIds := foundIds + {listing.id};
          discovered := discovered + [listing];
        }
      }
    }
    assert featured[..|featured|] == featured;
    DiscoveredSpec(api, search, featured);
  }

  /**
   * `check_steam_discounts`. When the search request raises nothing is found; when the featured request raises,
   * what the search found is returned as discovered, without the sort, the title dedupe and the cap.
   */
  method CheckSteamDiscounts(api: SteamApi, searchIds: Option<seq<string>>, featured: Option<seq<FeaturedItem>>)
    returns (games: seq<Listing>)
    ensures searchIds.None? ==> games == []
    ensures DistinctIds(games)
    ensures forall k :: 0 <= k < |games| ==> games[k].deal.Discount? && InDiscountRange(Percent(games[k]))
    ensures forall k :: 0 <= k < |games| ==>
              var search := Take(searchIds.GetOr([]), DiscountSearchLimit);
              FromSearchDiscount(api, search, games[k])
              || FromFeaturedDiscount(api, search, featured.GetOr([]), games[k])
    ensures searchIds.Some? && featured.Some? ==>
              |games| <= MaxDiscounts && SortedByDiscount(games) && DistinctTitles(games)
    ensures searchIds.Some? && featured.Some? ==>
              var discovered := Discovered(api, Take(searchIds.value, DiscountSearchLimit), featured.value);
              && KeptAreBest(games, discovered) && CutRespected(games, discovered)
              && TiesInOrder(games, discovered) && CutTiesRespected(games, discovered)
    ensures searchIds.Some? && featured.Some? ==>
              var search := Take(searchIds.value, DiscountSearchLimit);
              && (forall i :: FirstSearchDiscount(api, search, i) ==>
                    TitleKeptOrCut(games, SearchDiscountListing(search[i], GameDetails(api, search[i]).value)))
              && (forall i :: FirstFeaturedDiscount(api, search, featured.value, i) ==>
                    TitleKeptOrCut(games, FeaturedDiscountListing(featured.value[i])))
    ensures searchIds.Some? && featured.None? ==>
              var search := Take(searchIds.value, DiscountSearchLimit);
              && games == Discovered(api, search, [])
              && forall i :: 0 <= i < |search| && SearchDiscount(api, search[i]) ==> search[i] in Ids(games)
  {
    if searchIds.None? {
      return [];
    }
    var search := Take(searchIds.value, DiscountSearchLimit);
    var discovered := CollectDiscounts(api, search, featured.GetOr([]));
    if featured.None? {
      games := discovered;
    } else {
      games := RankDiscounts(discovered);
      forall k | 0 <= k < |games|
        ensures games[k].deal.Discount? && InDiscountRange(Percent(games[k]))
        ensures FromSearchDiscount(api, search, games[k]) || FromFeaturedDiscount(api, search, featured.value, games[k])
        ensures games[k] in discovered
      {
        assert games[k] in discovered;
        var m :| 0 <= m < |discovered| && discovered[m] == games[k];
      }
      DistinctTitlesKeepIds(discovered, games);
      CandidatesDiscovered(api, search, featured.value, discovered);
    }
  }

  // ---------------------------------------------------------------------------------------------------------
  // check_epic_free_games

  /** One promotional offer; a missing `endDate` is `None`. */
  datatype EpicOffer = EpicOffer(endDate: Option<string>)

  /**
   * An element of the Epic promotions feed. `promotionalOffers` holds, per promotion group, its list of
   * offers, and is empty when `promotions` or its `promotionalOffers` is missing or empty; the prices are the
   * `totalPrice` fields with a missing one read as 0.
   */
  datatype EpicElement = EpicElement(id: string, title: Option<string>, promotionalOffers: seq<seq<EpicOffer>>,
                                     originalPrice: int, discountPrice: int)

  /** The element's current giveaway test: an offer in the first promotion group, a positive original price,
      and nothing to pay. */
  predicate EpicGiveaway(e: EpicElement) {
    && |e.promotionalOffers| > 0 && |e.promotionalOffers[0]| > 0
    && e.originalPrice > 0 && e.discountPrice == 0
  }

  /** The end date of the first offer of the first group, `""` when missing. */
  function EpicEndDate(e: EpicElement): string {
    if |e.promotionalOffers| > 0 && |e.promotionalOffers[0]| > 0
    then e.promotionalOffers[0][0].endDate.GetOr("")
    else ""
  }

  function EpicListing(e: EpicElement): Listing {
    Listing(e.id, e.title.GetOr(UnknownTitle), EpicFreeGamesUrl, Epic, Giveaway(Some(EpicEndDate(e))))
  }

  /** `check_epic_free_games`: one listing per element that passes `EpicGiveaway`, in feed order, with no dedupe.
      Without a feed (a raised request, or no `Catalog` in the answer) the result is empty. */
  method CheckEpicFreeGames(elements: Option<seq<EpicElement>>) returns (games: seq<Listing>)
    ensures elements.None? ==> games == []
    ensures var kept := Filter(elements.GetOr([]), EpicGiveaway);
            |games| == |kept| && forall k :: 0 <= k < |games| ==> games[k] == EpicListing(kept[k])
  {
    games := [];
    if elements.None? {
      return;
    }
    var es := elements.value;
    for i := 0 to |es|
      invariant var kept := Filter(es[..i], EpicGiveaway);
                |games| == |kept| && forall k :: 0 <= k < |games| ==> games[k] == EpicListing(kept[k])
    {
      var game := es[i];
      FilterSnoc(es[..i], game, EpicGiveaway);
      assert es[..i + 1] == es[..i] + [game];
      if |game.promotionalOffers| > 0 {
        var offers := game.promotionalOffers[0];
        if |offers| > 0 {
          if game.originalPrice > 0 && game.discountPrice == 0 {
            games := games + [EpicListing(game)];
          }
        }
      }
    }
    assert es[..|es|] == es;
  }

  /** The Epic selection keeps exactly the feed's giveaways. */
  lemma EpicSelectionIff(elements: seq<EpicElement>, e: EpicElement)
    ensures e in Filter(elements, EpicGiveaway) <==> e in elements && EpicGiveaway(e)
  {
    FilterMember(elements, EpicGiveaway, e);
  }
}
