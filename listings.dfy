/**
 * What the storefront clients hand on: listings, and the price fields `get_game_details` extracts from a
 * store response. Responses are inputs; the HTTP requests and the JSON parsing are not part of this model.
 */
module Listings {
  import opened Common

  datatype Platform = Steam | Epic

  /** The kind-specific part of a listing. Prices are whole currency units. */
  datatype Deal =
    | Giveaway(endDate: Option<string>)
    | Discount(percent: int, originalPrice: int, finalPrice: int, currency: string)

  datatype Listing = Listing(id: string, title: string, url: string, platform: Platform, deal: Deal)

  /** The discount percent of a listing (0 for giveaways). */
  function Percent(l: Listing): int {
    if l.deal.Discount? then l.deal.percent else 0
  }

  /** The title used when a response has none. */
  const UnknownTitle: string := "Неизвестно"
  const SteamAppUrl: string := "https://store.steampowered.com/app/"
  const EpicFreeGamesUrl: string := "https://store.epicgames.com/ru/free-games"
  const DefaultCurrency: string := "RUB"

  /** Python's `cents // 100`. For a positive divisor Dafny's Euclidean `/` and Python's floor division agree. */
  function CentsToUnits(cents: int): (units: int)
    ensures units * 100 <= cents < units * 100 + 100
  {
    cents / 100
  }

  /** Python's `str(n)` for an integer. */
  function IntToDecimal(n: int): (s: string)
    ensures |s| >= 1
  {
    if n < 0 then "-" + NatToDecimal(-n) else NatToDecimal(n)
  }

  function NatToDecimal(n: nat): (s: string)
    ensures |s| >= 1 && forall i :: 0 <= i < |s| ==> '0' <= s[i] <= '9'
  {
    if n < 10 then ["0123456789"[n]] else NatToDecimal(n / 10) + ["0123456789"[n % 10]]
  }

  /** A store `price_overview` object; a field that is absent is `None`. Amounts are in cents. */
  datatype PriceOverview = PriceOverview(final: Option<int>, initial: Option<int>, discountPercent: Option<int>, currency: Option<string>)

  /** The `data` object of a successful app-details response. `priceOverview` is `None` when the object
      is absent or empty (both are falsy in Python); a missing `is_free` is `false`. */
  datatype AppData = AppData(name: Option<string>, isFree: bool, priceOverview: Option<PriceOverview>)

  /** The fields of `get_game_details`'s result that the selection logic reads. */
  datatype Details = Details(name: string, isFree: bool, finalPrice: int, originalPrice: int, discountPercent: int, currency: string)

  /** The price object `get_game_details` ends up with: the first response's, or, when that has none and the
      app is not free, the one of the second (US) request. */
  function ChosenPrice(data: AppData, fallback: Option<PriceOverview>): Option<PriceOverview> {
    if data.priceOverview.None? && !data.isFree then fallback else data.priceOverview
  }

  /**
   * `get_game_details`. `response` is the `data` object of the first request, `None` when that request did not
   * succeed; `fallback` is the price object of the second request, `None` when it failed or had none.
   */
  function GetGameDetails(response: Option<AppData>, fallback: Option<PriceOverview>): (r: Option<Details>)
    ensures r.None? <==> response.None?
    ensures r.Some? ==> r.value.name == response.value.name.GetOr(UnknownTitle) && r.value.isFree == response.value.isFree
    ensures r.Some? && ChosenPrice(response.value, fallback).None? ==>
              r.value.finalPrice == 0 && r.value.originalPrice == 0 && r.value.discountPercent == 0
              && r.value.currency == DefaultCurrency
    ensures r.Some? && ChosenPrice(response.value, fallback).Some? ==>
              var po := ChosenPrice(response.value, fallback).value;
              && r.value.finalPrice * 100 <= po.final.GetOr(0) < r.value.finalPrice * 100 + 100
              && r.value.originalPrice * 100 <= po.initial.GetOr(0) < r.value.originalPrice * 100 + 100
              && r.value.discountPercent == po.discountPercent.GetOr(0)
              && r.value.currency == po.currency.GetOr(DefaultCurrency)
    ensures r.Some? && response.value.isFree && response.value.priceOverview.None? ==>
              r.value.finalPrice == 0 && r.value.originalPrice == 0
  {
    match response
    case None => None
    case Some(data) =>
      var price := ChosenPrice(data, fallback);
      Some(Details(
        data.name.GetOr(UnknownTitle),
        data.isFree,
        if price.Some? then CentsToUnits(price.value.final.GetOr(0)) else 0,
        if price.Some? then CentsToUnits(price.value.initial.GetOr(0)) else 0,
        if price.Some? then price.value.discountPercent.GetOr(0) else 0,
        if price.Some? then price.value.currency.GetOr(DefaultCurrency) else DefaultCurrency))
  }
}
