# Free-games notifier bot: a Dafny model of its notification pipeline

The bot polls two storefronts (Steam and the Epic Games Store) for games that are free for a limited
time or discounted by 90% or more, and messages every subscribed Telegram chat about each listing it
has not announced yet. This project models the logic of that pipeline in `STEAMbot.py`, and proves
what each step promises:

- **Subscriber store** (`subscribers.dfy`, module `Subscribers`). The list of subscribed chat ids and
  the per-chat settings records (`notify_free`, `notify_discounts`, `language`) are the two fields of
  the class `SubscriberStore`. Each of `add_user`, `remove_user`, `init_user_settings`,
  `remove_user_settings` and `update_user_setting` is a method that changes those fields.
  `get_user_setting` is a function.
- **Ledger retention** (`ledger.dfy`, module `Ledger`). The notified-games ledger maps a platform to
  notification keys and their first-notification times. `clean_old_games` keeps, per platform, the
  entries younger than the window.
- **Listing selection** (`listings.dfy`, `ranking.dfy`, `storefronts.dfy`). The selection loops of
  `check_steam_free_games`, `check_steam_discounts` and `check_epic_free_games` run over feeds that
  were already fetched. The app-details lookups (`is_game_free_to_play`, `get_game_details`) are oracle
  functions. The price fields of `get_game_details` convert cents to whole units. The discount check
  ends with a stable sort by discount, a dedupe that keeps the first listing of each title, and a cap
  at ten.
- **Fan-out** (`fanout.dfy`, module `FanOut`). `send_notification_to_all` and `broadcast_message`
  make one attempt per subscriber, skipping those whose preferences exclude the notice. The outcome
  of each send is an oracle `Ok | Blocked | OtherError`. Subscribers that blocked the bot are removed
  after the loop.
- **Ledger step** (`games_checker.dfy`, module `GamesChecker`). Per `games_checker` round, each
  listing whose key is missing is announced. The key is recorded only when the announcement reached
  somebody. Then retention is applied.

The JSON files become in-memory state. Every HTTP request and every Telegram call becomes an input or
an oracle, and the current time becomes an integer parameter.

Behaviours of the code that the model keeps as written:

- The code sorts by discount *before* it drops repeated titles. So the listing kept for a title is
  the first one, in discovery order, among that title's listings with the highest discount. The sort
  is stable, so listings with the same discount stay in discovery order.
- Retention keeps an entry when its age is strictly below `days * 86400`. An entry exactly as old as
  the window is removed.
- When the featured-categories request of `check_steam_discounts` raises, the function returns the
  search results as discovered: unsorted, with repeated titles kept and no cap. When the search
  request raises, nothing is found at all.
- When the featured request of `check_steam_free_games` raises, the search is skipped as well, and
  the result is empty.
- `check_epic_free_games` does not dedupe by id, so one pass may see the same key twice. The second
  occurrence is announced only when the first one reached nobody.
- Retention runs at start-up and at the end of each round, not after each notification batch.

## Model

| member | source | states |
|---|---|---|
| `Subscribers.SubscriberStore.constructor` | STEAMbot.py:73-78 | With no files yet, there are no subscribers and no settings records. |
| `Subscribers.SubscriberStore.AddUser` | STEAMbot.py:87-95 | Answers true exactly when the id was not subscribed. A new id is appended once and the list stays duplicate-free. A new subscriber without a record gets the default record, and an existing record is never overwritten. |
| `Subscribers.SubscriberStore.RemoveUser` | STEAMbot.py:98-106 | Answers true exactly when the id was subscribed. Afterwards the id is in neither the list nor the settings. Every other id keeps its membership, and the list is the old one with that single occurrence cut out, so the order is kept. Other records are untouched, and nothing changes when the id was absent. |
| `Subscribers.SubscriberStore.InitUserSettings` | STEAMbot.py:127-136 | Gives the id the default record only when it has none. An existing record and all other records stay as they were. |
| `Subscribers.SubscriberStore.RemoveUserSettings` | STEAMbot.py:139-144 | Exactly the id's record is dropped, if present. |
| `Subscribers.SubscriberStore.UpdateUserSetting` | STEAMbot.py:154-162 | Afterwards reading `key` for the id yields `value` whatever the default. The id has a record (the default one first when it had none) with only `key` changed. No other user's record changes. |
| `Subscribers.GetUserSetting` | STEAMbot.py:147-151 | Reads the stored value when the user's record holds the key, and the supplied default when there is no record or the record lacks the key. |
| `Subscribers.MissingRecordGivesDefault` | STEAMbot.py:147-151 | A user with no record reads the supplied default for every key. |
| `Subscribers.DefaultRecordValues` | STEAMbot.py:131-135 | The default record reads notify_free true, notify_discounts false and language "ru". |
| `Ledger.RetainRecent` | STEAMbot.py:192-197 | One platform's loop keeps exactly the entries younger than the window, and the kept and removed counts add up to the number of entries. |
| `Ledger.CleanOldGames` | STEAMbot.py:183-203 | The result is the cleaned ledger. It has exactly the keys steam and epic, and for each platform the removed count plus the kept entries equals its former size. |
| `Ledger.CleanedKeepsIff` | STEAMbot.py:192-195 | An entry survives exactly when its age is strictly below days*86400, and it keeps its timestamp. So cleaning never adds or alters an entry. |
| `Ledger.CleanedDropsAtWindow` | STEAMbot.py:193-197 | An entry whose age equals the window exactly is removed. |
| `Ledger.CleanedIdempotent` | STEAMbot.py:183-203 | Cleaning the cleaned ledger again at the same time changes nothing. |
| `Ledger.CleanedPerPlatform` | STEAMbot.py:191-195 | Each platform's result depends only on that platform's own entries. |
| `Ledger.CleanedShrinksOverTime` | STEAMbot.py:193-194 | Cleaning at a later time keeps a subset of the keys. |
| `Listings.CentsToUnits` | STEAMbot.py:249-250 | The unit price is the floor of cents/100: units*100 <= cents < units*100+100. |
| `Listings.GetGameDetails` | STEAMbot.py:226-262 | Answers details exactly when the app-details request succeeded. The name defaults to "Неизвестно". Prices are the chosen price object's cents floor-divided by 100, or 0 with currency RUB when there is none. The US price is used only for a non-free app without a price. A free app without a price costs 0. |
| `Ranking.SortByDiscountCorrect` | STEAMbot.py:418 | The sort returns a permutation of its input, ordered by discount from highest to lowest. |
| `Ranking.SortStable` | STEAMbot.py:418 | Python's sort is stable: two listings with the same discount come out in the order they were discovered. |
| `Ranking.SortDistinctIds` | STEAMbot.py:418 | Sorting keeps ids distinct. |
| `Ranking.SortFirstWithTitle` | STEAMbot.py:418-425 | Stability: after the sort, the first listing of a title is the first, in discovery order, among that title's listings with the highest discount. |
| `Ranking.BestWithTitleSpec` | STEAMbot.py:418-425 | That choice is empty exactly when no listing has the title. Otherwise it is a listing of that title whose discount no other listing of the title beats, and every earlier listing of the title has a strictly lower discount. |
| `Ranking.DedupeByTitle` | STEAMbot.py:420-426 | The kept listings have distinct titles. Each is the first listing of its title. Every title of the input is represented, and the kept listings keep their input order. |
| `Ranking.OrderedInSorted` | STEAMbot.py:418-426 | Keeping listings of a sorted list in their order leaves them sorted. |
| `Ranking.CapPrefix` | STEAMbot.py:427 | The cut to the first ten keeps the list sorted, with distinct titles. |
| `Ranking.RankDiscounts` | STEAMbot.py:418-427 | At most ten listings, sorted by discount, with distinct titles. Each kept listing was discovered and is its title's best. Every discovered title is kept unless ten listings with an equal or higher discount were kept. Kept listings with the same discount are in discovery order. Distinct discovered ids stay distinct, and then a dropped title whose discount equals a kept listing's was discovered after that listing. |
| `Storefronts.FreeToPlay` | STEAMbot.py:210-223 | False when the app-details request fails; otherwise the response's `is_free` flag. |
| `Storefronts.CheckSteamFreeGames` | STEAMbot.py:265-329 | Ids are distinct. Every result comes from a featured entry at 100% off with an id that is not free-to-play, or from one of the first ten searched ids with a positive original price, each id once. Every such entry and id is found. When the featured request raises, the result is empty. |
| `Storefronts.CollectDiscounts` | STEAMbot.py:365-416 | Every discovered listing is a discount in [90, 100). Ids are distinct. Each listing comes from the first qualifying occurrence of its id, the search before the featured feed. Every qualifying searched id and featured entry is found. The result is the reference list `Discovered` of the two loops. |
| `Storefronts.SearchDiscoveriesSpec` | STEAMbot.py:365-383 | What the search loop finds has distinct ids and discounts in [90, 100). Each listing comes from the first occurrence of its id, and every searched id with details and a discount in range is found. |
| `Storefronts.DiscoveredSpec` | STEAMbot.py:365-416 | The same for both loops together: each listing comes from the first qualifying searched id, or from the first qualifying featured entry with a key the search did not claim. Every qualifying id and entry is found. |
| `Storefronts.CandidatesDiscovered` | STEAMbot.py:365-416 | Every first qualifying searched id, and every first qualifying featured entry, is found as exactly the listing made from it. |
| `Storefronts.CheckSteamDiscounts` | STEAMbot.py:332-434 | Every result is a discount in [90, 100) that traces back to a qualifying searched or featured entry, and ids are distinct. With both feeds: at most ten results, sorted by discount, with distinct titles. Each result is its title's best among the discovered listings, and results with equal discounts are in discovery order. Every listing made from a qualifying searched id or featured entry has its title kept, unless ten results with an equal or higher discount were kept, and on a tie at the cut the dropped one was discovered later. When the featured request raises, the result is exactly what the search found, and every qualifying searched id is in it. When the search raises, the result is empty. |
| `Storefronts.CheckEpicFreeGames` | STEAMbot.py:441-496 | The result is, in feed order, one listing per element with an offer in its first promotion group, a positive original price and a zero discount price. It is empty without a feed. |
| `Storefronts.EpicSelectionIff` | STEAMbot.py:470-478 | An element is selected exactly when it is in the feed and passes the giveaway test. |
| `FanOut.DefaultPreferences` | STEAMbot.py:685-688 | A subscriber without a stored preference gets free-game notices and no discount notices. |
| `FanOut.OptedOut` | STEAMbot.py:685-688 | A subscriber whose stored notify_free (notify_discounts) is falsy gets no free-game (discount) notice. |
| `FanOut.DeliveryPass` | STEAMbot.py:684-703 | The recipients are exactly the admitted subscribers, in list order. The success count is the number of recipients whose send succeeded. The blocked list is the recipients whose send was refused as blocked. |
| `FanOut.PruneBlocked` | STEAMbot.py:704-707 | Removal after the loop drops exactly the collected subscribers, keeping the others' order, and deletes exactly their settings records. |
| `FanOut.SendNotificationToAll` | STEAMbot.py:676-710 | A message goes to exactly the subscribers whose preference admits the notice type. The answer is true exactly when some send succeeded. Exactly the recipients that blocked the bot lose their subscription and settings. Everyone else, including recipients with other errors, stays. |
| `FanOut.BroadcastMessage` | STEAMbot.py:584-611 | Every subscriber gets one attempt. The answer is exactly the number of successful sends. Exactly the subscribers that blocked the bot are removed, with their settings. |
| `FanOut.BroadcastCountBounds` | STEAMbot.py:610-611 | The success count is at most the number of subscribers, and equals it exactly when every send succeeds. |
| `GamesChecker.DiscountKeysInjective` | STEAMbot.py:798 | Two listings with the same discount key have the same id. |
| `GamesChecker.FreeAndDiscountKeysDiffer` | STEAMbot.py:780-799 | The giveaway key of an id not starting with 'd' never equals a discount key, so one Steam app can be recorded both as a giveaway and as a discount. |
| `GamesChecker.DecimalIdsAreNotDiscountKeys` | STEAMbot.py:294 | Steam ids of the featured feed, being decimal numerals, meet the condition above. |
| `GamesChecker.NumeralIdsAreNotDiscountKeys` | STEAMbot.py:312 | Ids scraped from the search page, being non-empty runs of digits, meet it too. |
| `GamesChecker.NotifyListing` | STEAMbot.py:780-783 | One listing of a pass: it is announced exactly when its key is missing from the entries. The announcement is one fan-out from the store as it stands, with that fan-out's recipients, answer and pruning. The key is recorded with the time read then exactly when the fan-out reached somebody. A listing already recorded sends nothing and leaves the store unchanged. |
| `GamesChecker.NotifyNew` | STEAMbot.py:779-802 | Listings are announced in order, and only when their key is missing from the platform's entries and was not recorded earlier in the pass. The entries gain exactly the keys of the successful announcements, stamped with the time read then. Old entries and other platforms are unchanged. A listing is announced exactly when its key is in neither the old entries nor a key that an earlier announcement of the pass recorded. A listing left unrecorded was tried and reached nobody. When every key is present already, nothing is sent and nothing changes. Each announcement is one call of `send_notification_to_all` on the store as the previous one left it. Its recipients are the subscribers who then want the notice, it succeeds exactly when one of their sends is Ok, and it drops those who blocked the bot. The store after the pass is the one the last call left. Nobody is added to the store, and when no send is refused the store is unchanged. When every send succeeds and the notice had recipients at the start, every listing's key ends up recorded. |
| `GamesChecker.AttemptedExactly` | STEAMbot.py:779-802 | At the end of a pass, a listing was announced if and only if its key was missing from the old entries and no earlier successful announcement of the pass recorded it. |
| `GamesChecker.AllDeliveredAllRecorded` | STEAMbot.py:779-802 | When every announcement of a pass reached somebody, all the pass's keys are recorded, so repeating the pass sends nothing. |
| `GamesChecker.StoreStaysWhenAllSent` | STEAMbot.py:676-710 | When no send is refused, no fan-out of a pass removes anybody, so each fan-out sees the store as the pass started with it. |
| `GamesChecker.StoreShrinks` | STEAMbot.py:704-707 | Along a pass the store only loses subscribers and their settings; nobody is added. |
| `GamesChecker.AllSentDelivered` | STEAMbot.py:684-710 | When every send succeeds and the notice has recipients at the start of the pass, every fan-out of the pass reaches somebody. |
| `GamesChecker.AllSentAllRecorded` | STEAMbot.py:779-802 | When every send succeeds and the notice has recipients at the start of the pass, every listing's key is recorded at the end of the pass. |
| `GamesChecker.RoundEntries` | STEAMbot.py:777-805 | After the three passes and retention: every entry is younger than seven days, every old entry still within the window is kept with its timestamp, and every other entry is a key added by a pass of that platform. |
| `GamesChecker.SteamFreeBlock` | STEAMbot.py:776-783 | The Steam giveaways of a round are exactly those `check_steam_free_games` selects: none when the featured feed raised, otherwise one listing per giveaway id of the featured feed or the capped search, each id once. The pass keeps every old steam entry, adds only their giveaway keys, leaves epic alone, only drops subscribers, and changes no subscriber when no send is refused. |
| `GamesChecker.EpicFreeBlock` | STEAMbot.py:785-792 | The Epic giveaways of a round are one listing per element of the feed that is a current giveaway, in feed order. The pass keeps every old epic entry, adds only their keys, leaves steam alone, only drops subscribers, and changes no subscriber when no send is refused. |
| `GamesChecker.DiscountBlock` | STEAMbot.py:794-802 | The Steam discounts of a round are exactly those `check_steam_discounts` selects: none when the search raised; when both feeds answered, at most ten, sorted by discount, one per title, the best-ranked of the discoveries with ties kept in discovery order; when only the search answered, every discovery of the search. The pass keeps every old steam entry, adds only `discount_` keys of these listings, leaves epic alone, only drops subscribers, and changes no subscriber when no send is refused. |
| `GamesChecker.CheckerRound` | STEAMbot.py:776-805 | After a round, the ledger has exactly the platforms steam and epic, and every entry is younger than seven days. Every old entry still within the window is kept with its timestamp. Every other steam entry is the giveaway key of a Steam giveaway or the discount key of a discount of this round. Every other epic entry is the key of an Epic giveaway of this round. The three lists are exactly what the checks select from the round's feeds, with the completeness conditions stated for `SteamFreeBlock` and `DiscountBlock`. The round only drops subscribers, and when no send of the round is refused the store is unchanged. |

## Left out

- HTTP requests, the regular-expression scraping of search pages and JSON parsing. The fetched feeds are
  inputs (a raised request is `None`; a non-200 answer is an empty feed), and the app-details answers
  are oracle functions of `SteamApi`. The one exception is the search of `check_steam_free_games`: a raised
  search is given as an empty list of ids. That gives the same result: after the exception the code returns
  the giveaways already found in the featured feed (STEAMbot.py:326-329), and an empty search adds none.
- Listings.GetGameDetails: an exception raised by the fallback price request is not modelled. The
  fallback is either a price object or `None`, and `None` gives zero prices. On such an exception the
  code answers no details at all. Malformed JSON shapes, which raise in the code, are likewise outside
  the model.
- The release date, developer, publisher, genres and image of `get_game_details`, and the description
  and image of Epic listings. They only feed the message text.
- Loading and saving the JSON files. The files are in-memory state, and each save is implicit in the
  change of state.
- The settings file keys records by `str(chat_id)`; the model keys them by the integer itself. `str` is
  injective on integers, so no two ids share a key.
- Telegram: `send_message`, the command handlers, the application builder and the message text built by
  `format_game_message` and `format_epic_end_date`. A send is an outcome value. The classification of
  an error as "blocked" by the words "Forbidden" or "blocked" is the `Blocked` outcome.
- `time.time()` floats. Times are integer seconds, given as a clock function per pass and a `now`
  parameter for retention.
- The asyncio scheduling: the start-up delay, the throttle sleeps, the interval slicing, the shutdown
  flag, the signal handlers, the 60-second cooldown after an exception, and the concurrency between
  command handlers and the checker.
- The start-up cleaning before the first round. It is the same `clean_old_games` call that ends every round.
- `.env` loading, the token checks and the path probing at start-up.
- All console logging.
- `game_type` values other than `'free'` and `'discount'`. The code never passes any other.
- GamesChecker.CheckerRound: it requires the ledger to hold both platforms, as every ledger after
  `load_notified_games` or `clean_old_games` does. It does not restate, for the round, the per-pass
  attempt order and delivery facts that `NotifyNew` proves. For the store after the round it states only
  that nobody was added and that nothing changed when no send was refused, not which subscribers the
  three passes removed; that is stated per pass by `NotifyNew`.
- Storefronts.SteamApi: its app-details answers are fixed functions of the app id, so answers are
  assumed stable within a round. A repeated id gets the same answer each time, and the giveaway and
  discount checks see the same answers. The "first qualifying occurrence" statements rely on this.
- Storefronts.CheckSteamDiscounts: the searched ids are taken as given. That they are digit runs, as
  the scraping regular expression yields, is stated separately by
  `GamesChecker.NumeralIdsAreNotDiscountKeys`, not carried through the model.
- Storefronts.CollectDiscounts: the featured feed's categories are given already concatenated in
  the order the code visits them. The dict-or-list shape of a category is not modelled.
