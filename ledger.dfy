/**
 * The notified-games ledger (`notified_games.json`) and its retention rule (`clean_old_games`).
 * Timestamps are whole seconds; the current time is a parameter.
 */
module Ledger {
  import opened Common

  type Timestamp = int
  /** Notification key -> time of the first successful notification. */
  type Entries = map<string, Timestamp>
  /** Platform name (`"steam"`, `"epic"`) -> its entries, as the JSON file holds them. */
  type NotifiedGames = map<string, Entries>

  const SecondsPerDay: int := 24 * 60 * 60
  /** The retention window the poll loop uses. */
  const RetentionDays: int := 7
  /** The platforms `clean_old_games` walks, in its order. */
  const Platforms: seq<string> := ["steam", "epic"]

  /** `games_dict.get(platform, {})`. */
  function PlatformEntries(games: NotifiedGames, platform: string): Entries {
    if platform in games then games[platform] else map[]
  }

  /** The entries whose age at `now` is strictly below `maxAge`. */
  function Recent(entries: Entries, now: Timestamp, maxAge: int): Entries {
    map k | k in entries && now - entries[k] < maxAge :: entries[k]
  }

  /** The ledger `clean_old_games(games, days)` returns at time `now`. */
  function Cleaned(games: NotifiedGames, now: Timestamp, days: int): NotifiedGames {
    map p | p in Platforms :: Recent(PlatformEntries(games, p), now, days * SecondsPerDay)
  }

  /** The inner loop of `clean_old_games` for one platform. */
  method RetainRecent(entries: Entries, now: Timestamp, maxAge: int) returns (kept: Entries, removed: nat)
    ensures kept == Recent(entries, now, maxAge)
    ensures removed + |kept| == |entries|
  {
    kept, removed := map[], 0;
    var todo := entries.Keys;
    while todo != {}
      invariant todo <= entries.Keys
      invariant kept == map k | k in entries && k !in todo && now - entries[k] < maxAge :: entries[k]
      invariant removed + |kept| + |todo| == |entries.Keys|
      decreases |todo|
    {
      var k :| k in todo;
      if now - entries[k] < maxAge {
        kept := kept[k := entries[k]];
      } else {
        removed := removed + 1;
      }
      todo := todo - {k};
    }
    assert |entries.Keys| == |entries|;
  }

  /** Platform `p` has been processed: its kept entries and its removal count are final. */
  ghost predicate PlatformDone(cleaned: NotifiedGames, removedCount: map<string, nat>, games: NotifiedGames,
                               now: Timestamp, maxAge: int, p: string)
  {
    && p in cleaned && p in removedCount
    && cleaned[p] == Recent(PlatformEntries(games, p), now, maxAge)
    && removedCount[p] + |cleaned[p]| == |PlatformEntries(games, p)|
  }

  /** `clean_old_games`: keep, per platform, the entries younger than `days` days; count the rest. */
  method CleanOldGames(games: NotifiedGames, now: Timestamp, days: int) returns (cleaned: NotifiedGames, removedCount: map<string, nat>)
    ensures cleaned == Cleaned(games, now, days)
    ensures cleaned.Keys == {"steam", "epic"} && removedCount.Keys == {"steam", "epic"}
    ensures forall p :: p in removedCount ==> removedCount[p] + |cleaned[p]| == |PlatformEntries(games, p)|
  {
    var maxAge := days * SecondsPerDay;
    cleaned := map["steam" := map[], "epic" := map[]];
    removedCount := map["steam" := 0, "epic" := 0];
    for i := 0 to |Platforms|
      invariant cleaned.Keys == {"steam", "epic"} && removedCount.Keys == {"steam", "epic"}
      invariant forall j :: 0 <= j < i ==> PlatformDone(cleaned, removedCount, games, now, maxAge, Platforms[j])
    {
      var platform := Platforms[i];
      var kept, removed := RetainRecent(PlatformEntries(games, platform), now, maxAge);
      cleaned := cleaned[platform := kept];
      removedCount := removedCount[platform := removed];
      assert PlatformDone(cleaned, removedCount, games, now, maxAge, platform);
    }
    BothPlatformsDone(cleaned, removedCount, games, now, days);
  }

  /** Once both platforms are processed, the loop's maps are the cleaned ledger and its removal counts. */
  lemma BothPlatformsDone(cleaned: NotifiedGames, removedCount: map<string, nat>, games: NotifiedGames,
                          now: Timestamp, days: int)
    requires cleaned.Keys == {"steam", "epic"} && removedCount.Keys == {"steam", "epic"}
    requires forall j :: 0 <= j < |Platforms| ==> PlatformDone(cleaned, removedCount, games, now, days * SecondsPerDay, Platforms[j])
    ensures cleaned == Cleaned(games, now, days)
    ensures forall p :: p in removedCount ==> removedCount[p] + |cleaned[p]| == |PlatformEntries(games, p)|
  {
    assert PlatformDone(cleaned, removedCount, games, now, days * SecondsPerDay, Platforms[0]);
    assert PlatformDone(cleaned, removedCount, games, now, days * SecondsPerDay, Platforms[1]);
    assert Platforms[0] == "steam" && Platforms[1] == "epic";
  }

  /** Retention is strict: an entry is kept exactly when its age is below the window, and keeps its timestamp. */
  lemma CleanedKeepsIff(games: NotifiedGames, now: Timestamp, days: int, p: string, k: string)
    requires p in Platforms
    ensures k in Cleaned(games, now, days)[p] <==>
              k in PlatformEntries(games, p) && now - PlatformEntries(games, p)[k] < days * SecondsPerDay
    ensures k in Cleaned(games, now, days)[p] ==> Cleaned(games, now, days)[p][k] == PlatformEntries(games, p)[k]
  {
  }

  /** An entry exactly `days` days old is removed. */
  lemma CleanedDropsAtWindow(games: NotifiedGames, now: Timestamp, days: int, p: string, k: string)
    requires p in Platforms && k in PlatformEntries(games, p)
    requires now - PlatformEntries(games, p)[k] == days * SecondsPerDay
    ensures k !in Cleaned(games, now, days)[p]
  {
  }

  /** Cleaning twice at the same time changes nothing more. */
  lemma {:induction false} CleanedIdempotent(games: NotifiedGames, now: Timestamp, days: int)
    ensures Cleaned(Cleaned(games, now, days), now, days) == Cleaned(games, now, days)
  {
    var once := Cleaned(games, now, days);
    forall p | p in Platforms
      ensures Recent(PlatformEntries(once, p), now, days * SecondsPerDay) == once[p]
    {
      assert PlatformEntries(once, p) == once[p];
    }
  }

  /** Each platform is cleaned on its own: the other platform's entries do not influence it. */
  lemma CleanedPerPlatform(g1: NotifiedGames, g2: NotifiedGames, now: Timestamp, days: int, p: string)
    requires p in Platforms && PlatformEntries(g1, p) == PlatformEntries(g2, p)
    ensures Cleaned(g1, now, days)[p] == Cleaned(g2, now, days)[p]
  {
  }

  /** Cleaning later never keeps more. */
  lemma CleanedShrinksOverTime(games: NotifiedGames, now: Timestamp, later: Timestamp, days: int, p: string)
    requires now <= later && p in Platforms
    ensures Cleaned(games, later, days)[p].Keys <= Cleaned(games, now, days)[p].Keys
  {
  }
}
