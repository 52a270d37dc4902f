/**
 * The body of the `games_checker` poll loop: for each kind of listing, notify the subscribers of every listing
 * whose key the ledger lacks and record the key once a notification got through; then apply retention.
 */
module GamesChecker {
  import opened Common
  import opened Subscribers
  import opened Listings
  import opened Ledger
  import opened Storefronts
  import opened Ranking
  import opened FanOut

  const DiscountKeyPrefix: string := "discount_"

  /** The ledger key of a listing: its id for a giveaway notice, the id behind `"discount_"` for a discount notice. */
  function NotificationKey(l: Listing, gameType: GameType): string {
    match gameType
    case FreeGame => l.id
    case DiscountGame => DiscountKeyPrefix + l.id
  }

  /** Discount keys of different listings differ. */
  lemma DiscountKeysInjective(a: Listing, b: Listing)
    requires NotificationKey(a, DiscountGame) == NotificationKey(b, DiscountGame)
    ensures a.id == b.id
  {
    assert a.id == NotificationKey(a, DiscountGame)[|DiscountKeyPrefix|..];
    assert b.id == NotificationKey(b, DiscountGame)[|DiscountKeyPrefix|..];
  }

  /** A free-game key never collides with a discount key when the id does not start with `d`, as is the case for
      Steam ids (decimal numerals), so one app can be recorded both as a giveaway and as a discount. */
  lemma FreeAndDiscountKeysDiffer(free: Listing, discount: Listing)
    requires free.id == "" || free.id[0] != 'd'
    ensures NotificationKey(free, FreeGame) != NotificationKey(discount, DiscountGame)
  {
    assert NotificationKey(discount, DiscountGame)[0] == 'd';
  }

  /** Steam ids as the featured feeds produce them are decimal numerals and so satisfy the condition above. */
  lemma DecimalIdsAreNotDiscountKeys(n: int)
    ensures IntToDecimal(n)[0] != 'd'
  {
  }

  /** Steam app ids read from the search page are runs of decimal digits, so they satisfy it as well. */
  lemma NumeralIdsAreNotDiscountKeys(id: string)
    requires |id| > 0 && forall i :: 0 <= i < |id| ==> '0' <= id[i] <= '9'
    ensures id[0] != 'd'
  {
  }

  /** One call of `send_notification_to_all` in a pass: the position of the listing and what the call answered. */
  datatype Attempt = Attempt(index: nat, delivered: bool)

  /** The key under which attempt `a` would record its listing. */
  function AttemptKey(items: seq<Listing>, gameType: GameType, a: Attempt): string
    requires a.index < |items|
  {
    NotificationKey(items[a.index], gameType)
  }

  /** The keys recorded by the successful attempts. */
  function RecordedKeys(items: seq<Listing>, gameType: GameType, attempts: seq<Attempt>): set<string> {
    set j | 0 <= j < |attempts| && attempts[j].index < |items| && attempts[j].delivered
      :: AttemptKey(items, gameType, attempts[j])
  }

  /** The attempts of a pass after its first `i` listings: in listing order, each for a key the ledger lacked,
      and no attempt for a key that an earlier attempt recorded. */
  ghost predicate TraceInv(items: seq<Listing>, gameType: GameType, entries: Entries, i: nat, attempts: seq<Attempt>) {
    && i <= |items|
    && (forall j :: 0 <= j < |attempts| ==> attempts[j].index < i)
    && (forall a, b :: 0 <= a < b < |attempts| ==> attempts[a].index < attempts[b].index)
    && (forall j :: 0 <= j < |attempts| ==> AttemptKey(items, gameType, attempts[j]) !in entries)
    && (forall a, b :: 0 <= a < b < |attempts| && attempts[a].delivered ==>
          AttemptKey(items, gameType, attempts[a]) != AttemptKey(items, gameType, attempts[b]))
  }

  /** The platform's entries `current` are the old `entries` plus the keys the successful attempts recorded. */
  ghost predicate LedgerInv(items: seq<Listing>, gameType: GameType, entries: Entries, clock: nat -> Timestamp,
                            current: Entries, attempts: seq<Attempt>)
  {
    && (forall j :: 0 <= j < |attempts| ==> attempts[j].index < |items|)
    && current.Keys == entries.Keys + RecordedKeys(items, gameType, attempts)
    && (forall k :: k in entries ==> current[k] == entries[k])
    && (forall j :: 0 <= j < |attempts| && attempts[j].delivered ==>
          current[AttemptKey(items, gameType, attempts[j])] == clock(attempts[j].index))
  }

  /** Every one of the first `i` listings whose key is still missing was tried, and its fan-out reached nobody. */
  ghost predicate CoverInv(items: seq<Listing>, gameType: GameType, i: nat, current: Entries, attempts: seq<Attempt>)
    requires i <= |items|
  {
    forall j :: 0 <= j < i && NotificationKey(items[j], gameType) !in current ==>
      exists m :: 0 <= m < |attempts| && attempts[m].index == j && !attempts[m].delivered
  }

  /** A listing whose key is already recorded is skipped. */
  lemma CoverSkip(items: seq<Listing>, gameType: GameType, i: nat, current: Entries, attempts: seq<Attempt>)
    requires i < |items| && CoverInv(items, gameType, i, current, attempts)
    requires NotificationKey(items[i], gameType) in current
    ensures CoverInv(items, gameType, i + 1, current, attempts)
  {
  }

  /** Appending an attempt adds its key to the recorded ones exactly when it went through. */
  lemma RecordedKeysAppend(items: seq<Listing>, gameType: GameType, attempts: seq<Attempt>, a: Attempt)
    requires a.index < |items|
    ensures RecordedKeys(items, gameType, attempts + [a]) ==
            RecordedKeys(items, gameType, attempts) + (if a.delivered then {AttemptKey(items, gameType, a)} else {})
  {
    var attempts' := attempts + [a];
    forall x | x in RecordedKeys(items, gameType, attempts')
      ensures x in RecordedKeys(items, gameType, attempts) + (if a.delivered then {AttemptKey(items, gameType, a)} else {})
    {
      var j :| 0 <= j < |attempts'| && attempts'[j].index < |items| && attempts'[j].delivered
               && x == AttemptKey(items, gameType, attempts'[j]);
      if j < |attempts| {
        assert attempts[j] == attempts'[j];
      }
    }
    forall x | x in RecordedKeys(items, gameType, attempts) ensures x in RecordedKeys(items, gameType, attempts') {
      var j :| 0 <= j < |attempts| && attempts[j].index < |items| && attempts[j].delivered
               && x == AttemptKey(items, gameType, attempts[j]);
      assert attempts'[j] == attempts[j];
    }
    if a.delivered {
      assert AttemptKey(items, gameType, a) == AttemptKey(items, gameType, attempts'[|attempts|]);
    }
  }

  /** Attempting listing `i`, whose key is missing from `current`, extends the trace. */
  lemma TraceStep(items: seq<Listing>, gameType: GameType, entries: Entries, clock: nat -> Timestamp, i: nat,
                  current: Entries, attempts: seq<Attempt>, ok: bool)
    requires i < |items| && TraceInv(items, gameType, entries, i, attempts)
    requires LedgerInv(items, gameType, entries, clock, current, attempts)
    requires NotificationKey(items[i], gameType) !in current
    ensures TraceInv(items, gameType, entries, i + 1, attempts + [Attempt(i, ok)])
  {
    var key := NotificationKey(items[i], gameType);
    var attempts' := attempts + [Attempt(i, ok)];
    assert forall j :: 0 <= j < |attempts| ==> attempts'[j] == attempts[j];
    assert AttemptKey(items, gameType, attempts'[|attempts|]) == key;
    forall a | 0 <= a < |attempts| && attempts[a].delivered
      ensures AttemptKey(items, gameType, attempts[a]) != key
    {
      assert AttemptKey(items, gameType, attempts[a]) in RecordedKeys(items, gameType, attempts);
    }
  }

  /** Recording the key of a successful attempt, or nothing after a failed one, keeps the entries in step. */
  lemma LedgerStep(items: seq<Listing>, gameType: GameType, entries: Entries, clock: nat -> Timestamp, i: nat,
                   current: Entries, attempts: seq<Attempt>, ok: bool)
    requires i < |items| && LedgerInv(items, gameType, entries, clock, current, attempts)
    requires NotificationKey(items[i], gameType) !in current
    ensures var key := NotificationKey(items[i], gameType);
            LedgerInv(items, gameType, entries, clock, if ok then current[key := clock(i)] else current,
                      attempts + [Attempt(i, ok)])
  {
    var attempts' := attempts + [Attempt(i, ok)];
    assert forall j :: 0 <= j < |attempts| ==> attempts'[j] == attempts[j];
    assert attempts'[|attempts|] == Attempt(i, ok);
    RecordedKeysAppend(items, gameType, attempts, Attempt(i, ok));
  }

  /** After attempting listing `i`, its key is recorded or the attempt is a failed one. */
  lemma CoverStep(items: seq<Listing>, gameType: GameType, i: nat, current: Entries, attempts: seq<Attempt>, ok: bool,
                  current': Entries)
    requires i < |items| && CoverInv(items, gameType, i, current, attempts)
    requires current.Keys <= current'.Keys
    requires ok ==> NotificationKey(items[i], gameType) in current'
    ensures CoverInv(items, gameType, i + 1, current', attempts + [Attempt(i, ok)])
  {
    var attempts' := attempts + [Attempt(i, ok)];
    forall j | 0 <= j < i + 1 && NotificationKey(items[j], gameType) !in current'
      ensures exists m :: 0 <= m < |attempts'| && attempts'[m].index == j && !attempts'[m].delivered
    {
      if j == i {
        assert attempts'[|attempts|].index == j;
      } else {
        var m :| 0 <= m < |attempts| && attempts[m].index == j && !attempts[m].delivered;
        assert attempts'[m] == attempts[m];
      }
    }
  }

  /** The keys recorded by the successful attempts at listings before listing `j`. */
  function RecordedBefore(items: seq<Listing>, gameType: GameType, attempts: seq<Attempt>, j: nat): set<string> {
    set m | 0 <= m < |attempts| && attempts[m].index < j && attempts[m].index < |items| && attempts[m].delivered
      :: AttemptKey(items, gameType, attempts[m])
  }

  /** Listing `j` was attempted. */
  ghost predicate Attempted(attempts: seq<Attempt>, j: nat) {
    exists m :: 0 <= m < |attempts| && attempts[m].index == j
  }

  /** Every one of the first `i` listings whose key neither the old entries nor an earlier success hold was
      attempted. */
  ghost predicate TriedInv(items: seq<Listing>, gameType: GameType, entries: Entries, i: nat, attempts: seq<Attempt>)
    requires i <= |items|
  {
    forall j :: 0 <= j < i && NotificationKey(items[j], gameType) !in entries
                && NotificationKey(items[j], gameType) !in RecordedBefore(items, gameType, attempts, j) ==>
      Attempted(attempts, j)
  }

  /** Once every attempt is at a listing before `i`, the successes before `i` are all the successes. */
  lemma RecordedBeforeAll(items: seq<Listing>, gameType: GameType, attempts: seq<Attempt>, i: nat)
    requires i <= |items| && forall m :: 0 <= m < |attempts| ==> attempts[m].index < i
    ensures RecordedBefore(items, gameType, attempts, i) == RecordedKeys(items, gameType, attempts)
  {
  }

  /** An attempt at a listing from `j` on changes nothing recorded before `j`. */
  lemma RecordedBeforeAppend(items: seq<Listing>, gameType: GameType, attempts: seq<Attempt>, a: Attempt, j: nat)
    requires a.index >= j
    ensures RecordedBefore(items, gameType, attempts + [a], j) == RecordedBefore(items, gameType, attempts, j)
  {
    var attempts' := attempts + [a];
    assert forall m :: 0 <= m < |attempts| ==> attempts'[m] == attempts[m];
    forall x | x in RecordedBefore(items, gameType, attempts', j) ensures x in RecordedBefore(items, gameType, attempts, j) {
      var m :| 0 <= m < |attempts'| && attempts'[m].index < j && attempts'[m].index < |items| && attempts'[m].delivered
               && x == AttemptKey(items, gameType, attempts'[m]);
      assert m < |attempts|;
    }
  }

  /** Listing `i` is attempted exactly when its key is missing, which keeps every due listing attempted. */
  lemma TriedStep(items: seq<Listing>, gameType: GameType, entries: Entries, clock: nat -> Timestamp, i: nat,
                  current: Entries, attempts: seq<Attempt>, attempted: bool, ok: bool, attempts': seq<Attempt>)
    requires i < |items| && TraceInv(items, gameType, entries, i, attempts)
    requires LedgerInv(items, gameType, entries, clock, current, attempts)
    requires TriedInv(items, gameType, entries, i, attempts)
    requires attempted <==> NotificationKey(items[i], gameType) !in current
    requires attempts' == if attempted then attempts + [Attempt(i, ok)] else attempts
    ensures TriedInv(items, gameType, entries, i + 1, attempts')
  {
    RecordedBeforeAll(items, gameType, attempts, i);
    forall j | 0 <= j < i + 1 && NotificationKey(items[j], gameType) !in entries
               && NotificationKey(items[j], gameType) !in RecordedBefore(items, gameType, attempts', j)
      ensures Attempted(attempts', j)
    {
      if attempted {
        RecordedBeforeAppend(items, gameType, attempts, Attempt(i, ok), j);
        if j == i {
          assert attempts'[|attempts|].index == j;
        } else {
          var m :| 0 <= m < |attempts| && attempts[m].index == j;
          assert attempts'[m] == attempts[m];
        }
      }
    }
  }

  /** At the end of a pass, a listing was attempted exactly when its key was missing from the old entries and
      from what the earlier attempts recorded. */
  lemma AttemptedExactly(items: seq<Listing>, gameType: GameType, entries: Entries, attempts: seq<Attempt>)
    requires TraceInv(items, gameType, entries, |items|, attempts) && TriedInv(items, gameType, entries, |items|, attempts)
    ensures forall j :: 0 <= j < |items| ==>
              (Attempted(attempts, j) <==>
                 NotificationKey(items[j], gameType) !in entries
                 && NotificationKey(items[j], gameType) !in RecordedBefore(items, gameType, attempts, j))
  {
    forall j | 0 <= j < |items| && Attempted(attempts, j)
      ensures NotificationKey(items[j], gameType) !in entries
      ensures NotificationKey(items[j], gameType) !in RecordedBefore(items, gameType, attempts, j)
    {
      var m :| 0 <= m < |attempts| && attempts[m].index == j;
      assert AttemptKey(items, gameType, attempts[m]) !in entries;
      forall x | 0 <= x < |attempts| && attempts[x].index < j && attempts[x].delivered
        ensures AttemptKey(items, gameType, attempts[x]) != NotificationKey(items[j], gameType)
      {
        assert x < m;
      }
    }
  }

  /** The four parts of a pass's bookkeeping together. */
  ghost predicate PassState(items: seq<Listing>, gameType: GameType, entries: Entries, clock: nat -> Timestamp,
                            i: nat, current: Entries, attempts: seq<Attempt>)
  {
    && TraceInv(items, gameType, entries, i, attempts)
    && LedgerInv(items, gameType, entries, clock, current, attempts)
    && CoverInv(items, gameType, i, current, attempts)
    && TriedInv(items, gameType, entries, i, attempts)
  }

  /** One iteration of the pass, either way it goes. */
  lemma PassStep(items: seq<Listing>, gameType: GameType, entries: Entries, clock: nat -> Timestamp, i: nat,
                 current: Entries, attempts: seq<Attempt>, attempted: bool, ok: bool, current': Entries,
                 attempts': seq<Attempt>)
    requires i < |items| && PassState(items, gameType, entries, clock, i, current, attempts)
    requires attempted <==> NotificationKey(items[i], gameType) !in current
    requires current' == if attempted && ok then current[NotificationKey(items[i], gameType) := clock(i)] else current
    requires attempts' == if attempted then attempts + [Attempt(i, ok)] else attempts
    ensures PassState(items, gameType, entries, clock, i + 1, current', attempts')
  {
    TriedStep(items, gameType, entries, clock, i, current, attempts, attempted, ok, attempts');
    if attempted {
      TraceStep(items, gameType, entries, clock, i, current, attempts, ok);
      LedgerStep(items, gameType, entries, clock, i, current, attempts, ok);
      CoverStep(items, gameType, i, current, attempts, ok, current');
    } else {
      CoverSkip(items, gameType, i, current, attempts);
    }
  }

  /** A pass over listings whose keys are all recorded already attempts nothing. */
  lemma NothingNewNoAttempts(items: seq<Listing>, gameType: GameType, entries: Entries, attempts: seq<Attempt>)
    requires TraceInv(items, gameType, entries, |items|, attempts)
    ensures (forall i :: 0 <= i < |items| ==> NotificationKey(items[i], gameType) in entries) ==> attempts == []
  {
    if |attempts| > 0 {
      assert AttemptKey(items, gameType, attempts[0]) !in entries;
      assert AttemptKey(items, gameType, attempts[0]) == NotificationKey(items[attempts[0].index], gameType);
    }
  }

  /** When every fan-out of a pass got through, every listing's key is recorded afterwards, so a second pass
      over the same listings against the new ledger sends nothing (last ensures of `NotifyNew`). */
  lemma AllDeliveredAllRecorded(items: seq<Listing>, gameType: GameType, current: Entries, attempts: seq<Attempt>)
    requires CoverInv(items, gameType, |items|, current, attempts)
    requires forall m :: 0 <= m < |attempts| ==> attempts[m].delivered
    ensures forall i :: 0 <= i < |items| ==> NotificationKey(items[i], gameType) in current
  {
  }

  /** One call of `send_notification_to_all` as `SendNotificationToAll` states it: from the store `users`,
      `settings`, the recipients `sentTo`, the answer `delivered`, and the store `users'`, `settings'` with the
      recipients that blocked the bot removed. */
  ghost predicate FanOutCall(users: seq<ChatId>, settings: map<ChatId, Record>, gameType: GameType,
                             deliver: ChatId -> Delivery, sentTo: seq<ChatId>, delivered: bool,
                             users': seq<ChatId>, settings': map<ChatId, Record>)
  {
    && sentTo == Filter(users, Wants(settings, gameType))
    && (delivered <==> exists u :: u in sentTo && deliver(u) == Ok)
    && users' == Filter(users, Excluding(BlockedAmong(sentTo, deliver)))
    && settings' == settings - BlockedAmong(sentTo, deliver)
  }

  /** The store along a pass: `usersAt[m]` and `settingsAt[m]` are the store before attempt `m` (and the last ones
      the store after the pass), `sends[m]` the recipients of attempt `m`, whose answer is its `delivered` bit. */
  ghost predicate FanOutTrace(gameType: GameType, deliver: nat -> ChatId -> Delivery, attempts: seq<Attempt>,
                              usersAt: seq<seq<ChatId>>, settingsAt: seq<map<ChatId, Record>>, sends: seq<seq<ChatId>>)
  {
    && |usersAt| == |attempts| + 1 && |settingsAt| == |attempts| + 1 && |sends| == |attempts|
    && forall m :: 0 <= m < |attempts| ==>
         FanOutCall(usersAt[m], settingsAt[m], gameType, deliver(attempts[m].index), sends[m], attempts[m].delivered,
                    usersAt[m + 1], settingsAt[m + 1])
  }

  /** The trace starts at the store `users0`, `settings0` and ends at the store `users`, `settings`. */
  ghost predicate StoreAlong(gameType: GameType, deliver: nat -> ChatId -> Delivery, attempts: seq<Attempt>,
                             usersAt: seq<seq<ChatId>>, settingsAt: seq<map<ChatId, Record>>, sends: seq<seq<ChatId>>,
                             users0: seq<ChatId>, settings0: map<ChatId, Record>,
                             users: seq<ChatId>, settings: map<ChatId, Record>)
  {
    && FanOutTrace(gameType, deliver, attempts, usersAt, settingsAt, sends)
    && usersAt[0] == users0 && settingsAt[0] == settings0
    && users == usersAt[|attempts|] && settings == settingsAt[|attempts|]
  }

  /** One more fan-out extends the trace. */
  lemma FanOutTraceStep(gameType: GameType, deliver: nat -> ChatId -> Delivery, attempts: seq<Attempt>,
                        usersAt: seq<seq<ChatId>>, settingsAt: seq<map<ChatId, Record>>, sends: seq<seq<ChatId>>,
                        a: Attempt, sentTo: seq<ChatId>, users': seq<ChatId>, settings': map<ChatId, Record>)
    requires FanOutTrace(gameType, deliver, attempts, usersAt, settingsAt, sends)
    requires FanOutCall(usersAt[|attempts|], settingsAt[|attempts|], gameType, deliver(a.index), sentTo, a.delivered,
                        users', settings')
    ensures FanOutTrace(gameType, deliver, attempts + [a], usersAt + [users'], settingsAt + [settings'], sends + [sentTo])
    ensures (usersAt + [users'])[0] == usersAt[0] && (settingsAt + [settings'])[0] == settingsAt[0]
    ensures forall users0, settings0, users, settings ::
              StoreAlong(gameType, deliver, attempts, usersAt, settingsAt, sends, users0, settings0, users, settings) ==>
                StoreAlong(gameType, deliver, attempts + [a], usersAt + [users'], settingsAt + [settings'], sends + [sentTo],
                           users0, settings0, users', settings')
  {
    var attempts', usersAt', settingsAt', sends' := attempts + [a], usersAt + [users'], settingsAt + [settings'], sends + [sentTo];
    forall m | 0 <= m < |attempts'|
      ensures FanOutCall(usersAt'[m], settingsAt'[m], gameType, deliver(attempts'[m].index), sends'[m],
                         attempts'[m].delivered, usersAt'[m + 1], settingsAt'[m + 1])
    {
      assert usersAt'[m] == usersAt[m] && settingsAt'[m] == settingsAt[m];
      if m < |attempts| {
        assert attempts'[m] == attempts[m] && sends'[m] == sends[m];
        assert usersAt'[m + 1] == usersAt[m + 1] && settingsAt'[m + 1] == settingsAt[m + 1];
      }
    }
  }

  /** When no send is refused, the store stays as it was along the whole pass. */
  lemma {:induction false} StoreStaysWhenAllSent(gameType: GameType, deliver: nat -> ChatId -> Delivery,
                                                 attempts: seq<Attempt>, usersAt: seq<seq<ChatId>>,
                                                 settingsAt: seq<map<ChatId, Record>>, sends: seq<seq<ChatId>>, m: nat)
    requires FanOutTrace(gameType, deliver, attempts, usersAt, settingsAt, sends) && m <= |attempts|
    requires forall j, u :: deliver(j)(u) == Ok
    ensures usersAt[m] == usersAt[0] && settingsAt[m] == settingsAt[0]
  {
    if m > 0 {
      StoreStaysWhenAllSent(gameType, deliver, attempts, usersAt, settingsAt, sends, m - 1);
      var d := deliver(attempts[m - 1].index);
      var gone := BlockedAmong(sends[m - 1], d);
      assert gone == {} by {
        forall u | u in sends[m - 1] ensures d(u) == Ok {}
      }
      FilterAll(usersAt[m - 1], Excluding(gone));
      assert settingsAt[m - 1] - gone == settingsAt[m - 1];
    }
  }

  /** A pass only ever drops subscribers and their settings: nobody is added along the way. */
  lemma {:induction false} StoreShrinks(gameType: GameType, deliver: nat -> ChatId -> Delivery,
                                        attempts: seq<Attempt>, usersAt: seq<seq<ChatId>>,
                                        settingsAt: seq<map<ChatId, Record>>, sends: seq<seq<ChatId>>, m: nat)
    requires FanOutTrace(gameType, deliver, attempts, usersAt, settingsAt, sends) && m <= |attempts|
    ensures forall u :: u in usersAt[m] ==> u in usersAt[0]
    ensures settingsAt[m].Keys <= settingsAt[0].Keys
  {
    if m > 0 {
      StoreShrinks(gameType, deliver, attempts, usersAt, settingsAt, sends, m - 1);
      var d := deliver(attempts[m - 1].index);
      assert FanOutCall(usersAt[m - 1], settingsAt[m - 1], gameType, d, sends[m - 1], attempts[m - 1].delivered,
                        usersAt[m], settingsAt[m]);
      forall u | u in usersAt[m] ensures u in usersAt[m - 1] {
        FilterMember(usersAt[m - 1], Excluding(BlockedAmong(sends[m - 1], d)), u);
      }
    }
  }

  /** The store after a pass: nobody was added, and when no send is refused nothing changed at all. */
  lemma StoreAfterPass(gameType: GameType, deliver: nat -> ChatId -> Delivery, attempts: seq<Attempt>,
                       usersAt: seq<seq<ChatId>>, settingsAt: seq<map<ChatId, Record>>, sends: seq<seq<ChatId>>)
    requires FanOutTrace(gameType, deliver, attempts, usersAt, settingsAt, sends)
    ensures forall u :: u in usersAt[|attempts|] ==> u in usersAt[0]
    ensures settingsAt[|attempts|].Keys <= settingsAt[0].Keys
    ensures (forall j, u :: deliver(j)(u) == Ok) ==>
              usersAt[|attempts|] == usersAt[0] && settingsAt[|attempts|] == settingsAt[0]
  {
    StoreShrinks(gameType, deliver, attempts, usersAt, settingsAt, sends, |attempts|);
    if forall j, u :: deliver(j)(u) == Ok {
      StoreStaysWhenAllSent(gameType, deliver, attempts, usersAt, settingsAt, sends, |attempts|);
    }
  }

  /** When every send succeeds and the notice has recipients at the start of the pass, every fan-out of the pass
      reaches somebody, so every listing's key ends up recorded. */
  lemma AllSentAllRecorded(items: seq<Listing>, gameType: GameType, current: Entries, attempts: seq<Attempt>,
                           deliver: nat -> ChatId -> Delivery, usersAt: seq<seq<ChatId>>,
                           settingsAt: seq<map<ChatId, Record>>, sends: seq<seq<ChatId>>)
    requires CoverInv(items, gameType, |items|, current, attempts)
    requires FanOutTrace(gameType, deliver, attempts, usersAt, settingsAt, sends)
    ensures (forall j, u :: deliver(j)(u) == Ok) && Filter(usersAt[0], Wants(settingsAt[0], gameType)) != [] ==>
              forall i :: 0 <= i < |items| ==> NotificationKey(items[i], gameType) in current
  {
    if (forall j, u :: deliver(j)(u) == Ok) && Filter(usersAt[0], Wants(settingsAt[0], gameType)) != [] {
      AllSentDelivered(gameType, deliver, attempts, usersAt, settingsAt, sends);
      AllDeliveredAllRecorded(items, gameType, current, attempts);
    }
  }

  /** When every send succeeds and the notice has recipients at the start of the pass, every fan-out of the pass
      reaches somebody. */
  lemma AllSentDelivered(gameType: GameType, deliver: nat -> ChatId -> Delivery, attempts: seq<Attempt>,
                         usersAt: seq<seq<ChatId>>, settingsAt: seq<map<ChatId, Record>>, sends: seq<seq<ChatId>>)
    requires FanOutTrace(gameType, deliver, attempts, usersAt, settingsAt, sends)
    requires forall j, u :: deliver(j)(u) == Ok
    requires Filter(usersAt[0], Wants(settingsAt[0], gameType)) != []
    ensures forall m :: 0 <= m < |attempts| ==> attempts[m].delivered
  {
    forall m | 0 <= m < |attempts| ensures attempts[m].delivered {
      StoreStaysWhenAllSent(gameType, deliver, attempts, usersAt, settingsAt, sends, m);
      assert FanOutCall(usersAt[m], settingsAt[m], gameType, deliver(attempts[m].index), sends[m], attempts[m].delivered,
                        usersAt[m + 1], settingsAt[m + 1]);
      assert |sends[m]| > 0;
      var u := sends[m][0];
      assert u in sends[m] && deliver(attempts[m].index)(u) == Ok;
    }
  }

  /** The ledger keys of a list of listings. */
  function NotificationKeys(items: seq<Listing>, gameType: GameType): set<string> {
    set k | 0 <= k < |items| :: NotificationKey(items[k], gameType)
  }

  /** A pass records only keys of its own listings. */
  lemma RecordedKeysOfItems(items: seq<Listing>, gameType: GameType, attempts: seq<Attempt>)
    ensures RecordedKeys(items, gameType, attempts) <= NotificationKeys(items, gameType)
  {
    forall x | x in RecordedKeys(items, gameType, attempts) ensures x in NotificationKeys(items, gameType) {
      var j :| 0 <= j < |attempts| && attempts[j].index < |items| && attempts[j].delivered
               && x == AttemptKey(items, gameType, attempts[j]);
      assert x == NotificationKey(items[attempts[j].index], gameType);
    }
  }

  /** The window of `RetentionDays` days, in seconds. */
  predicate Young(now: Timestamp, t: Timestamp) {
    now - t < RetentionDays * SecondsPerDay
  }

  /** A pass keeps every old entry as it was and adds only keys from `keys`. */
  ghost predicate PassKept(before: Entries, after: Entries, keys: set<string>) {
    && (forall k :: k in before ==> k in after && after[k] == before[k])
    && (forall k :: k in after ==> k in before || k in keys)
  }

  /** Everything the ledger loop keeps after its first `i` listings: the untouched platforms, the pass's
      bookkeeping and the store along the fan-outs, from `users0`, `settings0` to `users`, `settings`. */
  ghost predicate PassAt(items: seq<Listing>, gameType: GameType, ledger: NotifiedGames, platform: string,
                         clock: nat -> Timestamp, deliver: nat -> ChatId -> Delivery, i: nat, updated: NotifiedGames,
                         attempts: seq<Attempt>, usersAt: seq<seq<ChatId>>, settingsAt: seq<map<ChatId, Record>>,
                         sends: seq<seq<ChatId>>, users0: seq<ChatId>, settings0: map<ChatId, Record>,
                         users: seq<ChatId>, settings: map<ChatId, Record>)
  {
    && platform in ledger && updated.Keys == ledger.Keys
    && (forall p :: p in ledger && p != platform ==> updated[p] == ledger[p])
    && PassState(items, gameType, ledger[platform], clock, i, updated[platform], attempts)
    && StoreAlong(gameType, deliver, attempts, usersAt, settingsAt, sends, users0, settings0, users, settings)
  }

  /** One iteration of the ledger loop, as `NotifyListing` states it, keeps `PassAt`. */
  lemma PassAtStep(items: seq<Listing>, gameType: GameType, ledger: NotifiedGames, platform: string,
                   clock: nat -> Timestamp, deliver: nat -> ChatId -> Delivery, i: nat, updated: NotifiedGames,
                   attempts: seq<Attempt>, usersAt: seq<seq<ChatId>>, settingsAt: seq<map<ChatId, Record>>,
                   sends: seq<seq<ChatId>>, users0: seq<ChatId>, settings0: map<ChatId, Record>,
                   users: seq<ChatId>, settings: map<ChatId, Record>,
                   next: Entries, attempted: bool, ok: bool, sentTo: seq<ChatId>,
                   users': seq<ChatId>, settings': map<ChatId, Record>)
    requires i < |items|
    requires PassAt(items, gameType, ledger, platform, clock, deliver, i, updated, attempts, usersAt, settingsAt, sends,
                    users0, settings0, users, settings)
    requires attempted <==> NotificationKey(items[i], gameType) !in updated[platform]
    requires next == if attempted && ok then updated[platform][NotificationKey(items[i], gameType) := clock(i)]
                     else updated[platform]
    requires attempted ==> FanOutCall(users, settings, gameType, deliver(i), sentTo, ok, users', settings')
    requires !attempted ==> !ok && users' == users && settings' == settings
    ensures PassAt(items, gameType, ledger, platform, clock, deliver, i + 1, updated[platform := next],
                   if attempted then attempts + [Attempt(i, ok)] else attempts,
                   if attempted then usersAt + [users'] else usersAt,
                   if attempted then settingsAt + [settings'] else settingsAt,
                   if attempted then sends + [sentTo] else sends,
                   users0, settings0, users', settings')
  {
    var updated' := updated[platform := next];
    assert updated'.Keys == ledger.Keys && updated'[platform] == next;
    assert forall p :: p in ledger && p != platform ==> updated'[p] == ledger[p];
    if attempted {
      var attempts' := attempts + [Attempt(i, ok)];
      PassStep(items, gameType, ledger[platform], clock, i, updated[platform], attempts, attempted, ok, next, attempts');
      FanOutTraceStep(gameType, deliver, attempts, usersAt, settingsAt, sends, Attempt(i, ok), sentTo, users', settings');
      assert StoreAlong(gameType, deliver, attempts', usersAt + [users'], settingsAt + [settings'], sends + [sentTo],
                        users0, settings0, users', settings');
    } else {
      PassStep(items, gameType, ledger[platform], clock, i, updated[platform], attempts, attempted, ok, next, attempts);
    }
  }

  /**
   * One iteration of the ledger loop of `games_checker`: a listing whose key `current` lacks is announced with
   * `send_notification_to_all`, and its key is recorded at time `now` when the call answered true.
   */
  method NotifyListing(store: SubscriberStore, current: Entries, item: Listing, gameType: GameType, now: Timestamp,
                       deliver: ChatId -> Delivery)
    returns (next: Entries, attempted: bool, ok: bool, ghost sentTo: seq<ChatId>)
    requires store.Valid()
    modifies store
    ensures store.Valid()
    ensures attempted <==> NotificationKey(item, gameType) !in current
    ensures next == if attempted && ok then current[NotificationKey(item, gameType) := now] else current
    ensures attempted ==>
              FanOutCall(old(store.users), old(store.settings), gameType, deliver, sentTo, ok, store.users, store.settings)
    ensures !attempted ==> !ok && store.users == old(store.users) && store.settings == old(store.settings)
  {
    next := current;
    ok := false;
    sentTo := [];
    var key := NotificationKey(item, gameType);
    attempted := key !in current;
    if attempted {
      ok, sentTo := SendNotificationToAll(store, gameType, deliver);
      if ok {
        next := current[key := now];
      }
    }
  }

  /** What a whole pass of the ledger loop leaves, from `PassAt` after its last listing. */
  lemma PassOutcome(items: seq<Listing>, gameType: GameType, ledger: NotifiedGames, platform: string,
                    clock: nat -> Timestamp, deliver: nat -> ChatId -> Delivery, updated: NotifiedGames,
                    attempts: seq<Attempt>, usersAt: seq<seq<ChatId>>, settingsAt: seq<map<ChatId, Record>>,
                    sends: seq<seq<ChatId>>, users0: seq<ChatId>, settings0: map<ChatId, Record>,
                    users: seq<ChatId>, settings: map<ChatId, Record>)
    requires PassAt(items, gameType, ledger, platform, clock, deliver, |items|, updated, attempts, usersAt, settingsAt,
                    sends, users0, settings0, users, settings)
    ensures updated.Keys == ledger.Keys && platform in updated
    ensures forall p :: p in ledger && p != platform ==> updated[p] == ledger[p]
    ensures FanOutTrace(gameType, deliver, attempts, usersAt, settingsAt, sends)
    ensures usersAt[0] == users0 && settingsAt[0] == settings0
    ensures users == usersAt[|attempts|] && settings == settingsAt[|attempts|]
    ensures forall u :: u in users ==> u in users0
    ensures settings.Keys <= settings0.Keys
    ensures (forall j, u :: deliver(j)(u) == Ok) ==> users == users0 && settings == settings0
    ensures (forall j, u :: deliver(j)(u) == Ok) && Filter(users0, Wants(settings0, gameType)) != [] ==>
              forall i :: 0 <= i < |items| ==> NotificationKey(items[i], gameType) in updated[platform]
    ensures TraceInv(items, gameType, ledger[platform], |items|, attempts)
    ensures LedgerInv(items, gameType, ledger[platform], clock, updated[platform], attempts)
    ensures CoverInv(items, gameType, |items|, updated[platform], attempts)
    ensures forall j :: 0 <= j < |items| ==>
              (Attempted(attempts, j) <==>
                 NotificationKey(items[j], gameType) !in ledger[platform]
                 && NotificationKey(items[j], gameType) !in RecordedBefore(items, gameType, attempts, j))
    ensures PassKept(ledger[platform], updated[platform], NotificationKeys(items, gameType))
    ensures (forall i :: 0 <= i < |items| ==> NotificationKey(items[i], gameType) in ledger[platform]) ==>
              attempts == [] && updated == ledger
  {
    var entries := ledger[platform];
    StoreAfterPass(gameType, deliver, attempts, usersAt, settingsAt, sends);
    AllSentAllRecorded(items, gameType, updated[platform], attempts, deliver, usersAt, settingsAt, sends);
    AttemptedExactly(items, gameType, entries, attempts);
    RecordedKeysOfItems(items, gameType, attempts);
    NothingNewNoAttempts(items, gameType, entries, attempts);
    assert attempts == [] ==> RecordedKeys(items, gameType, attempts) == {};
    assert attempts == [] ==> updated[platform] == entries;
  }

  /**
   * One pass of the ledger loop of `games_checker` over the listings of one kind. `clock(i)` is the time read
   * when listing `i` is recorded and `deliver(i)` Telegram's answers during its fan-out. `attempts` is the trace
   * of the calls of `send_notification_to_all`.
   */
  method NotifyNew(store: SubscriberStore, ledger: NotifiedGames, platform: string, items: seq<Listing>,
                   gameType: GameType, clock: nat -> Timestamp, deliver: nat -> ChatId -> Delivery)
    returns (updated: NotifiedGames, attempts: seq<Attempt>,
             ghost usersAt: seq<seq<ChatId>>, ghost settingsAt: seq<map<ChatId, Record>>, ghost sends: seq<seq<ChatId>>)
    requires store.Valid() && platform in ledger
    modifies store
    ensures store.Valid()
    // only this platform's entries change
    ensures updated.Keys == ledger.Keys && platform in updated
    ensures forall p :: p in ledger && p != platform ==> updated[p] == ledger[p]
    // each attempt is one fan-out from the store as the previous one left it, and its answer is the fan-out's
    ensures FanOutTrace(gameType, deliver, attempts, usersAt, settingsAt, sends)
    ensures usersAt[0] == old(store.users) && settingsAt[0] == old(store.settings)
    ensures store.users == usersAt[|attempts|] && store.settings == settingsAt[|attempts|]
    ensures forall u :: u in store.users ==> u in old(store.users)
    ensures store.settings.Keys <= old(store.settings).Keys
    ensures (forall j, u :: deliver(j)(u) == Ok) ==>
              store.users == old(store.users) && store.settings == old(store.settings)
    // when every send succeeds and the notice has recipients, every listing's key is recorded
    ensures (forall j, u :: deliver(j)(u) == Ok) && Filter(old(store.users), Wants(old(store.settings), gameType)) != [] ==>
              forall i :: 0 <= i < |items| ==> NotificationKey(items[i], gameType) in updated[platform]
    // attempts follow the listings, each for a key that was missing and not recorded earlier in the pass
    ensures TraceInv(items, gameType, ledger[platform], |items|, attempts)
    // exactly the successful attempts are recorded, with their time; old entries are kept as they were
    ensures LedgerInv(items, gameType, ledger[platform], clock, updated[platform], attempts)
    // a listing still unrecorded afterwards was tried and its fan-out reached nobody
    ensures CoverInv(items, gameType, |items|, updated[platform], attempts)
    // a listing is attempted exactly when its key is neither in the old entries nor recorded earlier in the pass
    ensures forall j :: 0 <= j < |items| ==>
              (Attempted(attempts, j) <==>
                 NotificationKey(items[j], gameType) !in ledger[platform]
                 && NotificationKey(items[j], gameType) !in RecordedBefore(items, gameType, attempts, j))
    // in short: the old entries stay, and only keys of these listings are added
    ensures PassKept(ledger[platform], updated[platform], NotificationKeys(items, gameType))
    // when every key is already recorded, nothing is sent and nothing changes
    ensures (forall i :: 0 <= i < |items| ==> NotificationKey(items[i], gameType) in ledger[platform]) ==>
              attempts == [] && updated == ledger
  {
    updated := ledger;
    attempts := [];
    usersAt, settingsAt, sends := [store.users], [store.settings], [];
    for i := 0 to |items|
      invariant store.Valid()
      invariant PassAt(items, gameType, ledger, platform, clock, deliver, i, updated, attempts, usersAt, settingsAt, sends,
                       old(store.users), old(store.settings), store.users, store.settings)
    {
      ghost var users, settings := store.users, store.settings;
      var next, attempted, ok, sentTo := NotifyListing(store, updated[platform], items[i], gameType, clock(i), deliver(i));
      PassAtStep(items, gameType, ledger, platform, clock, deliver, i, updated, attempts, usersAt, settingsAt, sends,
                 old(store.users), old(store.settings), users, settings, next, attempted, ok, sentTo,
                 store.users, store.settings);
      updated := updated[platform := next];
      if attempted {
        attempts := attempts + [Attempt(i, ok)];
        usersAt, settingsAt, sends := usersAt + [store.users], settingsAt + [store.settings], sends + [sentTo];
      }
    }
    PassOutcome(items, gameType, ledger, platform, clock, deliver, updated, attempts, usersAt, settingsAt, sends,
                old(store.users), old(store.settings), store.users, store.settings);
  }

  /** The feeds one round of `games_checker` fetches. */
  datatype Feeds = Feeds(
    steamFeatured: Option<seq<FeaturedItem>>,
    steamFreeSearch: seq<string>,
    epicElements: Option<seq<EpicElement>>,
    discountSearch: Option<seq<string>>,
    discountFeatured: Option<seq<FeaturedItem>>)

  /** The ledger after the three passes and retention, from what each pass keeps and adds. */
  lemma RoundEntries(ledger: NotifiedGames, afterSteam: NotifiedGames, afterEpic: NotifiedGames,
                     afterDiscounts: NotifiedGames, now: Timestamp, steamKeys: set<string>, epicKeys: set<string>,
                     discountKeys: set<string>)
    requires "steam" in ledger && "epic" in ledger
    requires afterSteam.Keys == ledger.Keys && afterEpic.Keys == ledger.Keys && afterDiscounts.Keys == ledger.Keys
    requires afterSteam["epic"] == ledger["epic"] && PassKept(ledger["steam"], afterSteam["steam"], steamKeys)
    requires afterEpic["steam"] == afterSteam["steam"] && PassKept(afterSteam["epic"], afterEpic["epic"], epicKeys)
    requires afterDiscounts["epic"] == afterEpic["epic"]
    requires PassKept(afterEpic["steam"], afterDiscounts["steam"], discountKeys)
    ensures var next := Cleaned(afterDiscounts, now, RetentionDays);
            && (forall p, k :: p in next && k in next[p] ==> Young(now, next[p][k]))
            && (forall p, k :: p in {"steam", "epic"} && k in ledger[p] && Young(now, ledger[p][k]) ==>
                  k in next[p] && next[p][k] == ledger[p][k])
            && (forall k :: k in next["steam"] ==> k in ledger["steam"] || k in steamKeys || k in discountKeys)
            && (forall k :: k in next["epic"] ==> k in ledger["epic"] || k in epicKeys)
  {
    var next := Cleaned(afterDiscounts, now, RetentionDays);
    forall p, k | p in next && k in next[p] ensures Young(now, next[p][k]) && k in afterDiscounts[p] {
      CleanedKeepsIff(afterDiscounts, now, RetentionDays, p, k);
    }
    forall p, k | p in {"steam", "epic"} && k in ledger[p] && Young(now, ledger[p][k])
      ensures k in next[p] && next[p][k] == ledger[p][k]
    {
      assert afterDiscounts[p][k] == ledger[p][k];
      CleanedKeepsIff(afterDiscounts, now, RetentionDays, p, k);
    }
  }

  /** The Steam giveaways a round selects: none when the featured feed raised, otherwise exactly one listing per
      giveaway id found in the featured feed or the capped search. */
  ghost predicate SteamFreeSelected(api: SteamApi, featured: Option<seq<FeaturedItem>>, searchIds: seq<string>,
                                    games: seq<Listing>)
  {
    && (featured.None? ==> games == [])
    && DistinctIds(games)
    && (forall k :: 0 <= k < |games| ==>
          FromFeaturedGiveaway(api, featured.GetOr([]), games[k])
          || FromSearchGiveaway(api, featured.GetOr([]), Take(searchIds, FreeSearchLimit), games[k]))
    && (featured.Some? ==>
          forall i :: 0 <= i < |featured.value| && FeaturedGiveaway(api, featured.value[i]) ==>
            Key(featured.value[i]) in Ids(games))
    && (featured.Some? ==>
          var search := Take(searchIds, FreeSearchLimit);
          forall i :: 0 <= i < |search| && SearchGiveaway(api, search[i]) ==> search[i] in Ids(games))
  }

  /** The Steam discounts a round selects: none when the search raised; the best-ranked discoveries, capped with
      ties and titles respected, when both feeds answered; every discovery of the search when only it answered. */
  ghost predicate DiscountsSelected(api: SteamApi, searchIds: Option<seq<string>>, featured: Option<seq<FeaturedItem>>,
                                    games: seq<Listing>)
  {
    && (searchIds.None? ==> games == [])
    && (forall k :: 0 <= k < |games| ==>
          var search := Take(searchIds.GetOr([]), DiscountSearchLimit);
          FromSearchDiscount(api, search, games[k]) || FromFeaturedDiscount(api, search, featured.GetOr([]), games[k]))
    && (searchIds.Some? && featured.Some? ==>
          var search := Take(searchIds.value, DiscountSearchLimit);
          var discovered := Discovered(api, search, featured.value);
          && |games| <= MaxDiscounts && SortedByDiscount(games) && DistinctTitles(games)
          && KeptAreBest(games, discovered) && CutRespected(games, discovered)
          && TiesInOrder(games, discovered) && CutTiesRespected(games, discovered)
          && (forall i :: FirstSearchDiscount(api, search, i) ==>
                TitleKeptOrCut(games, SearchDiscountListing(search[i], GameDetails(api, search[i]).value)))
          && (forall i :: FirstFeaturedDiscount(api, search, featured.value, i) ==>
                TitleKeptOrCut(games, FeaturedDiscountListing(featured.value[i]))))
    && (searchIds.Some? && featured.None? ==> games == Discovered(api, Take(searchIds.value, DiscountSearchLimit), []))
  }

  /** The subscribers `users` and their settings `settings` are among `users0` and `settings0`. */
  ghost predicate Shrunk(users0: seq<ChatId>, settings0: map<ChatId, Record>, users: seq<ChatId>,
                         settings: map<ChatId, Record>)
  {
    (forall u :: u in users ==> u in users0) && settings.Keys <= settings0.Keys
  }

  /** Dropping subscribers twice drops subscribers. */
  lemma ShrunkTrans(users0: seq<ChatId>, settings0: map<ChatId, Record>, users1: seq<ChatId>,
                    settings1: map<ChatId, Record>, users2: seq<ChatId>, settings2: map<ChatId, Record>)
    requires Shrunk(users0, settings0, users1, settings1) && Shrunk(users1, settings1, users2, settings2)
    ensures Shrunk(users0, settings0, users2, settings2)
  {
  }

  /** A pass over `platform` of the ledger: the other platforms are untouched, and the pass keeps every old entry
      of `platform` and adds only keys in `keys`. */
  ghost predicate LedgerPass(ledger: NotifiedGames, platform: string, updated: NotifiedGames, keys: set<string>) {
    && platform in ledger && updated.Keys == ledger.Keys && platform in updated
    && (forall p :: p in ledger && p != platform ==> updated[p] == ledger[p])
    && PassKept(ledger[platform], updated[platform], keys)
  }

  /** The Steam giveaway block of a round: `check_steam_free_games`, then its ledger pass. */
  method SteamFreeBlock(store: SubscriberStore, ledger: NotifiedGames, api: SteamApi,
                        featured: Option<seq<FeaturedItem>>, searchIds: seq<string>, clock: nat -> Timestamp,
                        deliver: nat -> ChatId -> Delivery)
    returns (updated: NotifiedGames, games: seq<Listing>)
    requires store.Valid() && "steam" in ledger
    modifies store
    ensures store.Valid()
    ensures SteamFreeSelected(api, featured, searchIds, games)
    ensures LedgerPass(ledger, "steam", updated, NotificationKeys(games, FreeGame))
    ensures Shrunk(old(store.users), old(store.settings), store.users, store.settings)
    ensures (forall j, u :: deliver(j)(u) == Ok) ==>
              store.users == old(store.users) && store.settings == old(store.settings)
  {
    games := CheckSteamFreeGames(api, featured, searchIds);
    var passed, attempts, _, _, _ := NotifyNew(store, ledger, "steam", games, FreeGame, clock, deliver);
    updated := passed;
  }

  /** The Epic giveaway block of a round: `check_epic_free_games`, then its ledger pass. */
  method EpicFreeBlock(store: SubscriberStore, ledger: NotifiedGames, elements: Option<seq<EpicElement>>,
                       clock: nat -> Timestamp, deliver: nat -> ChatId -> Delivery)
    returns (updated: NotifiedGames, games: seq<Listing>)
    requires store.Valid() && "epic" in ledger
    modifies store
    ensures store.Valid()
    ensures var kept := Filter(elements.GetOr([]), EpicGiveaway);
            |games| == |kept| && forall k :: 0 <= k < |games| ==> games[k] == EpicListing(kept[k])
    ensures LedgerPass(ledger, "epic", updated, NotificationKeys(games, FreeGame))
    ensures Shrunk(old(store.users), old(store.settings), store.users, store.settings)
    ensures (forall j, u :: deliver(j)(u) == Ok) ==>
              store.users == old(store.users) && store.settings == old(store.settings)
  {
    games := CheckEpicFreeGames(elements);
    var passed, attempts, _, _, _ := NotifyNew(store, ledger, "epic", games, FreeGame, clock, deliver);
    updated := passed;
  }

  /** The Steam discount block of a round: `check_steam_discounts`, then its ledger pass under `discount_` keys. */
  method DiscountBlock(store: SubscriberStore, ledger: NotifiedGames, api: SteamApi,
                       searchIds: Option<seq<string>>, featured: Option<seq<FeaturedItem>>, clock: nat -> Timestamp,
                       deliver: nat -> ChatId -> Delivery)
    returns (updated: NotifiedGames, games: seq<Listing>)
    requires store.Valid() && "steam" in ledger
    modifies store
    ensures store.Valid()
    ensures DiscountsSelected(api, searchIds, featured, games)
    ensures LedgerPass(ledger, "steam", updated, NotificationKeys(games, DiscountGame))
    ensures Shrunk(old(store.users), old(store.settings), store.users, store.settings)
    ensures (forall j, u :: deliver(j)(u) == Ok) ==>
              store.users == old(store.users) && store.settings == old(store.settings)
  {
    games := CheckSteamDiscounts(api, searchIds, featured);
    var passed, attempts, _, _, _ := NotifyNew(store, ledger, "steam", games, DiscountGame, clock, deliver);
    updated := passed;
  }

  /**
   * One round of the `games_checker` loop: the Steam giveaways, the Epic giveaways and the Steam discounts are
   * each passed through `NotifyNew`, then retention is applied at `now`. `clock(pass)` and `deliver(pass)` are
   * the clock readings and Telegram answers of the three passes, numbered 0, 1, 2. The listings of the three
   * checks are returned beside the new ledger.
   */
  method CheckerRound(store: SubscriberStore, ledger: NotifiedGames, api: SteamApi, feeds: Feeds,
                      clock: nat -> nat -> Timestamp, deliver: nat -> nat -> ChatId -> Delivery, now: Timestamp)
    returns (next: NotifiedGames, steamFree: seq<Listing>, epicFree: seq<Listing>, discounts: seq<Listing>)
    requires store.Valid() && "steam" in ledger && "epic" in ledger
    modifies store
    ensures store.Valid()
    ensures next.Keys == {"steam", "epic"}
    // the listings are what the three checks select from the feeds
    ensures SteamFreeSelected(api, feeds.steamFeatured, feeds.steamFreeSearch, steamFree)
    ensures var kept := Filter(feeds.epicElements.GetOr([]), EpicGiveaway);
            |epicFree| == |kept| && forall k :: 0 <= k < |epicFree| ==> epicFree[k] == EpicListing(kept[k])
    ensures DiscountsSelected(api, feeds.discountSearch, feeds.discountFeatured, discounts)
    // the round only drops subscribers; when no send is refused the store is as it was
    ensures Shrunk(old(store.users), old(store.settings), store.users, store.settings)
    ensures (forall r, j, u :: deliver(r)(j)(u) == Ok) ==>
              store.users == old(store.users) && store.settings == old(store.settings)
    // nothing older than the window survives
    ensures forall p, k :: p in next && k in next[p] ==> Young(now, next[p][k])
    // an entry of the old ledger still within the window is kept with its time
    ensures forall p, k :: p in {"steam", "epic"} && k in ledger[p] && Young(now, ledger[p][k]) ==>
              k in next[p] && next[p][k] == ledger[p][k]
    // every other entry is the key of a listing of this round
    ensures forall k :: k in next["steam"] ==>
              k in ledger["steam"] || k in NotificationKeys(steamFree, FreeGame) || k in NotificationKeys(discounts, DiscountGame)
    ensures forall k :: k in next["epic"] ==> k in ledger["epic"] || k in NotificationKeys(epicFree, FreeGame)
  {
    ghost var users0, settings0 := store.users, store.settings;
    var afterSteam;
    afterSteam, steamFree := SteamFreeBlock(store, ledger, api, feeds.steamFeatured, feeds.steamFreeSearch,
                                            clock(0), deliver(0));
    ghost var users1, settings1 := store.users, store.settings;
    var afterEpic;
    afterEpic, epicFree := EpicFreeBlock(store, afterSteam, feeds.epicElements, clock(1), deliver(1));
    ghost var users2, settings2 := store.users, store.settings;
    var afterDiscounts;
    afterDiscounts, discounts := DiscountBlock(store, afterEpic, api, feeds.discountSearch, feeds.discountFeatured,
                                               clock(2), deliver(2));
    ShrunkTrans(users0, settings0, users1, settings1, users2, settings2);
    ShrunkTrans(users0, settings0, users2, settings2, store.users, store.settings);
    var removedCount;
    next, removedCount := CleanOldGames(afterDiscounts, now, RetentionDays);
    RoundEntries(ledger, afterSteam, afterEpic, afterDiscounts, now, NotificationKeys(steamFree, FreeGame),
                 NotificationKeys(epicFree, FreeGame), NotificationKeys(discounts, DiscountGame));
  }
}
