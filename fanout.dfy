/**
 * `send_notification_to_all` and `broadcast_message`: one delivery attempt per subscriber in the list as it
 * was when the fan-out started, skipping those whose preferences exclude the notice, then the removal of the
 * subscribers that blocked the bot. Telegram's answer to each send is an oracle `deliver`.
 */
module FanOut {
  import opened Common
  import opened Subscribers

  /** What became of one `send_message`: sent, refused because the user blocked the bot (a Telegram error
      mentioning "Forbidden" or "blocked"), or any other Telegram error. */
  datatype Delivery = Ok | Blocked | OtherError

  /** The `game_type` of a notice. */
  datatype GameType = FreeGame | DiscountGame

  /** Whether subscriber `u` accepts notices of this type: `notify_free` defaults to true, `notify_discounts`
      to false, and each is read with Python truthiness. */
  function Wants(settings: map<ChatId, Record>, gameType: GameType): ChatId -> bool {
    match gameType
    case FreeGame => u => Truthy(GetUserSetting(settings, u, "notify_free", Bool(true)))
    case DiscountGame => u => Truthy(GetUserSetting(settings, u, "notify_discounts", Bool(false)))
  }

  /** Every subscriber, for `broadcast_message`. */
  function Everyone(): ChatId -> bool {
    u => true
  }

  function Succeeded(deliver: ChatId -> Delivery): ChatId -> bool {
    u => deliver(u) == Ok
  }

  function WasBlocked(deliver: ChatId -> Delivery): ChatId -> bool {
    u => deliver(u) == Blocked
  }

  /** The subscribers among `sentTo` that blocked the bot. */
  function BlockedAmong(sentTo: seq<ChatId>, deliver: ChatId -> Delivery): set<ChatId> {
    set u | u in sentTo && deliver(u) == Blocked
  }

  /** A subscriber without a stored preference gets free-game notices and no discount notices. */
  lemma DefaultPreferences(settings: map<ChatId, Record>, u: ChatId)
    requires u !in settings || settings[u] == DefaultRecord()
    ensures Wants(settings, FreeGame)(u)
    ensures !Wants(settings, DiscountGame)(u)
  {
    if u in settings {
      DefaultRecordValues(settings, u, Bool(true));
      DefaultRecordValues(settings, u, Bool(false));
    }
  }

  /** A subscriber whose stored `notify_free` is falsy gets no free-game notice, and likewise for discounts. */
  lemma OptedOut(settings: map<ChatId, Record>, u: ChatId)
    ensures (u in settings && "notify_free" in settings[u] && !Truthy(settings[u]["notify_free"]))
            ==> !Wants(settings, FreeGame)(u)
    ensures (u in settings && "notify_discounts" in settings[u] && !Truthy(settings[u]["notify_discounts"]))
            ==> !Wants(settings, DiscountGame)(u)
  {
  }

  /**
   * The sending loop: every subscriber of `users` that `wanted` admits gets one attempt, in list order;
   * successes are counted and the blocked ones collected.
   */
  method DeliveryPass(users: seq<ChatId>, wanted: ChatId -> bool, deliver: ChatId -> Delivery)
    returns (sentTo: seq<ChatId>, successCount: nat, blocked: seq<ChatId>)
    ensures sentTo == Filter(users, wanted)
    ensures successCount == |Filter(sentTo, Succeeded(deliver))|
    ensures blocked == Filter(sentTo, WasBlocked(deliver))
  {
    sentTo := [];
    successCount := 0;
    blocked := [];
    for i := 0 to |users|
      invariant sentTo == Filter(users[..i], wanted)
      invariant successCount == |Filter(sentTo, Succeeded(deliver))|
      invariant blocked == Filter(sentTo, WasBlocked(deliver))
    {
      var userId := users[i];
      FilterSnoc(users[..i], userId, wanted);
      assert users[..i + 1] == users[..i] + [userId];
      if wanted(userId) {
        FilterSnoc(sentTo, userId, Succeeded(deliver));
        FilterSnoc(sentTo, userId, WasBlocked(deliver));
        sentTo := sentTo + [userId];
        match deliver(userId) {
          case Ok => successCount := successCount + 1;
          case Blocked => blocked := blocked + [userId];
          case OtherError =>
        }
      }
    }
    assert users[..|users|] == users;
  }

  /** The removal after the loop: `remove_user` for each collected id, in order. */
  method PruneBlocked(store: SubscriberStore, blocked: seq<ChatId>)
    requires store.Valid()
    modifies store
    ensures store.Valid()
    ensures store.users == Filter(old(store.users), Excluding(Elements(blocked)))
    ensures store.settings == old(store.settings) - (Elements(blocked) * Elements(old(store.users)))
  {
    ghost var users0 := store.users;
    ghost var settings0 := store.settings;
    assert NoDuplicates(users0);
    assert Elements(blocked[..0]) == {};
    FilterAll(users0, Excluding(Elements(blocked[..0])));
    for i := 0 to |blocked|
      invariant store.Valid()
      invariant store.users == Filter(users0, Excluding(Elements(blocked[..i])))
      invariant store.settings == settings0 - (Elements(blocked[..i]) * Elements(users0))
    {
      var userId := blocked[i];
      ghost var b := Elements(blocked[..i]);
      assert blocked[..i + 1] == blocked[..i] + [userId];
      assert Elements(blocked[..i + 1]) == b + {userId};
      RemoveFirstExcluding(users0, b, userId);
      FilterMember(users0, Excluding(b), userId);
      PruneStepSettings(settings0, b, Elements(users0), userId);
      var removed := store.RemoveUser(userId);
    }
    assert blocked[..|blocked|] == blocked;
  }

  /** How one `remove_user` moves the settings of `PruneBlocked` from one iteration to the next. */
  lemma PruneStepSettings(settings0: map<ChatId, Record>, b: set<ChatId>, subscribed: set<ChatId>, u: ChatId)
    ensures (if u in subscribed && u !in b then (settings0 - (b * subscribed)) - {u} else settings0 - (b * subscribed))
            == settings0 - ((b + {u}) * subscribed)
  {
  }

  /**
   * `send_notification_to_all`: answers whether at least one send succeeded. `sentTo` is the sequence of
   * subscribers a message was sent to.
   */
  method SendNotificationToAll(store: SubscriberStore, gameType: GameType, deliver: ChatId -> Delivery)
    returns (delivered: bool, sentTo: seq<ChatId>)
    requires store.Valid()
    modifies store
    ensures store.Valid()
    ensures sentTo == Filter(old(store.users), Wants(old(store.settings), gameType))
    ensures forall u :: u in sentTo <==> u in old(store.users) && Wants(old(store.settings), gameType)(u)
    ensures delivered <==> exists u :: u in sentTo && deliver(u) == Ok
    ensures store.users == Filter(old(store.users), Excluding(BlockedAmong(sentTo, deliver)))
    ensures store.settings == old(store.settings) - BlockedAmong(sentTo, deliver)
    ensures forall u :: u in old(store.users) && u !in BlockedAmong(sentTo, deliver) ==> u in store.users
  {
    var successCount, blocked;
    sentTo, successCount, blocked := DeliveryPass(store.users, Wants(store.settings, gameType), deliver);
    forall u ensures u in sentTo <==> u in old(store.users) && Wants(old(store.settings), gameType)(u) {
      FilterMember(old(store.users), Wants(old(store.settings), gameType), u);
    }
    FilterNonEmpty(sentTo, Succeeded(deliver));
    ghost var gone := BlockedAmong(sentTo, deliver);
    forall u ensures u in blocked <==> u in gone {
      FilterMember(sentTo, WasBlocked(deliver), u);
    }
    assert Elements(blocked) == gone;
    assert gone * Elements(old(store.users)) == gone;
    PruneBlocked(store, blocked);
    delivered := successCount > 0;
    forall u | u in old(store.users) && u !in gone ensures u in store.users {
      FilterMember(old(store.users), Excluding(gone), u);
    }
  }

  /** `broadcast_message`: every subscriber gets one attempt; answers the number of successful sends. */
  method BroadcastMessage(store: SubscriberStore, deliver: ChatId -> Delivery)
    returns (successCount: nat, sentTo: seq<ChatId>)
    requires store.Valid()
    modifies store
    ensures store.Valid()
    ensures sentTo == old(store.users)
    ensures successCount == |Filter(old(store.users), Succeeded(deliver))|
    ensures store.users == Filter(old(store.users), Excluding(BlockedAmong(sentTo, deliver)))
    ensures store.settings == old(store.settings) - BlockedAmong(sentTo, deliver)
  {
    var blocked;
    sentTo, successCount, blocked := DeliveryPass(store.users, Everyone(), deliver);
    FilterAll(store.users, Everyone());
    ghost var gone := BlockedAmong(sentTo, deliver);
    forall u ensures u in blocked <==> u in gone {
      FilterMember(sentTo, WasBlocked(deliver), u);
    }
    assert Elements(blocked) == gone;
    assert gone * Elements(old(store.users)) == gone;
    PruneBlocked(store, blocked);
  }

  /** The number of successful sends of a broadcast is at most the number of subscribers, and reaches it
      exactly when every send succeeds. */
  lemma {:induction false} BroadcastCountBounds(users: seq<ChatId>, deliver: ChatId -> Delivery)
    ensures |Filter(users, Succeeded(deliver))| <= |users|
    ensures |Filter(users, Succeeded(deliver))| == |users| <==> forall u :: u in users ==> deliver(u) == Ok
  {
    if users != [] {
      BroadcastCountBounds(users[1..], deliver);
      assert users == [users[0]] + users[1..];
      if forall u :: u in users ==> deliver(u) == Ok {
        forall u | u in users[1..] ensures deliver(u) == Ok { assert u in users; }
      }
      if forall u :: u in users[1..] ==> deliver(u) == Ok {
        forall u | u in users ensures deliver(users[0]) == Ok ==> deliver(u) == Ok {
          if u != users[0] { assert u in users[1..]; }
        }
      }
    }
  }
}
