/**
 * The subscriber list and the per-subscriber settings store.
 * The two JSON files become the two fields of one object; each Python function that loads,
 * changes and saves a file becomes a method that changes the corresponding field.
 */
module Subscribers {
  import opened Common

  /** A chat identifier. The settings file keys records by `str(chat_id)`; since `str` is injective on
      integers, the model keys them by the integer itself. */
  type ChatId = int

  /** A JSON value stored in a settings record. */
  datatype Value = Bool(b: bool) | Int(i: int) | Text(s: string) | Null

  /** One subscriber's settings record, a JSON object. */
  type Record = map<string, Value>

  /** Python truthiness of a stored value, as used by `not get_user_setting(...)`. */
  predicate Truthy(v: Value) {
    match v
    case Bool(b) => b
    case Int(i) => i != 0
    case Text(s) => s != ""
    case Null => false
  }

  /** The record a new subscriber gets. */
  function DefaultRecord(): (r: Record)
    ensures r.Keys == {"notify_free", "notify_discounts", "language"}
  {
    map["notify_free" := Bool(true), "notify_discounts" := Bool(false), "language" := Text("ru")]
  }

  /** `get_user_setting`: the stored value, or `default` when the user has no record or the record lacks `key`. */
  function GetUserSetting(settings: map<ChatId, Record>, id: ChatId, key: string, default: Value): (v: Value)
    ensures id in settings && key in settings[id] ==> v == settings[id][key]
    ensures id !in settings || key !in settings[id] ==> v == default
  {
    if id in settings && key in settings[id] then settings[id][key] else default
  }

  class SubscriberStore {
    /** `users.json`'s `"users"` list, in subscription order. */
    var users: seq<ChatId>
    /** `user_settings.json`. */
    var settings: map<ChatId, Record>

    /** The list never holds an id twice. */
    ghost predicate Valid()
      reads this
    {
      NoDuplicates(users)
    }

    /** The state when neither file exists yet. */
    constructor ()
      ensures Valid() && users == [] && settings == map[]
    {
      users := [];
      settings := map[];
    }

    /** `init_user_settings`: give `id` the default record unless it already has one. */
    method InitUserSettings(id: ChatId)
      modifies this
      ensures users == old(users)
      ensures settings == if id in old(settings) then old(settings) else old(settings)[id := DefaultRecord()]
    {
      if id !in settings {
        settings := settings[id := DefaultRecord()];
      }
    }

    /** `remove_user_settings`: drop the record of `id`, if any. */
    method RemoveUserSettings(id: ChatId)
      modifies this
      ensures users == old(users)
      ensures settings == old(settings) - {id}
    {
      if id in settings {
        settings := settings - {id};
      }
    }

    /** `add_user`: subscribe `id`; answers whether it was new. */
    method AddUser(id: ChatId) returns (added: bool)
      requires Valid()
      modifies this
      ensures Valid()
      ensures added <==> id !in old(users)
      ensures users == if added then old(users) + [id] else old(users)
      ensures id in users
      ensures settings == if added && id !in old(settings) then old(settings)[id := DefaultRecord()] else old(settings)
    {
      added := id !in users;
      if added {
        users := users + [id];
        InitUserSettings(id);
      }
    }

    /** `remove_user`: unsubscribe `id` together with its settings; answers whether it was subscribed. */
    method RemoveUser(id: ChatId) returns (removed: bool)
      requires Valid()
      modifies this
      ensures Valid()
      ensures removed <==> id in old(users)
      ensures users == RemoveFirst(old(users), id)
      ensures id !in users
      ensures forall u :: u != id ==> (u in users <==> u in old(users))
      ensures settings == if removed then old(settings) - {id} else old(settings)
    {
      RemoveFirstNoDuplicates(users, id);
      removed := id in users;
      if removed {
        users := RemoveFirst(users, id);
        RemoveUserSettings(id);
      } else {
        RemoveFirstAbsent(users, id);
      }
    }

    /** `update_user_setting`: set `key` to `value` in the record of `id`, creating the default record first. */
    method UpdateUserSetting(id: ChatId, key: string, value: Value)
      modifies this
      ensures users == old(users)
      ensures settings.Keys == old(settings).Keys + {id}
      ensures settings[id] == (if id in old(settings) then old(settings)[id] else DefaultRecord())[key := value]
      ensures forall u :: u in old(settings) && u != id ==> settings[u] == old(settings)[u]
      ensures forall d :: GetUserSetting(settings, id, key, d) == value
    {
      if id !in settings {
        InitUserSettings(id);
      }
      settings := settings[id := settings[id][key := value]];
    }
  }

  /** A user without a record sees every requested default. */
  lemma MissingRecordGivesDefault(settings: map<ChatId, Record>, id: ChatId, key: string, default: Value)
    requires id !in settings
    ensures GetUserSetting(settings, id, key, default) == default
  {
  }

  /** The default record switches free-game notices on and discount notices off, in Russian. */
  lemma DefaultRecordValues(settings: map<ChatId, Record>, id: ChatId, d: Value)
    requires id in settings && settings[id] == DefaultRecord()
    ensures GetUserSetting(settings, id, "notify_free", d) == Bool(true)
    ensures GetUserSetting(settings, id, "notify_discounts", d) == Bool(false)
    ensures GetUserSetting(settings, id, "language", d) == Text("ru")
  {
  }
}
