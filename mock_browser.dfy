/** The development stand-in for the extension API: an in-memory key/value
    store (`storage.local`) and the `runtime.sendMessage` handler that answers
    `BACKUP_PROFILE` and `APPLY_SETTINGS`. */
module MockBrowser {
  import opened Wrappers
  import opened JsValues
  import UserJs

  /** How the promise returned by `sendMessage` settles. */
  datatype Reply = Resolved(value: Json) | Rejected

  function SuccessReply(): Json {
    JObj([("success", JBool(true))])
  }

  function BackupReply(store: Fields): Json {
    JObj([("success", JBool(true)), ("data", JObj(store))])
  }

  const UnknownTypeReply: Json := JObj([("success", JBool(false)), ("error", JStr("Unknown message type"))])

  /** `message.type`; reading a member of null throws. */
  function MessageType(message: Json): Option<Json>
    requires !message.JNull?
  {
    Member(message, "type")
  }

  /** `APPLY_SETTINGS` with a settings object `settings`: each key it has
      holds its value there, and every other key keeps its stored value. */
  lemma ApplySettingsLookup(store: Fields, settings: Fields, k: string)
    requires UniqueKeys(store)
    ensures Lookup(Assign(store, Entries(Some(JObj(settings))).value), k)
         == if Lookup(settings, k).Some? then Lookup(settings, k) else Lookup(store, k)
  {
    AssignLookup(store, Entries(Some(JObj(settings))).value, k);
  }

  /** Settings without a repeated key give one preference line per pair of
      the object, in its order. */
  lemma ApplySettingsLines(settings: Fields, timestamp: string)
    requires UniqueKeys(settings)
    ensures Entries(Some(JObj(settings))) == Some(settings)
    ensures UserJs.UserJsContent(timestamp, Entries(Some(JObj(settings))).value) == UserJs.UserJsContent(timestamp, settings)
  {
  }

  class Browser {
    /** `mockStorage`, the module-level object both the storage API and the
        message handler update. */
    var store: Fields

    ghost predicate Valid()
      reads this
    {
      UniqueKeys(store)
    }

    constructor ()
      ensures Valid() && store == []
    {
      store := [];
    }

    /** `storage.local.get()`: a shallow copy of the store. */
    method StorageGet() returns (items: Fields)
      requires Valid()
      ensures UniqueKeys(items)
      ensures forall k :: Lookup(items, k) == Lookup(store, k)
      ensures Keys(items) == Keys(store)
    {
      items := store;
    }

    /** `storage.local.set(items)`: `Object.assign(mockStorage, items)`. */
    method StorageSet(items: Fields)
      requires Valid()
      modifies this
      ensures Valid()
      ensures store == Assign(old(store), items)
    {
      store := Assign(store, items);
    }

    /** `runtime.sendMessage(message)`. The text of the user.js download, when
        one is started, is returned as `download`; `timestamp` is the moment of
        generation as `toISOString()` writes it. */
    method SendMessage(message: Json, timestamp: string) returns (reply: Reply, download: Option<string>)
      requires Valid()
      modifies this
      ensures Valid()
      ensures message.JNull? ==> reply == Rejected && download == None && store == old(store)
      ensures !message.JNull? && MessageType(message) == Some(JStr("BACKUP_PROFILE")) ==>
        reply == Resolved(BackupReply(old(store))) && download == None && store == old(store)
      ensures !message.JNull? && MessageType(message) == Some(JStr("APPLY_SETTINGS")) ==>
        match Entries(Member(message, "settings"))
        case None => reply == Rejected && download == None && store == old(store)
        case Some(entries) =>
          && reply == Resolved(SuccessReply())
          && download == Some(UserJs.UserJsContent(timestamp, entries))
          && store == Assign(old(store), entries)
      ensures (!message.JNull? && MessageType(message) == Some(JStr("APPLY_SETTINGS"))
               && Member(message, "settings").Some? && Member(message, "settings").value.JObj?) ==>
        var settings := Member(message, "settings").value.fields;
        forall k :: Lookup(store, k) == if Lookup(settings, k).Some? then Lookup(settings, k) else old(Lookup(store, k))
      ensures !message.JNull? && MessageType(message) !in {Some(JStr("BACKUP_PROFILE")), Some(JStr("APPLY_SETTINGS"))} ==>
        reply == Resolved(UnknownTypeReply) && download == None && store == old(store)
    {
      download := None;
      if message.JNull? {
        reply := Rejected;
        return;
      }
      var kind := MessageType(message);
      if kind == Some(JStr("BACKUP_PROFILE")) {
        reply := Resolved(BackupReply(store));
        return;
      }
      if kind == Some(JStr("APPLY_SETTINGS")) {
        var entries := Entries(Member(message, "settings"));
        if entries.None? {
          // Object.entries of null or undefined throws a TypeError.
          reply := Rejected;
          return;
        }
        ghost var before := store;
        download := Some(UserJs.UserJsContent(timestamp, entries.value));
        store := Assign(store, entries.value);
        ghost var settings := Member(message, "settings");
        if settings.Some? && settings.value.JObj? {
          forall k ensures Lookup(store, k) == if Lookup(settings.value.fields, k).Some? then Lookup(settings.value.fields, k) else Lookup(before, k) {
            ApplySettingsLookup(before, settings.value.fields, k);
          }
        }
        reply := Resolved(SuccessReply());
        return;
      }
      reply := Resolved(UnknownTypeReply);
    }
  }
}
