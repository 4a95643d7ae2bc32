/** SharedPreferencesStore.kt: the unified preference store. Construction
    migrates the two legacy stores into the default one; afterwards the store
    is a typed view of one map. */
module PreferencesStore {
  import opened Support
  import opened PreferenceMaps

  /** The legacy SharedPreferences files, in the order they are migrated. */
  const LegacyStoreNames: seq<string> := [
    "org.owntracks.android.preferences.private",
    "org.owntracks.android.preferences.http"
  ]

  /** Every legacy store emptied by clear(). */
  function ClearedStores(n: nat): (r: seq<LegacyStore>)
    ensures |r| == n && forall i :: 0 <= i < n ==> r[i] == map[]
  {
    seq(n, _ => map[])
  }

  /** Taking one more key out of the pending set adds its typed entry, if any. */
  lemma TypedEntriesGrow(store: LegacyStore, pending: set<string>, key: string)
    requires key in pending
    ensures TypedEntries(store - (pending - {key}))
         == TypedEntries(store - pending) + (if HasTyped(store, key) then map[key := store[key].v] else map[])
  {
  }

  class SharedPreferencesStore {
    /** The default SharedPreferences. */
    var preferences: Prefs
    /** The legacy stores, one per entry of LegacyStoreNames. */
    var legacyStores: seq<LegacyStore>

    /** init: the migration runs once, before the store is handed out. */
    constructor (existing: Prefs, legacy: seq<LegacyStore>, commitSucceeds: bool)
      requires |legacy| == |LegacyStoreNames|
      ensures preferences == existing + MigratedEntries(legacy)
      ensures legacyStores == if commitSucceeds then ClearedStores(|legacy|) else legacy
    {
      preferences := existing;
      legacyStores := legacy;
      new;
      MigrateToSingleSharedPreferences(commitSucceeds);
    }

    /** Copies the typed entries of each legacy store, in order, into one
        editor, and commits it. The edit reaches the in-memory map whether or
        not the write to disk succeeds; the legacy stores are cleared only
        when it does. */
    method MigrateToSingleSharedPreferences(commitSucceeds: bool)
      modifies this
      ensures preferences == old(preferences) + MigratedEntries(old(legacyStores))
      ensures legacyStores == if commitSucceeds then ClearedStores(|old(legacyStores)|) else old(legacyStores)
    {
      var editor: Prefs := map[];
      var i := 0;
      while i < |legacyStores|
        invariant 0 <= i <= |legacyStores|
        invariant legacyStores == old(legacyStores) && preferences == old(preferences)
        invariant editor == MigratedEntries(legacyStores[..i])
      {
        editor := PutAll(editor, legacyStores[i]);
        assert legacyStores[..i + 1][..i] == legacyStores[..i];
        i := i + 1;
      }
      assert legacyStores[..i] == legacyStores;
      preferences := preferences + editor;
      if commitSucceeds {
        legacyStores := ClearedStores(|legacyStores|);
      }
    }

    /** `all.forEach`: one editor put per entry of a legacy store whose value
        has a supported type; other entries are skipped. */
    static method PutAll(editor: Prefs, store: LegacyStore) returns (edited: Prefs)
      ensures edited == editor + TypedEntries(store)
    {
      edited := editor;
      var pending := store.Keys;
      while pending != {}
        invariant pending <= store.Keys
        invariant edited == editor + TypedEntries(store - pending)
        decreases |pending|
      {
        var key :| key in pending;
        match store[key] {
          case Typed(v) =>
            edited := PutTyped(edited, key, v);
          case Unsupported =>
        }
        TypedEntriesGrow(store, pending, key);
        pending := pending - {key};
      }
      assert store - {} == store;
    }

    method PutString(key: string, value: Option<string>)
      modifies this`preferences
      ensures preferences == PreferenceMaps.PutString(old(preferences), key, value)
    {
      preferences := PreferenceMaps.PutString(preferences, key, value);
    }

    method Remove(key: string)
      modifies this`preferences
      ensures preferences == PreferenceMaps.Remove(old(preferences), key)
    {
      preferences := PreferenceMaps.Remove(preferences, key);
    }

    method PutBoolean(key: string, value: bool)
      modifies this`preferences
      ensures preferences == PreferenceMaps.PutBoolean(old(preferences), key, value)
    {
      preferences := PreferenceMaps.PutBoolean(preferences, key, value);
    }

    method PutInt(key: string, value: int32)
      modifies this`preferences
      ensures preferences == PreferenceMaps.PutInt(old(preferences), key, value)
    {
      preferences := PreferenceMaps.PutInt(preferences, key, value);
    }

    method PutStringSet(key: string, values: Option<set<string>>)
      modifies this`preferences
      ensures preferences == PreferenceMaps.PutStringSet(old(preferences), key, values)
    {
      preferences := PreferenceMaps.PutStringSet(preferences, key, values);
    }

    function GetString(key: string, default: Option<string>): (r: Result<Option<string>>)
      reads this
      ensures key !in preferences ==> r == Ok(default)
      ensures key in preferences ==>
        (r.Ok? <==> preferences[key].StringValue?) && (r.Ok? ==> r.value == Some(preferences[key].s))
    {
      PreferenceMaps.GetString(preferences, key, default)
    }

    function GetBoolean(key: string, default: bool): (r: Result<bool>)
      reads this
      ensures key !in preferences ==> r == Ok(default)
      ensures key in preferences ==>
        (r.Ok? <==> preferences[key].BooleanValue?) && (r.Ok? ==> r.value == preferences[key].b)
    {
      PreferenceMaps.GetBoolean(preferences, key, default)
    }

    function GetInt(key: string, default: int32): (r: Result<int32>)
      reads this
      ensures key !in preferences ==> r == Ok(default)
      ensures key in preferences ==>
        (r.Ok? <==> preferences[key].IntValue?) && (r.Ok? ==> r.value == preferences[key].i)
    {
      PreferenceMaps.GetInt(preferences, key, default)
    }

    function GetStringSet(key: string, defValues: Option<set<string>>): (r: Result<Option<set<string>>>)
      reads this
      ensures key !in preferences ==> r == Ok(defValues)
      ensures key in preferences ==>
        (r.Ok? <==> preferences[key].StringSetValue?) && (r.Ok? ==> r.value == Some(preferences[key].strings))
    {
      PreferenceMaps.GetStringSet(preferences, key, defValues)
    }

    function Contains(key: string): (r: bool)
      reads this
      ensures r <==> key in preferences
    {
      PreferenceMaps.Contains(preferences, key)
    }
  }
}
