/** Android SharedPreferences as a map from key to a tagged value, and the
    content of the one-time migration in SharedPreferencesStore.kt. */
module PreferenceMaps {
  import opened Support

  /** The six value types a SharedPreferences file can hold. A Float is kept
      as its IEEE 754 bit pattern; nothing here computes with it. */
  datatype PrefValue =
    | StringValue(s: string)
    | StringSetValue(strings: set<string>)
    | BooleanValue(b: bool)
    | IntValue(i: int32)
    | LongValue(l: int64)
    | FloatValue(bits: bv32)

  type Prefs = map<string, PrefValue>

  /** A typed getter either returns or throws ClassCastException, which is
      what Android does when the key holds a value of another type. */
  datatype Result<+T> = Ok(value: T) | TypeMismatch

  /** An entry of a legacy store as getAll() hands it over: one of the
      supported types, or something the migration does not recognise. */
  datatype LegacyValue = Typed(v: PrefValue) | Unsupported

  type LegacyStore = map<string, LegacyValue>

  // ---------------------------------------------------------------------------
  // Reads and edits of one map.

  function GetString(m: Prefs, key: string, default: Option<string>): Result<Option<string>> {
    if key !in m then Ok(default)
    else if m[key].StringValue? then Ok(Some(m[key].s))
    else TypeMismatch
  }

  function GetBoolean(m: Prefs, key: string, default: bool): Result<bool> {
    if key !in m then Ok(default)
    else if m[key].BooleanValue? then Ok(m[key].b)
    else TypeMismatch
  }

  function GetInt(m: Prefs, key: string, default: int32): Result<int32> {
    if key !in m then Ok(default)
    else if m[key].IntValue? then Ok(m[key].i)
    else TypeMismatch
  }

  /** getStringSet(key, defValues) ?: defValues: a stored set is never null,
      so the elvis adds nothing to the absent-key default. */
  function GetStringSet(m: Prefs, key: string, defValues: Option<set<string>>): Result<Option<set<string>>> {
    var got := if key !in m then Ok(defValues)
               else if m[key].StringSetValue? then Ok(Some(m[key].strings))
               else TypeMismatch;
    if got.Ok? && got.value.None? then Ok(defValues) else got
  }

  function Contains(m: Prefs, key: string): bool {
    key in m
  }

  /** Editor.remove. */
  function Remove(m: Prefs, key: string): Prefs {
    m - {key}
  }

  /** Editor.putString: a null value removes the key. */
  function PutString(m: Prefs, key: string, value: Option<string>): Prefs {
    if value.None? then Remove(m, key) else m[key := StringValue(value.value)]
  }

  /** Editor.putStringSet: a null set removes the key. */
  function PutStringSet(m: Prefs, key: string, values: Option<set<string>>): Prefs {
    if values.None? then Remove(m, key) else m[key := StringSetValue(values.value)]
  }

  function PutBoolean(m: Prefs, key: string, value: bool): Prefs {
    m[key := BooleanValue(value)]
  }

  function PutInt(m: Prefs, key: string, value: int32): Prefs {
    m[key := IntValue(value)]
  }

  function PutLong(m: Prefs, key: string, value: int64): Prefs {
    m[key := LongValue(value)]
  }

  function PutFloat(m: Prefs, key: string, bits: bv32): Prefs {
    m[key := FloatValue(bits)]
  }

  /** Puts one migrated value with the editor call matching its type. */
  function PutTyped(m: Prefs, key: string, v: PrefValue): (r: Prefs)
    ensures r == m[key := v]
  {
    match v
    case StringValue(s) => PutString(m, key, Some(s))
    case StringSetValue(strings) => PutStringSet(m, key, Some(strings))
    case BooleanValue(b) => PutBoolean(m, key, b)
    case IntValue(i) => PutInt(m, key, i)
    case LongValue(l) => PutLong(m, key, l)
    case FloatValue(bits) => PutFloat(m, key, bits)
  }

  // ---------------------------------------------------------------------------
  // A put is read back by the matching getter and touches no other key.

  lemma PutStringThenGet(m: Prefs, key: string, value: Option<string>, default: Option<string>)
    ensures GetString(PutString(m, key, value), key, default) == Ok(if value.Some? then value else default)
    ensures PutString(m, key, value) - {key} == m - {key}
  {
  }

  lemma PutStringSetThenGet(m: Prefs, key: string, values: Option<set<string>>, default: Option<set<string>>)
    ensures GetStringSet(PutStringSet(m, key, values), key, default) == Ok(if values.Some? then values else default)
    ensures PutStringSet(m, key, values) - {key} == m - {key}
  {
  }

  lemma PutBooleanThenGet(m: Prefs, key: string, value: bool, default: bool)
    ensures GetBoolean(PutBoolean(m, key, value), key, default) == Ok(value)
    ensures PutBoolean(m, key, value) - {key} == m - {key}
  {
  }

  lemma PutIntThenGet(m: Prefs, key: string, value: int32, default: int32)
    ensures GetInt(PutInt(m, key, value), key, default) == Ok(value)
    ensures PutInt(m, key, value) - {key} == m - {key}
  {
  }

  lemma RemoveThenContains(m: Prefs, key: string)
    ensures !Contains(Remove(m, key), key)
    ensures Remove(m, key) - {key} == m - {key}
    ensures forall k :: k != key ==> (Contains(Remove(m, key), k) <==> Contains(m, k))
  {
  }

  // ---------------------------------------------------------------------------
  // Migration.

  /** The entries of one legacy store the migration copies. */
  function TypedEntries(store: LegacyStore): Prefs {
    map k | k in store && store[k].Typed? :: store[k].v
  }

  /** All puts of the migration editor, stores taken in list order. */
  function MigratedEntries(stores: seq<LegacyStore>): Prefs {
    if stores == [] then map[]
    else MigratedEntries(stores[..|stores| - 1]) + TypedEntries(stores[|stores| - 1])
  }

  predicate HasTyped(store: LegacyStore, key: string) {
    key in store && store[key].Typed?
  }

  /** A key is migrated exactly when some legacy store holds a supported value
      for it, and it gets the value of the last such store. */
  lemma {:induction false} MigratedEntriesAt(stores: seq<LegacyStore>, key: string)
    ensures key in MigratedEntries(stores) <==> exists i :: 0 <= i < |stores| && HasTyped(stores[i], key)
    ensures key in MigratedEntries(stores) ==>
      exists i :: 0 <= i < |stores| && HasTyped(stores[i], key)
        && stores[i][key].v == MigratedEntries(stores)[key]
        && forall j :: i < j < |stores| ==> !HasTyped(stores[j], key)
    decreases |stores|
  {
    if stores != [] {
      var n := |stores| - 1;
      var prefix := stores[..n];
      MigratedEntriesAt(prefix, key);
      if HasTyped(stores[n], key) {
        assert MigratedEntries(stores)[key] == stores[n][key].v;
      } else {
        assert key in MigratedEntries(stores) <==> key in MigratedEntries(prefix);
        if key in MigratedEntries(stores) {
          var i :| 0 <= i < n && HasTyped(prefix[i], key) && prefix[i][key].v == MigratedEntries(prefix)[key]
            && forall j :: i < j < n ==> !HasTyped(prefix[j], key);
          assert stores[i] == prefix[i];
          forall j | i < j < |stores| ensures !HasTyped(stores[j], key) {
            if j < n { assert stores[j] == prefix[j]; }
          }
        }
        if exists i :: 0 <= i < |stores| && HasTyped(stores[i], key) {
          var i :| 0 <= i < |stores| && HasTyped(stores[i], key);
          assert i < n && prefix[i] == stores[i];
        }
      }
    }
  }

  /** The unified store after migration: every legacy value overwrites what was
      there, the later store wins, and every other key keeps its value. */
  lemma {:induction false} MigrationResult(unified: Prefs, privateStore: LegacyStore, httpStore: LegacyStore,
                                          key: string)
    ensures var after := unified + MigratedEntries([privateStore, httpStore]);
      && (HasTyped(httpStore, key) ==> key in after && after[key] == httpStore[key].v)
      && (!HasTyped(httpStore, key) && HasTyped(privateStore, key) ==>
            key in after && after[key] == privateStore[key].v)
      && (!HasTyped(httpStore, key) && !HasTyped(privateStore, key) ==>
            (key in after <==> key in unified) && (key in unified ==> after[key] == unified[key]))
  {
    var stores := [privateStore, httpStore];
    assert stores[..1] == [privateStore];
    assert stores[..1][..0] == [];
    assert MigratedEntries([privateStore]) == TypedEntries(privateStore);
    assert MigratedEntries(stores) == TypedEntries(privateStore) + TypedEntries(httpStore);
  }
}
