# OwnTracks MQTT endpoint and unified preference store, modelled in Dafny

This project models two parts of the OwnTracks Android app.

- **The MQTT message-processor endpoint** (`MessageProcessorEndpointMqtt`). It owns:
  - the endpoint state (CONNECTING, CONNECTED, DISCONNECTED, ERROR, ERROR_CONFIGURATION);
  - the MQTT client;
  - the id of the last connection;
  - a counter of connection attempts.

  It decides when to connect, disconnect and reconnect, and what to subscribe to. It also decides how an outgoing message's fate is reported and what an incoming message turns into.
- **The unified preference store** (`SharedPreferencesStore`). It is a typed view of one key/value map. On construction it migrates the entries of two legacy stores into that map.

Files:

- `support.dfy` (`Support`):
  - `Option`, which stands for Java's nullable references;
  - the JVM's `int`/`long` ranges;
  - the wrapping `++` on an `int`.
- `text.dfy` (`Text`): the Java library behaviour the endpoint relies on:
  - `String.trim()`;
  - `String.split(" ")`, including its dropping of trailing empty pieces;
  - `String.replace(target, "")`;
  - the `String.compareTo` order;
  - the sorted, duplicate-free listing a `TreeSet<String>` hands out.
- `endpoint_spec.dfy` (`EndpointSpec`): every endpoint operation as a pure transition. A transition takes a `Snapshot` of the four fields and gives back:
  - the fields afterwards;
  - the calls made on collaborators, in order: state notifications, `contactsRepo.clearAll`, the connect and subscribe requests, and the delivery and receive callbacks;
  - the outcome, a return or a thrown exception.

  The properties of the endpoint are lemmas about these transitions.
- `endpoint.dfy` (`MqttEndpoint`): the class `Endpoint` with the source's fields. Each method updates the fields in place and appends to an `events` log.
  - Every method that models an operation of the endpoint is proved to perform exactly its transition from `EndpointSpec`, with its outcome.
  - `getTopicsToSubscribeTo` and `getSubTopicsQos` change nothing; they are proved to compute `TopicsToSubscribeTo` and `SubTopicsQos`.
  - The class invariant is that a CONNECTING endpoint has a client. Every public operation, and every callback that changes a field, is proved to keep it. The paho callback `messageArrived` changes no field, so it keeps the invariant trivially. The private helpers `changeState`, `getMqttConnectOptions` and `subscribe` do not carry it in their contracts: `changeState(CONNECTING)` alone would break it, exactly as in the source.
  - CONNECTED without a client is reachable, so the invariant does not cover CONNECTED (see `DroppedClientReconnects`).
- `preference_maps.dfy` (`PreferenceMaps`):
  - the tagged preference values;
  - Android's typed reads, where a value of another type is `TypeMismatch`, standing for `ClassCastException`;
  - the puts, where a null value removes the key;
  - what the migration copies, with an independent characterisation of it.
- `preferences_store.dfy` (`PreferencesStore`): the class `SharedPreferencesStore`. The migration is written as a loop over the legacy stores with a nested loop over each store's entries, issuing one editor put per entry.

Collaborators that are outside the model become parameters:

- **The broker** is a `BrokerOutcome`:
  - whether the client can be built;
  - whether TLS can be set up, consulted only when TLS is on;
  - whether paho accepts the will topic;
  - whether the broker accepts the connection.
- **The publish** is a `PublishOutcome`.
- **The subscribe** is a boolean.
- **The `Parser`** is a `ParseOutcome`: a parsed message with its own validity verdict, a decryption failure, or a read failure.
- **The random client id** is any number below 0x1000000.
- **The commit of the migration editor** is a boolean.

## Model

| member | source | states |
|---|---|---|
| Support.Inc32 | project/app/src/main/java/org/owntracks/android/services/MessageProcessorEndpointMqtt.java:226 | the counter increment is one more modulo 2^32, and strictly larger below the top of the `int` range |
| Text.TrimEmptyIffBlank | project/app/src/main/java/org/owntracks/android/services/MessageProcessorEndpointMqtt.java:504 | `trim()` gives the empty string exactly when every char is at most U+0020 |
| Text.SplitPieces | project/app/src/main/java/org/owntracks/android/services/MessageProcessorEndpointMqtt.java:425 | `split(" ")` of a string without a space is that string alone; otherwise it is the raw pieces with every trailing empty one dropped, so the last piece kept is not empty; no piece holds a space |
| Text.RawSplitJoin | project/app/src/main/java/org/owntracks/android/services/MessageProcessorEndpointMqtt.java:425 | the raw pieces joined with single spaces give back the original string |
| Text.RawSplitNoSpace | project/app/src/main/java/org/owntracks/android/services/MessageProcessorEndpointMqtt.java:425 | no raw piece holds a space |
| Text.RemoveAllAbsent | project/app/src/main/java/org/owntracks/android/services/MessageProcessorEndpointMqtt.java:184 | `replace(p, "")` leaves a string without an occurrence of `p` unchanged |
| Text.RemoveAllAppended | project/app/src/main/java/org/owntracks/android/services/MessageProcessorEndpointMqtt.java:184 | for a target whose first char does not recur in it, removing it from `t + target` is removing it from `t` |
| Text.BelowTotal | project/app/src/main/java/org/owntracks/android/services/MessageProcessorEndpointMqtt.java:415 | the `compareTo` order puts any two different strings one way round, never both |
| Text.BelowTransitive | project/app/src/main/java/org/owntracks/android/services/MessageProcessorEndpointMqtt.java:415 | the `compareTo` order is transitive |
| Text.LeastExists | project/app/src/main/java/org/owntracks/android/services/MessageProcessorEndpointMqtt.java:415 | every non-empty finite set of strings has a least member |
| Text.EnumerationUnique | project/app/src/main/java/org/owntracks/android/services/MessageProcessorEndpointMqtt.java:410 | two strictly increasing listings of the same members are equal, so the array a `TreeSet` hands out is determined by its members |
| Text.SortedMembers | project/app/src/main/java/org/owntracks/android/services/MessageProcessorEndpointMqtt.java:410 | `toArray()` of a `TreeSet` lists exactly its members, strictly increasing, each once |
| EndpointSpec.ChangeState | project/app/src/main/java/org/owntracks/android/services/MessageProcessorEndpointMqtt.java:515-521 | the listener is notified, once, exactly when the new state differs from the current one; afterwards the state is the new one and nothing else has changed |
| EndpointSpec.SchemeFor | project/app/src/main/java/org/owntracks/android/services/MessageProcessorEndpointMqtt.java:196-205 | the chosen scheme uses TLS exactly when TLS is on and WebSocket exactly when WebSocket is on |
| EndpointSpec.SchemeTable | project/app/src/main/java/org/owntracks/android/services/MessageProcessorEndpointMqtt.java:196-205 | TLS and WebSocket give `wss`, TLS alone `ssl`, WebSocket alone `ws`, neither `tcp` |
| EndpointSpec.ConfigurationComplete | project/app/src/main/java/org/owntracks/android/services/MessageProcessorEndpointMqtt.java:503-507 | the configuration is complete exactly when the host has a char that `trim()` keeps |
| EndpointSpec.CredentialsFor | project/app/src/main/java/org/owntracks/android/services/MessageProcessorEndpointMqtt.java:284-287 | user name and password are sent together, untrimmed, exactly when the user name is not blank |
| EndpointSpec.CredentialFlags | project/app/src/main/java/org/owntracks/android/services/MessageProcessorEndpointMqtt.java:274-287 | the connect options carry credentials exactly when the user name is not blank, and the password sent is the configured one (MQTT 3.1.1 sections 3.1.2.8 and 3.1.2.9) |
| EndpointSpec.ConnectingIsConnectingState | project/app/src/main/java/org/owntracks/android/services/MessageProcessorEndpointMqtt.java:527-529 | under the class invariant (CONNECTING has a client), `isConnecting()` holds exactly in state CONNECTING |
| EndpointSpec.ConnectCountsEveryAttempt | project/app/src/main/java/org/owntracks/android/services/MessageProcessorEndpointMqtt.java:224-226 | every `connectToBroker` call increments the attempt counter, whatever happens next |
| EndpointSpec.ConnectWhenBusy | project/app/src/main/java/org/owntracks/android/services/MessageProcessorEndpointMqtt.java:224-239 | when already connected or connecting, only the counter changes: no notification, no new client, a normal return |
| EndpointSpec.IncompleteConfigurationNeverConnects | project/app/src/main/java/org/owntracks/android/services/MessageProcessorEndpointMqtt.java:241-246 | with a blank host an idle endpoint goes to ERROR_CONFIGURATION and the call fails; CONNECTING is never announced, no connect is requested and the client is untouched |
| EndpointSpec.ConnectRequestFollowsSettings | project/app/src/main/java/org/owntracks/android/services/MessageProcessorEndpointMqtt.java:255-268 | a connect request goes to the configured scheme, host and port with the chosen client id, the credential rule's credentials, automatic reconnect and the base topic as will; it is made only for a complete configuration whose TLS setup and will were accepted |
| EndpointSpec.ConnectSucceedsWhenAllowed | project/app/src/main/java/org/owntracks/android/services/MessageProcessorEndpointMqtt.java:253-271 | an idle endpoint with a complete configuration, a client that can be built, TLS (if on) set up and the will accepted asks the broker to connect with the configured URI, the chosen id and the configured options; the call completes exactly when the broker accepts, and otherwise ends in ERROR with a failed connection |
| EndpointSpec.ConnectCompletedLeavesConnecting | project/app/src/main/java/org/owntracks/android/services/MessageProcessorEndpointMqtt.java:264-271 | a connection that completes leaves a connected client with the chosen id and the state still CONNECTING |
| EndpointSpec.DisconnectOutcome | project/app/src/main/java/org/owntracks/android/services/MessageProcessorEndpointMqtt.java:453-474 | disconnecting while connecting changes nothing; otherwise the client is dropped and the state is DISCONNECTED, with the counter and the connection id untouched |
| EndpointSpec.ReconnectWhileConnecting | project/app/src/main/java/org/owntracks/android/services/MessageProcessorEndpointMqtt.java:487-491 | reconnecting while connecting only counts the attempt |
| EndpointSpec.ReconnectEscapes | project/app/src/main/java/org/owntracks/android/services/MessageProcessorEndpointMqtt.java:487-496 | `reconnect` catches a failed connection and an incomplete configuration; the will-topic `IllegalArgumentException` escapes it exactly when the endpoint is not connecting, the configuration is complete, the client is built, TLS (if on) is set up and the will topic is refused |
| EndpointSpec.OnConnectOutcome | project/app/src/main/java/org/owntracks/android/services/MessageProcessorEndpointMqtt.java:376-395 | after `onConnect` the state is CONNECTED (ERROR only if a subscription was refused), the counter is 0 and the client is unchanged; a refused subscription with `sub` on and a connected client does end in ERROR; with a null client CONNECTED is announced, the counter reset, and then `getConnectionId()` throws `NullPointerException` with nothing else done; contacts are cleared exactly when there is a client and a known previous connection id differs from its id; a null connection id stays null |
| EndpointSpec.OnConnectSubscribesOnce | project/app/src/main/java/org/owntracks/android/services/MessageProcessorEndpointMqtt.java:397-411 | `onConnect` makes a subscribe request exactly when `sub` is on and the client is connected, and then exactly one |
| EndpointSpec.OnConnectSubscriptions | project/app/src/main/java/org/owntracks/android/services/MessageProcessorEndpointMqtt.java:397-451 | a subscribe request is made only when `sub` is on and the client is connected; its topics are the sub topics plus the commands topic, strictly sorted, each once, and every QoS is the configured one |
| EndpointSpec.DefaultSubTopics | project/app/src/main/java/org/owntracks/android/services/MessageProcessorEndpointMqtt.java:414-423 | the default sub topic gives exactly itself and its events and waypoints topics, plus its info topic exactly when info is on |
| EndpointSpec.CustomSubTopics | project/app/src/main/java/org/owntracks/android/services/MessageProcessorEndpointMqtt.java:424-426 | any other sub topic gives exactly its `split(" ")` pieces, none holding a space; a sub topic without a space gives itself alone |
| EndpointSpec.DispatchParsed | project/app/src/main/java/org/owntracks/android/services/MessageProcessorEndpointMqtt.java:167-177 | a parsed message reaches `onMessageReceived` exactly when it is valid, carrying the transport's topic, retained flag and QoS |
| EndpointSpec.DispatchFailures | project/app/src/main/java/org/owntracks/android/services/MessageProcessorEndpointMqtt.java:178-189 | a decryption failure delivers nothing; a read failure delivers a clear request exactly when the payload is empty |
| EndpointSpec.ClearOnCardTopic | project/app/src/main/java/org/owntracks/android/services/MessageProcessorEndpointMqtt.java:180-185 | an empty message on `<device>/info` clears `<device>`, and so does one on `<device>` itself, when `<device>` does not contain `/info` |
| EndpointSpec.ConnectReportsNothing | project/app/src/main/java/org/owntracks/android/services/MessageProcessorEndpointMqtt.java:224-271 | a connection attempt makes no delivery callback |
| EndpointSpec.SendReportsOnce | project/app/src/main/java/org/owntracks/android/services/MessageProcessorEndpointMqtt.java:112-145 | `sendMessage` makes exactly one delivery callback, the one matching how it ended; only the uncaught will-topic exception makes none |
| EndpointSpec.SendOutcome | project/app/src/main/java/org/owntracks/android/services/MessageProcessorEndpointMqtt.java:112-145 | connect failure and incomplete configuration fail the send; serialisation failure is final; delivery needs both a usable connection and a completed publish; the fields are those the connection attempt left |
| EndpointSpec.PreferenceChangeReconnects | project/app/src/main/java/org/owntracks/android/services/MessageProcessorEndpointMqtt.java:548-569 | contacts are cleared and the endpoint reconnects exactly when the mode is 0 and the key is one of the twelve connection keys; otherwise nothing happens |
| EndpointSpec.ConnectKeepsInvariant | project/app/src/main/java/org/owntracks/android/services/MessageProcessorEndpointMqtt.java:224-271 | `connectToBroker` never leaves CONNECTING without a client |
| EndpointSpec.DisconnectKeepsInvariant | project/app/src/main/java/org/owntracks/android/services/MessageProcessorEndpointMqtt.java:453-474 | `disconnect` keeps the invariant that CONNECTING has a client |
| EndpointSpec.ReconnectKeepsInvariant | project/app/src/main/java/org/owntracks/android/services/MessageProcessorEndpointMqtt.java:90-110 | `reconnect` and `reconnectAndSendKeepalive` keep the invariant that CONNECTING has a client |
| EndpointSpec.OnConnectKeepsInvariant | project/app/src/main/java/org/owntracks/android/services/MessageProcessorEndpointMqtt.java:380-411 | `onConnect` keeps the invariant that CONNECTING has a client, with or without a client |
| EndpointSpec.ConnectKeepsClientWhenActive | project/app/src/main/java/org/owntracks/android/services/MessageProcessorEndpointMqtt.java:224-271 | `connectToBroker` never leaves CONNECTING or CONNECTED without a client when it started with one in those states |
| EndpointSpec.StepsKeepClientWhenActive | project/app/src/main/java/org/owntracks/android/services/MessageProcessorEndpointMqtt.java:90-164 | `disconnect`, `reconnect`, keepalive, `connectionLost`, the automatic reconnect, `onCreateFromProcessor`, `sendMessage` and the preference listener keep "CONNECTING or CONNECTED has a client" |
| EndpointSpec.OnConnectClientWhenActive | project/app/src/main/java/org/owntracks/android/services/MessageProcessorEndpointMqtt.java:376-395 | `onConnect` keeps "CONNECTING or CONNECTED has a client" exactly when the client is not null |
| EndpointSpec.RestoredConnectionResubscribes | project/app/src/main/java/org/owntracks/android/services/MessageProcessorEndpointMqtt.java:149-151 | after a lost connection, paho's automatic reconnect (`setAutomaticReconnect(true)`, line 357) makes the held client connected again while the state is DISCONNECTED; the `onConnect` that follows subscribes again, exactly once, exactly when `sub` is on (line 432), and a later `connectToBroker` returns at once with nothing announced (line 230) |
| EndpointSpec.DroppedClientReconnects | project/app/src/main/java/org/owntracks/android/services/MessageProcessorEndpointMqtt.java:149-151 | a client that lost its connection and was then dropped by `disconnect` can still complete paho's automatic reconnect (`setAutomaticReconnect(true)`, line 357); `onConnect` then leaves CONNECTED with no client and throws `NullPointerException` |
| EndpointSpec.OtherStepsKeepInvariant | project/app/src/main/java/org/owntracks/android/services/MessageProcessorEndpointMqtt.java:112-164 | `connectionLost`, the automatic reconnect, `onCreateFromProcessor`, `sendMessage` and the preference listener keep the invariant that CONNECTING has a client |
| EndpointSpec.ConnectionIdStaysNull | project/app/src/main/java/org/owntracks/android/services/MessageProcessorEndpointMqtt.java:389-393 | from a null `lastConnectionId` no single operation sets one, and `onConnect` then never clears contacts |
| EndpointSpec.BrokerChangeUnnoticed | project/app/src/main/java/org/owntracks/android/services/MessageProcessorEndpointMqtt.java:389-395 | as written, after a first connection from a null `lastConnectionId`, a second connection to a different broker or client id clears no contacts |
| EndpointSpec.RecordedIdDetectsBrokerChange | project/app/src/main/java/org/owntracks/android/services/MessageProcessorEndpointMqtt.java:389-395 | when every connection id is recorded, a later connection clears contacts exactly when its id differs from the previous one, and its own id is recorded |
| EndpointSpec.ComposedStepsKeepNullId | project/app/src/main/java/org/owntracks/android/services/MessageProcessorEndpointMqtt.java:480-500 | reconnect, keepalive, send and the preference listener leave a null `lastConnectionId` null |
| MqttEndpoint.Endpoint.constructor | project/app/src/main/java/org/owntracks/android/services/MessageProcessorEndpointMqtt.java:221 | a new endpoint has no state, no client, no connection id, a zero counter and has made no calls |
| MqttEndpoint.Endpoint.ChangeState | project/app/src/main/java/org/owntracks/android/services/MessageProcessorEndpointMqtt.java:515-521 | performs the `changeState` transition in place |
| MqttEndpoint.Endpoint.GetMqttConnectOptions | project/app/src/main/java/org/owntracks/android/services/MessageProcessorEndpointMqtt.java:274-374 | a TLS setup failure is ERROR and fails the connection; a refused will topic is ERROR_CONFIGURATION and throws; otherwise the options follow the settings and nothing changes |
| MqttEndpoint.Endpoint.ConnectToBroker | project/app/src/main/java/org/owntracks/android/services/MessageProcessorEndpointMqtt.java:224-272 | performs the `connectToBroker` transition in place, with its outcome, and keeps the invariant |
| MqttEndpoint.Endpoint.Disconnect | project/app/src/main/java/org/owntracks/android/services/MessageProcessorEndpointMqtt.java:453-474 | performs the `disconnect` transition in place |
| MqttEndpoint.Endpoint.Reconnect | project/app/src/main/java/org/owntracks/android/services/MessageProcessorEndpointMqtt.java:480-500 | disconnects when connected or connecting, then performs `connectToBroker`; a failed connection and an incomplete configuration are caught, and the will-topic `IllegalArgumentException` is returned as escaping |
| MqttEndpoint.Endpoint.ReconnectAndSendKeepalive | project/app/src/main/java/org/owntracks/android/services/MessageProcessorEndpointMqtt.java:90-110 | reconnects exactly when not connected, passing on the exception that escapes `reconnect` |
| MqttEndpoint.Endpoint.GetTopicsToSubscribeTo | project/app/src/main/java/org/owntracks/android/services/MessageProcessorEndpointMqtt.java:414-429 | builds the topic set characterised by `DefaultSubTopics` and `CustomSubTopics` |
| MqttEndpoint.Endpoint.GetSubTopicsQos | project/app/src/main/java/org/owntracks/android/services/MessageProcessorEndpointMqtt.java:447-451 | a fresh array with one entry per topic, each the configured sub QoS |
| MqttEndpoint.Endpoint.Subscribe | project/app/src/main/java/org/owntracks/android/services/MessageProcessorEndpointMqtt.java:431-445 | subscribes only when connected; a refused subscription is ERROR |
| MqttEndpoint.Endpoint.OnConnect | project/app/src/main/java/org/owntracks/android/services/MessageProcessorEndpointMqtt.java:380-411 | performs the `onConnect` transition in place, subscribing to the sorted topic array whenever `sub` is on and the client is connected, including after paho's automatic reconnect of the held client; with a null client it announces CONNECTED, resets the counter and ends in `NullPointerException` |
| MqttEndpoint.Endpoint.ConnectionLost | project/app/src/main/java/org/owntracks/android/services/MessageProcessorEndpointMqtt.java:160-164 | the client reports itself disconnected and the state becomes DISCONNECTED |
| MqttEndpoint.Endpoint.ConnectionRestored | project/app/src/main/java/org/owntracks/android/services/MessageProcessorEndpointMqtt.java:357 | paho's automatic reconnect of the held client: the client reports itself connected again, nothing else changes and no call is made; a dropped client's reconnect changes no field |
| MqttEndpoint.Endpoint.SendMessage | project/app/src/main/java/org/owntracks/android/services/MessageProcessorEndpointMqtt.java:112-145 | performs the `sendMessage` transition in place, with its outcome |
| MqttEndpoint.Endpoint.MessageArrived | project/app/src/main/java/org/owntracks/android/services/MessageProcessorEndpointMqtt.java:167-190 | hands `onMessageReceived` what `Dispatch` says and nothing else; no field changes |
| MqttEndpoint.Endpoint.OnDestroy | project/app/src/main/java/org/owntracks/android/services/MessageProcessorEndpointMqtt.java:533-536 | disconnects |
| MqttEndpoint.Endpoint.OnCreateFromProcessor | project/app/src/main/java/org/owntracks/android/services/MessageProcessorEndpointMqtt.java:539-545 | an incomplete configuration is ERROR_CONFIGURATION; otherwise nothing changes |
| MqttEndpoint.Endpoint.OnSharedPreferenceChanged | project/app/src/main/java/org/owntracks/android/services/MessageProcessorEndpointMqtt.java:548-569 | performs the preference-listener transition in place, passing on the exception that escapes `reconnect` |
| PreferenceMaps.PutTyped | project/app/src/main/java/org/owntracks/android/support/preferences/SharedPreferencesStore.kt:37-44 | the editor put picked by the value's type stores exactly that value under the key |
| PreferenceMaps.PutStringThenGet | project/app/src/main/java/org/owntracks/android/support/preferences/SharedPreferencesStore.kt:61-66 | after `putString(k, v)`, `getString(k, d)` returns `v`, or `d` when `v` is null; every other key is unchanged |
| PreferenceMaps.PutStringSetThenGet | project/app/src/main/java/org/owntracks/android/support/preferences/SharedPreferencesStore.kt:88-94 | after `putStringSet(k, v)`, `getStringSet(k, d)` returns `v`, or `d` when `v` is null; every other key is unchanged |
| PreferenceMaps.PutBooleanThenGet | project/app/src/main/java/org/owntracks/android/support/preferences/SharedPreferencesStore.kt:72-77 | after `putBoolean(k, v)`, `getBoolean(k, d)` returns `v`; every other key is unchanged |
| PreferenceMaps.PutIntThenGet | project/app/src/main/java/org/owntracks/android/support/preferences/SharedPreferencesStore.kt:80-86 | after `putInt(k, v)`, `getInt(k, d)` returns `v`; every other key is unchanged |
| PreferenceMaps.RemoveThenContains | project/app/src/main/java/org/owntracks/android/support/preferences/SharedPreferencesStore.kt:68-69 | after `remove(k)`, `contains(k)` is false and every other key is unchanged |
| PreferenceMaps.MigratedEntriesAt | project/app/src/main/java/org/owntracks/android/support/preferences/SharedPreferencesStore.kt:26-46 | a key is migrated exactly when some legacy store holds a supported value for it, and it takes the value of the last such store |
| PreferenceMaps.MigrationResult | project/app/src/main/java/org/owntracks/android/support/preferences/SharedPreferencesStore.kt:26-47 | after migration a key holds the `.http` value if there is one, else the `.private` value, else its old value |
| PreferencesStore.SharedPreferencesStore.constructor | project/app/src/main/java/org/owntracks/android/support/preferences/SharedPreferencesStore.kt:18-22 | the store starts as the existing map with the migration applied, and the legacy stores are cleared exactly when the commit succeeds |
| PreferencesStore.SharedPreferencesStore.MigrateToSingleSharedPreferences | project/app/src/main/java/org/owntracks/android/support/preferences/SharedPreferencesStore.kt:24-58 | the map gains every migrated entry, overwriting; the legacy stores are emptied if the commit succeeds and untouched otherwise |
| PreferencesStore.SharedPreferencesStore.PutAll | project/app/src/main/java/org/owntracks/android/support/preferences/SharedPreferencesStore.kt:35-45 | one pass over a legacy store adds exactly its supported entries to the editor |
| PreferencesStore.SharedPreferencesStore.PutString | project/app/src/main/java/org/owntracks/android/support/preferences/SharedPreferencesStore.kt:61-62 | the map becomes the `putString` edit of the old map |
| PreferencesStore.SharedPreferencesStore.Remove | project/app/src/main/java/org/owntracks/android/support/preferences/SharedPreferencesStore.kt:68-69 | the map loses the key |
| PreferencesStore.SharedPreferencesStore.PutBoolean | project/app/src/main/java/org/owntracks/android/support/preferences/SharedPreferencesStore.kt:76-77 | the map becomes the `putBoolean` edit of the old map |
| PreferencesStore.SharedPreferencesStore.PutInt | project/app/src/main/java/org/owntracks/android/support/preferences/SharedPreferencesStore.kt:84-86 | the map becomes the `putInt` edit of the old map |
| PreferencesStore.SharedPreferencesStore.PutStringSet | project/app/src/main/java/org/owntracks/android/support/preferences/SharedPreferencesStore.kt:88-90 | the map becomes the `putStringSet` edit of the old map |
| PreferencesStore.SharedPreferencesStore.GetString | project/app/src/main/java/org/owntracks/android/support/preferences/SharedPreferencesStore.kt:65-66 | the stored string, the default when the key is absent, and `ClassCastException` for a value of another type |
| PreferencesStore.SharedPreferencesStore.GetBoolean | project/app/src/main/java/org/owntracks/android/support/preferences/SharedPreferencesStore.kt:72-73 | the stored boolean, the default when the key is absent, and `ClassCastException` for a value of another type |
| PreferencesStore.SharedPreferencesStore.GetInt | project/app/src/main/java/org/owntracks/android/support/preferences/SharedPreferencesStore.kt:80-81 | the stored int, the default when the key is absent, and `ClassCastException` for a value of another type |
| PreferencesStore.SharedPreferencesStore.GetStringSet | project/app/src/main/java/org/owntracks/android/support/preferences/SharedPreferencesStore.kt:92-94 | the stored set, `defValues` when the key is absent, and `ClassCastException` for a value of another type |
| PreferencesStore.SharedPreferencesStore.Contains | project/app/src/main/java/org/owntracks/android/support/preferences/SharedPreferencesStore.kt:96-98 | true exactly when the key is stored |

## Left out

- The paho client's internals:
  - connect, publish, subscribe and ping are outcomes given as parameters;
  - delivery tokens and their 30-second wait are not modelled;
  - the `checkPing` of `reconnectAndSendKeepalive` is not modelled;
  - the `disconnect(0)` call and the `MqttException` it swallows are not modelled;
  - paho's automatic reconnection is modelled only by its outcome. `ConnectionRestored` marks the held client connected again, and the `onConnect` call that follows is modelled, also for a client the endpoint has already dropped. Its retry schedule and its failed attempts are not modelled.
- TLS material: the CA and client certificates, the hostname verifier and file streams. Only "TLS setup succeeded or failed" is kept. A missing certificate file is logged and ignored by the source, so it counts as success.
- Threading: the re-posting onto the network-handler thread, `Semaphore` release and `synchronized`. The main-thread check that throws `RuntimeException` is also left out. Every modelled call is one that already runs on the right thread. An exception that escapes `reconnect` is given as the outcome of the call that ran it. When the call was re-posted instead, the exception escapes on the network-handler thread.
- The scheduler calls: scheduling the ping, cancelling the ping, cancelling all tasks. Logging is left out too.
- The will message's payload, which holds a timestamp from the clock. The will's topic, QoS 0 and non-retained flag are modelled.
- The broker URI is kept as its parts: scheme, host and port. `getConnectionId()` is compared as the pair (URI, client id). The pair determines the string `<uri>/<id>`, but the converse fails where `java.net.URI` normalises the host: a bare IPv6 host gains brackets, so `::1` and `[::1]` give one string but two pairs. That normalisation is not modelled. For such hosts the model sees a broker change where the source sees none, which affects `RecordedIdDetectsBrokerChange`.
- `EndpointState`, `MessageCard`, the `Parser` and `ContactsRepo` are not part of this model.
  - `EndpointState` is taken as five constants, compared by identity. The error and message attached by `withError`/`withMessage` are not modelled.
  - `MessageCard.BASETOPIC_SUFFIX` is taken to be `/info`.
  - The default sub topic resource is taken to be `owntracks/+/+`.
  - The twelve preference-key resources are taken to be the names of the settings they stand for.
- `sendMessage` does not model what is published: `addMqttPreferences`, and the outgoing topic, QoS and retain flag. The message is reduced to its id and the publish to its outcome.
- `onMessageReceived`'s own processing after dispatch is not modelled. The same goes for the endpoint's constructor and listener registration, `getModeId` and `onFinalizeMessage`.
- `String.compareTo` compares UTF-16 code units. The model compares Unicode scalar values. The two orders differ only between supplementary characters and the range U+E000 to U+FFFF.
- `Float` preference values are kept as their 32-bit pattern; nothing computes with them.
- The preference store leaves out three things:
  - `deleteSharedPreferences`, which depends on the SDK version;
  - the asynchronous disk write of `apply()`;
  - listener registration.

  Commit success is a boolean input. Android's `commit()` applies an edit to the in-memory map before it writes to disk. So the migrated entries reach the unified map whether or not the commit succeeds; only the clearing of the legacy stores depends on it.

## Findings

| source | as written | input that shows it | evidently intended | confidence | as-written member | corrected member |
|---|---|---|---|---|---|---|
| project/app/src/main/java/org/owntracks/android/services/MessageProcessorEndpointMqtt.java:389-395 | `lastConnectionId` starts null and is assigned only when it is already non-null, so it stays null and contacts are never cleared on connect | connect to broker A, then to broker B: the second `onConnect` finds `lastConnectionId == null` and clears nothing | record the id of every connection, and clear contacts when a later connection's id differs | medium, not executed | EndpointSpec.BrokerChangeUnnoticed | EndpointSpec.RecordedIdDetectsBrokerChange |

The endpoint class keeps the behaviour as written (`AnnounceConnected`). The corrected step `AnnounceConnectedRecordingId` stands beside it with its property proved.
