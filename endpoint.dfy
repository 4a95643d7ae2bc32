/** The MQTT endpoint object (MessageProcessorEndpointMqtt.java): its fields
    change in place, and each method is proved to perform exactly the
    corresponding step of EndpointSpec. The calls it makes on its
    collaborators are appended to `events`; the broker, the parser and the
    random client id are parameters. */
module MqttEndpoint {
  import opened Support
  import opened Text
  import opened EndpointSpec

  /** The preferences object the endpoint reads (never writes). */
  class Preferences {
    var settings: Settings

    constructor (initial: Settings)
      ensures settings == initial
    {
      settings := initial;
    }
  }

  class Endpoint {
    var state: Option<EndpointState>
    var mqttClient: Option<Client>
    var lastConnectionId: Option<ConnectionId>
    var sendMessageConnectPressure: int32
    /** Calls made on the message processor, the contacts repository and the client. */
    var events: seq<Event>
    const preferences: Preferences

    function Snap(): Snapshot
      reads this
    {
      Snapshot(state, mqttClient, lastConnectionId, sendMessageConnectPressure)
    }

    predicate Valid()
      reads this
    {
      Invariant(Snap())
    }

    function Config(): Settings
      reads this, preferences
    {
      preferences.settings
    }

    constructor (prefs: Preferences)
      ensures preferences == prefs
      ensures Snap() == Initial() && events == []
      ensures Valid()
    {
      preferences := prefs;
      state := None;
      mqttClient := None;
      lastConnectionId := None;
      sendMessageConnectPressure := 0;
      events := [];
    }

    method ChangeState(newState: EndpointState)
      modifies this
      ensures var st := EndpointSpec.ChangeState(old(Snap()), newState);
        Snap() == st.after && events == old(events) + st.emitted
    {
      if state == Some(newState) {
        return;
      }
      state := Some(newState);
      events := events + [StateChanged(newState)];
    }

    /** getMqttConnectOptions with setWill: a failure to set up TLS is ERROR,
        a will topic paho refuses is ERROR_CONFIGURATION. */
    method GetMqttConnectOptions(outcome: BrokerOutcome) returns (options: ConnectOptions, failure: Option<ConnectResult>)
      modifies this
      ensures var cfg := Config();
        && (cfg.tls && !outcome.tlsReady ==>
              failure == Some(ConnectionFailed)
              && Snap() == EndpointSpec.ChangeState(old(Snap()), Error).after
              && events == old(events) + EndpointSpec.ChangeState(old(Snap()), Error).emitted)
        && (!(cfg.tls && !outcome.tlsReady) && !outcome.willAccepted ==>
              failure == Some(WillTopicRejected)
              && Snap() == EndpointSpec.ChangeState(old(Snap()), ErrorConfiguration).after
              && events == old(events) + EndpointSpec.ChangeState(old(Snap()), ErrorConfiguration).emitted)
        && (!(cfg.tls && !outcome.tlsReady) && outcome.willAccepted ==>
              failure == None && options == ConnectOptionsFor(cfg)
              && Snap() == old(Snap()) && events == old(events))
    {
      var cfg := preferences.settings;
      options := ConnectOptionsFor(cfg);
      failure := None;
      if cfg.tls && !outcome.tlsReady {
        ChangeState(Error);
        failure := Some(ConnectionFailed);
        return;
      }
      if !outcome.willAccepted {
        ChangeState(ErrorConfiguration);
        failure := Some(WillTopicRejected);
        return;
      }
    }

    method ConnectToBroker(outcome: BrokerOutcome, clientId: ClientIdNumber) returns (result: ConnectResult)
      requires Valid()
      modifies this
      ensures Valid()
      ensures var st := ConnectStep(old(Snap()), Config(), outcome, clientId);
        Snap() == st.after && events == old(events) + st.emitted && result == st.result
    {
      ghost var before := Snap();
      sendMessageConnectPressure := Inc32(sendMessageConnectPressure);
      if EndpointSpec.IsConnected(Snap()) {
        if state.Some? {
          ChangeState(state.value);
        }
        return AlreadyConnected;
      }
      if EndpointSpec.IsConnecting(Snap()) {
        return AlreadyConnecting;
      }
      var cfg := preferences.settings;
      if !ConfigurationComplete(cfg) {
        ChangeState(ErrorConfiguration);
        return ConfigurationIncomplete;
      }
      ChangeState(Connecting);
      ghost var connecting, logged := Snap(), events;
      ghost var attempt := ConnectAttempt(connecting, cfg, outcome, clientId);
      if !outcome.clientBuilt {
        ChangeState(Error);
        return ConnectionFailed;
      }
      var client := Client(BrokerUri(SchemeFor(cfg.tls, cfg.ws), cfg.host, cfg.port), clientId, false);
      mqttClient := Some(client);
      var options, failure := GetMqttConnectOptions(outcome);
      if failure.Some? {
        return failure.value;
      }
      events := events + [ConnectRequested(client.serverUri, clientId, options)];
      if outcome.connectAccepted {
        mqttClient := Some(client.(connected := true));
        return ConnectCompleted;
      }
      ChangeState(Error);
      result := ConnectionFailed;
      ConnectKeepsInvariant(before, cfg, outcome, clientId);
    }

    method Disconnect()
      requires Valid()
      modifies this
      ensures Valid()
      ensures var st := DisconnectStep(old(Snap()));
        Snap() == st.after && events == old(events) + st.emitted
    {
      if EndpointSpec.IsConnecting(Snap()) {
        return;
      }
      mqttClient := None;
      ChangeState(Disconnected);
    }

    /** reconnect, as run on the network handler thread: a failed connection
        and an incomplete configuration are caught, the will-topic exception
        escapes. */
    method Reconnect(outcome: BrokerOutcome, clientId: ClientIdNumber) returns (completion: Completion)
      requires Valid()
      modifies this
      ensures Valid()
      ensures var st := ReconnectStep(old(Snap()), Config(), outcome, clientId);
        Snap() == st.after && events == old(events) + st.emitted && completion == st.result
    {
      ghost var before, logged := Snap(), events;
      ghost var d := ReconnectDisconnect(before);
      if EndpointSpec.IsConnected(Snap()) || EndpointSpec.IsConnecting(Snap()) {
        Disconnect();
      }
      assert Snap() == d.after && events == logged + d.emitted;
      var connected := ConnectToBroker(outcome, clientId);
      assert events == logged + d.emitted + ConnectStep(d.after, Config(), outcome, clientId).emitted;
      completion := if connected == WillTopicRejected then ThrewIllegalArgument else ReturnedNormally;
    }

    method ReconnectAndSendKeepalive(outcome: BrokerOutcome, clientId: ClientIdNumber)
      returns (completion: Completion)
      requires Valid()
      modifies this
      ensures Valid()
      ensures var st := KeepaliveStep(old(Snap()), Config(), outcome, clientId);
        Snap() == st.after && events == old(events) + st.emitted && completion == st.result
    {
      completion := ReturnedNormally;
      if !EndpointSpec.IsConnected(Snap()) {
        completion := Reconnect(outcome, clientId);
      }
    }

    /** getTopicsToSubscribeTo: fills a sorted set, which removes duplicates. */
    method GetTopicsToSubscribeTo(subTopics: string, subscribeToInfo: bool, infoTopicSuffix: string,
                                  eventsTopicSuffix: string, waypointsTopicSuffix: string)
      returns (topics: set<string>)
      ensures topics == TopicsToSubscribeTo(subTopics, subscribeToInfo, infoTopicSuffix,
                                            eventsTopicSuffix, waypointsTopicSuffix)
    {
      topics := {};
      if subTopics == DefaultSubTopic {
        topics := topics + {subTopics};
        if subscribeToInfo {
          topics := topics + {subTopics + infoTopicSuffix};
        }
        topics := topics + {subTopics + eventsTopicSuffix};
        topics := topics + {subTopics + waypointsTopicSuffix};
      } else {
        topics := topics + (set p | p in Split(subTopics));
      }
    }

    /** getSubTopicsQos: a fresh array, one entry per topic, each the configured QoS. */
    method GetSubTopicsQos(topics: seq<string>) returns (qos: array<int>)
      ensures fresh(qos)
      ensures qos[..] == SubTopicsQos(topics, Config().subQos)
    {
      qos := new int[|topics|];
      var i := 0;
      while i < qos.Length
        invariant 0 <= i <= qos.Length
        invariant forall j :: 0 <= j < i ==> qos[j] == preferences.settings.subQos
      {
        qos[i] := preferences.settings.subQos;
        i := i + 1;
      }
    }

    method Subscribe(topics: seq<string>, accepted: bool)
      modifies this
      ensures var st := SubscribeStep(old(Snap()), topics, Config().subQos, accepted);
        Snap() == st.after && events == old(events) + st.emitted
    {
      if !EndpointSpec.IsConnected(Snap()) {
        return;
      }
      var qos := GetSubTopicsQos(topics);
      events := events + [SubscribeRequested(topics, qos[..])];
      if !accepted {
        ChangeState(Error);
      }
    }

    /** onConnect, run from paho's connectComplete callback, which any client
        the endpoint built can make, even one it has since dropped. */
    method OnConnect(subscribeAccepted: bool) returns (completion: Completion)
      requires Valid()
      modifies this
      ensures Valid()
      ensures var st := OnConnectStep(old(Snap()), Config(), subscribeAccepted);
        Snap() == st.after && events == old(events) + st.emitted && completion == st.result
    {
      ghost var before, logged := Snap(), events;
      ChangeState(Connected);
      sendMessageConnectPressure := 0;
      if mqttClient.None? {
        // getConnectionId() dereferences the null client
        return ThrewNullPointer;
      }
      completion := ReturnedNormally;
      var connectionId := ConnectionIdOf(mqttClient.value);
      if lastConnectionId.Some? && lastConnectionId.value != connectionId {
        events := events + [ContactsCleared];
        lastConnectionId := Some(connectionId);
      }
      ghost var announced := AnnounceConnected(before);
      assert Snap() == announced.after && events == logged + announced.emitted;
      var cfg := preferences.settings;
      if !cfg.sub {
        return;
      }
      var topics := GetTopicsToSubscribeTo(cfg.subTopic, cfg.info, cfg.pubTopicInfoPart,
                                           cfg.pubTopicEventsPart, cfg.pubTopicWaypointsPart);
      topics := topics + {cfg.pubTopicBase + cfg.pubTopicCommandsPart};
      assert topics == SubscriptionTopics(cfg);
      var sorted := SortedMembers(topics);
      EnumerationIsUnique(sorted, topics);
      Subscribe(sorted, subscribeAccepted);
      ghost var subscribed := SubscribeStep(announced.after, sorted, cfg.subQos, subscribeAccepted);
      assert Snap() == subscribed.after && events == logged + (announced.emitted + subscribed.emitted);
      OnConnectKeepsInvariant(before, cfg, subscribeAccepted);
    }

    /** connectionLost: paho reports the client disconnected. */
    method ConnectionLost()
      requires Valid()
      modifies this
      ensures Valid()
      ensures var st := ConnectionLostStep(old(Snap()));
        Snap() == st.after && events == old(events) + st.emitted
    {
      if mqttClient.Some? {
        mqttClient := Some(mqttClient.value.(connected := false));
      }
      ChangeState(Disconnected);
    }

    /** paho's automatic reconnect of the held client succeeded; the
        connectComplete callback (OnConnect) comes next. */
    method ConnectionRestored()
      requires Valid()
      modifies this
      ensures Valid()
      ensures var st := ConnectionRestoredStep(old(Snap()));
        Snap() == st.after && events == old(events) + st.emitted
    {
      if mqttClient.Some? {
        mqttClient := Some(mqttClient.value.(connected := true));
      }
    }

    method SendMessage(m: OutgoingMessage, outcome: BrokerOutcome, clientId: ClientIdNumber,
                       publish: PublishOutcome) returns (result: SendResult)
      requires Valid()
      modifies this
      ensures Valid()
      ensures var st := SendStep(old(Snap()), Config(), m, outcome, clientId, publish);
        Snap() == st.after && events == old(events) + st.emitted && result == st.result
    {
      var connected := ConnectToBroker(outcome, clientId);
      if connected == ConnectionFailed {
        events := events + [MessageDeliveryFailed(m.messageId)];
        return SendConnectFailed;
      }
      if connected == ConfigurationIncomplete {
        events := events + [MessageDeliveryFailed(m.messageId)];
        return SendConfigurationIncomplete;
      }
      if connected == WillTopicRejected {
        return SendAborted;
      }
      if publish == SerializationFails {
        events := events + [MessageDeliveryFailedFinal(m.messageId)];
        return SendSerializationFailed;
      }
      if publish == PublishFails {
        events := events + [MessageDeliveryFailed(m.messageId)];
        return SendPublishFailed;
      }
      events := events + [MessageDelivered(m.messageId)];
      result := Sent;
    }

    /** messageArrived: hand a valid message, or the clear request an empty
        payload stands for, to onMessageReceived. */
    method MessageArrived(topic: string, payload: seq<bv8>, parsed: ParseOutcome, retained: bool, qos: int)
      modifies this
      ensures Snap() == old(Snap())
      ensures var d := Dispatch(topic, payload, parsed, retained, qos);
        events == old(events) + (if d.Some? then [MessageReceived(d.value)] else [])
    {
      match parsed
      case Parsed(message) =>
        if !message.valid {
          return;
        }
        events := events + [MessageReceived(Received(message.messageType, topic, retained, qos))];
      case DecryptionFails =>
      case ReadFails =>
        if |payload| == 0 {
          events := events + [MessageReceived(ClearRequest(RemoveAll(topic, BaseTopicSuffix)))];
        }
    }

    method OnDestroy()
      requires Valid()
      modifies this
      ensures Valid()
      ensures var st := DisconnectStep(old(Snap()));
        Snap() == st.after && events == old(events) + st.emitted
    {
      Disconnect();
    }

    method OnCreateFromProcessor()
      requires Valid()
      modifies this
      ensures Valid()
      ensures var st := CreateStep(old(Snap()), Config());
        Snap() == st.after && events == old(events) + st.emitted
    {
      if !ConfigurationComplete(preferences.settings) {
        ChangeState(ErrorConfiguration);
      }
    }

    method OnSharedPreferenceChanged(key: string, outcome: BrokerOutcome, clientId: ClientIdNumber)
      returns (completion: Completion)
      requires Valid()
      modifies this
      ensures Valid()
      ensures var st := PreferenceChangedStep(old(Snap()), Config(), key, outcome, clientId);
        Snap() == st.after && events == old(events) + st.emitted && completion == st.result
    {
      completion := ReturnedNormally;
      if preferences.settings.mode != MODE_ID {
        return;
      }
      if key in ConnectionKeys {
        ghost var before, logged := Snap(), events;
        ghost var reconnected := ReconnectStep(before, Config(), outcome, clientId);
        events := events + [ContactsCleared];
        completion := Reconnect(outcome, clientId);
        assert Snap() == reconnected.after;
        assert events == logged + ([ContactsCleared] + reconnected.emitted);
      }
    }
  }
}
