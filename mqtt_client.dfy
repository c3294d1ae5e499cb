/** The MQTT wrapper `MQTT::Client`: frames are buffered while a device is
    connected in publisher mode and published in one message per timer tick;
    in subscriber mode, messages on the configured topic are handed to the
    I/O manager with a guaranteed end-of-line. The QMQTT client object is a
    value of `Connection`; every call the wrapper makes on it that reaches the
    network is appended to the `wire` log. */
module Mqtt {
  import opened Wrappers
  import Text

  type uint8 = x: int | 0 <= x < 0x100
  type uint16 = x: int | 0 <= x < 0x1_0000

  /** `MQTTClientMode`, in the order of `clientModes()`. */
  const Publisher := 0
  const Subscriber := 1

  /** `QMQTT::MQTTVersion`; any other value of the library's enum is `OtherVersion`. */
  datatype MqttVersion = V3_1_0 | V3_1_1 | OtherVersion(code: int)

  /** The `QSsl::SslProtocol` values offered by `sslProtocols()`, in that order. */
  datatype SslProtocol =
    | SecureProtocols | TlsV1_0 | TlsV1_1 | TlsV1_2 | TlsV1_3OrLater
    | DtlsV1_0 | DtlsV1_2 | DtlsV1_2OrLater

  /** The state of one `QMQTT::Client` object: its settings, whether it was
      built by the SSL constructor (and with which protocol) and whether it is
      connected to the broker. `hostName` is what `setHostName` writes and
      `hostName()` reads; `address` is the host the client was constructed
      with, what `host()` reads. */
  datatype Connection = Connection(
    hostName: string, address: string, port: uint16, qos: uint8, username: string, password: string,
    version: MqttVersion, retain: bool, keepAlive: uint16,
    ssl: Option<SslProtocol>, connected: bool)

  datatype Message = Message(id: uint16, topic: string, payload: string)

  /** The calls on the QMQTT client that reach the network. */
  datatype WireCall =
    | Publish(message: Message)
    | Subscribe(topic: string)
    | Unsubscribe(topic: string)
    | Connect
    | Disconnect

  /** `setMqttVersion`: the version an index selects, if any. */
  function VersionForIndex(index: int): (r: Option<MqttVersion>)
    ensures r.Some? <==> 0 <= index <= 1
    ensures r.Some? ==> !r.value.OtherVersion?
    ensures index == 0 ==> r == Some(V3_1_0)
    ensures index == 1 ==> r == Some(V3_1_1)
  {
    if index == 0 then Some(V3_1_0)
    else if index == 1 then Some(V3_1_1)
    else None
  }

  /** `mqttVersion()`: the index of a version, -1 for a version it does not list. */
  function VersionIndex(version: MqttVersion): (r: int)
    ensures -1 <= r <= 1
    ensures r == -1 <==> version.OtherVersion?
    ensures r != -1 ==> VersionForIndex(r) == Some(version)
  {
    match version
    case V3_1_0 => 0
    case V3_1_1 => 1
    case OtherVersion(_) => -1
  }

  /** Setting a listed index, then reading the index back, gives the same index. */
  lemma VersionRoundTrip(index: int)
    requires 0 <= index <= 1
    ensures VersionIndex(VersionForIndex(index).value) == index
  {
  }

  /** `setSslProtocol`: the protocol an index selects; indices outside 0..7 select none. */
  function ProtocolForIndex(index: int): (r: Option<SslProtocol>)
    ensures r.Some? <==> 0 <= index < 8
    ensures index == 0 ==> r == Some(SecureProtocols)
    ensures index == 1 ==> r == Some(TlsV1_0)
    ensures index == 2 ==> r == Some(TlsV1_1)
    ensures index == 3 ==> r == Some(TlsV1_2)
    ensures index == 4 ==> r == Some(TlsV1_3OrLater)
    ensures index == 5 ==> r == Some(DtlsV1_0)
    ensures index == 6 ==> r == Some(DtlsV1_2)
    ensures index == 7 ==> r == Some(DtlsV1_2OrLater)
  {
    match index
    case 0 => Some(SecureProtocols)
    case 1 => Some(TlsV1_0)
    case 2 => Some(TlsV1_1)
    case 3 => Some(TlsV1_2)
    case 4 => Some(TlsV1_3OrLater)
    case 5 => Some(DtlsV1_0)
    case 6 => Some(DtlsV1_2)
    case 7 => Some(DtlsV1_2OrLater)
    case _ => None
  }

  /** The position of a protocol in `sslProtocols()`. */
  function ProtocolIndex(protocol: SslProtocol): (r: int)
    ensures 0 <= r < 8 && ProtocolForIndex(r) == Some(protocol)
  {
    match protocol
    case SecureProtocols => 0
    case TlsV1_0 => 1
    case TlsV1_1 => 2
    case TlsV1_2 => 3
    case TlsV1_3OrLater => 4
    case DtlsV1_0 => 5
    case DtlsV1_2 => 6
    case DtlsV1_2OrLater => 7
  }

  /** Distinct indices select distinct protocols. */
  lemma ProtocolIndexRoundTrip(index: int)
    requires 0 <= index < 8
    ensures ProtocolIndex(ProtocolForIndex(index).value) == index
  {
  }

  /** The payload `sendData` publishes: every buffered frame followed by `"\n"`. */
  function Payload(frames: seq<string>): string
    decreases |frames|
  {
    if frames == [] then [] else frames[0] + "\n" + Payload(frames[1..])
  }

  lemma {:induction false} PayloadSnoc(frames: seq<string>, i: nat)
    requires i < |frames|
    ensures Payload(frames[..i + 1]) == Payload(frames[..i]) + frames[i] + "\n"
    decreases i
  {
    if i > 0 {
      PayloadSnoc(frames[1..], i - 1);
      assert frames[1..][..i] == frames[..i + 1][1..];
      assert frames[1..][..i - 1] == frames[..i][1..];
    } else {
      assert frames[..1] == [frames[0]];
      assert [frames[0]][1..] == [];
    }
  }

  /** The payload is empty exactly when the buffer is: each frame adds an end-of-line. */
  lemma PayloadEmptyIff(frames: seq<string>)
    ensures Payload(frames) == [] <==> frames == []
  {
    if frames != [] {
      assert |Payload(frames)| >= 1;
    }
  }

  /** The payload is the frames joined, and terminated, by `"\n"`. */
  lemma {:induction false} PayloadIsJoin(frames: seq<string>)
    ensures Payload(frames) == Text.Join(frames + [""], "\n")
    decreases |frames|
  {
    if frames != [] {
      PayloadIsJoin(frames[1..]);
      assert (frames + [""])[1..] == frames[1..] + [""];
      assert |frames + [""]| >= 2;
    }
  }

  /** A subscriber that splits the payload into lines gets the frames back,
      followed by the empty text after the last end-of-line, as long as no
      frame holds an end-of-line of its own. */
  lemma PayloadLines(frames: seq<string>)
    requires forall frame :: frame in frames ==> '\n' !in frame
    ensures Text.SplitOn(Payload(frames), "\n") == frames + [""]
  {
    PayloadIsJoin(frames);
    forall part | part in frames + [""]
      ensures "\n"[0] !in part
    {
    }
    Text.JoinSplitOnChar(frames + [""], "\n");
  }

  /** The loop of `sendData` that builds the message data. */
  method BuildPayload(frames: seq<string>) returns (data: string)
    ensures data == Payload(frames)
  {
    data := [];
    for i := 0 to |frames|
      invariant data == Payload(frames[..i])
    {
      PayloadSnoc(frames, i);
      data := data + frames[i] + "\n";
    }
    assert frames[..|frames|] == frames;
  }

  /** `onMessageReceived`: a payload that does not end in `'\n'` gets one. */
  function WithEol(payload: string): (r: string)
    ensures 1 <= |r| && |payload| <= |r| <= |payload| + 1
    ensures r[|r| - 1] == '\n'
    ensures r[..|payload|] == payload
    ensures |r| == |payload| <==> (|payload| >= 1 && payload[|payload| - 1] == '\n')
  {
    if |payload| >= 1 && payload[|payload| - 1] == '\n' then payload else payload + "\n"
  }

  /** Normalising twice is normalising once. */
  lemma WithEolIdempotent(payload: string)
    ensures WithEol(WithEol(payload)) == WithEol(payload)
  {
  }

  /** The payload `onMessageReceived` hands to the I/O manager, if any: only
      in subscriber mode and only for a topic equal to the configured one. */
  function Forwarded(mode: int, topic: string, message: Message): (r: Option<string>)
    ensures r.Some? <==> mode == Subscriber && message.topic == topic
    ensures r.Some? ==> r.value == WithEol(message.payload)
  {
    if mode != Subscriber then None
    else if topic != message.topic then None
    else Some(WithEol(message.payload))
  }

  /** `regenerateClient`: the client that replaces `previous`. It takes over
      the port, qos, credentials, version, retain flag and keep-alive of the
      previous client, and its construction address (not its host name), or
      the defaults (qos 0, keep-alive 60, MQTT 3.1.1, empty credentials, no
      retain) when there was none. It is built with the SSL configuration only
      when SSL is enabled, and it is not connected. */
  function Regenerated(previous: Option<Connection>, sslEnabled: bool, protocol: SslProtocol,
                       defaultHost: string, defaultPort: uint16): (r: Connection)
    ensures !r.connected
    ensures r.ssl == (if sslEnabled then Some(protocol) else None)
    ensures previous.Some? ==>
      r == previous.value.(hostName := previous.value.address, ssl := r.ssl, connected := false)
    ensures previous.None? ==>
      && r.hostName == defaultHost && r.address == defaultHost && r.port == defaultPort
      && r.qos == 0 && r.keepAlive == 60 && r.version == V3_1_1
      && r.username == "" && r.password == "" && !r.retain
  {
    var host := if previous.Some? then previous.value.address else defaultHost;
    var base := match previous
      case Some(c) => c
      case None => Connection(defaultHost, defaultHost, defaultPort, 0, "", "", V3_1_1, false, 60, None, false);
    base.(hostName := host, address := host,
          ssl := if sslEnabled then Some(protocol) else None, connected := false)
  }

  /** Regenerating twice with the same SSL settings is regenerating once. */
  lemma RegeneratedIdempotent(previous: Option<Connection>, sslEnabled: bool, protocol: SslProtocol,
                              defaultHost: string, defaultPort: uint16)
    ensures var once := Regenerated(previous, sslEnabled, protocol, defaultHost, defaultPort);
      Regenerated(Some(once), sslEnabled, protocol, defaultHost, defaultPort) == once
  {
  }

  /** A host name given with `setHost` after the client was constructed does
      not survive a regeneration: the new client takes the old construction
      address. */
  lemma RegeneratedForgetsHostName(previous: Connection, host: string, sslEnabled: bool,
                                   protocol: SslProtocol, defaultHost: string, defaultPort: uint16)
    requires host != previous.address
    ensures Regenerated(Some(previous.(hostName := host)), sslEnabled, protocol, defaultHost, defaultPort).hostName
            == previous.address != host
  {
  }

  class Client {
    var topic: string
    var sentMessages: nat
    var frames: seq<string>
    var clientMode: int
    var sslEnabled: bool
    /** `m_sslProtocol`, what `sslProtocol()` returns: nothing in the wrapper writes it. */
    var sslProtocol: int
    /** The protocol of `m_sslConfiguration`. */
    var sslConfigProtocol: SslProtocol
    /** `*m_client` */
    var connection: Connection
    var wire: seq<WireCall>
    /** The payloads handed to `IO::Manager::processPayload`. */
    var forwarded: seq<string>
    const defaultHost: string
    const defaultPort: uint16

    /** The initial SSL flag and protocol index are declared in `Client.h`,
        which is not part of this model, and so are parameters here. */
    constructor (defaultHost: string, defaultPort: uint16, sslEnabled: bool, sslProtocol: int)
      ensures this.defaultHost == defaultHost && this.defaultPort == defaultPort
      ensures topic == "" && sentMessages == 0 && frames == [] && clientMode == Publisher
      ensures this.sslEnabled == sslEnabled && this.sslProtocol == sslProtocol
      ensures sslConfigProtocol == SecureProtocols
      ensures connection == Regenerated(None, sslEnabled, SecureProtocols, defaultHost, defaultPort)
      ensures wire == [] && forwarded == []
    {
      this.defaultHost, this.defaultPort := defaultHost, defaultPort;
      topic, sentMessages, frames, clientMode := "", 0, [], Publisher;
      this.sslEnabled, this.sslProtocol, sslConfigProtocol := sslEnabled, sslProtocol, SecureProtocols;
      wire, forwarded := [], [];
      connection := Regenerated(None, sslEnabled, SecureProtocols, defaultHost, defaultPort);
    }

    /** `isSubscribed()`: a subscribed client hands on every message on its
        topic, and a client that is disconnected, has no topic or publishes is
        never subscribed. */
    predicate IsSubscribed()
      reads this
      ensures IsSubscribed() ==> forall m: Message :: m.topic == topic ==> Forwarded(clientMode, topic, m).Some?
      ensures !connection.connected || topic == "" || clientMode == Publisher ==> !IsSubscribed()
    {
      connection.connected && topic != "" && clientMode == Subscriber
    }

    /** `mqttVersion()`: -1 exactly for a version outside the list, otherwise
        the index that `setMqttVersion` maps back to the current version. */
    function MqttVersionIndex(): (r: int)
      reads this
      ensures -1 <= r <= 1
      ensures r == -1 <==> connection.version.OtherVersion?
      ensures r != -1 ==> VersionForIndex(r) == Some(connection.version)
    {
      VersionIndex(connection.version)
    }

    /** `onFrameReceived`: buffer a non-empty frame while a device is connected
        and the client publishes. */
    method OnFrameReceived(frame: string, deviceConnected: bool)
      modifies this`frames
      ensures frames == if deviceConnected && clientMode == Publisher && frame != []
                        then old(frames) + [frame] else old(frames)
    {
      if !deviceConnected {
        return;
      } else if clientMode != Publisher {
        return;
      }
      if frame != [] {
        frames := frames + [frame];
      }
    }

    /** `sendData`: publish the buffer as one message numbered by the sent
        counter (the QMQTT message id is 16 bits wide), then empty the buffer. */
    method SendData()
      modifies this`frames, this`sentMessages, this`wire
      ensures frames == []
      ensures old(frames) == [] ==> sentMessages == old(sentMessages) && wire == old(wire)
      ensures old(frames) != [] ==>
        && sentMessages == old(sentMessages) + 1
        && wire == old(wire) + [Publish(Message(old(sentMessages) % 0x1_0000, topic, Payload(old(frames))))]
    {
      var data := BuildPayload(frames);
      PayloadEmptyIff(frames);
      if data != [] {
        var message := Message(sentMessages % 0x1_0000, topic, data);
        wire := wire + [Publish(message)];
        sentMessages := sentMessages + 1;
      }
      frames := [];
    }

    /** `resetStatistics` */
    method ResetStatistics()
      modifies this`frames, this`sentMessages
      ensures sentMessages == 0 && frames == []
    {
      sentMessages := 0;
      frames := [];
    }

    /** `onMessageReceived` */
    method OnMessageReceived(message: Message)
      modifies this`forwarded
      ensures var f := Forwarded(clientMode, topic, message);
        forwarded == old(forwarded) + (if f.Some? then [f.value] else [])
    {
      if clientMode != Subscriber {
        return;
      }
      if topic != message.topic {
        return;
      }
      var payload := message.payload;
      if !(|payload| >= 1 && payload[|payload| - 1] == '\n') {
        payload := payload + "\n";
      }
      forwarded := forwarded + [payload];
    }

    /** `onConnectedChanged`, run when the QMQTT client reports that it
        connected or disconnected: subscribe to, or unsubscribe from, the topic. */
    method OnConnectedChanged(nowConnected: bool)
      modifies this`connection, this`wire
      ensures connection == old(connection).(connected := nowConnected)
      ensures wire == old(wire) + [if nowConnected then Subscribe(topic) else Unsubscribe(topic)]
    {
      connection := connection.(connected := nowConnected);
      if connection.connected {
        wire := wire + [Subscribe(topic)];
      } else {
        wire := wire + [Unsubscribe(topic)];
      }
    }

    method ConnectToHost()
      modifies this`wire
      ensures wire == old(wire) + [Connect]
    {
      wire := wire + [Connect];
    }

    method DisconnectFromHost()
      modifies this`wire
      ensures wire == old(wire) + [Disconnect]
    {
      wire := wire + [Disconnect];
    }

    /** `toggleConnection` */
    method ToggleConnection()
      modifies this`wire
      ensures wire == old(wire) + [if connection.connected then Disconnect else Connect]
    {
      if connection.connected {
        DisconnectFromHost();
      } else {
        ConnectToHost();
      }
    }

    /** `regenerateClient`: disconnect and drop the old client, build its
        replacement. The replacement is not connected, so nothing is
        subscribed afterwards. */
    method RegenerateClient()
      modifies this`connection, this`wire
      ensures connection == Regenerated(Some(old(connection)), sslEnabled, sslConfigProtocol, defaultHost, defaultPort)
      ensures wire == old(wire) + [Disconnect]
      ensures !IsSubscribed()
    {
      var previous := connection;
      wire := wire + [Disconnect];
      connection := Regenerated(Some(previous), sslEnabled, sslConfigProtocol, defaultHost, defaultPort);
    }

    /** `setMqttVersion`: indices 0 and 1 select MQTT 3.1 and 3.1.1, others change nothing. */
    method SetMqttVersion(index: int)
      modifies this`connection
      ensures VersionForIndex(index).Some? ==> connection == old(connection).(version := VersionForIndex(index).value)
      ensures VersionForIndex(index).None? ==> connection == old(connection)
      ensures 0 <= index <= 1 ==> MqttVersionIndex() == index
      ensures !(0 <= index <= 1) ==> MqttVersionIndex() == old(MqttVersionIndex())
    {
      if index == 0 {
        connection := connection.(version := V3_1_0);
      } else if index == 1 {
        connection := connection.(version := V3_1_1);
      }
    }

    /** `setSslProtocol`: indices outside 0..7 leave the SSL configuration as
        it was; the client is regenerated either way. */
    method SetSslProtocol(index: int)
      modifies this`sslConfigProtocol, this`connection, this`wire
      ensures sslConfigProtocol == (match ProtocolForIndex(index) case Some(p) => p case None => old(sslConfigProtocol))
      ensures connection == Regenerated(Some(old(connection)), sslEnabled, sslConfigProtocol, defaultHost, defaultPort)
      ensures wire == old(wire) + [Disconnect]
      ensures sslProtocol == old(sslProtocol)
    {
      var protocol := ProtocolForIndex(index);
      if protocol.Some? {
        sslConfigProtocol := protocol.value;
      }
      RegenerateClient();
    }

    /** `setSslEnabled` */
    method SetSslEnabled(enabled: bool)
      modifies this`sslEnabled, this`connection, this`wire
      ensures sslEnabled == enabled
      ensures connection == Regenerated(Some(old(connection)), enabled, sslConfigProtocol, defaultHost, defaultPort)
      ensures wire == old(wire) + [Disconnect]
      ensures !IsSubscribed()
    {
      sslEnabled := enabled;
      RegenerateClient();
    }

    method SetQos(qos: uint8)
      modifies this`connection
      ensures connection == old(connection).(qos := qos)
    {
      connection := connection.(qos := qos);
    }

    method SetRetain(retain: bool)
      modifies this`connection
      ensures connection == old(connection).(retain := retain)
    {
      connection := connection.(retain := retain);
    }

    method SetPort(port: uint16)
      modifies this`connection
      ensures connection == old(connection).(port := port)
    {
      connection := connection.(port := port);
    }

    /** `setHost` changes the host name only, not the construction address. */
    method SetHost(host: string)
      modifies this`connection
      ensures connection == old(connection).(hostName := host)
    {
      connection := connection.(hostName := host);
    }

    method SetUsername(username: string)
      modifies this`connection
      ensures connection == old(connection).(username := username)
    {
      connection := connection.(username := username);
    }

    method SetPassword(password: string)
      modifies this`connection
      ensures connection == old(connection).(password := password)
    {
      connection := connection.(password := password);
    }

    method SetKeepAlive(keepAlive: uint16)
      modifies this`connection
      ensures connection == old(connection).(keepAlive := keepAlive)
    {
      connection := connection.(keepAlive := keepAlive);
    }

    method SetClientMode(mode: int)
      modifies this`clientMode
      ensures clientMode == mode
    {
      clientMode := mode;
    }

    method SetTopic(topic: string)
      modifies this`topic
      ensures this.topic == topic
    {
      this.topic := topic;
    }
  }
}
