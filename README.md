# Serial Studio frame generator and MQTT client, modelled in Dafny

This project models two components of Serial Studio.

- **`JSON::Generator`** turns the frames the I/O manager receives into JSON frame records. In automatic mode the frame is the JSON document itself. In manual mode the frame is split into fields on the separator sequence, and the fields replace the placeholders `%1`, `%2`, ... in a user-supplied JSON map. Then every dataset value `"v"` of every group is run through a JavaScript engine, and a successful result replaces the value. A record is emitted only when the JSON parse succeeds. The generator also counts frames, gates delivery on an active data source, and keeps the JSON map file and the setting that remembers its location.
- **`MQTT::Client`** buffers frames while a device is connected in publisher mode. It publishes the buffer as one message, each frame followed by `"\n"`, and numbers the messages with a counter. In subscriber mode it hands messages on its topic to the I/O manager, ending each payload in `'\n'`. It maps list indices to MQTT versions and SSL protocols. When the SSL settings change it rebuilds the underlying QMQTT client and carries the old client's settings over.

Modules:

- `Wrappers`: `Option`.
- `Text`: `std::string::find` as `IndexOf`, `QString::split` as `Split`, and `Join`, with their round trips.
- `Json`: the JSON value and Qt's lenient accessors. `toObject` of a non-object gives `{}`, `toArray` of a non-array gives `[]`, and `toString` of a non-string gives `""`.
- `Placeholder`: the substitution loops, as methods proved against the functions `Replace` and `Substituted`.
- `DocumentBuilder`: the nested evaluation loops, as methods proved against `Built`.
- `Pipeline`: the body that `processFrame` and `JSONWorker::process` share, proved against `Processed`.
- `Generator`: the `Generator` class, with its counter, mode, map and emitted records.
- `Mqtt`: the `Client` class, its QMQTT client as a `Connection` value, and a log of the calls that reach the network.

Foreign components are parameters.

- The JSON parser `QJsonDocument::fromJson` is `parse: string -> Option<Value>`.
- The JavaScript engine is `eval: (seq<string>, string) -> Option<string>`. The engine's state is the sequence of scripts it has already evaluated, and `eval` gives the result, or the error, of one more script in that state.
  - The inline path keeps that history in the generator: `m_engine` lives as long as the generator.
  - A worker starts from the empty history: it creates its engine per frame.
- The clock (`QDateTime::currentDateTime`) is a `Timestamp` parameter.
- The file contents read by `loadJsonMap` are an `Option<string>` parameter, with `None` when the file cannot be opened.
- The CSV player and I/O manager state is the `Io` value.
- The saved setting is the `savedPath` field.

In these places the code does something a reader might not expect; the model follows the code:

- `%1` also matches the first two characters of `%10` (`Placeholder.SubstitutedPrefixCapture`).
- A later id also rewrites text that an earlier field inserted, because each id rescans the whole text (`Placeholder.SubstitutedRescans`). The field values are therefore not inserted verbatim.
- A worker shares one engine among all datasets of its frame. It is fresh per frame, not per dataset.
- When the map file cannot be read or does not parse, the map is closed and emptied and `""` is saved. The previously loaded map is not kept (`Generator.Generator.LoadJsonMap`).
- The inline path emits its record directly, without the data-source gate of `loadJFI`. The worker path goes through `loadJFI` (`Generator.Generator.ReadData`).
- `setSslProtocol` changes the SSL configuration but never `m_sslProtocol`, so `sslProtocol()` does not reflect it (`Mqtt.Client.SetSslProtocol`).
- `regenerateClient` carries over the old client's construction address (`host()`), not the host name that `setHost` sets (`hostName()`). A host name set after construction is therefore lost when the client is rebuilt (`Mqtt.RegeneratedForgetsHostName`).

## Model

| member | source | states |
|---|---|---|
| Text.IndexOf | src/JSON/Generator.cpp:353 | `find` from a position: the first occurrence at or after it, or -1 when there is none after it |
| Text.SplitJoin | src/JSON/Generator.cpp:346 | joining the split fields with the separator gives the frame text back, for an empty separator too |
| Text.SplitOnJoin | src/JSON/Generator.cpp:346 | splitting on a non-empty separator and joining again is the identity |
| Text.SplitOnPartsFree | src/JSON/Generator.cpp:346 | no field of a split on a non-empty separator contains the separator |
| Text.JoinSplitOnChar | src/MQTT/Client.cpp:525-530 | joining separator-free parts with a one-character separator and splitting again gives the parts back |
| Placeholder.Decimal | src/JSON/Generator.cpp:350 | `std::to_string`: only digits, no leading zero, and the digits denote the number |
| Placeholder.Id | src/JSON/Generator.cpp:350 | an id is `%` followed by at least one digit |
| Placeholder.ReplaceAll | src/JSON/Generator.cpp:349-357 | the find/replace loop for one id ends, and its result is the text between the leftmost non-overlapping occurrences of the id joined by the value |
| Placeholder.Substitute | src/JSON/Generator.cpp:344-358 | the loop over the fields replaces `%1` by the first field, then `%2` by the second, and so on, each in the text the earlier ids left |
| Placeholder.ReplaceCharacterization | src/JSON/Generator.cpp:353-357 | the pieces between occurrences rebuild the text, the result is those pieces joined by the value, and no piece contains the id |
| Placeholder.ReplaceAbsent | src/JSON/Generator.cpp:353 | a text without the id is left unchanged |
| Placeholder.ReplaceLeading | src/JSON/Generator.cpp:353-357 | an id at the front of a text whose rest holds no other occurrence becomes the value followed by the rest, even when the value holds the id |
| Placeholder.ReplaceNoReexpansion | src/JSON/Generator.cpp:355-356 | a value holding the id itself is not replaced again by that id |
| Placeholder.SubstitutedUntouched | src/JSON/Generator.cpp:347-358 | a template holding none of the ids `%1..%n` is returned unchanged |
| Placeholder.IdPrefix | src/JSON/Generator.cpp:350 | the id of `10k+d` is the id of `k` followed by the digit `d` |
| Placeholder.SubstitutedPrefixCapture | src/JSON/Generator.cpp:350-357 | with one field, `%1d` becomes the field followed by `d` |
| Placeholder.SubstitutedRescans | src/JSON/Generator.cpp:347-358 | a first field that is `%2` is itself replaced by the second field |
| Placeholder.ReplaceKeeps | src/JSON/Generator.cpp:353-357 | an occurrence of an id survives the replacement of another id when neither is a prefix of the other, whatever the value |
| Placeholder.IdNotPrefixOfLater | src/JSON/Generator.cpp:350 | the id of a larger number is never a prefix of the id of a smaller one |
| Placeholder.SubstitutedKeepsId | src/JSON/Generator.cpp:347-358 | an id `%k` beyond the field count stays in the text, whatever the fields hold, as long as none of `%1..%n` is a prefix of it (the `%1`/`%10` capture above is the exception) |
| Placeholder.SubstitutedMissingField | src/JSON/Generator.cpp:347-358 | one example: with the fields `10` and `20`, the template `%1,%3` becomes `10,%3`, which still holds `%3` |
| DocumentBuilder.Evaluated | src/JSON/Generator.cpp:384-389 | an evaluation error keeps the dataset; a result sets `"v"` to the result text and keeps every other key |
| DocumentBuilder.EvaluateDatasets | src/JSON/Generator.cpp:374-392 | the inner loop yields the evaluated datasets in order, the engine having run every dataset's script |
| DocumentBuilder.EvaluateGroups | src/JSON/Generator.cpp:367-396 | the outer loop yields the evaluated groups in order, the engine having run every group's scripts in document order |
| DocumentBuilder.Evaluate | src/JSON/Generator.cpp:364-400 | the pass builds the document `Built` specifies and leaves the engine having run all scripts in document order |
| DocumentBuilder.BuiltShape | src/JSON/Generator.cpp:364-400 | the built document keeps the number and order of groups and datasets, changes no keys but `"g"`, `"d"` and `"v"`, and evaluates each dataset after the scripts of all datasets before it |
| DocumentBuilder.BuiltUnchangedWhenAllFail | src/JSON/Generator.cpp:384-392 | if every evaluation errors, a well-formed document is built back unchanged |
| Pipeline.Processed | src/JSON/Generator.cpp:325-408 | automatic mode: a record iff the frame parses, holding the parsed document. Manual mode with no map: nothing. Otherwise: a record iff the substituted map parses, holding the built document, and the engine has then run that document's scripts. The record carries the given frame number and time |
| Pipeline.ProcessFrame | src/JSON/Generator.cpp:325-408 | the body of `processFrame` computes what `Processed` specifies |
| Pipeline.WorkerProcess | src/JSON/Generator.cpp:431-520 | the worker computes the same record on an engine with no history |
| Pipeline.SingleDatasetEvaluated | src/JSON/Generator.cpp:378-392 | a dataset's script is replaced by its result, or kept when it errors |
| Generator.BaseName | src/JSON/Generator.cpp:81-90 | `fileName()`: the longest suffix of the path without `'/'` |
| Generator.Generator.constructor | src/JSON/Generator.cpp:45-57 | counter 0, automatic mode, inline processing, and the saved map loaded if a location is saved |
| Generator.Generator.ReadSettings | src/JSON/Generator.cpp:224-229 | an empty saved location loads nothing; otherwise the map at that location is loaded |
| Generator.Generator.LoadJsonMap | src/JSON/Generator.cpp:140-192 | empty path: no change. A file that opens and parses: open, its contents loaded, its path saved. Otherwise: closed, empty, `""` saved. Map data is only held while the file is open |
| Generator.Generator.JsonMapFilename | src/JSON/Generator.cpp:81-90 | no `'/'`, and empty while no map is open |
| Generator.Generator.JsonMapFilepath | src/JSON/Generator.cpp:95-104 | the path of the open map file, empty while none is open; the file name is its last component and a suffix of it |
| Generator.Generator.SetOperationMode | src/JSON/Generator.cpp:207-211 | the mode becomes the given one |
| Generator.Generator.SetProcessFramesInSeparateThread | src/JSON/Generator.cpp:216-219 | the threading flag becomes the given one |
| Generator.Generator.Reset | src/JSON/Generator.cpp:271-275 | the counter is 0 and an empty record is emitted |
| Generator.Generator.LoadJfi | src/JSON/Generator.cpp:237-248 | the record is emitted iff CSV replay, a connected device or an MQTT subscription is active; otherwise the generator resets |
| Generator.Generator.LoadJson | src/JSON/Generator.cpp:261-266 | the document is counted and delivered through the gate under the new count |
| Generator.Generator.ProcessFrame | src/JSON/Generator.cpp:325-408 | the inline path emits its record directly and advances the shared engine |
| Generator.Generator.ReadData | src/JSON/Generator.cpp:290-319 | during CSV replay or for empty data nothing changes. Otherwise the counter grows by one before processing, even when no record results. Inline frames emit directly; worker frames start a fresh engine and go through the gate |
| Mqtt.VersionForIndex | src/MQTT/Client.cpp:498-515 | indices 0 and 1 select MQTT 3.1 and 3.1.1, others none |
| Mqtt.VersionIndex | src/MQTT/Client.cpp:127-143 | -1 exactly for an unlisted version, otherwise the index that selects it |
| Mqtt.Client.MqttVersionIndex | src/MQTT/Client.cpp:127-143 | the client's version index is in -1..1, -1 exactly for an unlisted version, otherwise the index `setMqttVersion` maps back to the current version |
| Mqtt.VersionRoundTrip | src/MQTT/Client.cpp:498-515 | reading back the version selected by index 0 or 1 gives that index |
| Mqtt.ProtocolForIndex | src/MQTT/Client.cpp:417-447 | exactly the indices 0..7 select a protocol, in the order of `sslProtocols()`: 0 secure protocols, 1-4 TLS 1.0, 1.1, 1.2 and 1.3 or later, 5-7 DTLS 1.0, 1.2 and 1.2 or later |
| Mqtt.ProtocolIndex | src/MQTT/Client.cpp:259-265 | every protocol has a position in 0..7 that selects it |
| Mqtt.ProtocolIndexRoundTrip | src/MQTT/Client.cpp:417-447 | distinct indices select distinct protocols |
| Mqtt.PayloadEmptyIff | src/MQTT/Client.cpp:525-533 | the payload is empty exactly when the frame buffer is |
| Mqtt.PayloadIsJoin | src/MQTT/Client.cpp:525-530 | the payload is the frames, in order, each followed by `"\n"` |
| Mqtt.PayloadLines | src/MQTT/Client.cpp:525-530 | when no frame holds `'\n'`, splitting the payload into lines gives the frames back, then one empty line |
| Mqtt.BuildPayload | src/MQTT/Client.cpp:525-530 | the loop builds that payload |
| Mqtt.WithEol | src/MQTT/Client.cpp:757-759 | the result ends in `'\n'` and starts with the payload, and is one character longer exactly when the payload did not end in `'\n'` |
| Mqtt.WithEolIdempotent | src/MQTT/Client.cpp:757-759 | normalising twice is normalising once |
| Mqtt.Forwarded | src/MQTT/Client.cpp:743-763 | a payload is forwarded iff the client is in subscriber mode (connection and topic emptiness are not checked) and the topic is equal, with an end-of-line ensured |
| Mqtt.Regenerated | src/MQTT/Client.cpp:769-829 | the new client takes every setting of the old one (the host from its address), or qos 0, keep-alive 60, MQTT 3.1.1, empty credentials and no retain; it uses SSL iff enabled and is not connected |
| Mqtt.RegeneratedIdempotent | src/MQTT/Client.cpp:769-829 | regenerating again with the same SSL settings changes nothing |
| Mqtt.RegeneratedForgetsHostName | src/MQTT/Client.cpp:790 | a host name set after construction is replaced by the old address |
| Mqtt.Client.IsSubscribed | src/MQTT/Client.cpp:212-215 | a subscribed client hands on every message on its topic; a disconnected client, one without a topic or one in publisher mode is never subscribed |
| Mqtt.Client.constructor | src/MQTT/Client.cpp:39-55 | empty topic, no frames, no messages sent, publisher mode, and a client built from the defaults |
| Mqtt.Client.OnFrameReceived | src/MQTT/Client.cpp:700-713 | the frame is buffered iff a device is connected, the client publishes and the frame is non-empty |
| Mqtt.Client.SendData | src/MQTT/Client.cpp:520-542 | a non-empty buffer is published as one message with the old counter as id (16 bits wide) and the counter grows by one; the buffer is empty afterwards |
| Mqtt.Client.ResetStatistics | src/MQTT/Client.cpp:547-551 | the counter is 0 and the buffer empty |
| Mqtt.Client.OnMessageReceived | src/MQTT/Client.cpp:743-763 | the forwarded payloads grow by the payload `Forwarded` gives, if any |
| Mqtt.Client.OnConnectedChanged | src/MQTT/Client.cpp:556-564 | the client subscribes to the topic on connection and unsubscribes on disconnection |
| Mqtt.Client.ConnectToHost | src/MQTT/Client.cpp:284-288 | a connection request is sent |
| Mqtt.Client.DisconnectFromHost | src/MQTT/Client.cpp:305-309 | a disconnection request is sent |
| Mqtt.Client.ToggleConnection | src/MQTT/Client.cpp:294-300 | a connected client disconnects, any other connects |
| Mqtt.Client.RegenerateClient | src/MQTT/Client.cpp:769-829 | the old client is disconnected and replaced by the regenerated one, so nothing is subscribed |
| Mqtt.Client.SetMqttVersion | src/MQTT/Client.cpp:498-515 | indices 0 and 1 make `mqttVersion()` return them; others change nothing |
| Mqtt.Client.SetSslProtocol | src/MQTT/Client.cpp:417-451 | indices 0..7 set the configured protocol, others keep it; the client is regenerated either way, and `m_sslProtocol` is unchanged |
| Mqtt.Client.SetSslEnabled | src/MQTT/Client.cpp:456-461 | the flag is set and the client regenerated, so nothing is subscribed |
| Mqtt.Client.SetQos | src/MQTT/Client.cpp:314-319 | only the qos changes |
| Mqtt.Client.SetRetain | src/MQTT/Client.cpp:325-330 | only the retain flag changes |
| Mqtt.Client.SetPort | src/MQTT/Client.cpp:345-350 | only the port changes |
| Mqtt.Client.SetHost | src/MQTT/Client.cpp:355-360 | only the host name changes, not the construction address |
| Mqtt.Client.SetUsername | src/MQTT/Client.cpp:466-471 | only the user name changes |
| Mqtt.Client.SetPassword | src/MQTT/Client.cpp:476-481 | only the password changes |
| Mqtt.Client.SetKeepAlive | src/MQTT/Client.cpp:488-493 | only the keep-alive interval changes |
| Mqtt.Client.SetClientMode | src/MQTT/Client.cpp:367-371 | the mode becomes the given one |
| Mqtt.Client.SetTopic | src/MQTT/Client.cpp:376-380 | the topic becomes the given one |

`Generator.Generator.LoadJfi` and `Generator.Generator.ReadData` state their delivery gate in terms of `Mqtt.Client.IsSubscribed`.

## Left out

- Threads: the worker's `QThread`, the signal wiring, `deleteLater` and the 500 ms `QTimer::singleShot` are not modelled. The worker runs to completion inside `readData`, so the order in which concurrent workers deliver their records is not modelled. This also hides two things:
  - the worker reads the mode, map and separator when it runs, not when it is dispatched;
  - a worker that returns early on an empty map never signals `finished`.
- Generator.Generator.ReadData, Generator.Generator.LoadJson: `m_frameCount` is a `quint64`; its wrap-around after 2^64 frames is not modelled (`nat`).
- Mqtt.Client.SendData: `m_sentMessages` is unbounded here; only its truncation to the 16-bit QMQTT message id is modelled.
- The JSON text parser and the JavaScript engine are foreign and are parameters. So are UTF-8 conversions between bytes and strings, which are modelled as the identity on text.
- `QFileDialog`, message boxes, `onError`'s message table, `onSslErrors`, the DNS `lookup`/`lookupFinished`, `loadCaFile` (certificate loading) and the list getters (`qosLevels`, `clientModes`, `mqttVersions`, `sslProtocols`) are user interface or foreign I/O. `ProtocolIndex` follows the order of `sslProtocols`.
- The plain getters (`qos`, `retain`, `port`, `host`, `username`, `password`, `keepAlive`, `topic`, `clientMode`, `sslEnabled`, `jsonMapData`, `operationMode`) read fields of the model directly.
- The QMQTT library's own behaviour: connecting, publishing and subscribing appear only as entries of the `wire` log. The connected state changes only when the library reports it (`OnConnectedChanged`). The two constructors are both modelled as setting host name and address to the carried host text, and the client id is not modelled.
- `Client.h`, where the initial SSL flag and protocol index are declared, is not part of this model; they are constructor parameters.
- `writeSettings` is the assignment to `savedPath`; `QSettings` persistence is not modelled.
