# plugin-zigbee2mqtt, modelled in Dafny

This project models the core of the slidebolt Zigbee2MQTT plugin. The plugin
listens to Home Assistant MQTT discovery messages published by Zigbee2MQTT and
keeps a store of the entities they describe. It derives stable device and
entity IDs (`z2m-device-…`, `z2m-entity-…`) from the discovery data. On the
host's request it merges those devices and entities into the host's own lists,
and it translates host commands into MQTT publications on each entity's
command topic.

A second component, the MQTT device adapter, does two jobs:

- It wires discovered or already-known entities to their state and command
  topics.
- It turns MQTT state messages into on/off readings, and host commands into
  MQTT payloads.

The configuration loader reads the broker URL, topics and credentials from the
environment, with legacy fallbacks.

Modules, one per concern:

- `Discovery`, `LogicDiscovery`: the two copies of the discovery parser
  (`discovery.go` and `pkg/logic/discovery.go`), the scalar payload rendering,
  and the value-template key extraction.
- `PluginIds`: ID sanitising, the device and entity ID prefixes, the domain
  map and the device key (`plugin.go`).
- `PluginStore`: the discovered-entity store as a map value, with the effect
  of a discovery message and of each delete.
- `PluginLists`: the device and entity merges of the list callbacks, as
  functions over the order in which the store is visited.
- `PluginCommands`: the command and event callbacks.
- `Plugin`: the plugin object, a class whose methods update the store in
  place. Its methods are proved against the functions above.
- `Adapter`: `pkg/device/adapter.go`. The state decoding, the payload builder,
  the callbacks `ensureWired` installs, and the `MqttAdapter` class with its
  wired set.
- `Config`: `config.go`.
- Supporting modules:
  - `GoStrings`: the Go `strings`/`strconv` functions used.
  - `Json`: decoded JSON values, and number parsing as `json.Unmarshal`
    reads an integer.
  - `HaPayload`: the discovery message record.
  - `Sorting`: the ascending-by-ID order of `sort.Slice`.
  - `Wrappers`: `Option`/`Result`.

Where the code is easy to misread, or its two copies disagree:

- The plugin's own parser accepts discovery topics of four or more levels
  (`discovery.go:33`). The adapter's parser demands five
  (`pkg/logic/discovery.go:31`). `LogicDiscovery.StricterThanPlugin` and
  `LogicDiscovery.FourLevelTopic` state the difference.
- After decoding a state message, the adapter stores the on/off word under
  `power` and the boolean under `state` (`pkg/device/adapter.go:106-107`,
  `125-126`). The model keeps that assignment as written.
- `handleDiscoveryMessage` subscribes to the entity's state topic on every
  discovery message, with no de-duplication (`plugin.go:368-382`). Only the
  adapter keeps a wired set.
- The adapter wires a discovered entity under its unique ID
  (`pkg/device/adapter.go:56`, `72`). It wires an existing entity under the
  host's entity ID (`pkg/device/adapter.go:84`). The two keys are different
  strings, so the same entity can be wired twice.

## Model

| member | source | states |
|---|---|---|
| Discovery.ParseDiscovery | discovery.go:29-49 | accepted exactly when the topic has at least four levels ending in `config`, the body decodes, and the unique ID is non-empty; the type is the second level and the payload is passed through; the error names the first check that fails |
| Discovery.PayloadNumberRoundTrip | discovery.go:51-64 | the text a number is rendered to parses back to that number |
| Discovery.PayloadEmpty | discovery.go:51-64 | the rendering is empty exactly for null, an object, or the empty string |
| Discovery.PayloadBool | discovery.go:55-56 | a bool renders as `true`/`false`, and the two values render differently |
| Discovery.KeyRun | discovery.go:84-91 | the scan after the marker takes the longest prefix of letters, digits, `.` and `_` and stops at the first other character |
| Discovery.ValueKey | discovery.go:66-97 | empty for an empty template or one without `value_json.` after normalising; otherwise the maximal key-character run right after the first marker |
| Discovery.ScanKey | discovery.go:83-91 | the index loop stops exactly where the key-character run ends |
| Discovery.ExtractValueKey | discovery.go:66-97 | the step-by-step rewriting and scan compute the key `ValueKey` describes |
| Discovery.BracketTemplateKey | discovery.go:71-96 | for every key of key characters, `{{ value_json['key'] }}` yields that key |
| Discovery.StateTemplateExample | discovery_test.go:19-21 | the light template yields `state` |
| Discovery.BridgeTopicRejected | discovery_test.go:24-28 | `zigbee2mqtt/bridge/devices` is rejected as an invalid topic, whatever the body |
| Discovery.LightTopicParsed | discovery_test.go:5-18 | a five-level light topic with unique ID `abc123` parses with type `light` |
| LogicDiscovery.ParseDiscovery | pkg/logic/discovery.go:28-46 | the same three checks in the same order, with at least five topic levels |
| LogicDiscovery.PayloadToStringAgrees | pkg/logic/discovery.go:48-61 | the adapter's rendering equals the plugin's on every value |
| LogicDiscovery.StricterThanPlugin | pkg/logic/discovery.go:28-46 | whatever this parser accepts, the plugin's parser accepts identically; the two differ only on four-level topics |
| LogicDiscovery.FourLevelTopic | pkg/logic/discovery.go:31-33 | a four-level config topic passes the plugin's guard but not this one |
| GoStrings.TrimSpace | plugin.go:410 | the result is no longer than the input, neither starts nor ends with white space, and is empty exactly when the input is all white space |
| GoStrings.TrimSpaceIdempotent | plugin.go:410 | trimming twice is trimming once |
| GoStrings.ToLowerIdempotent | plugin.go:410 | lower-casing twice is lower-casing once |
| GoStrings.SplitJoin | discovery.go:32 | joining the topic levels with `/` gives back the topic |
| GoStrings.JoinSplit | discovery.go:32 | splitting a join of separator-free levels gives back the levels |
| GoStrings.NatDecimalRoundTrip | discovery.go:57-58 | the decimal text of a natural number reads back as that number |
| Json.ParseNumberDecimal | pkg/device/adapter.go:260-263 | decoding the decimal text of an integer as a JSON number gives that integer |
| PluginIds.SanitizeId | plugin.go:409-432 | the lower-case, trim, map-to-dash, trim-dashes, collapse loop computes `Sanitized` |
| PluginIds.MapToDashes | plugin.go:414-423 | every character outside `a-z0-9` becomes `-`, the others are kept, the length is unchanged |
| PluginIds.CollapseDashes | plugin.go:426-428 | the `--` replacement loop ends and leaves the dash runs collapsed to single dashes |
| PluginIds.CollapseReplace | plugin.go:426-428 | one `ReplaceAll(--, -)` pass does not change the collapsed form |
| PluginIds.ReplaceShortens | plugin.go:426-428 | each pass shortens a string that still contains `--`, so the loop terminates |
| PluginIds.TrimDashes | plugin.go:425 | no leading or trailing dash remains, and the letters and digits are kept |
| PluginIds.SanitizedShape | plugin.go:409-432 | a sanitised ID is non-empty, made of `a-z0-9-`, has no `--`, and neither starts nor ends with `-` |
| PluginIds.SanitizedKeepsAlnums | plugin.go:410-431 | the ID keeps every letter and digit of the lower-cased input, in order, and is `unknown` when there are none |
| PluginIds.SanitizedIdempotent | plugin.go:409-432 | sanitising an ID again leaves it unchanged |
| PluginIds.SanitizedIgnoresCase | plugin.go:410 | lower-casing the input first changes nothing |
| PluginIds.IdsDisjoint | plugin.go:392-398 | no device ID equals an entity ID, and each ID is its prefix followed by the sanitised key |
| PluginIds.DeviceIdSameIff | plugin.go:392-394 | two device keys give the same device ID exactly when they sanitise alike |
| PluginIds.EntityIdSameIff | plugin.go:396-398 | two unique IDs give the same entity ID exactly when they sanitise alike |
| PluginIds.MapDomainProps | plugin.go:400-407 | the domain is always one of the five known ones, the map is idempotent, it is the identity exactly on known domains, and every other type falls back to `sensor` |
| PluginIds.FormatFloatInt | plugin.go:389 | an identifier decoded as a number below a million in magnitude prints as its plain decimal text |
| PluginIds.MillionFormat | plugin.go:389 | one million prints in exponent form, `1e+06` |
| PluginIds.DeviceKeyFromDiscovery | plugin.go:385-390 | no identifiers give the empty key; a string identifier is the key itself |
| PluginIds.DeviceKeyEmpty | plugin.go:385-390 | the key is empty exactly without identifiers or with an empty first string identifier |
| PluginStore.ApplyDiscoveryEffect | plugin.go:340-368 | a rejected message leaves the store unchanged; an accepted one adds or replaces exactly the entry under its unique ID and keeps every other entry |
| PluginStore.ApplyDiscoveryIdempotent | plugin.go:340-368 | handling the same message twice is handling it once |
| PluginStore.ApplyDiscoveryKeyed | plugin.go:362 | the store stays keyed by unique ID; this also covers a first message into an empty store (panic_regression_test.go:29-35) |
| PluginStore.WithoutDeviceEffect | plugin.go:134-144 | exactly the entries of the device are removed, the rest are kept unchanged, and deleting again changes nothing |
| PluginStore.WithoutDeviceExactly | plugin.go:138-142 | a map holding exactly the store's entries of other devices is the store after the delete |
| PluginStore.WithoutEntityEffect | plugin.go:200-211 | at most one matching entry is removed, exactly one when any matches, and the others are kept |
| PluginLists.DevicesById | plugin.go:150-153 | each host device sits under its own ID, and the keys are exactly the host's device IDs |
| PluginLists.DeviceStepShape | plugin.go:155-182 | one entry adds or reconciles only its own device ID, under that ID; the device stored there is the reconciler's answer for the host's device under that ID (an empty device when there is none) and the device discovered from the entry |
| PluginLists.DiscoveredDeviceShape | plugin.go:159-177 | the device discovered from a keyed entry has the derived device ID, the device key as source ID and a never-empty source name: the trimmed device name, or the device key when that is blank |
| PluginLists.MergeDevicesBuiltFrom | plugin.go:155-183 | every device the entries produced is the reconciler's answer for the device discovered from one of those entries |
| PluginLists.MergedDevicesFromStore | plugin.go:155-183 | the same, stated over the store's entries for any visiting order |
| PluginLists.MergeDevicesKeys | plugin.go:155-183 | the merge keeps every host device ID and adds exactly the device IDs of entries with a device key |
| PluginLists.MergeDevicesKeyless | plugin.go:156-158 | entries without a device key change nothing |
| PluginLists.EntitiesById | plugin.go:219-222 | each host entity sits under its own ID, and the keys are exactly the host's entity IDs |
| PluginLists.EntityStepShape | plugin.go:224-256 | one entry of the device adds its entity under its own ID, with a known domain, keeping the host's Data; the entity carries the entry's entity ID, the device, the mapped domain and the display name (trimmed name, or the unique ID when that is blank) |
| PluginLists.LocalNameNonEmpty | plugin.go:240-243 | an entry with a unique ID gets a non-empty display name, and a non-blank name is used trimmed |
| PluginLists.StoreNamesNonEmpty | plugin.go:240-243 | in a store keyed by unique ID every entry has a non-empty display name |
| PluginLists.MergeEntitiesBuiltFrom | plugin.go:224-256 | every entity the entries produced carries one entry's entity ID, the device, the mapped domain and the display name |
| PluginLists.MergedEntitiesFromStore | plugin.go:224-257 | the same, stated over the store's entries for any visiting order |
| PluginLists.MergeEntitiesKeys | plugin.go:224-257 | the merge keeps every host entity ID and adds exactly the entity IDs of the device's entries |
| PluginLists.MergeEntitiesFromEntries | plugin.go:240-256 | every merged entity belongs to the device, has a known domain, and keeps the host's Data |
| PluginLists.DevicesListIds | plugin.go:146-192 | in any visiting order, the result is the host's devices plus one device per keyed entry, each the reconciler's answer for the device discovered from a keyed entry of the store; host devices no entry maps to come back unchanged (reconcile_test.go:68-94) |
| PluginLists.EntitiesListIds | plugin.go:213-266 | in any visiting order, the result is the host's entities plus one entity per entry of the device, each with a known domain and the host's Data, and each described by an entry of the device in the store (its entity ID, the mapped domain, the display name); the other host entities come back unchanged |
| PluginCommands.RgbRoundTrip | plugin.go:305 | the colour payload reads back as the three components it was built from |
| PluginCommands.RgbPayloadInjective | plugin.go:305 | different colours give different payloads |
| PluginCommands.CommandOutcome | plugin.go:268-332 | success exactly when a client exists, an entry with a command topic matches, the command yields a payload and the publish succeeds; failure returns the entity unchanged; success changes only the sync status, to `pending` |
| PluginCommands.CommandErrors | plugin.go:269-312 | the errors come in the source's order: no client, no topic, parse error, bad RGB, unsupported action, failed publish |
| PluginCommands.CommandPayloads | plugin.go:295-305 | on and off send the entry's payloads verbatim, and RGB sends the colour object for its components |
| PluginCommands.OnEvent | plugin.go:334-338 | the payload becomes the reported state, the status becomes `in_sync`, and nothing else changes |
| PluginCommands.CommandThenEvent | plugin.go:314-338 | an event after a successful command settles `pending` to `in_sync` |
| Plugin.IndexDevices | plugin.go:150-153 | the loop builds `DevicesById` |
| Plugin.IndexEntities | plugin.go:219-222 | the loop builds `EntitiesById` |
| Plugin.KeyOrder | plugin.go:155 | a range over the store visits every key exactly once |
| Plugin.MergeDiscoveredDevices | plugin.go:155-183 | the loop over the store computes the device merge in the order it visits |
| Plugin.MergeDiscoveredEntities | plugin.go:224-257 | the loop over the store computes the entity merge in the order it visits |
| Plugin.SortDevices | plugin.go:185-190 | the output lists every device of the map once, ascending by ID |
| Plugin.SortEntities | plugin.go:259-264 | the output lists every entity of the map once, ascending by ID |
| Plugin.Zigbee2mqttPlugin.constructor | plugin.go:43-45 | an empty store and no client |
| Plugin.Zigbee2mqttPlugin.OnReady | plugin.go:61-104 | a client is kept only with a URL, a successful connect and a successful subscription; the store is untouched |
| Plugin.Zigbee2mqttPlugin.HandleDiscoveryMessage | plugin.go:340-368 | the store becomes `ApplyDiscovery` of the old store, and stays keyed by unique ID |
| Plugin.Zigbee2mqttPlugin.OnDeviceDelete | plugin.go:134-144 | the store becomes `WithoutDevice` of the old store, and stays keyed |
| Plugin.Zigbee2mqttPlugin.OnEntityDelete | plugin.go:200-211 | the store loses the first matching entry visited, if any, and stays keyed |
| Plugin.Zigbee2mqttPlugin.OnDevicesList | plugin.go:146-192 | the sorted list of the host's devices merged with the discovered ones, in some visiting order of the store |
| Plugin.Zigbee2mqttPlugin.OnEntitiesList | plugin.go:213-266 | the sorted list of the host's entities of the device merged with the discovered ones |
| Plugin.Zigbee2mqttPlugin.OnCommand | plugin.go:268-332 | the result is `Command` applied to the entry the lookup finds for the entity's ID, or to none when no entry matches |
| Adapter.Keyword | pkg/device/adapter.go:150-155 | a keyword reads only as on or off |
| Adapter.ValueState | pkg/device/adapter.go:163-184 | whatever a value decides is on or off (the string arm is stated by Adapter.StringValues, the others by Adapter.ScalarValues) |
| Adapter.StringValues | pkg/device/adapter.go:169-178 | a string decides exactly when it is the on-payload or, trimmed and lower-cased, an on or off word; it reads on for the on-payload or an on word, off for an off word otherwise |
| Adapter.StateWords | pkg/device/adapter.go:169-178 | the state value `ON` reads on, and `OFF` reads off unless `OFF` is the on-payload |
| Adapter.PayloadToState | pkg/device/adapter.go:144-188 | the reading is always on or off, and the flag is true exactly with the word `on` |
| Adapter.RawTextFirst | pkg/device/adapter.go:145-156 | raw text that is the on-payload or a keyword decides alone, whatever the parsed map holds |
| Adapter.ScanKeysFirst | pkg/device/adapter.go:158-185 | the key scan yields a reading exactly when some key decides, and that reading is the first deciding key's |
| Adapter.KeyScanDecides | pkg/device/adapter.go:158-187 | after the raw text, `state` then `power` then `value` decide, and the default is off |
| Adapter.ScalarValues | pkg/device/adapter.go:163-184 | a bool reads as itself, a number reads as on exactly when non-zero, and null decides nothing |
| Adapter.IntFromAnyValues | pkg/device/adapter.go:245-266 | numbers pass through; a string gives the number its trimmed text reads as, and 0 when it is blank or not a number; null, a bool or an object give 0 |
| Adapter.IntFromAnyDecimal | pkg/device/adapter.go:255-263 | the decimal text of an integer gives that integer |
| Adapter.MapTypeAgreesWithDomain | pkg/device/adapter.go:268-283 | the adapter's type map and the plugin's domain map group the HA types identically, and an unknown type becomes the sensor type |
| Adapter.Mired | pkg/device/adapter.go:214 | the mired value is 1000000/kelvin rounded half away from zero |
| Adapter.MiredUnique | pkg/device/adapter.go:214 | exactly one integer meets that rounding bound |
| Adapter.BuildPayloadOutcome | pkg/device/adapter.go:190-235 | no payload exactly for unknown commands and non-positive kelvin, and then the patch is empty; every payload comes with state ON, or OFF for TurnOff |
| Adapter.OnOffPayloads | pkg/device/adapter.go:192-203 | a configured payload is sent verbatim, and `{"state":"ON"/"OFF"}` otherwise; the patch carries the matching power flag |
| Adapter.TemperaturePayload | pkg/device/adapter.go:209-221 | a positive kelvin sends itself and its rounded mired value |
| Adapter.TemperatureExample | pkg/device/adapter_test.go:112-117 | 3200 K sends `color_temp` 313 |
| Adapter.StateMessageKeeps | pkg/device/adapter.go:97-109 | a republished state exists exactly for a non-empty map; it keeps every other field and adds a consistent `power`/`state` pair |
| Adapter.StateMessageExample | pkg/device/adapter_test.go:93-98 | `{"state":"ON","brightness":128}` is republished as on |
| Adapter.HandleCommandPublishes | pkg/device/adapter.go:117-123 | the handler publishes exactly with a command topic and a payload, and sends that payload to that topic |
| Adapter.HandleCommandReading | pkg/device/adapter.go:124-126 | every publishing command except TurnOff reports on; TurnOff reports off unless the on-payload is the text OFF |
| Adapter.ReadsOn | pkg/device/adapter.go:124 | the text ON reads as on |
| Adapter.ReadsOff | pkg/device/adapter.go:124 | the text OFF reads as off unless it is itself the on-payload |
| Adapter.TurnOffExample | pkg/device/adapter_test.go:100-110 | TurnOff on the test light publishes `OFF` to `zigbee2mqtt/test_light/set` |
| Adapter.MqttAdapter.constructor | pkg/device/adapter.go:20-26 | nothing is wired yet |
| Adapter.MqttAdapter.EnsureWired | pkg/device/adapter.go:87-131 | a key is wired at most once; the first wiring subscribes to a non-empty state topic and installs the handler, and a repeat does nothing |
| Adapter.MqttAdapter.WireExistingEntity | pkg/device/adapter.go:75-85 | an entity with neither topic is skipped; otherwise it is wired under its ID from its raw string fields |
| Adapter.MqttAdapter.HandleDiscovery | pkg/device/adapter.go:28-73 | a message the five-level parser accepts, and whose device has an identifier, wires its unique ID; anything else changes nothing |
| Adapter.WireTwice | pkg/device/adapter.go:88-94 | wiring one key twice subscribes once and keeps the first wiring |
| Config.FirstNonEmptyPicks | config.go:50-57 | the result is empty exactly when no key is set to non-blank text; otherwise it is the untrimmed value of the first such key |
| Config.FirstNonEmptyBlank | config.go:50-57 | the result is blank exactly when no key is set |
| Config.LoadConfig | config.go:16-48 | URL and topics are trimmed first-set values, credentials are untrimmed; empty topics fall back to `slidebolt/discovery/#` and `zigbee2mqtt`, so both topics are non-empty |
| Config.CanonicalFirst | config.go:17-39 | a set canonical variable wins over every fallback |
| Config.UrlFallback | config.go:18-22 | with no canonical or Z2M URL set, `MQTT_URL` is used |
| Config.DiscoveryFallback | config.go:23-27 | with no canonical or Z2M topic set, `MQTT_DISCOVERY_TOPIC` is used |
| Config.BaseFallback | config.go:28-31 | with no canonical base topic set, `Z2M_BASE_TOPIC` is used |
| Config.CanonicalExample | config_test.go:5-25 | the canonical environment loads as the test expects |
| Config.LegacyExample | config_test.go:27-42 | the legacy environment loads the fallback values, with empty credentials |

## Left out

- OnInitialize and OnStorageUpdate are not modelled. They (de)serialise the store as JSON, and serialisation is outside this model. So are the raw-store writes in the list callbacks, OnShutdown, OnHealthCheck, and the pass-through create, update and search callbacks.
- OnReady's 300 ms settle timer, its 5 s wait and the goroutine are left out, because they are timing and concurrency. The model keeps only whether a client is set.
- The state-topic subscription in handleDiscoveryMessage and the events emitted from it and from OnCommand are not modelled, because they are goroutines that call the broker and the host.
- Floating point is not modelled: JSON numbers are integers.
  - PluginIds.FormatFloatInt: covers integer-valued identifiers only.
  - Discovery.PayloadToString: renders integers only; fractional numbers and `json.Number` are not modelled.
  - Adapter.IntFromAny: a numeric string is decoded as far as an integer reading goes. Truncating a fractional float is not modelled.
  - Adapter.Mired: rounding is stated in exact arithmetic, not float64.
- Device identifiers that are JSON objects or arrays are not modelled; only scalar identifiers are.
- Plugin.Zigbee2mqttPlugin.OnDevicesList: `runner.ReconcileDevice` is a parameter. The model assumes only that it keeps the discovered device's ID. Which fields the host's device keeps (reconcile_test.go:50-60) is not part of this model.
- Plugin.Zigbee2mqttPlugin.OnCommand: `light.ParseCommand` is not part of this model. Its outcome is the `LightCommand` input, and the broker's publish result is the `publishOk` input.
- The visiting order of Go map ranges is unspecified. The model makes it an output, and its results are stated for every order.
- Plugin.Zigbee2mqttPlugin.OnEntityDelete: which matching entry goes first is a ghost output.
- Adapter.MqttAdapter.HandleDiscovery: creating or finding the bundle device and entity and writing their raw fields are left out, because the bundle SDK is not part of this model. Only the wiring step is modelled.
- Adapter.MqttAdapter.EnsureWired: the subscription is returned as its topic, not performed. The installed callbacks are the functions `StateMessage` and `HandleCommand`.
- `parseStatePayload` and `marshalJSON` are inputs or outputs: the parsed map is a parameter, and JSON payloads are kept as objects (`Encoded`). `%v` is modelled only for strings and scalars, not for objects.
- The MQTT clients (`mqtt_client.go`, `pkg/logic/mqtt_client.go`), `cmd/main.go`, `main.go` and `pkg/bundle/plugin.go` are not part of this model.
- `TestMQTTAdapterWait` exercises a `Wait` method that `pkg/device/adapter.go` does not define, so it has no counterpart here.
- Strings are sequences of Unicode scalar values, not Go's UTF-8 bytes. The results agree where the plugin looks at single characters:
  - `sanitizeID` writes one dash per byte it drops (`plugin.go:414-423`), so a multi-byte letter gives several dashes where the model gives one. The dashes are collapsed right after (`plugin.go:424-427`), so the ID is the same.
  - `extractValueKey` slices at byte offsets from `strings.Index` (`discovery.go:80-95`). The characters it keeps are ASCII, so the key text is the same under either count.
  - Environment values that are not valid UTF-8 (`config.go:50-57`) cannot be written as a `string` here and are not modelled.
- Lower-casing covers ASCII letters plus the two non-ASCII letters that lower-case to ASCII (U+0130 and U+212A). `sanitizeID` and the keyword switches only look for ASCII results, so the other letters do not matter there.
