# aqualogic_mqtt — a Dafny model of the bridge's bookkeeping

aqualogic_mqtt connects a Hayward AquaLogic / ProLogic pool controller to
an MQTT broker for Home Assistant. It reads panel updates over a serial
line or a TCP serial adapter. It publishes one JSON state message and one
Home Assistant device-discovery message, and it turns `.../set` commands
into panel state changes. A small web UI queues key presses and shows the
panel's display.

This project models the parts of the bridge that decide things:

- **Messages** (`messages.dfy`, from `messages.py`):
  - the identifier sanitiser;
  - the static control and sensor catalogs, with enable-list filtering;
  - the user "Check System" message sensors, with reserved-key rejection;
  - the topics;
  - the state payload and the discovery payload, as ordered JSON records;
  - the router that turns an inbound topic into either a reply or a `set_state` request.
- **Panelmanager** (`panelmanager.dfy`, from `panelmanager.py`):
  - a `PanelManager` class that keeps the registry of system messages with their expiry;
  - liveness by the age of the last display update;
  - normalisation of display text before it is forwarded to the web UI's display record.
- **Controls** (`controls.dfy`, from `controls.py`):
  - the case-insensitive key map;
  - a `Keypad` class holding the FIFO of key presses and the registered sender, with its drain loop;
  - a `DisplayState` class: the four-line display record with partial updates.
- **Client** (`client.dfy`, from `client.py`):
  - the reconnect back-off counters;
  - `host:port` splitting, including Python's `int()` on the port;
  - a `BridgeClient` class whose callbacks connect the pieces: on connect, on disconnect, on message, and on a panel change.

Supporting modules:

- `Wrappers`: `Option`, `Result`.
- `Strings`: whitespace, trimming, splitting and joining as Python's `str` methods do them.
- `Dicts`: a Python dict as an insertion-ordered sequence of pairs, with `Get`, `Put`, `Del` and `PutAll` (the `|` and update operators).
- `Json`: JSON values.
- `Aqualogic`: the panel states, attributes and snapshot the bridge reads, and the `Panel` object whose `set_state` it calls.

Every clock reading is an integer parameter `now`. Payloads are `Json`
values, not text. An exception the source raises is an `Err` or `None`
result.

The model follows the code as written:

- A system message that is empty after stripping is still recorded.
- A failed send does not stop the key-press drain, and the drain does not count it against the limit.
- `handle_message_on_topic` returns `None`, not an empty list, when no topic matches.
- There is no routing of button commands: no method of `Messages` publishes or routes buttons (the class-body block that does is discussed under "## Left out").
- The discovery reply to the Home Assistant "online" status is never received through the bridge's own subscription (`SubscriptionMissesStatus`).

## Model

| member | source | states |
|---|---|---|
| Messages.IdForString | aqualogic_mqtt/messages.py:32-36 | the sanitised id has only identifier characters and decimal digits, no whitespace, and does not start with a digit; it may be empty |
| Messages.JoinedWordsAtSeparator | aqualogic_mqtt/messages.py:33-36 | a non-empty run of dropped characters between two parts that each keep a character becomes exactly one `_` |
| Messages.JoinedWordsIgnoreEdges | aqualogic_mqtt/messages.py:33-36 | a run of dropped characters at the start or the end of the input leaves no trace in the id |
| Messages.ControlDict | aqualogic_mqtt/messages.py:38-66 | the control catalog has exactly the 24 control keys, in catalog order |
| Messages.SensorDict | aqualogic_mqtt/messages.py:79-145 | the sensor catalog has exactly the 8 sensor keys, in catalog order |
| Messages.CatalogKeysDistinct | aqualogic_mqtt/messages.py:38-145 | no key appears twice within or across the two catalogs |
| Messages.ControlIdsDistinct | aqualogic_mqtt/messages.py:38-66 | for any identifier, no two controls share an id |
| Messages.ControlNames | aqualogic_mqtt/messages.py:175-176 | the name map of the controls has the controls' keys, in order |
| Messages.SensorNames | aqualogic_mqtt/messages.py:175-176 | the name map of the sensors has the sensors' keys, in order |
| Messages.EntityNames | aqualogic_mqtt/messages.py:175-176 | `get_valid_entity_meta` lists the sensor keys, then the control keys, each once |
| Messages.ReservedKeys | aqualogic_mqtt/messages.py:158 | the list of keys a user sensor may not take; it has no contract of its own, and what it is is stated by `Messages.ReservedKeysAreEntityKeys` |
| Messages.ReservedKeysAreEntityKeys | aqualogic_mqtt/messages.py:158 | the reserved keys are those of `get_valid_entity_meta` followed by `cs` and `sysm` |
| Messages.AddSensor | aqualogic_mqtt/messages.py:160-172 | one definition: an earlier error is kept; a refused definition gives its error; an accepted one is stored under its key, replacing an earlier sensor with that key |
| Messages.AddSensorKeeps | aqualogic_mqtt/messages.py:161-168 | storing an accepted definition keeps the keys distinct and clear of the reserved keys |
| Messages.MessageSensorDict | aqualogic_mqtt/messages.py:157-173 | the user sensors built from the definitions, or the first refusal; it has no contract of its own, and its properties are stated by the `MessageSensorDict…` lemmas below and by `Messages.GetSystemMessageSensorDict` |
| Messages.MessageSensorDictClear | aqualogic_mqtt/messages.py:157-173 | on success the user sensors have distinct keys, none of them reserved |
| Messages.MessageSensorDictOk | aqualogic_mqtt/messages.py:160-163 | building the user sensors succeeds if and only if every definition is non-empty and its key is not reserved |
| Messages.MessageSensorDictAssigns | aqualogic_mqtt/messages.py:161-172 | on success the result is the assignments applied in order: the key comes from `sms[1]` or else `sms[0]`, the id is the identifier + `_` + the sanitised text, the class is `sms[2]` or else `problem`, and a repeated key keeps the later sensor |
| Messages.MessageSensorDictFirstError | aqualogic_mqtt/messages.py:160-163 | the error reported is the one for the first refused definition |
| Messages.MessageSensorDictStops | aqualogic_mqtt/messages.py:162-163 | once a prefix has failed, the later definitions do not change the result |
| Messages.GetSystemMessageSensorDict | aqualogic_mqtt/messages.py:157-173 | the loop that builds `result` in place computes the user sensors or the first error |
| Messages.Configure | aqualogic_mqtt/messages.py:22-30 | a configured formatter has root `{prefix}/device/{identifier}` and status path `{prefix}/status`; its enabled entries come from the catalogs with distinct keys and ids; its user sensors' keys are clear |
| Messages.ConfigureFilters | aqualogic_mqtt/messages.py:28-30 | the enabled entries are exactly the catalog entries whose key is enabled, in catalog order; other enable entries are ignored; user sensors are not filtered |
| Messages.ConfigureFails | aqualogic_mqtt/messages.py:22-30 | configuration fails if and only if some user-sensor definition is refused |
| Messages.RestrictDistinctIds | aqualogic_mqtt/messages.py:28 | filtering by the enable list keeps ids distinct |
| Messages.SubscriptionTopics | aqualogic_mqtt/messages.py:178-179 | a single filter whose levels are those of `{prefix}/device/{identifier}`, then a wildcard level, then `set` |
| Messages.DiscoveryTopic | aqualogic_mqtt/messages.py:181-182 | the discovery topic is one level below the root, named `config` |
| Messages.StateTopic | aqualogic_mqtt/messages.py:184-185 | the state topic is one level below the root, named `state` |
| Messages.SubscriptionReceivesCommands | aqualogic_mqtt/messages.py:178-179 | the subscription filter matches the command topic of every control whose id has no `/` |
| Messages.SubscriptionIgnoresOwnTopics | aqualogic_mqtt/messages.py:178-185 | the subscription filter matches neither the state topic nor the discovery topic |
| Messages.SubscriptionMissesStatus | aqualogic_mqtt/messages.py:178-179 | the subscription filter does not match the status topic, so the "online" reply is never triggered through it |
| Messages.SensorReadings | aqualogic_mqtt/messages.py:194-195 | one reading per enabled sensor, under the sensor's key |
| Messages.ControlStates | aqualogic_mqtt/messages.py:197-198 | one on/off value per enabled control, under the control's key |
| Messages.MessageSensorStates | aqualogic_mqtt/messages.py:200-201 | one on/off value per user sensor, under its key |
| Messages.StateRecord | aqualogic_mqtt/messages.py:187-203 | the `state` dict for given active messages; it has no contract of its own, and its layout and values are stated by the `StateRecord…` lemmas below and by `Messages.GetStateMessage` |
| Messages.StateRecordLayout | aqualogic_mqtt/messages.py:187-203 | the state keys are `cs`, `sysm`, the sensor keys, the control keys and the user-sensor keys, in that order, each once |
| Messages.StateRecordFixedValues | aqualogic_mqtt/messages.py:190-193 | `cs` is ON exactly when the panel shows Check System; `sysm` is the active messages joined with ", " |
| Messages.StateRecordSensorValues | aqualogic_mqtt/messages.py:194-195 | each enabled sensor's value is the panel's reading of its attribute |
| Messages.StateRecordControlValues | aqualogic_mqtt/messages.py:197-198 | each enabled control is ON exactly when its panel state is on, else OFF |
| Messages.StateRecordMessageSensorValues | aqualogic_mqtt/messages.py:200-201 | each user sensor is ON exactly when its name is among the active messages, else OFF |
| Messages.GetStateMessage | aqualogic_mqtt/messages.py:187-203 | the three loops over the tracker's sorted messages build exactly the state record |
| Messages.SensorComponents | aqualogic_mqtt/messages.py:271-281 | one discovery component per enabled sensor, keyed by its id |
| Messages.ControlComponents | aqualogic_mqtt/messages.py:283-298 | one discovery component per enabled control, keyed by its id |
| Messages.MessageSensorComponents | aqualogic_mqtt/messages.py:300-309 | one discovery component per user sensor, keyed by its id |
| Messages.FixedComponentsKeys | aqualogic_mqtt/messages.py:251-267 | the two fixed components are the check-system binary sensor and the system-messages sensor |
| Messages.ComponentsKeys | aqualogic_mqtt/messages.py:251-309 | the components are keyed by exactly the two fixed ids and the ids of the enabled sensors, enabled controls and user sensors |
| Messages.LightPatchGet | aqualogic_mqtt/messages.py:293-297 | after the light patch, the platform is `light`, the template is under `stat_val_tpl`, there is no `val_tpl` or `dev_cla`, and the command topic and id are unchanged |
| Messages.LightComponentShape | aqualogic_mqtt/messages.py:283-298 | the light (key `l`) has platform `light`, the state template under `stat_val_tpl`, no `val_tpl` and no `dev_cla`, and keeps its command topic and id |
| Messages.SwitchComponentShape | aqualogic_mqtt/messages.py:284-292 | every other control is a switch with device class `switch`, its value template and its command topic |
| Messages.SwitchMembersCommand | aqualogic_mqtt/messages.py:288-291 | a switch component's `uniq_id` is the control id and its `cmd_t` is `{root}/{id}/set` |
| Messages.SwitchMembersPlatform | aqualogic_mqtt/messages.py:285-286 | a switch component has platform `switch` and device class `switch` |
| Messages.SwitchMembersTemplate | aqualogic_mqtt/messages.py:287 | a switch component's `val_tpl` names its state key, and it has no `stat_val_tpl` |
| Messages.ControlComponentCommand | aqualogic_mqtt/messages.py:283-298 | every control's component, light or switch, carries its command topic and id |
| Messages.ControlComponentsUnique | aqualogic_mqtt/messages.py:283-298 | with distinct control ids, no two control components share a key |
| Messages.ComponentOfControl | aqualogic_mqtt/messages.py:283-309 | each enabled control's component is found under its id, unless a user sensor was given the same id |
| Messages.DiscoveryMessage | aqualogic_mqtt/messages.py:235-311 | the discovery record; it has no contract of its own, and its components are stated by `Messages.ComponentsKeys`, the shape lemmas above and `Messages.GetDiscoveryMessage` |
| Messages.GetDiscoveryMessage | aqualogic_mqtt/messages.py:235-311 | the loops that fill `cmps` in place, with the light patched in place, build exactly the discovery record: device, origin, components, state topic and QoS 2 |
| Messages.CommandTarget | aqualogic_mqtt/messages.py:211 | none exactly when no enabled control's command topic is the topic; otherwise the first control whose topic it is |
| Messages.Route | aqualogic_mqtt/messages.py:207-215 | there is no reply exactly when the message is neither "online" on the status topic nor on any control's command topic; a `set_state` request is made exactly when the reply is the empty list |
| Messages.CommandIsNotStatus | aqualogic_mqtt/messages.py:208-211 | no command topic is the status topic |
| Messages.RouteStatus | aqualogic_mqtt/messages.py:208-209 | "online" on the status topic replies with exactly the discovery message on `{root}/config` and requests nothing; any other payload there gives no reply |
| Messages.RouteCommand | aqualogic_mqtt/messages.py:211-215 | a control's command topic requests that control's state, on exactly when the payload is "ON", and replies with the empty list |
| Messages.AdvertisedCommandRoutes | aqualogic_mqtt/messages.py:211-215 | the `cmd_t` advertised for each control is a topic the router accepts for that control (also lines 283-298) |
| Messages.HandleMessageOnTopic | aqualogic_mqtt/messages.py:207-215 | returns the router's reply and calls `set_state` on the panel exactly for the router's request |
| Panelmanager.StripMessage | aqualogic_mqtt/panelmanager.py:26 | the key is the message with only spaces and NULs removed from both ends |
| Panelmanager.StripMessageKeeps | aqualogic_mqtt/panelmanager.py:26 | a message with no space or NUL at either end, tabs and newlines included, is kept as it is |
| Panelmanager.Observe | aqualogic_mqtt/panelmanager.py:27-30 | the registry after an observation is the old one with the message set to `now`, restricted to times after `now - expS`; the new message survives exactly when `expS > 0` |
| Panelmanager.ObserveExpires | aqualogic_mqtt/panelmanager.py:29-30 | another message survives exactly when it was seen after `now - expS` |
| Panelmanager.ObserveRefreshes | aqualogic_mqtt/panelmanager.py:28 | seeing a known message again refreshes its time and adds no key |
| Panelmanager.PanelManager.constructor | aqualogic_mqtt/panelmanager.py:14-21 | the timeout and expiry are stored, the last update is `now`, and the registry and lines are empty |
| Panelmanager.PanelManager.ObserveSystemMessage | aqualogic_mqtt/panelmanager.py:23-30 | `None` changes nothing; otherwise the registry becomes `Observe` of the stripped message; liveness and lines are untouched |
| Panelmanager.PanelManager.SystemMessages | aqualogic_mqtt/panelmanager.py:32-33 | the active messages in strictly increasing order, exactly the registry's keys |
| Panelmanager.PanelManager.GetSystemMessages | aqualogic_mqtt/panelmanager.py:32-33 | returns the sorted registry keys and changes nothing |
| Panelmanager.PanelManager.TextUpdated | aqualogic_mqtt/panelmanager.py:45-59 | the last update becomes `now`; line 0 is the text with NULs removed and whitespace stripped; the display gets that line and three empty ones, with blink and LEDs unchanged |
| Panelmanager.DisplayLine | aqualogic_mqtt/panelmanager.py:50 | the line is the text (empty for `None`) with every NUL removed and then only whitespace cut from its two ends: a slice of the NUL-free text whose cut-off parts are all whitespace; it has no NUL and no whitespace at either end |
| Strings.RemoveChar | aqualogic_mqtt/panelmanager.py:50 | `replace(c, "")` leaves no `c`, keeps every other character that occurs, and changes nothing when there is no `c` |
| Strings.RemoveCharAppend | aqualogic_mqtt/panelmanager.py:50 | the removal works piece by piece, so the remaining characters keep their order |
| Panelmanager.PanelManager.LastUpdateAge | aqualogic_mqtt/panelmanager.py:35-36 | the age is 0 exactly at the instant of the last update, and not negative exactly when the clock has not gone back |
| Panelmanager.PanelManager.IsUpdating | aqualogic_mqtt/panelmanager.py:38-39 | the panel is live exactly when the age of the last update is below the timeout |
| Panelmanager.LiveAfterUpdate | aqualogic_mqtt/panelmanager.py:35-39 | right after an update the age is 0, and the panel is live exactly when the timeout is positive (also line 46) |
| Panelmanager.NotUpdatingLater | aqualogic_mqtt/panelmanager.py:35-39 | once the panel is not live, it stays not live at every later time, and the age never decreases |
| Controls.KeyFor | aqualogic_mqtt/controls.py:45-51 | a name is known exactly when its lower case is one of the five buttons, and its key is then that name in upper case (also line 78) |
| Controls.KeyForIgnoresCase | aqualogic_mqtt/controls.py:78 | a name and its upper-case spelling find the same key |
| Controls.Drain | aqualogic_mqtt/controls.py:94-106 | the drain never dequeues more keys than the queue holds |
| Controls.DrainSpec | aqualogic_mqtt/controls.py:94-106 | the drain takes a prefix of the queue and counts the sends in it that succeeded; nothing happens when the limit is not positive; the count never exceeds the limit and equals it when the drain stops before the queue is empty; every key is dequeued while the count is still below the limit, so nothing is dequeued once the limit is reached |
| Controls.DrainMayTakeMoreThanBudget | aqualogic_mqtt/controls.py:94-105 | with limit 1 and a failing first send, two keys are dequeued |
| Controls.DrainAllFailing | aqualogic_mqtt/controls.py:99-105 | when every send fails, the whole queue is dequeued and 0 is returned |
| Controls.Keypad.constructor | aqualogic_mqtt/controls.py:57-62 | the queue is empty and no sender is registered |
| Controls.Keypad.SetKeySender | aqualogic_mqtt/controls.py:65-71 | the sender is replaced, and the queue is untouched |
| Controls.Keypad.Press | aqualogic_mqtt/controls.py:74-79 | a known name appends its key to the back of the queue; an unknown name fails with `KeyError` of the lowered name and leaves the queue alone |
| Controls.Keypad.DrainKeypresses | aqualogic_mqtt/controls.py:82-106 | with no sender, returns 0 and changes nothing; otherwise it dequeues the drain's prefix from the front, hands it to the sender in order and returns the number of successful sends |
| Controls.NormalizeLines | aqualogic_mqtt/controls.py:135 | exactly four lines: the given ones first and then empty ones |
| Controls.NormalizeLinesKeepsGiven | aqualogic_mqtt/controls.py:135 | up to four given lines are kept and padded with empty ones; from more, the first four are kept |
| Controls.DisplayState.constructor | aqualogic_mqtt/controls.py:109-114 | four empty lines, no blink positions and no LEDs, stamped `now` |
| Controls.DisplayState.UpdateDisplay | aqualogic_mqtt/controls.py:129-141 | the lines are always normalised to four; blink and LEDs are replaced only when given; the stamp becomes `now` |
| Controls.DisplayState.GetDisplay | aqualogic_mqtt/controls.py:116-122 | returns the current lines, blink, LEDs and stamp and changes nothing (also lines 144-146) |
| Aqualogic.Panel.SetState | aqualogic_mqtt/messages.py:214 | each `set_state(state, value)` call is recorded once, in order |
| Client.ParseInt | aqualogic_mqtt/client.py:116 | `int` of blank text (empty or all whitespace) fails; the accepted forms are stated by `Client.ParseIntDecimal` and `Client.ParseIntNegative` (also line 132) |
| Client.ParseIntDecimal | aqualogic_mqtt/client.py:116 | `int` of a number's decimal string gives the number back (also line 132) |
| Client.ParseIntNegative | aqualogic_mqtt/client.py:116 | `int` of "-" followed by a number's decimal string gives its negation (also line 132) |
| Client.HostAndPort | aqualogic_mqtt/client.py:115-116 | the unpacking fails exactly when the text does not split into two parts at `:`; with two parts it succeeds exactly when `int` of the port text succeeds, and otherwise fails with `BadPort` of the port text; on success the text is host, `:`, port text, the host has no `:`, and the port is `int` of the port text (also lines 131-132) |
| Client.SplitHostPort | aqualogic_mqtt/client.py:115 | `host:port` with a colon-free host splits into exactly the host and the port text (also line 131) |
| Client.MqttAddress | aqualogic_mqtt/client.py:127-135 | no destination keeps the default port and no host; a destination without `:` is the host, with the default port; it fails exactly when a destination with `:` does not split into host and port, with the splitting's error; a host it connects to has no `:`, and with `:` the destination is host, `:`, port text with the port `int` of that text |
| Client.PanelSource | aqualogic_mqtt/client.py:113-118 | a source without `:` is that serial device; it fails exactly when a source with `:` does not split, with the splitting's error; a TCP link's host has no `:`, the source is host, `:`, port text, and the port is `int` of that text |
| Client.MqttAddressSplits | aqualogic_mqtt/client.py:127-135 | a `host:port` destination connects to that host and port whatever the default; a destination without `:` uses the default port |
| Client.TwoColonsFail | aqualogic_mqtt/client.py:131 | a destination `a:b:c` fails the unpacking with three parts, whatever the default port |
| Client.PanelSourceSplits | aqualogic_mqtt/client.py:113-118 | a source with `host:port` is a TCP connection to that host and port; a source without `:` is a serial device |
| Client.DisconnectStep | aqualogic_mqtt/client.py:90-111 | a non-failure or integer reason changes nothing; a failure with retries left counts one more retry, sets the wait to the smaller of twice the wait and 30, and reconnects after it; a failure with none left gives up and keeps the counters |
| Client.BackoffSchedule | aqualogic_mqtt/client.py:32-35 | from the reset state, failure disconnects wait 2, 4 and 8 seconds, and the fourth gives up (also lines 97-106) |
| Client.DisconnectStepInRange | aqualogic_mqtt/client.py:32-34 | the retry count stays within 0..3 and the wait within 1..30 (also lines 97-99) |
| Client.OnMessageAsWritten | aqualogic_mqtt/client.py:60-64 | the callback as written: the router's replies, or a `TypeError` when the reply is `None` |
| Client.UnknownCommandRaises | aqualogic_mqtt/client.py:60-64 | a command for an id that is no control's is received through the subscription, and the callback as written then raises |
| Client.OnMessageReplies | aqualogic_mqtt/client.py:60-64 | the corrected callback: the router's replies, none when the router has no reply |
| Client.UnknownCommandIgnored | aqualogic_mqtt/client.py:60-64 | with the correction, an unknown command publishes nothing and requests nothing |
| Client.BridgeClient.constructor | aqualogic_mqtt/client.py:32-39 | the retry counters start at 0 and 1, and nothing is subscribed or published |
| Client.BridgeClient.OnConnect | aqualogic_mqtt/client.py:66-83 | a failure reason raises with nothing changed; otherwise the counters are reset to 0 and 1, the command filter is subscribed and the discovery message is published on the discovery topic |
| Client.BridgeClient.OnDisconnect | aqualogic_mqtt/client.py:90-111 | the counters and action are one back-off step; the callback raises exactly when it gives up |
| Client.BridgeClient.OnMessage | aqualogic_mqtt/client.py:60-64 | the corrected callback: the router's request reaches the panel and its replies are published in order |
| Client.BridgeClient.PublishAll | aqualogic_mqtt/client.py:63-64 | every reply is published once, in order, and nothing else changes |
| Client.BridgeClient.PanelChanged | aqualogic_mqtt/client.py:52-57 | the check-system message is observed first, and then the state message, which already counts it, is published once on the state topic |

## Left out

- MQTT transport: the paho client, the broker connection, TLS, credentials, subscribe/publish wire behaviour and `sleep` before a reconnect. Subscriptions and publications are recorded as sequences.
- `_on_connect_fail` only logs.
- Logging everywhere.
- `json.dumps` text: payloads are ordered `Json` records, so the byte encoding and escaping are not modelled.
- The `aqualogic` library: its serial protocol, how `set_state` becomes key presses, and the monkey-patched `_write_to_serial`. A panel is a `Snapshot` of its states, readings and check-system text, and a `Panel` object that records the `set_state` calls it receives.
- Threads, locks and the polling loop of `loop_forever`. The loop's liveness condition is `PanelManager.IsUpdating`.
- Command-line parsing and the environment variable for the password.
- The web application `webapp.py` is not part of this model.
- The block at `messages.py:217-233` sits in the body of class `Messages`, not in a method. It runs when the class is defined, and its first statement reads `Messages` and `self`, neither of which is bound there, so importing `messages.py` raises `NameError`. Every `Messages` member models the module with that block removed. The block would publish button discovery; `get_button_dict`, which only it uses, is left out with it.
- `Messages.IdForString`: `str.isidentifier` and `str.isdecimal` on one character are taken as ASCII letters, `_` and ASCII digits. Non-ASCII letters and digits are not modelled.
- `Controls.KeyFor`: `str.lower` is taken as ASCII lower-casing. Two non-ASCII characters lower to ASCII letters: U+212A (Kelvin sign) to `k`, which no button name contains, and U+0130 to `i` followed by U+0307, which adds a non-ASCII character, so the lowered name cannot be a button name. Which names are found is therefore the same. The name carried by a `KeyError` may differ for non-ASCII input.
- `Client.ParseInt`: covers ASCII digits with single underscores, an optional sign and surrounding whitespace. Non-ASCII digits are not accepted.
- Time is whole seconds given as `now`; the source's floating-point `time.time()` is not modelled.
- `Panelmanager.PanelManager.TextUpdated`: the source's two clock readings (its own and the display's) are taken as one instant. The source swallows any forwarding exception; nothing in the model can fail, so that path is not modelled.
- `Controls.DisplayState.GetDisplay` returns a value, whereas the source's `to_dict` shares its lists with the state, so aliasing is not modelled.
- `Controls.Keypad.DrainKeypresses`: the sender is known by an identity. Its answers are given as one outcome per key (an exception counting as a failure), hence `requires |outcomes| >= |queue|`. The default `max_to_send` of 4 is left to the caller.
- `Messages.ComponentOfControl`: the premise that no user sensor has a control's id is an assumption of the lemma. The source does not check for that clash (its own TODO at `messages.py:165`).
- `Messages.SubscriptionReceivesCommands`: requires control ids without `/`. Every catalog id satisfies this when the identifier has no `/`.
- The `sms[2]` device class is used as given; `str()` of a non-string is not modelled.

## Findings

| source | as written | input that shows it | evidently intended | confidence | as-written member | corrected member |
|---|---|---|---|---|---|---|
| aqualogic_mqtt/client.py:60-64 | `_on_message` iterates over what `handle_message_on_topic` returns, which is `None` when no control's command topic matches | a message on `{root}/x/set`, where `x` is no enabled control's id; the bridge's own `+/set` subscription delivers it, and iterating over `None` raises `TypeError` | publish nothing and change nothing for an unknown command | not executed | Client.UnknownCommandRaises (through Client.OnMessageAsWritten) | Client.UnknownCommandIgnored (Client.OnMessageReplies, used by Client.BridgeClient.OnMessage) |
