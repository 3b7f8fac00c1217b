# Peimar bridge: a verified model of its decision logic

The Peimar bridge (`peimar_bridge/peimar.py`) polls the Peimar solar portal
over HTTP. It republishes the inverter's readings on MQTT for Home Assistant,
and keeps a month-by-month energy archive that the user can browse from a
Home Assistant drop-down. This project models the bridge's deterministic
core in Dafny and proves properties of it. The network, the MQTT broker, the
disk and the clock are passed in as parameters, so the core is a set of pure
functions:

- **Text** (`text.dfy`): the Python string operations the bridge relies on.
  These are `str.replace`, `str.strip` (Python's whitespace set),
  `str.split` on one character, `str(int)`, `int(str)` (sign, ASCII digits,
  underscore groups) and `"{:02d}".format`. Each comes with the laws the rest
  of the model needs: split/join round trip, `int(str(i)) == i`, and
  injectivity of `str`.
- **Normalize** (`normalize.dfy`): `clean_value`, and the grid and battery
  direction rules of `process_and_publish`.
- **Discovery** (`discovery.dfy`): the Home Assistant discovery document of
  `announce_sensor`, and the 28-sensor table of `setup_discovery`.
- **History** (`history.dfy`): the month archive, and the backfill
  `fetch_full_history` with the portal as an oracle `(year, month) -> reply`.
- **Menu** (`menu.dfy`): `update_ha_menu`, which lists every archived month
  as `YYYY-MM`, newest first.
- **Selection** (`selection.dfy`): `on_message`, the handler for a month
  chosen in Home Assistant.
- **Fetch** (`fetch.dfy`): what `fetch_data` assigns to `live` and `raw`
  from the decoded portal responses. Neither value need be a JSON object.
- **Telemetry** (`telemetry.dfy`): the topic table and the publication loop
  of `process_and_publish`.
- **Poll** (`poll.dfy`): the stale-reading test and the adaptive sleep
  inside `run`.

The archive is keyed by integers, while the JSON file keys it by `str(year)`
and `str(month)`. `str` is injective on integers
(`Text.IntToStringInjective`), so every lookup the code does by key text is
modelled exactly. The one exception is the year typed into a selection: it
must be spelled exactly as `str` spells it, and that is what
`Text.CanonicalInt` decides.

Python's `float()` on text, `round(x, 2)` and `datetime.fromtimestamp(...)
.strftime('%H:%M:%S')` are oracle parameters (`parse`, `round2`, `clock`).

## Model

| member | source | states |
|---|---|---|
| Text.Strip | peimar_bridge/peimar.py:140 | The result is a contiguous slice of the input, everything cut off on either side is whitespace, and the result neither starts nor ends with whitespace. |
| Text.StripIdempotent | peimar_bridge/peimar.py:140 | Stripping twice is stripping once. |
| Text.SplitJoin | peimar_bridge/peimar.py:146 | Splitting the `-`-join of pieces that contain no `-` gives back exactly those pieces. |
| Text.Split | peimar_bridge/peimar.py:146 | `split('-')` gives at least one piece, no piece contains the separator, and joining the pieces restores the text. |
| Text.IntToStringInjective | peimar_bridge/peimar.py:147 | Different integers have different `str` texts, so archive keys `str(y)` stand for their years exactly. |
| Text.PyIntOfIntToString | peimar_bridge/peimar.py:147 | `int(str(i)) == i` for every integer, negative ones included. |
| Text.PyIntOfNegativeDigits | peimar_bridge/peimar.py:147 | `int()` reads a minus sign followed by ASCII digits as the negated value of the digits. |
| Text.PyIntOfDigits | peimar_bridge/peimar.py:147 | `int()` reads a run of ASCII digits, leading zeros included, as its decimal value, so "03" reads as 3. |
| Text.CanonicalInt | peimar_bridge/peimar.py:149 | A year text matches an archive key exactly when it is `str(i)` for some integer `i`, and then it names that `i`. |
| Text.CanonicalIntOfIntToString | peimar_bridge/peimar.py:149 | The archive key `str(i)` is recognised as the key of `i` itself. |
| Text.ReplaceCommas | peimar_bridge/peimar.py:71 | `replace(',', '.')` rewrites every comma to a point and keeps every other character in place. |
| Text.ReplacePastPrefix | peimar_bridge/peimar.py:71 | `replace` copies a prefix holding no first character of the pattern and resumes the scan after it. |
| Text.ReplaceOneChar | peimar_bridge/peimar.py:486 | A text holding one occurrence of a character has exactly that occurrence replaced. |
| Text.StripAmidSpace | peimar_bridge/peimar.py:71 | Text that neither starts nor ends with whitespace, padded with whitespace, strips back to itself. |
| Text.Pad2 | peimar_bridge/peimar.py:330 | `"{:02d}"` gives two digits for 0..99, digits whose value is the number for any non-negative number, and `str(m)` for a negative one. |
| Normalize.CleanString | peimar_bridge/peimar.py:71 | The text handed to `float()` has no '%', 'W' or ',', has no surrounding whitespace, and every character is '.' or a character of the input other than '%', 'W' and ','. |
| Normalize.CleanStringOfReading | peimar_bridge/peimar.py:71 | A reading made of digits with a decimal comma or point, padded with whitespace and followed by no unit, "%", "W" or "kWh", reaches `float()` as exactly the digits with every ',' made '.'. |
| Normalize.CleanStringIdempotent | peimar_bridge/peimar.py:71 | Cleaning already-cleaned text changes nothing. |
| Normalize.CleanValue | peimar_bridge/peimar.py:67-74 | None gives 0.0, a number is itself, a boolean is 1.0 or 0.0, and text is cleaned and parsed with any parse failure giving 0.0. |
| Normalize.CleanValueStable | peimar_bridge/peimar.py:67-74 | Feeding a cleaned string back through `clean_value` gives the same number. |
| Normalize.CleanStringCommaExample | peimar_bridge/peimar.py:71 | "1,5 kWh" reaches `float()` as "1.5". |
| Normalize.CleanStringPercentExample | peimar_bridge/peimar.py:71 | "85%" reaches `float()` as "85". |
| Normalize.GridFlowAsWritten | peimar_bridge/peimar.py:406-414 | The grid rule as written raises TypeError exactly when the direction is -1 or 1 and the power is not a number; otherwise it negates a positive power and labels it "Immissione" under direction -1, labels a positive power "Esportazione" under direction 1, and labels everything else "Riposo" with the power unchanged. |
| Normalize.BatteryFlowAsWritten | peimar_bridge/peimar.py:416-424 | The battery rule as written raises TypeError exactly when the direction is -1 and the power is not a number; otherwise direction -1 negates the power and labels it charging, 1 labels it discharging, and anything else labels it idle, the power unchanged. |
| Normalize.GridFlow | peimar_bridge/peimar.py:406-414 | The label is "Immissione" iff the direction is -1 and the power is a positive number, and "Esportazione" iff the direction is 1 and the power is positive, "Riposo" otherwise. Feed-in publishes exactly the negated power; every other label publishes the power unchanged. |
| Normalize.BatteryFlow | peimar_bridge/peimar.py:416-424 | The label is charging iff the direction is -1 and discharging iff it is 1, idle otherwise. Charging publishes a numeric power negated and passes any other power through unchanged (a missing one stays missing, a text one goes out un-negated); other directions leave the power unchanged. |
| Normalize.GridFlowAgrees | peimar_bridge/peimar.py:406-414 | Wherever the grid rule as written does not raise, the corrected rule gives the same power and label. |
| Normalize.BatteryFlowAgrees | peimar_bridge/peimar.py:416-424 | Wherever the battery rule as written does not raise, the corrected rule gives the same power and label. |
| Normalize.MissingPowerRaises | peimar_bridge/peimar.py:408 | A reading with direction -1 and no power raises TypeError in both rules as written, while the corrected rules give idle grid or charging battery with the power left unpublished. |
| Normalize.FlowExamples | peimar_bridge/peimar.py:406-424 | Grid (100, -1), (100, 1) and (0, 0) give (-100, "Immissione"), (100, "Esportazione") and (0, "Riposo"); battery (50, -1) and (50, 1) give (-50, charging) and (50, discharging). |
| Discovery.ObjectId | peimar_bridge/peimar.py:77 | The flattened topic has the same length as the topic, every '/' turned into '_' and every other character kept, so it contains no '/'. |
| Discovery.DiscoveryTopicLevels | peimar_bridge/peimar.py:77 | The discovery topic has exactly the five levels homeassistant / sensor / peimar / flattened topic / config. |
| Discovery.DocumentLookups | peimar_bridge/peimar.py:78-90 | Each key of the discovery document holds the value built for it, and `device_class` and `state_class` are present exactly when given a non-empty value. |
| Discovery.AnnounceSensor | peimar_bridge/peimar.py:76-91 | The message goes to the five-level discovery topic and carries the name, the state topic "peimar/" + topic, the unique id from the serial number and flattened topic, the unit, the device, and `device_class`/`state_class` exactly when truthy. |
| Discovery.SetupDiscovery | peimar_bridge/peimar.py:93-127 | One discovery message per sensor of the table, in table order. What those messages promise is proved about them in Telemetry: pairwise distinct discovery topics and unique ids (`Telemetry.DiscoveryDistinct`), and each state topic naming the table topic its value is sent on (`Telemetry.DiscoveryStateTopics`). |
| Discovery.ObjectIdInjective | peimar_bridge/peimar.py:77 | On topics of two levels whose first level has no '_', flattening is one-to-one: two such topics share an object id exactly when they are the same topic. |
| Discovery.ObjectIdMerges | peimar_bridge/peimar.py:77 | Without that shape flattening merges topics: "a/b_c" and "a_b/c" are different topics with the same object id. |
| Discovery.DiscoveryTopicInjective | peimar_bridge/peimar.py:77 | Two topics get the same discovery topic exactly when they get the same object id. |
| Discovery.UniqueIdInjective | peimar_bridge/peimar.py:81 | Two topics get the same unique id exactly when they get the same object id. |
| Telemetry.TableTopicsDistinct | peimar_bridge/peimar.py:431-473 | No two entries of the topic table publish to the same topic. |
| Telemetry.TableTopicsTwoLevels | peimar_bridge/peimar.py:431-473 | Every table topic is a group (pv, battery, house, grid, inverter, status), one '/', and one more level, with no '_' in the group. |
| Telemetry.SensorObjectIdsDistinct | peimar_bridge/peimar.py:93-127 | No two of the 28 announced sensors share an object id. |
| Telemetry.DiscoveryStateTopics | peimar_bridge/peimar.py:93-127 | Each message of `setup_discovery` names as its state topic "peimar/" + the table topic on which the publication loop sends that sensor's value. |
| Telemetry.DiscoveryDistinct | peimar_bridge/peimar.py:93-127 | The 28 messages of `setup_discovery` go to 28 different discovery topics and carry 28 different unique ids, so no sensor's retained configuration overwrites another's. |
| History.DropEmptyYears | peimar_bridge/peimar.py:277-278 | The filter keeps exactly the years with at least one month, and every kept month unchanged. |
| History.KeepsRecordedStep | peimar_bridge/peimar.py:238-267 | Querying one more month adds it to the year's months exactly when its reply has a non-empty `viewBean` with `pvElec` or `useElec` not None, and leaves the other months as they were. |
| History.AddMonth | peimar_bridge/peimar.py:252-273 | One month's query, failed or empty or recorded, keeps the year's months exactly the recorded months so far. |
| History.FetchYear | peimar_bridge/peimar.py:236-275 | One year's loop queries months 1 through its end month in order, and keeps exactly the months whose reply is recorded (`History.KeepsRecorded`), each as the cleaned totals of its `viewBean`. |
| History.QueriesCoverWindow | peimar_bridge/peimar.py:235-238 | The backfill's queries are the whole window from January of the start year through the current month, each once, in chronological order, 12 per full year. |
| History.ArchiveKeepsRecordedStep | peimar_bridge/peimar.py:235-236 | Storing a fetched year under its key extends the archive to exactly the recorded months of the window up to that year, earlier years untouched. |
| History.ArchiveKeepsRecordedFinal | peimar_bridge/peimar.py:277-278 | Once every year is fetched, dropping empty years leaves exactly the recorded months of the window, with their totals, and no empty year. |
| History.FetchFullHistory | peimar_bridge/peimar.py:229-279 | The backfill asks every month of the window once, in chronological order, and its archive holds a month exactly when the month is in the window and its reply is recorded. The value is the cleaned totals, and no year is empty. |
| Menu.SortedInts | peimar_bridge/peimar.py:326 | `sorted(keys, key=int)`: the keys in strictly ascending order, each exactly once. |
| Menu.ChronologicalMembers | peimar_bridge/peimar.py:326-330 | The nested year/month loop lists exactly the months of the listed years. |
| Menu.ChronologicalOrdered | peimar_bridge/peimar.py:326-330 | Walking the years in ascending order and each year's months by `sorted(key=int)` lists the months in strictly ascending (year, month) order. |
| Menu.NewestFirstMembers | peimar_bridge/peimar.py:326-331 | The reversed listing holds exactly the archived months. |
| Menu.NewestFirstOrdered | peimar_bridge/peimar.py:331 | `reverse()` turns the ascending listing into strictly descending (year, month) order. |
| Menu.MenuPairs | peimar_bridge/peimar.py:323-332 | After the reverse, the list holds exactly the archived (year, month) pairs in strictly descending order. |
| Menu.UpdateHaMenu | peimar_bridge/peimar.py:323-333 | The message goes to "peimar/history/options" and holds one `YYYY-MM` label per archived month, newest first; an archive with no months gives the empty list. |
| Menu.MonthLabelParts | peimar_bridge/peimar.py:330 | A label splits at its dash into `str(year)` and the two-digit month. |
| Menu.DashSplit | peimar_bridge/peimar.py:146 | `split('-')` of a non-negative year, a dash and a text without dashes gives back exactly the year's digits and that text. |
| Menu.MonthLabelInjective | peimar_bridge/peimar.py:330 | Distinct months of non-negative years get distinct labels. |
| Selection.OnMessage | peimar_bridge/peimar.py:138-157 | A stripped payload without '-' or shorter than 6 is ignored. One that does not split into two parts, or whose month part is not an integer, raises ValueError inside the handler and publishes nothing. Otherwise, a year part that is `str(y)` publishes the four totals of (y, int(month part)) when archived and nothing when not; any other year part ("+2024", "02024") matches no key and publishes nothing. |
| Selection.Lookup | peimar_bridge/peimar.py:149-154 | The lookup publishes exactly when the archive holds the year and the month, and then the four totals of that month; otherwise nothing. |
| Selection.HandleResolves | peimar_bridge/peimar.py:141-155 | On a text that passes the gate and splits well, a year part equal to `str(y)` resolves to the lookup of (y, int(month part)), and a year part that is no integer's `str` resolves to nothing. |
| Selection.SelectionResolves | peimar_bridge/peimar.py:141-155 | The handler, given the stripped text `str(y)` + "-" + a month text that `int()` turns into `m`, publishes the four totals of (y, m) when both keys exist and nothing otherwise. |
| Selection.DashGate | peimar_bridge/peimar.py:141 | A year, a dash and a month text of at least five characters together pass the dash-and-length gate. |
| Selection.MonthKeyNormalised | peimar_bridge/peimar.py:147 | Two payloads for the same year whose month texts `int()` reads alike ("03" and "3") are handled identically. |
| Selection.NoDashIgnored | peimar_bridge/peimar.py:141-142 | A payload with no dash is ignored whatever the archive holds. |
| Selection.Figures | peimar_bridge/peimar.py:150-154 | Exactly the four topics selected/pv, use, buy and sell, in that order, each carrying the matching total. |
| Selection.PyIntOfPad2 | peimar_bridge/peimar.py:147 | A month label's two-digit month reads back through `int()` as the month. |
| Selection.LabelSelects | peimar_bridge/peimar.py:138-157 | The menu label of a month from year 100 on, sent back, publishes that month's totals if archived and nothing otherwise. |
| Selection.MenuSelectionRoundTrip | peimar_bridge/peimar.py:138-157 | Every entry of the published menu, sent back as a selection, publishes exactly the totals of the month it names (years from 100 on, non-negative months). |
| Selection.ShortLabelIgnored | peimar_bridge/peimar.py:140-142 | The label of a month 0..99 of a year from -9 to 99, sent back, is ignored by the six-character gate. |
| Selection.NegativeYearLabelRaises | peimar_bridge/peimar.py:140-146 | The label of a month of a year from -10 down, sent back, passes the gate but splits at its minus sign into three parts, so the handler raises ValueError and publishes nothing. |
| Selection.SelectionExample | peimar_bridge/peimar.py:138-157 | With March 2024 archived as (10, 5, 1, 2), "2024-3" publishes those four totals and "2024-03" does the same. |
| Selection.MalformedExample | peimar_bridge/peimar.py:146 | "not-a-month" splits into three parts, so the handler raises and publishes nothing. |
| Selection.SignedYearExample | peimar_bridge/peimar.py:147-149 | "+2024-3" publishes nothing although March 2024 is archived: the year part is looked up as written, and no key is spelled with a '+'. |
| Telemetry.LastUpdateLabel | peimar_bridge/peimar.py:402-403 | A missing, null or zero `updateDate` gives "N/D". A numeric one gives the clock's rendering of the stamp in seconds. A non-numeric truthy one raises TypeError, and one the clock rejects raises. |
| Telemetry.PyFloat | peimar_bridge/peimar.py:481 | `float()` keeps numbers, reads booleans as 1 or 0, parses text, and raises on anything else. |
| Telemetry.PercentFree | peimar_bridge/peimar.py:486 | The text handed to `float()` in the percent branch has no '%' and no ','. |
| Telemetry.PercentFreeOfValue | peimar_bridge/peimar.py:486 | A value with one '%' anywhere reaches `float()` with the '%' dropped, every other character in place, and every ',' made '.'. |
| Telemetry.PublishedValue | peimar_bridge/peimar.py:477-486 | On volt/current/freq/energy topics a value `float()` accepts goes out rounded. Text still holding '%' is parsed without sign and comma, and raises ValueError when that fails; that is the only failure while the value is prepared. Other values go out unchanged, and no published text contains '%'. |
| Telemetry.PresentMembers | peimar_bridge/peimar.py:476 | The loop considers exactly the table entries whose value is not None. |
| Telemetry.Emit | peimar_bridge/peimar.py:477-487 | A present entry goes out on "peimar/" + its topic with its published value. It raises what the value raises, or TypeError when the value is a list or an object, which MQTT `publish` refuses. |
| Telemetry.PublishAll | peimar_bridge/peimar.py:475-487 | The messages sent are the present entries in table order, each on its state topic with its published value, up to the first value that raises. The cycle ends without an exception exactly when every present entry was sent, and an exception is the one the next present entry raises. |
| Telemetry.SendAll | peimar_bridge/peimar.py:475-487 | Over the present entries alone: the messages sent are a prefix of them in order, each as `Emit` makes it, and the run stops exactly at the first entry that raises, with that exception. |
| Telemetry.Mapping | peimar_bridge/peimar.py:431-473 | The table has 30 entries, and it pairs its values with the topics pv/solar_power through status/last_update_time in insertion order. |
| Telemetry.ProcessAndPublish | peimar_bridge/peimar.py:400-487 | An `updateDate` whose label cannot be built raises before anything is published. Otherwise the cycle, completed or not, is the publication loop over the topic table whose last-update entry is exactly that label. |
| Telemetry.ProcessHeld | peimar_bridge/peimar.py:400-416 | A held `live` that is not a dict raises AttributeError before anything is sent. A `raw` that is not a dict does too, unless the last-update label raised first, and then nothing is sent either. AttributeError means one of the two was not a dict, and the cycle sends something only when both are dicts, in which case it is `ProcessAndPublish` on them. |
| Telemetry.AbsentListCycleRaises | peimar_bridge/peimar.py:186-188 | As written: after a raw-data page without "list", a cycle whose label renders raises AttributeError at `self.raw.get` (line 416) and sends nothing. |
| Telemetry.AbsentListCycleReads | peimar_bridge/peimar.py:416 | With the corrected default, the same cycle reads the raw measurements as an empty dict and never raises AttributeError. |
| Telemetry.AnnouncedSensorsMapped | peimar_bridge/peimar.py:431-473 | Every sensor announced at discovery has an entry in the topic table, so its state topic gets a value. |
| Telemetry.SensorTopics | peimar_bridge/peimar.py:93-127 | The announced sensors' topics are the table's topics in order, skipping the two lifetime battery totals. |
| Telemetry.LifetimeTotalsUnannounced | peimar_bridge/peimar.py:451-452 | The two lifetime battery totals are in the table but no announced sensor has their topics. |
| Telemetry.NotRounded | peimar_bridge/peimar.py:479 | A topic missing a letter of each of "volt", "current", "freq" and "energy" is not rounded. |
| Telemetry.StatusTopicsPlain | peimar_bridge/peimar.py:479 | The grid status, battery status and last-update topics are not rounded. |
| Telemetry.CompletedCycleSends | peimar_bridge/peimar.py:475-487 | In a cycle that ran to the end, every entry whose value is not None was sent. |
| Telemetry.StatusSent | peimar_bridge/peimar.py:475-487 | In a cycle that ran to the end, a status text entry went out as the text itself on its state topic. |
| Telemetry.GridStatusPublished | peimar_bridge/peimar.py:464 | A completed cycle sends the grid status label of the reading on "peimar/grid/grid_status". |
| Telemetry.BatteryStatusPublished | peimar_bridge/peimar.py:453 | A completed cycle sends the battery status label of the reading on "peimar/battery/battery_status". |
| Telemetry.LastUpdatePublished | peimar_bridge/peimar.py:400-487 | A completed cycle built the reading's label ("N/D" or the clock's time of day) and sends exactly that label on "peimar/status/last_update_time". |
| Telemetry.LabelPlain | peimar_bridge/peimar.py:403 | The last-update label, "N/D" or a "%H:%M:%S" rendering, holds no '%', so the loop sends it unchanged. |
| Telemetry.CycleStatusesSent | peimar_bridge/peimar.py:400-487 | A completed cycle built its last-update label and sends the grid and battery status texts of its reading, each on its state topic. It also sends the label when the label holds no '%'. |
| Fetch.FetchWith | peimar_bridge/peimar.py:163-227 | A plant or live request that raises, or whose body is not an object, leaves both values as they were. Otherwise `live` becomes the response's "storeDevicePower", `{}` when absent. `raw` changes only when its page is an object whose "list" (the default when absent) is truthy and indexable, and then it becomes the first item. |
| Fetch.First | peimar_bridge/peimar.py:187-188 | `raw_list[0]` gives the first item of a list or the first character of a text, and raises for a dict, a number or a boolean. |
| Fetch.FetchKeepsRawDict | peimar_bridge/peimar.py:186-188 | With the corrected default, a `raw` that is a dict stays a dict whenever the raw page has the record shape or its request fails. |
| Fetch.AbsentListEmptyRaw | peimar_bridge/peimar.py:186-188 | With the corrected default, a raw page without "list" leaves `raw` the empty dict. |
| Fetch.AbsentListZeroesRaw | peimar_bridge/peimar.py:186-188 | As written, a raw page without "list" has the record shape, yet it makes `raw` the number 0. |
| Fetch.NullLive | peimar_bridge/peimar.py:179 | A "storeDevicePower" that is null makes `live` null. |
| Poll.NullLiveStopsRun | peimar_bridge/peimar.py:373 | After a response with a null "storeDevicePower", the next pass raises AttributeError at `self.live.get`, which ends the loop. |
| Poll.Trunc | peimar_bridge/peimar.py:383 | `int()` on a float truncates toward zero: within one below or above the value, on the side of zero. |
| Poll.SleepAfterPublish | peimar_bridge/peimar.py:382-386 | The wait after publishing is at least 10 seconds, and otherwise the whole seconds left until 315 s after the reading's stamp. |
| Poll.SleepFloorForm | peimar_bridge/peimar.py:382-386 | Because of the clamp, the truncated wait equals max(10, floor(stamp/1000 + 315 - now)). |
| Poll.SleepExamples | peimar_bridge/peimar.py:382-386 | Publishing 5 s after the stamp waits 310 s; publishing 400 s after it waits 10 s. |
| Poll.Decide | peimar_bridge/peimar.py:377-397 | A reading is published iff its stamp is newer than the remembered one. The remembered stamp becomes the max of the two. Publishing sleeps the adaptive wait, a stale reading 30 s. |
| Poll.PollStep | peimar_bridge/peimar.py:373-379 | A `live` that is not a dict raises AttributeError. Otherwise `updateDate`, 0 when absent, raises (never AttributeError) exactly when it is not a number or the clock rejects it, and the pass decides on its numeric value. |
| Poll.Run | peimar_bridge/peimar.py:356-397 | Each pass of a run decides with the stamp remembered after the previous pass; the first pass uses the stamp the run starts from. |
| Poll.RunTracksNewest | peimar_bridge/peimar.py:377-380 | The remembered stamp is always the newest stamp seen so far, and a pass publishes exactly when its stamp beats every earlier one. |
| Poll.RunMonotone | peimar_bridge/peimar.py:377-380 | The remembered stamp never decreases along a run. |
| Poll.StaleStampNotRepublished | peimar_bridge/peimar.py:377-397 | A stamp no newer than one seen earlier is not published again and the pass retries in 30 s, so a reading repeated back to back is published once. |

## Left out

- HTTP: login and the portal session. The responses `fetch_data` reads are inputs (`Fetch.Body`: a decoded body, or None when the request or its decoding raised), and so are the backfill's replies (the `(year, month) -> MonthReply` oracle). The plant details and the chart bean that `fetch_data` also stores are read nowhere in the bridge, so the model keeps only the plant request's power to stop the fetch.
- MQTT: client setup, the subscription and the callback thread. A publication is a `Message` value, and the concurrency has nothing to decide.
- File I/O: `load_local_history` and `save_local_history`. The archive is passed in as a value. Archive files edited by hand are not modelled, such as a month lacking a 'pv' key, which would raise part-way through the four publications.
- `print_ordered_history`: console output only.
- Startup in `run`: the choice between the stored archive and a backfill from 2022, the 00:05 nightly refresh, the six-hourly re-login and the one-second sleep loops. These depend on the wall clock and only sequence the modelled operations.
- Floating point: `float()` on text, `round(x, 2)` and `datetime.fromtimestamp` are oracles. Stamps and wall-clock times are exact reals, so float rounding in `current_ts / 1000.0 + 315 - time.time()` is not modelled.
- JSON numbers: `JNum` holds one exact real for both JSON integers and floats. So the published text of a number is not modelled, such as `100` against `100.0`, or the `-0.0` that negating a float zero gives under direction -1.
- `Telemetry.LastUpdatePublished`: assumes that the clock's rendering never contains '%' (`Telemetry.PlainClock`), as `strftime('%H:%M:%S')` guarantees. The clock itself is an oracle.
- `Text.PyInt`: accepts only ASCII digits, while Python's `int()` also accepts other Unicode decimal digits.
- `Selection.OnMessage`: takes the payload already decoded, so a payload that is not valid UTF-8 is out of scope. That payload raises inside the handler and is swallowed, publishing nothing, as for `Raised`.
- `Selection.MenuSelectionRoundTrip`: stated for years from 100 on and non-negative months. For months 0 to 99, a label of a year from -9 to 99 is shorter than six characters, so the handler's gate ignores it (`Selection.ShortLabelIgnored`). A label of a year of -10 or less starts with the year's minus sign, so it splits into three parts and raises ValueError inside the handler (`Selection.NegativeYearLabelRaises`). Either way nothing is published.
- `Telemetry.ProcessAndPublish`, `Telemetry.ProcessHeld`: use the corrected grid and battery rules (see Findings), not the rules as written.
- `Poll.Run`: runs over numeric stamps only, and treats every publishing pass as completed. In `run`, a pass ends the loop when its stamp raises (`Poll.PollStep` returns that error), and also when its `process_and_publish` raises (line 379). That happens through AttributeError when `live` or `raw` is not a dict (lines 373, 402 and 416), ValueError on '%' text (line 486) or TypeError from `publish` (line 487). `Poll.PollStep` and `Telemetry.ProcessHeld` report those failures, as well as a last-update label that cannot be built (line 403), but they are not carried into runs. The TypeErrors of the grid and battery rules as written (lines 408, 419) appear only in `Normalize.GridFlowAsWritten` and `Normalize.BatteryFlowAsWritten`, because `Telemetry.ProcessAndPublish` uses the corrected rules.

## Findings

| source | as written | input that shows it | evidently intended | confidence | as-written member | corrected member |
|---|---|---|---|---|---|---|
| peimar_bridge/peimar.py:406-414 | `grid_power > 0` is evaluated whenever the direction is -1 or 1, so a reading without `gridPower` raises TypeError. `process_and_publish` has no handler, so the exception ends the polling loop. | live reading `{"gridDirection": -1}` with no `gridPower` | a missing power is not positive: the grid is idle and nothing is published for its power | medium; not executed | Normalize.GridFlowAsWritten, Normalize.MissingPowerRaises | Normalize.GridFlow, Normalize.GridFlowAgrees |
| peimar_bridge/peimar.py:416-424 | `-battery_power` is evaluated whenever the direction is -1, so a raw reading without `batPower` raises TypeError and ends the polling loop. | live `{"batteryDirection": -1}` with a raw reading lacking `batPower` | the status is still "Batteria in carica" and the missing power stays unpublished. The corrected rule negates only numbers, so a `batPower` that is text (as written also a TypeError) goes out as it came, labelled charging | medium; not executed | Normalize.BatteryFlowAsWritten, Normalize.MissingPowerRaises | Normalize.BatteryFlow, Normalize.BatteryFlowAgrees |
| peimar_bridge/peimar.py:186-188 | `r.json().get("list", [0])` falls back on `[0]`, so a raw-data page without "list" makes `raw` the number 0. The next publishing cycle then raises AttributeError at `self.raw.get` (line 416). Nothing catches it, so the polling loop ends. | plant and live requests that succeed, then a raw-data page `{}`, such as an error body without "list" | the default keeps `raw` a dict, as the `{}` defaults of the plant and live requests do: `[{}]`. The raw values are then absent and skipped | medium; not executed | Fetch.FetchDataAsWritten, Fetch.AbsentListZeroesRaw, Telemetry.AbsentListCycleRaises | Fetch.FetchData, Fetch.FetchKeepsRawDict, Fetch.AbsentListEmptyRaw, Telemetry.AbsentListCycleReads |
