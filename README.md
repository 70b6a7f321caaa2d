# PTVO attribute-report demultiplexer

A model of the two device handlers for the PTVO DIY Zigbee firmware (`ptvo2.py`, the newer one, and
`ptvo.py`, the older one). The firmware sends several physical quantities over one analog input
cluster. Attribute 85 (present_value) carries a number. Attribute 28 (description) then carries a
short unit tag that says what that number was.

Each endpoint's `PtvoAnalogInputCluster` is a router. It keeps the last reading, times 100, in
`_current_value`. When a unit tag arrives, it publishes that reading on one of the device's buses.
Virtual measurement clusters subscribe to those buses and store the value as their measured
attribute.

- `zcl.dfy` (module `Zcl`): the shared vocabulary.
  - A reported value is absent (Python's `None`), a number or a string.
  - The attribute ids 85, 28 and 0. The factors 100 and 10000 are written as literals in each
    `Route`.
  - `str.startswith` (`StartsWith`), what a numeric present_value report is, and one lemma about updating maps.
- `ptvo2.dfy` (module `Ptvo2`): the newer handler.
  - **Routing specification.** The pure function `Route` says what one report does to the reading and
    which events it publishes. `Run` covers a trace of reports. `Classify` is an independent
    reference reading of a tag by its prefix.
  - **Listener specification.** `Receive` and `ReceiveAll` say what publishing does to a listener's
    attributes. The temperature listener of endpoint 1 keeps only `temperature_reported_1`, and
    that of endpoint 3 only `temperature_reported_3`.
  - **Classes.** The router, the four listener clusters and the device are classes with the
    source's mutable state. The device owns four buses, each a sequence of subscribed listener
    objects. Each bus's `listener_event` is a loop over its listeners.
  - **Proofs.** `UpdateAttribute` is proved against `Route`, including what every subscribed
    listener holds afterwards. The lemmas are properties of `Route`, `Run` and `ReceiveAll`.
- `ptvo.dfy` (module `Ptvo`): the older handler, built the same way.
  - Tags are matched by exact equality, and there is no pressure path.
  - Two subclasses set the instance flag after the base constructor.
  - The cluster with flag 1 publishes every reading on the humidity bus at once.
  - Listeners store whatever their bus brings.
- `versions.dfy` (module `Versions`): the two handlers side by side.

Two details of the code shape what the model promises:

- Only the newer handler's temperature listener filters by endpoint, through the two method names
  `temperature_reported_1` and `temperature_reported_3`. The humidity, pressure and counter
  listeners, and both listeners of the older handler, store every event on their bus.
- In the older handler, the cluster with flag 1 publishes each reading on the humidity bus.

## Model

| member | source | states |
|---|---|---|
| Zcl.StartsWithIsCharwise | ptvo2.py:50-61 | `StartsWith`, the model of Python's `str.startswith`, holds exactly when the prefix is no longer than the string and agrees with it character by character |
| Ptvo2.Route | ptvo2.py:36-63 | the reference definition `UpdateAttribute` is proved against; its contract: the reading changes only on a numeric present_value report, a published event carries the router's reading (pressure: the reading / 10000), and `value_reported` comes only from endpoint 4 |
| Ptvo2.TemperatureEvents | ptvo2.py:54-59 | a "C" tag gives one temperature event on endpoints 1 and 3 and none elsewhere; that event carries the reading and is the one the same endpoint's temperature listener accepts |
| Ptvo2.TagEvents | ptvo2.py:49-63 | the three prefix tests publish at most one event, never `value_reported`; it carries the reading, or the reading / 10000 for pressure |
| Ptvo2.Receive | ptvo2.py:77-138 | the reference definition the bus loops are proved against: a listener that accepts the event (`Accepts`: it has the event's method, and for temperature the one for its own endpoint) sets its stored attribute to the event's value and adds no other key; any other listener keeps its attributes |
| Ptvo2.PtvoAnalogInputCluster.constructor | ptvo2.py:30-34 | a new router holds reading 0 and an empty attribute cache |
| Ptvo2.PtvoAnalogInputCluster.UpdateAttribute | ptvo2.py:36-63 | the report is cached; the new reading and the published events are those of `Route`; every listener on every bus holds what `ReceiveAll` gives for those events, and no bus changes |
| Ptvo2.PtvoAnalogInputCluster.ReadingReported | ptvo2.py:43-47 | the reading becomes value * 100; endpoint 4 alone publishes it as `value_reported`, and every listener has received it |
| Ptvo2.PtvoAnalogInputCluster.TagReported | ptvo2.py:49-63 | the three prefix tests publish, in order, humidity, the endpoint's own temperature event and pressure / 10000, and every listener has received them |
| Ptvo2.HumidityMeasurementCluster.constructor | ptvo2.py:72-75 | the listener starts empty and is appended to the humidity bus; the other buses are unchanged |
| Ptvo2.HumidityMeasurementCluster.HumidityReported | ptvo2.py:77-79 | measured_value becomes the value; no other attribute changes |
| Ptvo2.TemperatureMeasurementCluster.constructor | ptvo2.py:88-91 | the listener starts empty and is appended to the temperature bus; the other buses are unchanged |
| Ptvo2.TemperatureMeasurementCluster.TemperatureReported1 | ptvo2.py:93-99 | measured_value becomes the value on endpoint 1; nothing changes on any other endpoint |
| Ptvo2.TemperatureMeasurementCluster.TemperatureReported3 | ptvo2.py:101-107 | measured_value becomes the value on endpoint 3; nothing changes on any other endpoint |
| Ptvo2.PressureMeasurementCluster.constructor | ptvo2.py:115-118 | the listener starts empty and is appended to the pressure bus; the other buses are unchanged |
| Ptvo2.PressureMeasurementCluster.PressureReported | ptvo2.py:120-122 | measured_value becomes the value |
| Ptvo2.AnalogValueMeasurementCluster.constructor | ptvo2.py:130-133 | the listener starts empty and is appended to the counter bus; the other buses are unchanged |
| Ptvo2.AnalogValueMeasurementCluster.ValueReported | ptvo2.py:135-138 | present_value (85) of the analog output cluster becomes the value |
| Ptvo2.PtvoTemperature.constructor | ptvo2.py:143-149 | the device starts with four empty buses |
| Ptvo2.PtvoTemperature.Publish | ptvo2.py:45-63 | an event goes to the bus its method name belongs to; afterwards every listener has received the events so far plus this one |
| Ptvo2.PtvoTemperature.TemperatureBusEvent | ptvo2.py:54-59 | every listener on the temperature bus holds `Receive` of the event on its old attributes |
| Ptvo2.PtvoTemperature.HumidityBusEvent | ptvo2.py:49-52 | every listener on the humidity bus holds `Receive` of the event on its old attributes |
| Ptvo2.PtvoTemperature.PressureBusEvent | ptvo2.py:61-63 | every listener on the pressure bus holds `Receive` of the event on its old attributes |
| Ptvo2.PtvoTemperature.CounterBusEvent | ptvo2.py:45-47 | every listener on the counter bus holds `Receive` of the event on its old attributes |
| Ptvo2.AbsentReportIsIgnored | ptvo2.py:38 | a report without a value keeps the reading and publishes nothing, for every attribute id |
| Ptvo2.ReadingIsStoredScaled | ptvo2.py:43-47 | a reading v is stored as exactly v * 100, whatever was stored before, so replaying it changes nothing; it is published as `value_reported(v * 100)` on endpoint 4 and not at all elsewhere |
| Ptvo2.PrefixesExclusive | ptvo2.py:49-63 | no tag starts with two of "%", "C" and "Pa" |
| Ptvo2.TagPublishesByClassification | ptvo2.py:49-63 | a tag keeps the reading and publishes according to its prefix: humidity; temperature_reported_1 or _3 on endpoints 1 and 3 and nothing elsewhere; pressure / 10000; nothing otherwise |
| Ptvo2.OtherAttributeIsIgnored | ptvo2.py:36-63 | attribute ids other than 85 and 28 keep the reading and publish nothing |
| Ptvo2.AtMostOneEvent | ptvo2.py:43-63 | one report publishes at most one event |
| Ptvo2.TagOnFreshRouterPublishesZero | ptvo2.py:30-63 | a tag on a new router publishes the value 0 |
| Ptvo2.RouteReachesOnlyOwnTemperatureListener | ptvo2.py:54-59 | no event a router publishes is accepted by the temperature listener of another endpoint |
| Ptvo2.RunReachesOnlyOwnTemperatureListener | ptvo2.py:54-59 | the same for every trace of reports |
| Ptvo2.RunKeepsLastReading | ptvo2.py:43-44 | after a trace, the reading is 100 times the last numeric present_value report, or the old reading if there is none |
| Ptvo2.RunPublishesAtMostOnePerReport | ptvo2.py:43-63 | a trace publishes no more events than it has reports |
| Ptvo2.RunAppend | ptvo2.py:36-63 | handling two traces one after the other is handling their concatenation |
| Ptvo2.ReceiveAllIsLastAccepted | ptvo2.py:77-138 | a listener holds the value of the last event it accepts, and keeps its attributes when it accepts none |
| Ptvo2.OnlyStoredAttributeChanges | ptvo2.py:77-138 | publishing changes no listener attribute except the one it stores |
| Ptvo2.ReceiveAllAppend | ptvo2.py:77-138 | receiving two event sequences in turn is receiving their concatenation |
| Ptvo2.ReceiveAllIdempotent | ptvo2.py:77-138 | publishing the same events again leaves every listener as it was after the first time |
| Ptvo2.ValueIsNeverCleared | ptvo2.py:77-138 | once a listener holds a value, publishing never removes it |
| Ptvo2.TemperatureListenerFilters | ptvo2.py:93-107 | a temperature listener stores temperature_reported_1 only on endpoint 1 and _3 only on endpoint 3 |
| Ptvo2.NoTemperatureCrosstalk | ptvo2.py:54-107 | whatever one endpoint's router is sent, the temperature listener of another endpoint keeps its attributes |
| Ptvo2.PairRun | ptvo2.py:43-63 | a reading followed by a tag stores v * 100 and publishes the reading's events, then the tag's events carrying v * 100 |
| Ptvo2.ReplayedPairIsIdempotent | ptvo2.py:43-63 | replaying a reading-and-tag pair stores the same reading, publishes the same events again, and leaves every listener where the first pair left it |
| Ptvo2.TemperaturePair | ptvo2.py:43-59 | 21.5 then "C" on endpoint 1 publishes temperature_reported_1(2150), which endpoint 1's temperature listener stores and endpoint 3's ignores |
| Ptvo2.TwoTemperatureEndpointsScenario | ptvo2.py:36-107 | with routers and temperature listeners on endpoints 1 and 3, 21.5 then "C" on endpoint 1 exposes 2150 on endpoint 1 and nothing on endpoint 3 |
| Ptvo2.PressureExample | ptvo2.py:43-63 | on endpoint 3, a reading of 1013 followed by "Pa" stores 101300 and publishes pressure 10.13, which a pressure listener stores as its measured value |
| Ptvo2.CounterScenario | ptvo2.py:43-138 | on endpoint 4, a bare reading of 7 is exposed by the analog value listener as 700 |
| Ptvo2.HumidityBeforeReadingScenario | ptvo2.py:30-79 | a "%RH" tag before any reading is exposed by the humidity listener as 0 |
| Ptvo.Route | ptvo.py:36-56 | the reference definition `UpdateAttribute` is proved against; its contract: the reading changes only on a numeric present_value report, a published event carries the router's reading, and a reading publishes only under flag 1 |
| Ptvo.TagEvents | ptvo.py:49-56 | the two equality tests publish at most one event, and it carries the reading |
| Ptvo.Receive | ptvo.py:82-100 | the reference definition the bus loops are proved against: a listener that accepts the event (`Accepts`: it is on the event's bus) sets measured_value to the event's value and adds no other key; any other listener keeps its attributes |
| Ptvo.PtvoAnalogInputCluster.constructor | ptvo.py:29-34 | the base router holds flag 0, reading 0 and an empty attribute cache |
| Ptvo.PtvoAnalogInputCluster.Instance1 | ptvo.py:59-63 | PtvoAnalogInputCluster1 is the base initialisation with the flag then set to 1 |
| Ptvo.PtvoAnalogInputCluster.Instance2 | ptvo.py:65-69 | PtvoAnalogInputCluster2 is the base initialisation with the flag then set to 2 |
| Ptvo.PtvoAnalogInputCluster.UpdateAttribute | ptvo.py:36-56 | the report is cached; the new reading and the published events are those of `Route`; every listener on both buses holds what `ReceiveAll` gives for those events, and no bus changes |
| Ptvo.PtvoAnalogInputCluster.ReadingReported | ptvo.py:42-47 | the reading becomes value * 100; flag 1 alone publishes it as humidity, and every listener has received it |
| Ptvo.PtvoAnalogInputCluster.TagReported | ptvo.py:49-56 | the two equality tests publish, in order, humidity for "%" and temperature for "C", and every listener has received them |
| Ptvo.HumidityMeasurementCluster.constructor | ptvo.py:77-80 | the listener starts empty and is appended to the humidity bus |
| Ptvo.HumidityMeasurementCluster.HumidityReported | ptvo.py:82-84 | measured_value becomes the value |
| Ptvo.TemperatureMeasurementCluster.constructor | ptvo.py:93-96 | the listener starts empty and is appended to the temperature bus |
| Ptvo.TemperatureMeasurementCluster.TemperatureReported | ptvo.py:98-100 | measured_value becomes the value, with no endpoint filter |
| Ptvo.PtvoTemperature.constructor | ptvo.py:106-110 | the device starts with two empty buses |
| Ptvo.PtvoTemperature.Publish | ptvo.py:44-56 | an event goes to the bus its method name belongs to; afterwards every listener has received the events so far plus this one |
| Ptvo.PtvoTemperature.TemperatureBusEvent | ptvo.py:54-56 | every listener on the temperature bus holds `Receive` of the event on its old attributes |
| Ptvo.PtvoTemperature.HumidityBusEvent | ptvo.py:49-52 | every listener on the humidity bus holds `Receive` of the event on its old attributes |
| Ptvo.AbsentReportIsIgnored | ptvo.py:38 | a report without a value keeps the reading and publishes nothing |
| Ptvo.ReadingIsStoredScaled | ptvo.py:42-47 | a reading v is stored as exactly v * 100, so replaying it changes nothing; flag 1 publishes it as humidity and every other flag publishes nothing |
| Ptvo.TagPublishesByExactMatch | ptvo.py:49-56 | a tag keeps the reading and publishes humidity exactly for "%", temperature exactly for "C", and nothing for any other string or a number |
| Ptvo.NearMissTagsPublishNothing | ptvo.py:49-56 | "%RH", "C " and "Pa" publish nothing |
| Ptvo.OtherAttributeIsIgnored | ptvo.py:36-56 | attribute ids other than 85 and 28 keep the reading and publish nothing |
| Ptvo.AtMostOneEvent | ptvo.py:36-56 | one report publishes at most one event |
| Ptvo.TagOnFreshRouterPublishesZero | ptvo.py:29-56 | a tag on a new cluster publishes the value 0 |
| Ptvo.RunPublishesAtMostOnePerReport | ptvo.py:36-56 | a trace publishes no more events than it has reports |
| Ptvo.RunKeepsLastReading | ptvo.py:42-43 | after a trace, the reading is 100 times the last numeric present_value report, or the old reading if there is none |
| Ptvo.ReadingsAlonePublishNothing | ptvo.py:42-47 | with a flag other than 1, a trace of readings alone publishes nothing |
| Ptvo.ReceiveAllIsLastAccepted | ptvo.py:82-100 | a listener holds the value of the last event on its bus, and keeps its attributes when its bus brought none |
| Ptvo.OnlyMeasuredValueChanges | ptvo.py:82-100 | publishing changes no listener attribute except measured_value |
| Ptvo.ListenersStoreEveryEvent | ptvo.py:82-100 | each listener stores the value of every event of its own bus, and an event of the other bus leaves it unchanged |
| Ptvo.ScenarioValues | ptvo.py:42-56 | 45 under flag 1 publishes humidity 4500; 21.5 then "C" under flag 2 publishes temperature 2150, and the listeners store those values |
| Ptvo.HumidityAtOnceScenario | ptvo.py:42-84 | on PtvoAnalogInputCluster1 with a humidity listener, a reading of 45 is exposed as humidity 4500 at once |
| Ptvo.TemperatureTagScenario | ptvo.py:42-100 | on PtvoAnalogInputCluster2 with a temperature listener, 21.5 then "C" is exposed as temperature 2150 |
| Versions.ExactMatchImpliesPrefixMatch | ptvo.py:49-56 | every tag the older handler recognises, the newer one recognises as the same quantity |
| Versions.SharedTagsPublishTheReading | ptvo2.py:49-59 | on "%" and "C", on endpoints 1 and 3, both routers keep the reading and publish exactly one event carrying it |
| Versions.PrefixTagsOnlyInNewer | ptvo2.py:49-54 | "%RH" and "C " name humidity and temperature to the newer handler only, and "%RH" publishes humidity only there |
| Versions.PressureOnlyInNewer | ptvo2.py:61-63 | a tag starting with "Pa" publishes nothing in the older handler; the newer one classifies it as pressure and publishes the reading / 10000 |
| Versions.ImmediatePublishDiffers | ptvo2.py:43-47 | both handlers store v * 100; the newer one publishes it at once on endpoint 4 as a counter value and not on endpoint 1; the older one publishes it under flag 1 as humidity |
| Versions.TemperatureFilterOnlyInNewer | ptvo2.py:93-107 | the older temperature listener stores a value that the newer listener on the other endpoint ignores |

## Left out

- Ptvo2.PtvoAnalogInputCluster.UpdateAttribute: requires that attribute 85 never carries a string
  and attribute 28 never carries a number. The analog input cluster declares present_value a float
  and description a character string, and `startswith` on a number would raise an exception, which
  the model does not represent.
- Ptvo.PtvoAnalogInputCluster.UpdateAttribute: requires that attribute 85 never carries a string,
  for the same reason. A numeric attribute 28 is modelled: it equals neither tag and publishes
  nothing.
- Ptvo2.PtvoAnalogInputCluster.UpdateAttribute: the events it publishes are returned as a ghost
  value; the Python method returns nothing.
- Ptvo.PtvoAnalogInputCluster.UpdateAttribute: the same.
- The `print` calls and the commented-out debugging lines have no effect on state.
- `_current_state` is initialised and never used.
- The `signature` and `replacement` tables are static configuration. They are used only to choose
  which listeners the scenarios put on which endpoint.
- The zigpy and zhaquirks base classes are code outside this model:
  - the base `_update_attribute` is modelled as writing the value into a plain attribute map;
  - `attridx["present_value"]` is taken to be 85;
  - `Bus.add_listener` is modelled as appending to a sequence, so a listener subscribed twice
    would run twice, which stores the same value again;
  - `Bus.listener_event` is modelled as calling the method of every subscribed listener that has
    one, in subscription order. Within each class, the method is chosen by the event's name.
- Numbers are exact reals. The IEEE rounding of `value * 100` and `/ 10000.0` is not modelled,
  nor is the distinction between Python's int 0 and float readings.
- Message delivery from the host and concurrency are not modelled. Reports are handled one at a
  time, each to completion.
