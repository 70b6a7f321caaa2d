/**
 * The older PTVO handler (ptvo.py). Two analog input clusters, told apart
 * only by an instance flag their constructors set, keep the last reading,
 * scaled to hundredths. A unit tag that equals "%" or "C" exactly publishes
 * that reading on the humidity or temperature bus; the cluster with flag 1
 * also publishes every reading on the humidity bus at once. The listeners
 * store whatever their bus brings them.
 */
module Ptvo {
  import opened Zcl

  /** What the router publishes: the listener method name and its argument. */
  datatype Event =
    | HumidityReported(value: real)
    | TemperatureReported(value: real)

  /** The router's state after one report and the events it published, in order. */
  datatype Step = Step(current: real, events: seq<Event>)

  /** Attribute 85 of the analog input cluster is a float, never a character string. */
  predicate WellTyped(attrid: int, value: Value)
  {
    attrid == PRESENT_VALUE ==> !value.Text?
  }

  predicate AllWellTyped(reports: seq<Report>)
  {
    forall i :: 0 <= i < |reports| ==> WellTyped(reports[i].attrid, reports[i].value)
  }

  /** Reference reading of a unit tag: only the exact strings "%" and "C" name a quantity. */
  function Classify(value: Value): Option<Quantity>
  {
    if value == Text("%") then Some(Humidity)
    else if value == Text("C") then Some(Temperature)
    else None
  }

  /** The events of a unit tag report: two independent equality tests. */
  function TagEvents(current: real, value: Value): (r: seq<Event>)
    ensures |r| <= 1
    ensures r != [] ==> r[0].value == current
  {
    (if value == Text("%") then [HumidityReported(current)] else []) +
    (if value == Text("C") then [TemperatureReported(current)] else [])
  }

  /** Specification of PtvoAnalogInputCluster._update_attribute. */
  function Route(instanceFlag: int, current: real, attrid: int, value: Value): (r: Step)
    requires WellTyped(attrid, value)
    ensures r.current != current ==> attrid == PRESENT_VALUE && value.Number?
    ensures r.events != [] ==> r.events[0].value == r.current
    ensures r.events != [] && attrid == PRESENT_VALUE ==> instanceFlag == 1
  {
    if value.Absent? then Step(current, [])
    else if attrid == PRESENT_VALUE then
      var reading := value.n * 100.0;
      Step(reading, if instanceFlag == 1 then [HumidityReported(reading)] else [])
    else if attrid == DESCRIPTION then Step(current, TagEvents(current, value))
    else Step(current, [])
  }

  /** A trace of reports handled one after another by one router. */
  function Run(instanceFlag: int, current: real, reports: seq<Report>): Step
    requires AllWellTyped(reports)
    decreases |reports|
  {
    if reports == [] then Step(current, [])
    else
      var first := Route(instanceFlag, current, reports[0].attrid, reports[0].value);
      var rest := Run(instanceFlag, first.current, reports[1..]);
      Step(rest.current, first.events + rest.events)
  }

  // ---------------------------------------------------------------------
  // Listeners, described on values
  // ---------------------------------------------------------------------

  datatype ListenerKind = HumidityListener | TemperatureListener

  /** A listener stores every event of its own bus, whatever endpoint it came from. */
  predicate Accepts(kind: ListenerKind, e: Event)
  {
    match e
    case HumidityReported(_) => kind == HumidityListener
    case TemperatureReported(_) => kind == TemperatureListener
  }

  /** One listener_event call on the listener's bus, as seen by that listener. */
  function Receive(kind: ListenerKind, attrs: map<int, real>, e: Event): (r: map<int, real>)
    ensures Accepts(kind, e) ==>
      MEASURED_VALUE in r && r[MEASURED_VALUE] == e.value && r.Keys == attrs.Keys + {MEASURED_VALUE}
    ensures !Accepts(kind, e) ==> r == attrs
  {
    if Accepts(kind, e) then attrs[MEASURED_VALUE := e.value] else attrs
  }

  /** A listener's attributes after the events are published one by one. */
  function ReceiveAll(kind: ListenerKind, attrs: map<int, real>, events: seq<Event>): map<int, real>
    decreases |events|
  {
    if events == [] then attrs
    else
      var n := |events| - 1;
      Receive(kind, ReceiveAll(kind, attrs, events[..n]), events[n])
  }

  ghost predicate NoneAccepted(kind: ListenerKind, events: seq<Event>)
  {
    forall i :: 0 <= i < |events| ==> !Accepts(kind, events[i])
  }

  ghost predicate IsLastAccepted(kind: ListenerKind, events: seq<Event>, i: int)
  {
    0 <= i < |events| && Accepts(kind, events[i]) &&
    forall j :: i < j < |events| ==> !Accepts(kind, events[j])
  }

  /** The attributes of the listeners on each bus, by listener. */
  datatype Listeners = Listeners(
    temperature: map<TemperatureMeasurementCluster, map<int, real>>,
    humidity: map<HumidityMeasurementCluster, map<int, real>>)

  // ---------------------------------------------------------------------
  // The classes
  // ---------------------------------------------------------------------

  class HumidityMeasurementCluster {
    var attributes: map<int, real>

    /** Subscribes to the device's humidity bus. */
    constructor (device: PtvoTemperature)
      modifies device
      ensures attributes == map[]
      ensures device.humidityBus == old(device.humidityBus) + [this]
      ensures device.temperatureBus == old(device.temperatureBus)
    {
      attributes := map[];
      new;
      device.humidityBus := device.humidityBus + [this];
    }

    method HumidityReported(value: real)
      modifies this
      ensures attributes == old(attributes)[MEASURED_VALUE := value]
    {
      attributes := attributes[MEASURED_VALUE := value];
    }

    function MeasuredValue(): Option<real>
      reads this
    {
      if MEASURED_VALUE in attributes then Some(attributes[MEASURED_VALUE]) else None
    }
  }

  class TemperatureMeasurementCluster {
    var attributes: map<int, real>

    /** Subscribes to the device's temperature bus. */
    constructor (device: PtvoTemperature)
      modifies device
      ensures attributes == map[]
      ensures device.temperatureBus == old(device.temperatureBus) + [this]
      ensures device.humidityBus == old(device.humidityBus)
    {
      attributes := map[];
      new;
      device.temperatureBus := device.temperatureBus + [this];
    }

    method TemperatureReported(value: real)
      modifies this
      ensures attributes == old(attributes)[MEASURED_VALUE := value]
    {
      attributes := attributes[MEASURED_VALUE := value];
    }

    function MeasuredValue(): Option<real>
      reads this
    {
      if MEASURED_VALUE in attributes then Some(attributes[MEASURED_VALUE]) else None
    }
  }

  /** The device: it owns the two buses, each the list of its listeners in subscription order. */
  class PtvoTemperature {
    var temperatureBus: seq<TemperatureMeasurementCluster>
    var humidityBus: seq<HumidityMeasurementCluster>

    constructor ()
      ensures temperatureBus == [] && humidityBus == []
    {
      temperatureBus, humidityBus := [], [];
    }

    /** The attributes of every subscribed listener, bus by bus. */
    ghost function Snapshot(): Listeners
      reads this, temperatureBus, humidityBus
    {
      Listeners(map l | l in temperatureBus :: l.attributes,
                map l | l in humidityBus :: l.attributes)
    }

    /** Every listener on both buses has received `events`, in order, since the old state. */
    twostate predicate Delivered(events: seq<Event>)
      reads this, temperatureBus, humidityBus
    {
      temperatureBus == old(temperatureBus) &&
      (forall l :: l in temperatureBus ==>
         l.attributes == ReceiveAll(TemperatureListener, old(l.attributes), events)) &&
      humidityBus == old(humidityBus) &&
      (forall l :: l in humidityBus ==>
         l.attributes == ReceiveAll(HumidityListener, old(l.attributes), events))
    }

    /** Since `before` was taken, every subscribed listener has received `events`, in order. */
    ghost predicate DeliveredSince(before: Listeners, events: seq<Event>)
      reads this, temperatureBus, humidityBus
    {
      (forall l :: l in temperatureBus ==>
         l in before.temperature && l.attributes == ReceiveAll(TemperatureListener, before.temperature[l], events)) &&
      (forall l :: l in humidityBus ==>
         l in before.humidity && l.attributes == ReceiveAll(HumidityListener, before.humidity[l], events))
    }

    /** Publishes `e` on its bus: humidity_reported on the humidity bus, temperature_reported on the temperature bus. */
    method Publish(e: Event, ghost before: Listeners, ghost sofar: seq<Event>)
      requires DeliveredSince(before, sofar)
      modifies temperatureBus, humidityBus
      ensures DeliveredSince(before, sofar + [e])
    {
      ReceiveAllSnoc(sofar, e);
      match e
      case HumidityReported(_) => HumidityBusEvent(e);
      case TemperatureReported(_) => TemperatureBusEvent(e);
    }

    /** listener_event on the temperature bus: every listener with the event's method runs it. */
    method TemperatureBusEvent(e: Event)
      modifies temperatureBus
      ensures forall l :: l in temperatureBus ==>
        l.attributes == Receive(TemperatureListener, old(l.attributes), e)
    {
      var i := 0;
      while i < |temperatureBus|
        invariant 0 <= i <= |temperatureBus|
        invariant forall l :: l in temperatureBus ==>
          l.attributes ==
          if l in temperatureBus[..i] then Receive(TemperatureListener, old(l.attributes), e) else old(l.attributes)
      {
        var listener := temperatureBus[i];
        if e.TemperatureReported? {
          listener.TemperatureReported(e.value);
        }
        assert temperatureBus[..i + 1] == temperatureBus[..i] + [listener];
        i := i + 1;
      }
      assert temperatureBus[..i] == temperatureBus;
    }

    /** listener_event on the humidity bus. */
    method HumidityBusEvent(e: Event)
      modifies humidityBus
      ensures forall l :: l in humidityBus ==>
        l.attributes == Receive(HumidityListener, old(l.attributes), e)
    {
      var i := 0;
      while i < |humidityBus|
        invariant 0 <= i <= |humidityBus|
        invariant forall l :: l in humidityBus ==>
          l.attributes ==
          if l in humidityBus[..i] then Receive(HumidityListener, old(l.attributes), e) else old(l.attributes)
      {
        var listener := humidityBus[i];
        if e.HumidityReported? {
          listener.HumidityReported(e.value);
        }
        assert humidityBus[..i + 1] == humidityBus[..i] + [listener];
        i := i + 1;
      }
      assert humidityBus[..i] == humidityBus;
    }
  }

  /** The analog input cluster: the router. */
  class PtvoAnalogInputCluster {
    const device: PtvoTemperature
    /** 0 for the base class, 1 and 2 for the two subclasses. */
    var instanceFlag: int
    /** The last reading, in hundredths. */
    var currentValue: real
    /** The generic attribute cache the base cluster keeps. */
    var attributes: map<int, Value>

    /** The base class: flag 0, reading 0. */
    constructor (device: PtvoTemperature)
      ensures this.device == device && instanceFlag == 0
      ensures currentValue == 0.0 && attributes == map[]
    {
      this.device := device;
      instanceFlag := 0;
      currentValue := 0.0;
      attributes := map[];
    }

    /** PtvoAnalogInputCluster1: the base initialisation, then flag 1. */
    constructor Instance1(device: PtvoTemperature)
      ensures this.device == device && instanceFlag == 1
      ensures currentValue == 0.0 && attributes == map[]
    {
      this.device := device;
      instanceFlag := 0;
      currentValue := 0.0;
      attributes := map[];
      new;
      instanceFlag := 1;
    }

    /** PtvoAnalogInputCluster2: the base initialisation, then flag 2. */
    constructor Instance2(device: PtvoTemperature)
      ensures this.device == device && instanceFlag == 2
      ensures currentValue == 0.0 && attributes == map[]
    {
      this.device := device;
      instanceFlag := 0;
      currentValue := 0.0;
      attributes := map[];
      new;
      instanceFlag := 2;
    }

    /**
     * Handles one attribute report; `published` records the events it put on
     * the buses, in order.
     */
    method UpdateAttribute(attrid: int, value: Value) returns (ghost published: seq<Event>)
      requires WellTyped(attrid, value)
      modifies this`attributes, this`currentValue, device.temperatureBus, device.humidityBus
      ensures attributes == old(attributes)[attrid := value]
      ensures currentValue == Route(instanceFlag, old(currentValue), attrid, value).current
      ensures published == Route(instanceFlag, old(currentValue), attrid, value).events
      ensures device.Delivered(published)
    {
      ghost var before := device.Snapshot();
      attributes := attributes[attrid := value];
      published := [];
      if !value.Absent? {
        if attrid == PRESENT_VALUE {
          published := ReadingReported(value.n, before);
        }
        if attrid == DESCRIPTION {
          published := TagReported(value, before);
        }
      }
    }

    /** The present_value branch: store the scaled reading; flag 1 publishes it as humidity at once. */
    method ReadingReported(v: real, ghost before: Listeners) returns (ghost published: seq<Event>)
      requires device.DeliveredSince(before, [])
      modifies this`currentValue, device.temperatureBus, device.humidityBus
      ensures currentValue == v * 100.0
      ensures published == if instanceFlag == 1 then [HumidityReported(currentValue)] else []
      ensures device.DeliveredSince(before, published)
    {
      published := [];
      currentValue := v * 100.0;
      if instanceFlag == 1 {
        var hValue := currentValue;
        device.Publish(HumidityReported(hValue), before, published);
        published := published + [HumidityReported(hValue)];
      }
    }

    /** The description branch: publish the reading on the bus the unit tag names exactly. */
    method TagReported(value: Value, ghost before: Listeners) returns (ghost published: seq<Event>)
      requires device.DeliveredSince(before, [])
      modifies device.temperatureBus, device.humidityBus
      ensures published == TagEvents(currentValue, value)
      ensures device.DeliveredSince(before, published)
    {
      published := [];
      if value == Text("%") {
        var hValue := currentValue;
        device.Publish(HumidityReported(hValue), before, published);
        published := published + [HumidityReported(hValue)];
      }
      if value == Text("C") {
        var tValue := currentValue;
        device.Publish(TemperatureReported(tValue), before, published);
        published := published + [TemperatureReported(tValue)];
      }
    }
  }

  // ---------------------------------------------------------------------
  // Lemmas about the router
  // ---------------------------------------------------------------------

  /** A report without a value changes no reading and publishes nothing, whatever its attribute. */
  lemma AbsentReportIsIgnored(instanceFlag: int, current: real, attrid: int)
    ensures Route(instanceFlag, current, attrid, Absent) == Step(current, [])
  {
  }

  /**
   * A reading is stored as exactly value * 100, so replaying it changes
   * nothing; only the cluster with flag 1 publishes it, as humidity.
   */
  lemma ReadingIsStoredScaled(instanceFlag: int, current: real, v: real)
    ensures Route(instanceFlag, current, PRESENT_VALUE, Number(v)).current == v * 100.0
    ensures Route(instanceFlag, current, PRESENT_VALUE, Number(v)).events ==
            if instanceFlag == 1 then [HumidityReported(v * 100.0)] else []
    ensures var once := Route(instanceFlag, current, PRESENT_VALUE, Number(v));
            Route(instanceFlag, once.current, PRESENT_VALUE, Number(v)) == once
  {
  }

  /**
   * A unit tag keeps the reading and publishes it according to the exact
   * classification: humidity for "%", temperature for "C", nothing for any
   * other value, a number included.
   */
  lemma TagPublishesByExactMatch(instanceFlag: int, current: real, value: Value)
    requires !value.Absent?
    ensures Route(instanceFlag, current, DESCRIPTION, value).current == current
    ensures Route(instanceFlag, current, DESCRIPTION, value).events ==
            match Classify(value)
            case None => []
            case Some(Humidity) => [HumidityReported(current)]
            case Some(Temperature) => [TemperatureReported(current)]
            case Some(Pressure) => []
  {
  }

  /** Tags that only start with "%" or "C", and the pressure tag, publish nothing. */
  lemma NearMissTagsPublishNothing(instanceFlag: int, current: real)
    ensures Route(instanceFlag, current, DESCRIPTION, Text("%RH")).events == []
    ensures Route(instanceFlag, current, DESCRIPTION, Text("C ")).events == []
    ensures Route(instanceFlag, current, DESCRIPTION, Text("Pa")).events == []
  {
    assert Text("%RH") != Text("%") && Text("%RH") != Text("C") by { assert |"%RH"| == 3; }
    assert Text("C ") != Text("%") && Text("C ") != Text("C") by { assert |"C "| == 2; }
    assert Text("Pa") != Text("%") && Text("Pa") != Text("C") by { assert |"Pa"| == 2; }
  }

  /** Attributes other than 85 and 28 are not routed. */
  lemma OtherAttributeIsIgnored(instanceFlag: int, current: real, attrid: int, value: Value)
    requires attrid != PRESENT_VALUE && attrid != DESCRIPTION
    ensures Route(instanceFlag, current, attrid, value) == Step(current, [])
  {
  }

  /** One report publishes at most one event. */
  lemma AtMostOneEvent(instanceFlag: int, current: real, attrid: int, value: Value)
    requires WellTyped(attrid, value)
    ensures |Route(instanceFlag, current, attrid, value).events| <= 1
  {
  }

  /** On a fresh cluster (reading 0) a unit tag publishes the value 0. */
  lemma TagOnFreshRouterPublishesZero(instanceFlag: int, value: Value)
    ensures forall e :: e in Route(instanceFlag, 0.0, DESCRIPTION, value).events ==> e.value == 0.0
  {
  }

  /** A trace publishes at most one event per report. */
  lemma {:induction false} RunPublishesAtMostOnePerReport(instanceFlag: int, current: real, reports: seq<Report>)
    requires AllWellTyped(reports)
    ensures |Run(instanceFlag, current, reports).events| <= |reports|
    decreases |reports|
  {
    if reports != [] {
      var first := Route(instanceFlag, current, reports[0].attrid, reports[0].value);
      AtMostOneEvent(instanceFlag, current, reports[0].attrid, reports[0].value);
      RunPublishesAtMostOnePerReport(instanceFlag, first.current, reports[1..]);
    }
  }

  /** The reading after a trace is 100 times the last numeric present_value report, or the old reading if none. */
  lemma {:induction false} RunKeepsLastReading(instanceFlag: int, current: real, reports: seq<Report>)
    requires AllWellTyped(reports)
    ensures NoReadingIn(reports) ==> Run(instanceFlag, current, reports).current == current
    ensures forall i :: IsLastReading(reports, i) ==>
              Run(instanceFlag, current, reports).current == reports[i].value.n * 100.0
    decreases |reports|
  {
    if reports != [] {
      var first := Route(instanceFlag, current, reports[0].attrid, reports[0].value);
      var tail := reports[1..];
      RunKeepsLastReading(instanceFlag, first.current, tail);
      forall i | IsLastReading(reports, i)
        ensures Run(instanceFlag, current, reports).current == reports[i].value.n * 100.0
      {
        if i == 0 {
          forall j | 0 <= j < |tail| ensures !IsReading(tail[j]) {
            assert tail[j] == reports[j + 1];
          }
        } else {
          assert IsLastReading(tail, i - 1);
        }
      }
      if NoReadingIn(reports) {
        assert !IsReading(reports[0]);
        forall j | 0 <= j < |tail| ensures !IsReading(tail[j]) {
          assert tail[j] == reports[j + 1];
        }
      }
    }
  }

  /** With a flag other than 1, a trace of readings alone publishes nothing. */
  lemma {:induction false} ReadingsAlonePublishNothing(instanceFlag: int, current: real, reports: seq<Report>)
    requires AllWellTyped(reports)
    requires instanceFlag != 1
    requires forall i :: 0 <= i < |reports| ==> reports[i].attrid == PRESENT_VALUE
    ensures Run(instanceFlag, current, reports).events == []
    decreases |reports|
  {
    if reports != [] {
      var first := Route(instanceFlag, current, reports[0].attrid, reports[0].value);
      assert reports[0].attrid == PRESENT_VALUE;
      ReadingsAlonePublishNothing(instanceFlag, first.current, reports[1..]);
    }
  }

  // ---------------------------------------------------------------------
  // Lemmas about the listeners
  // ---------------------------------------------------------------------

  lemma ReceiveAllSnoc(events: seq<Event>, e: Event)
    ensures forall kind, attrs ::
      ReceiveAll(kind, attrs, events + [e]) == Receive(kind, ReceiveAll(kind, attrs, events), e)
  {
    assert (events + [e])[..|events|] == events;
  }

  /**
   * A listener exposes the value of the last event of its bus and keeps its
   * attributes when its bus brought none.
   */
  lemma {:induction false} ReceiveAllIsLastAccepted(kind: ListenerKind, attrs: map<int, real>, events: seq<Event>)
    ensures NoneAccepted(kind, events) ==> ReceiveAll(kind, attrs, events) == attrs
    ensures forall i :: IsLastAccepted(kind, events, i) ==>
              ReceiveAll(kind, attrs, events) == attrs[MEASURED_VALUE := events[i].value]
    decreases |events|
  {
    if events != [] {
      var n := |events| - 1;
      var init := events[..n];
      var last := events[n];
      ReceiveAllIsLastAccepted(kind, attrs, init);
      assert ReceiveAll(kind, attrs, events) == Receive(kind, ReceiveAll(kind, attrs, init), last);
      if Accepts(kind, last) {
        var r := ReceiveAll(kind, attrs, init);
        OnlyMeasuredValueChanges(kind, attrs, init);
        AgreeingMapsUpdated(r, attrs, MEASURED_VALUE, last.value);
        assert !NoneAccepted(kind, events) by { assert !Accepts(kind, events[n]) == false; }
        forall i | IsLastAccepted(kind, events, i) ensures i == n {
        }
      } else {
        if NoneAccepted(kind, events) {
          forall j | 0 <= j < |init| ensures !Accepts(kind, init[j]) {
            assert init[j] == events[j];
          }
        }
        forall i | IsLastAccepted(kind, events, i)
          ensures IsLastAccepted(kind, init, i) && init[i] == events[i]
        {
          assert i != n;
          forall j | i < j < |init| ensures !Accepts(kind, init[j]) {
            assert init[j] == events[j];
          }
        }
      }
    }
  }

  /** Receiving events changes no attribute but measured_value. */
  lemma {:induction false} OnlyMeasuredValueChanges(kind: ListenerKind, attrs: map<int, real>, events: seq<Event>)
    ensures forall key :: key != MEASURED_VALUE ==> (key in ReceiveAll(kind, attrs, events) <==> key in attrs)
    ensures forall key :: key != MEASURED_VALUE && key in attrs ==> ReceiveAll(kind, attrs, events)[key] == attrs[key]
    decreases |events|
  {
    if events != [] {
      OnlyMeasuredValueChanges(kind, attrs, events[..|events| - 1]);
    }
  }

  /** A listener stores the value of every event of its bus, with no filter. */
  lemma ListenersStoreEveryEvent(attrs: map<int, real>, v: real)
    ensures ReceiveAll(HumidityListener, attrs, [HumidityReported(v)])[MEASURED_VALUE] == v
    ensures ReceiveAll(TemperatureListener, attrs, [TemperatureReported(v)])[MEASURED_VALUE] == v
    ensures ReceiveAll(HumidityListener, attrs, [TemperatureReported(v)]) == attrs
    ensures ReceiveAll(TemperatureListener, attrs, [HumidityReported(v)]) == attrs
  {
    assert [HumidityReported(v)][..0] == [];
    assert [TemperatureReported(v)][..0] == [];
  }

  // ---------------------------------------------------------------------
  // The device as the replacement table lays it out
  // ---------------------------------------------------------------------

  /** The values the scenarios go through, worked out on the specification. */
  lemma ScenarioValues()
    ensures Route(1, 0.0, PRESENT_VALUE, Number(45.0)) == Step(4500.0, [HumidityReported(4500.0)])
    ensures Route(2, 0.0, PRESENT_VALUE, Number(21.5)) == Step(2150.0, [])
    ensures Route(2, 2150.0, DESCRIPTION, Text("C")) == Step(2150.0, [TemperatureReported(2150.0)])
    ensures ReceiveAll(HumidityListener, map[], [HumidityReported(4500.0)]) == map[MEASURED_VALUE := 4500.0]
    ensures ReceiveAll(TemperatureListener, map[], []) == map[]
    ensures ReceiveAll(TemperatureListener, map[], [TemperatureReported(2150.0)]) == map[MEASURED_VALUE := 2150.0]
  {
    ListenersStoreEveryEvent(map[], 4500.0);
    ListenersStoreEveryEvent(map[], 2150.0);
    assert Text("C") != Text("%") by { assert "C"[0] != "%"[0]; }
    assert [HumidityReported(4500.0)][..0] == [];
    assert [TemperatureReported(2150.0)][..0] == [];
  }

  /** Endpoint 1 (flag 1, humidity listener): a reading of 45 is exposed as humidity 4500 at once. */
  method HumidityAtOnceScenario() returns (humidity: Option<real>)
    ensures humidity == Some(4500.0)
  {
    var device := new PtvoTemperature();
    var input1 := new PtvoAnalogInputCluster.Instance1(device);
    var humidityAt1 := new HumidityMeasurementCluster(device);
    assert device.humidityBus == [humidityAt1];
    ScenarioValues();

    ghost var published := input1.UpdateAttribute(PRESENT_VALUE, Number(45.0));
    assert humidityAt1 in device.humidityBus;

    humidity := humidityAt1.MeasuredValue();
  }

  /** Endpoint 2 (flag 2, temperature listener): a reading of 21.5 then "C" is exposed as temperature 2150. */
  method TemperatureTagScenario() returns (temperature: Option<real>)
    ensures temperature == Some(2150.0)
  {
    var device := new PtvoTemperature();
    var input2 := new PtvoAnalogInputCluster.Instance2(device);
    var temperatureAt2 := new TemperatureMeasurementCluster(device);
    assert device.temperatureBus == [temperatureAt2];
    ScenarioValues();

    ghost var published := input2.UpdateAttribute(PRESENT_VALUE, Number(21.5));
    assert temperatureAt2 in device.temperatureBus;
    published := input2.UpdateAttribute(DESCRIPTION, Text("C"));
    assert temperatureAt2 in device.temperatureBus;

    temperature := temperatureAt2.MeasuredValue();
  }
}
