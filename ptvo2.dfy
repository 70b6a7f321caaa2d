/**
 * The newer PTVO handler (ptvo2.py). One analog input cluster per physical
 * endpoint (1, 3 and 4) keeps the last reading, scaled to hundredths, and
 * when a unit tag arrives publishes it on the device's humidity, temperature
 * or pressure bus; endpoint 4 publishes every reading on the counter bus at
 * once. Virtual measurement clusters listen on those buses; the temperature
 * listener keeps only the events meant for its own endpoint.
 */
module Ptvo2 {
  import opened Zcl

  /** The endpoint whose readings are counters, published without a unit tag. */
  const COUNTER_ENDPOINT: int := 4

  /** What the router publishes: the listener method name and its argument. */
  datatype Event =
    | HumidityReported(value: real)
    | TemperatureReported1(value: real)
    | TemperatureReported3(value: real)
    | PressureReported(value: real)
    | ValueReported(value: real)

  /** The router's state after one report and the events it published, in order. */
  datatype Step = Step(current: real, events: seq<Event>)

  /**
   * Attribute 85 of the analog input cluster is a float and attribute 28 a
   * character string, so the host never hands over a string reading or a
   * numeric tag.
   */
  predicate WellTyped(attrid: int, value: Value)
  {
    (attrid == PRESENT_VALUE ==> !value.Text?) &&
    (attrid == DESCRIPTION ==> !value.Number?)
  }

  predicate AllWellTyped(reports: seq<Report>)
  {
    forall i :: 0 <= i < |reports| ==> WellTyped(reports[i].attrid, reports[i].value)
  }

  /** Reference reading of a unit tag by its leading characters. */
  function Classify(tag: string): Option<Quantity>
  {
    if |tag| >= 1 && tag[0] == '%' then Some(Humidity)
    else if |tag| >= 1 && tag[0] == 'C' then Some(Temperature)
    else if |tag| >= 2 && tag[0] == 'P' && tag[1] == 'a' then Some(Pressure)
    else None
  }

  /** The temperature events a "C" tag triggers: one name per endpoint, none elsewhere. */
  function TemperatureEvents(endpointId: int, t: real): (r: seq<Event>)
    ensures |r| == if endpointId == 1 || endpointId == 3 then 1 else 0
    ensures r != [] ==> r[0].value == t && Accepts(TemperatureListener, endpointId, r[0])
  {
    (if endpointId == 1 then [TemperatureReported1(t)] else []) +
    (if endpointId == 3 then [TemperatureReported3(t)] else [])
  }

  /** The events of a unit tag report: three independent prefix tests. */
  function TagEvents(endpointId: int, current: real, tag: string): (r: seq<Event>)
    ensures |r| <= 1
    ensures r != [] ==>
      !r[0].ValueReported? && r[0].value == if r[0].PressureReported? then current / 10000.0 else current
  {
    PrefixesExclusive(tag);
    (if StartsWith(tag, "%") then [HumidityReported(current)] else []) +
    (if StartsWith(tag, "C") then TemperatureEvents(endpointId, current) else []) +
    (if StartsWith(tag, "Pa") then [PressureReported(current / 10000.0)] else [])
  }

  /**
   * Specification of PtvoAnalogInputCluster._update_attribute. A reading is
   * kept times 100 and published as pressure divided by 10000; both factors
   * are written as literals so that the arithmetic stays linear.
   */
  function Route(endpointId: int, current: real, attrid: int, value: Value): (r: Step)
    requires WellTyped(attrid, value)
    ensures r.current != current ==> attrid == PRESENT_VALUE && value.Number?
    ensures r.events != [] ==>
      r.events[0].value == if r.events[0].PressureReported? then r.current / 10000.0 else r.current
    ensures r.events != [] && r.events[0].ValueReported? ==> endpointId == COUNTER_ENDPOINT
  {
    if value.Absent? then Step(current, [])
    else if attrid == PRESENT_VALUE then
      var reading := value.n * 100.0;
      Step(reading, if endpointId == COUNTER_ENDPOINT then [ValueReported(reading)] else [])
    else if attrid == DESCRIPTION then Step(current, TagEvents(endpointId, current, value.s))
    else Step(current, [])
  }

  /** A trace of reports handled one after another by the router of one endpoint. */
  function Run(endpointId: int, current: real, reports: seq<Report>): Step
    requires AllWellTyped(reports)
    decreases |reports|
  {
    if reports == [] then Step(current, [])
    else
      var first := Route(endpointId, current, reports[0].attrid, reports[0].value);
      var rest := Run(endpointId, first.current, reports[1..]);
      Step(rest.current, first.events + rest.events)
  }

  // ---------------------------------------------------------------------
  // Listeners, described on values
  // ---------------------------------------------------------------------

  datatype ListenerKind = HumidityListener | TemperatureListener | PressureListener | CounterListener

  /** The attribute a listener of this kind writes. */
  function StoredAttribute(kind: ListenerKind): int
  {
    if kind == CounterListener then PRESENT_VALUE else MEASURED_VALUE
  }

  /**
   * Whether a listener of `kind` on endpoint `endpointId` stores the value of
   * `e`: it has a method of that name (so it sits on that event's bus) and,
   * for temperature, the method is the one for its own endpoint.
   */
  predicate Accepts(kind: ListenerKind, endpointId: int, e: Event)
  {
    match e
    case HumidityReported(_) => kind == HumidityListener
    case TemperatureReported1(_) => kind == TemperatureListener && endpointId == 1
    case TemperatureReported3(_) => kind == TemperatureListener && endpointId == 3
    case PressureReported(_) => kind == PressureListener
    case ValueReported(_) => kind == CounterListener
  }

  /** One listener_event call on the listener's bus, as seen by that listener. */
  function Receive(kind: ListenerKind, endpointId: int, attrs: map<int, real>, e: Event): (r: map<int, real>)
    ensures Accepts(kind, endpointId, e) ==>
      StoredAttribute(kind) in r && r[StoredAttribute(kind)] == e.value &&
      r.Keys == attrs.Keys + {StoredAttribute(kind)}
    ensures !Accepts(kind, endpointId, e) ==> r == attrs
  {
    if Accepts(kind, endpointId, e) then attrs[StoredAttribute(kind) := e.value] else attrs
  }

  /** A listener's attributes after the events are published one by one. */
  function ReceiveAll(kind: ListenerKind, endpointId: int, attrs: map<int, real>, events: seq<Event>): map<int, real>
    decreases |events|
  {
    if events == [] then attrs
    else
      var n := |events| - 1;
      Receive(kind, endpointId, ReceiveAll(kind, endpointId, attrs, events[..n]), events[n])
  }

  ghost predicate NoneAccepted(kind: ListenerKind, endpointId: int, events: seq<Event>)
  {
    forall i :: 0 <= i < |events| ==> !Accepts(kind, endpointId, events[i])
  }

  ghost predicate IsLastAccepted(kind: ListenerKind, endpointId: int, events: seq<Event>, i: int)
  {
    0 <= i < |events| && Accepts(kind, endpointId, events[i]) &&
    forall j :: i < j < |events| ==> !Accepts(kind, endpointId, events[j])
  }

  /** The attributes of the listeners on each bus, by listener. */
  datatype Listeners = Listeners(
    temperature: map<TemperatureMeasurementCluster, map<int, real>>,
    humidity: map<HumidityMeasurementCluster, map<int, real>>,
    pressure: map<PressureMeasurementCluster, map<int, real>>,
    counter: map<AnalogValueMeasurementCluster, map<int, real>>)

  // ---------------------------------------------------------------------
  // The classes
  // ---------------------------------------------------------------------

  class HumidityMeasurementCluster {
    const endpointId: int
    var attributes: map<int, real>

    /** Subscribes to the device's humidity bus. */
    constructor (device: PtvoTemperature, endpointId: int)
      modifies device
      ensures this.endpointId == endpointId && attributes == map[]
      ensures device.humidityBus == old(device.humidityBus) + [this]
      ensures device.temperatureBus == old(device.temperatureBus)
      ensures device.pressureBus == old(device.pressureBus)
      ensures device.counterBus == old(device.counterBus)
    {
      this.endpointId := endpointId;
      attributes := map[];
      new;
      device.humidityBus := device.humidityBus + [this];
    }

    method HumidityReported(value: real)
      modifies this
      ensures attributes == old(attributes)[MEASURED_VALUE := value]
    {
      attributes := attributes[MEASURED_VALUE := value];
    }

    function MeasuredValue(): Option<real>
      reads this
    {
      if MEASURED_VALUE in attributes then Some(attributes[MEASURED_VALUE]) else None
    }
  }

  class TemperatureMeasurementCluster {
    const endpointId: int
    var attributes: map<int, real>

    /** Subscribes to the device's temperature bus. */
    constructor (device: PtvoTemperature, endpointId: int)
      modifies device
      ensures this.endpointId == endpointId && attributes == map[]
      ensures device.temperatureBus == old(device.temperatureBus) + [this]
      ensures device.humidityBus == old(device.humidityBus)
      ensures device.pressureBus == old(device.pressureBus)
      ensures device.counterBus == old(device.counterBus)
    {
      this.endpointId := endpointId;
      attributes := map[];
      new;
      device.temperatureBus := device.temperatureBus + [this];
    }

    /** Stores the value only on endpoint 1. */
    method TemperatureReported1(value: real)
      modifies this
      ensures attributes == if endpointId == 1 then old(attributes)[MEASURED_VALUE := value] else old(attributes)
    {
      if endpointId == 1 {
        attributes := attributes[MEASURED_VALUE := value];
      }
    }

    /** Stores the value only on endpoint 3. */
    method TemperatureReported3(value: real)
      modifies this
      ensures attributes == if endpointId == 3 then old(attributes)[MEASURED_VALUE := value] else old(attributes)
    {
      if endpointId == 3 {
        attributes := attributes[MEASURED_VALUE := value];
      }
    }

    function MeasuredValue(): Option<real>
      reads this
    {
      if MEASURED_VALUE in attributes then Some(attributes[MEASURED_VALUE]) else None
    }
  }

  class PressureMeasurementCluster {
    const endpointId: int
    var attributes: map<int, real>

    /** Subscribes to the device's pressure bus. */
    constructor (device: PtvoTemperature, endpointId: int)
      modifies device
      ensures this.endpointId == endpointId && attributes == map[]
      ensures device.pressureBus == old(device.pressureBus) + [this]
      ensures device.temperatureBus == old(device.temperatureBus)
      ensures device.humidityBus == old(device.humidityBus)
      ensures device.counterBus == old(device.counterBus)
    {
      this.endpointId := endpointId;
      attributes := map[];
      new;
      device.pressureBus := device.pressureBus + [this];
    }

    method PressureReported(value: real)
      modifies this
      ensures attributes == old(attributes)[MEASURED_VALUE := value]
    {
      attributes := attributes[MEASURED_VALUE := value];
    }

    function MeasuredValue(): Option<real>
      reads this
    {
      if MEASURED_VALUE in attributes then Some(attributes[MEASURED_VALUE]) else None
    }
  }

  class AnalogValueMeasurementCluster {
    const endpointId: int
    var attributes: map<int, real>

    /** Subscribes to the device's counter bus. */
    constructor (device: PtvoTemperature, endpointId: int)
      modifies device
      ensures this.endpointId == endpointId && attributes == map[]
      ensures device.counterBus == old(device.counterBus) + [this]
      ensures device.temperatureBus == old(device.temperatureBus)
      ensures device.humidityBus == old(device.humidityBus)
      ensures device.pressureBus == old(device.pressureBus)
    {
      this.endpointId := endpointId;
      attributes := map[];
      new;
      device.counterBus := device.counterBus + [this];
    }

    /** Writes present_value of the analog output cluster. */
    method ValueReported(value: real)
      modifies this
      ensures attributes == old(attributes)[PRESENT_VALUE := value]
    {
      attributes := attributes[PRESENT_VALUE := value];
    }

    function PresentValue(): Option<real>
      reads this
    {
      if PRESENT_VALUE in attributes then Some(attributes[PRESENT_VALUE]) else None
    }
  }

  /**
   * The device: it owns the four buses. Each bus is the list of listeners
   * subscribed to it, in subscription order.
   */
  class PtvoTemperature {
    var temperatureBus: seq<TemperatureMeasurementCluster>
    var humidityBus: seq<HumidityMeasurementCluster>
    var pressureBus: seq<PressureMeasurementCluster>
    var counterBus: seq<AnalogValueMeasurementCluster>

    constructor ()
      ensures temperatureBus == [] && humidityBus == [] && pressureBus == [] && counterBus == []
    {
      temperatureBus, humidityBus, pressureBus, counterBus := [], [], [], [];
    }

    /** The attributes of every subscribed listener, bus by bus. */
    ghost function Snapshot(): Listeners
      reads this, temperatureBus, humidityBus, pressureBus, counterBus
    {
      Listeners(map l | l in temperatureBus :: l.attributes,
                map l | l in humidityBus :: l.attributes,
                map l | l in pressureBus :: l.attributes,
                map l | l in counterBus :: l.attributes)
    }

    /** Every listener on every bus has received `events`, in order, since the old state. */
    twostate predicate Delivered(events: seq<Event>)
      reads this, temperatureBus, humidityBus, pressureBus, counterBus
    {
      temperatureBus == old(temperatureBus) &&
      (forall l :: l in temperatureBus ==>
         l.attributes == ReceiveAll(TemperatureListener, l.endpointId, old(l.attributes), events)) &&
      humidityBus == old(humidityBus) &&
      (forall l :: l in humidityBus ==>
         l.attributes == ReceiveAll(HumidityListener, l.endpointId, old(l.attributes), events)) &&
      pressureBus == old(pressureBus) &&
      (forall l :: l in pressureBus ==>
         l.attributes == ReceiveAll(PressureListener, l.endpointId, old(l.attributes), events)) &&
      counterBus == old(counterBus) &&
      (forall l :: l in counterBus ==>
         l.attributes == ReceiveAll(CounterListener, l.endpointId, old(l.attributes), events))
    }

    /** Since `before` was taken, every subscribed listener has received `events`, in order. */
    ghost predicate DeliveredSince(before: Listeners, events: seq<Event>)
      reads this, temperatureBus, humidityBus, pressureBus, counterBus
    {
      (forall l :: l in temperatureBus ==>
         l in before.temperature && l.attributes == ReceiveAll(TemperatureListener, l.endpointId, before.temperature[l], events)) &&
      (forall l :: l in humidityBus ==>
         l in before.humidity && l.attributes == ReceiveAll(HumidityListener, l.endpointId, before.humidity[l], events)) &&
      (forall l :: l in pressureBus ==>
         l in before.pressure && l.attributes == ReceiveAll(PressureListener, l.endpointId, before.pressure[l], events)) &&
      (forall l :: l in counterBus ==>
         l in before.counter && l.attributes == ReceiveAll(CounterListener, l.endpointId, before.counter[l], events))
    }

    /**
     * Publishes `e` on the bus its method name belongs to: humidity_reported
     * on the humidity bus, temperature_reported_1 and _3 on the temperature
     * bus, pressure_reported on the pressure bus, value_reported on the
     * counter bus.
     */
    method Publish(e: Event, ghost before: Listeners, ghost sofar: seq<Event>)
      requires DeliveredSince(before, sofar)
      modifies temperatureBus, humidityBus, pressureBus, counterBus
      ensures DeliveredSince(before, sofar + [e])
    {
      ReceiveAllSnoc(sofar, e);
      match e
      case HumidityReported(_) => HumidityBusEvent(e);
      case TemperatureReported1(_) => TemperatureBusEvent(e);
      case TemperatureReported3(_) => TemperatureBusEvent(e);
      case PressureReported(_) => PressureBusEvent(e);
      case ValueReported(_) => CounterBusEvent(e);
    }

    /** listener_event on the temperature bus: each listener with the event's method runs it. */
    method TemperatureBusEvent(e: Event)
      modifies temperatureBus
      ensures forall l :: l in temperatureBus ==>
        l.attributes == Receive(TemperatureListener, l.endpointId, old(l.attributes), e)
    {
      var i := 0;
      while i < |temperatureBus|
        invariant 0 <= i <= |temperatureBus|
        invariant forall l :: l in temperatureBus ==>
          l.attributes ==
          if l in temperatureBus[..i] then Receive(TemperatureListener, l.endpointId, old(l.attributes), e) else old(l.attributes)
      {
        var listener := temperatureBus[i];
        if e.TemperatureReported1? {
          listener.TemperatureReported1(e.value);
        } else if e.TemperatureReported3? {
          listener.TemperatureReported3(e.value);
        }
        assert temperatureBus[..i + 1] == temperatureBus[..i] + [listener];
        i := i + 1;
      }
      assert temperatureBus[..i] == temperatureBus;
    }

    /** listener_event on the humidity bus. */
    method HumidityBusEvent(e: Event)
      modifies humidityBus
      ensures forall l :: l in humidityBus ==>
        l.attributes == Receive(HumidityListener, l.endpointId, old(l.attributes), e)
    {
      var i := 0;
      while i < |humidityBus|
        invariant 0 <= i <= |humidityBus|
        invariant forall l :: l in humidityBus ==>
          l.attributes ==
          if l in humidityBus[..i] then Receive(HumidityListener, l.endpointId, old(l.attributes), e) else old(l.attributes)
      {
        var listener := humidityBus[i];
        if e.HumidityReported? {
          listener.HumidityReported(e.value);
        }
        assert humidityBus[..i + 1] == humidityBus[..i] + [listener];
        i := i + 1;
      }
      assert humidityBus[..i] == humidityBus;
    }

    /** listener_event on the pressure bus. */
    method PressureBusEvent(e: Event)
      modifies pressureBus
      ensures forall l :: l in pressureBus ==>
        l.attributes == Receive(PressureListener, l.endpointId, old(l.attributes), e)
    {
      var i := 0;
      while i < |pressureBus|
        invariant 0 <= i <= |pressureBus|
        invariant forall l :: l in pressureBus ==>
          l.attributes ==
          if l in pressureBus[..i] then Receive(PressureListener, l.endpointId, old(l.attributes), e) else old(l.attributes)
      {
        var listener := pressureBus[i];
        if e.PressureReported? {
          listener.PressureReported(e.value);
        }
        assert pressureBus[..i + 1] == pressureBus[..i] + [listener];
        i := i + 1;
      }
      assert pressureBus[..i] == pressureBus;
    }

    /** listener_event on the counter bus. */
    method CounterBusEvent(e: Event)
      modifies counterBus
      ensures forall l :: l in counterBus ==>
        l.attributes == Receive(CounterListener, l.endpointId, old(l.attributes), e)
    {
      var i := 0;
      while i < |counterBus|
        invariant 0 <= i <= |counterBus|
        invariant forall l :: l in counterBus ==>
          l.attributes ==
          if l in counterBus[..i] then Receive(CounterListener, l.endpointId, old(l.attributes), e) else old(l.attributes)
      {
        var listener := counterBus[i];
        if e.ValueReported? {
          listener.ValueReported(e.value);
        }
        assert counterBus[..i + 1] == counterBus[..i] + [listener];
        i := i + 1;
      }
      assert counterBus[..i] == counterBus;
    }
  }

  /** The analog input cluster of one physical endpoint: the router. */
  class PtvoAnalogInputCluster {
    const device: PtvoTemperature
    const endpointId: int
    /** The last reading, in hundredths. */
    var currentValue: real
    /** The generic attribute cache the base cluster keeps. */
    var attributes: map<int, Value>

    constructor (device: PtvoTemperature, endpointId: int)
      ensures this.device == device && this.endpointId == endpointId
      ensures currentValue == 0.0 && attributes == map[]
    {
      this.device := device;
      this.endpointId := endpointId;
      currentValue := 0.0;
      attributes := map[];
    }

    /**
     * Handles one attribute report; `published` records the events it put on
     * the buses, in order.
     */
    method UpdateAttribute(attrid: int, value: Value) returns (ghost published: seq<Event>)
      requires WellTyped(attrid, value)
      modifies this, device.temperatureBus, device.humidityBus, device.pressureBus, device.counterBus
      ensures attributes == old(attributes)[attrid := value]
      ensures currentValue == Route(endpointId, old(currentValue), attrid, value).current
      ensures published == Route(endpointId, old(currentValue), attrid, value).events
      ensures device.Delivered(published)
    {
      ghost var before := device.Snapshot();
      attributes := attributes[attrid := value];
      published := [];
      if !value.Absent? {
        if attrid == PRESENT_VALUE {
          published := ReadingReported(value.n, before);
        }
        if attrid == DESCRIPTION {
          published := TagReported(value.s, before);
        }
      }
    }

    /** The present_value branch: store the scaled reading; endpoint 4 publishes it at once. */
    method ReadingReported(v: real, ghost before: Listeners) returns (ghost published: seq<Event>)
      requires device.DeliveredSince(before, [])
      modifies this`currentValue, device.temperatureBus, device.humidityBus, device.pressureBus, device.counterBus
      ensures currentValue == v * 100.0
      ensures published == if endpointId == COUNTER_ENDPOINT then [ValueReported(currentValue)] else []
      ensures device.DeliveredSince(before, published)
    {
      published := [];
      currentValue := v * 100.0;
      if endpointId == COUNTER_ENDPOINT {
        var aValue := currentValue;
        device.Publish(ValueReported(aValue), before, published);
        published := published + [ValueReported(aValue)];
      }
    }

    /** The description branch: publish the reading on the bus the unit tag names. */
    method TagReported(tag: string, ghost before: Listeners) returns (ghost published: seq<Event>)
      requires device.DeliveredSince(before, [])
      modifies device.temperatureBus, device.humidityBus, device.pressureBus, device.counterBus
      ensures published == TagEvents(endpointId, currentValue, tag)
      ensures device.DeliveredSince(before, published)
    {
      published := [];
      if StartsWith(tag, "%") {
        var hValue := currentValue;
        device.Publish(HumidityReported(hValue), before, published);
        published := published + [HumidityReported(hValue)];
      }
      if StartsWith(tag, "C") {
        var tValue := currentValue;
        if endpointId == 1 {
          device.Publish(TemperatureReported1(tValue), before, published);
          published := published + [TemperatureReported1(tValue)];
        }
        if endpointId == 3 {
          device.Publish(TemperatureReported3(tValue), before, published);
          published := published + [TemperatureReported3(tValue)];
        }
      }
      if StartsWith(tag, "Pa") {
        var pValue := currentValue / 10000.0;
        device.Publish(PressureReported(pValue), before, published);
        published := published + [PressureReported(pValue)];
      }
    }
  }

  // ---------------------------------------------------------------------
  // Lemmas about the router
  // ---------------------------------------------------------------------

  /** A report without a value changes no reading and publishes nothing, whatever its attribute. */
  lemma AbsentReportIsIgnored(endpointId: int, current: real, attrid: int)
    ensures Route(endpointId, current, attrid, Absent) == Step(current, [])
  {
  }

  /**
   * A reading is stored as exactly value * 100, whatever was stored before,
   * so replaying it changes nothing; only endpoint 4 publishes it, on the
   * counter bus.
   */
  lemma ReadingIsStoredScaled(endpointId: int, current: real, v: real)
    ensures Route(endpointId, current, PRESENT_VALUE, Number(v)).current == v * 100.0
    ensures Route(endpointId, current, PRESENT_VALUE, Number(v)).events ==
            if endpointId == 4 then [ValueReported(v * 100.0)] else []
    ensures var once := Route(endpointId, current, PRESENT_VALUE, Number(v));
            Route(endpointId, once.current, PRESENT_VALUE, Number(v)) == once
  {
  }

  lemma StartsWithFirst(tag: string, c: char)
    ensures StartsWith(tag, [c]) <==> |tag| >= 1 && tag[0] == c
  {
    if |tag| >= 1 && tag[0] == c {
      assert tag[..1] == [c];
    }
  }

  lemma StartsWithPa(tag: string)
    ensures StartsWith(tag, "Pa") <==> |tag| >= 2 && tag[0] == 'P' && tag[1] == 'a'
  {
    if |tag| >= 2 && tag[0] == 'P' && tag[1] == 'a' {
      assert tag[..2] == "Pa";
    }
  }

  /** No tag starts with two of the three prefixes. */
  lemma PrefixesExclusive(tag: string)
    ensures !(StartsWith(tag, "%") && StartsWith(tag, "C"))
    ensures !(StartsWith(tag, "%") && StartsWith(tag, "Pa"))
    ensures !(StartsWith(tag, "C") && StartsWith(tag, "Pa"))
  {
    StartsWithFirst(tag, '%');
    StartsWithFirst(tag, 'C');
    StartsWithPa(tag);
  }

  /**
   * A unit tag keeps the reading and publishes it according to the tag's
   * classification: humidity for "%...", the endpoint's own temperature event
   * for "C..." (none off endpoints 1 and 3), pressure divided by 10000 for
   * "Pa...", nothing otherwise.
   */
  lemma TagPublishesByClassification(endpointId: int, current: real, tag: string)
    ensures Route(endpointId, current, DESCRIPTION, Text(tag)).current == current
    ensures Route(endpointId, current, DESCRIPTION, Text(tag)).events ==
            match Classify(tag)
            case None => []
            case Some(Humidity) => [HumidityReported(current)]
            case Some(Temperature) =>
              if endpointId == 1 then [TemperatureReported1(current)]
              else if endpointId == 3 then [TemperatureReported3(current)]
              else []
            case Some(Pressure) => [PressureReported(current / 10000.0)]
  {
    StartsWithFirst(tag, '%');
    StartsWithFirst(tag, 'C');
    StartsWithPa(tag);
  }

  /** Attributes other than 85 and 28 are not routed. */
  lemma OtherAttributeIsIgnored(endpointId: int, current: real, attrid: int, value: Value)
    requires attrid != PRESENT_VALUE && attrid != DESCRIPTION
    ensures Route(endpointId, current, attrid, value) == Step(current, [])
  {
  }

  /** One report publishes at most one event. */
  lemma AtMostOneEvent(endpointId: int, current: real, attrid: int, value: Value)
    requires WellTyped(attrid, value)
    ensures |Route(endpointId, current, attrid, value).events| <= 1
  {
    if attrid == DESCRIPTION && value.Text? {
      TagPublishesByClassification(endpointId, current, value.s);
    }
  }

  /** On a fresh router (reading 0) a unit tag publishes the value 0. */
  lemma TagOnFreshRouterPublishesZero(endpointId: int, tag: string)
    ensures forall e :: e in Route(endpointId, 0.0, DESCRIPTION, Text(tag)).events ==> e.value == 0.0
  {
    TagPublishesByClassification(endpointId, 0.0, tag);
  }

  /** A temperature event is published only by the router of the endpoint it names. */
  lemma RouteReachesOnlyOwnTemperatureListener(endpointId: int, current: real, attrid: int, value: Value, listenerEndpoint: int)
    requires WellTyped(attrid, value)
    requires listenerEndpoint != endpointId
    ensures NoneAccepted(TemperatureListener, listenerEndpoint, Route(endpointId, current, attrid, value).events)
  {
    if attrid == DESCRIPTION && value.Text? {
      TagPublishesByClassification(endpointId, current, value.s);
    }
  }

  lemma NoneAcceptedAppend(kind: ListenerKind, endpointId: int, e1: seq<Event>, e2: seq<Event>)
    requires NoneAccepted(kind, endpointId, e1) && NoneAccepted(kind, endpointId, e2)
    ensures NoneAccepted(kind, endpointId, e1 + e2)
  {
    forall i | 0 <= i < |e1 + e2| ensures !Accepts(kind, endpointId, (e1 + e2)[i]) {
      if i >= |e1| { assert (e1 + e2)[i] == e2[i - |e1|]; }
    }
  }

  /** Whatever a router is sent, no temperature listener of another endpoint accepts what it publishes. */
  lemma {:induction false} RunReachesOnlyOwnTemperatureListener(endpointId: int, current: real, reports: seq<Report>, listenerEndpoint: int)
    requires AllWellTyped(reports)
    requires listenerEndpoint != endpointId
    ensures NoneAccepted(TemperatureListener, listenerEndpoint, Run(endpointId, current, reports).events)
    decreases |reports|
  {
    if reports != [] {
      var first := Route(endpointId, current, reports[0].attrid, reports[0].value);
      var rest := Run(endpointId, first.current, reports[1..]);
      RouteReachesOnlyOwnTemperatureListener(endpointId, current, reports[0].attrid, reports[0].value, listenerEndpoint);
      RunReachesOnlyOwnTemperatureListener(endpointId, first.current, reports[1..], listenerEndpoint);
      NoneAcceptedAppend(TemperatureListener, listenerEndpoint, first.events, rest.events);
    }
  }

  /** The reading after a trace is 100 times the last numeric present_value report, or the old reading if none. */
  lemma {:induction false} RunKeepsLastReading(endpointId: int, current: real, reports: seq<Report>)
    requires AllWellTyped(reports)
    ensures NoReadingIn(reports) ==> Run(endpointId, current, reports).current == current
    ensures forall i :: IsLastReading(reports, i) ==>
              Run(endpointId, current, reports).current == reports[i].value.n * 100.0
    decreases |reports|
  {
    if reports != [] {
      var first := Route(endpointId, current, reports[0].attrid, reports[0].value);
      var tail := reports[1..];
      RunKeepsLastReading(endpointId, first.current, tail);
      forall i | IsLastReading(reports, i)
        ensures Run(endpointId, current, reports).current == reports[i].value.n * 100.0
      {
        if i == 0 {
          forall j | 0 <= j < |tail| ensures !IsReading(tail[j]) {
            assert tail[j] == reports[j + 1];
          }
        } else {
          assert IsLastReading(tail, i - 1);
        }
      }
      if NoReadingIn(reports) {
        assert !IsReading(reports[0]);
        forall j | 0 <= j < |tail| ensures !IsReading(tail[j]) {
          assert tail[j] == reports[j + 1];
        }
      }
    }
  }

  /** A trace publishes at most one event per report. */
  lemma {:induction false} RunPublishesAtMostOnePerReport(endpointId: int, current: real, reports: seq<Report>)
    requires AllWellTyped(reports)
    ensures |Run(endpointId, current, reports).events| <= |reports|
    decreases |reports|
  {
    if reports != [] {
      var first := Route(endpointId, current, reports[0].attrid, reports[0].value);
      AtMostOneEvent(endpointId, current, reports[0].attrid, reports[0].value);
      RunPublishesAtMostOnePerReport(endpointId, first.current, reports[1..]);
    }
  }

  /** Handling two traces one after the other is handling their concatenation. */
  lemma {:induction false} RunAppend(endpointId: int, current: real, r1: seq<Report>, r2: seq<Report>)
    requires AllWellTyped(r1) && AllWellTyped(r2)
    ensures AllWellTyped(r1 + r2)
    ensures var first := Run(endpointId, current, r1);
            var second := Run(endpointId, first.current, r2);
            Run(endpointId, current, r1 + r2) == Step(second.current, first.events + second.events)
    decreases |r1|
  {
    assert AllWellTyped(r1 + r2) by {
      forall i | 0 <= i < |r1 + r2|
        ensures WellTyped((r1 + r2)[i].attrid, (r1 + r2)[i].value)
      {
        if i >= |r1| { assert (r1 + r2)[i] == r2[i - |r1|]; }
      }
    }
    if r1 == [] {
      assert r1 + r2 == r2;
    } else {
      var head := Route(endpointId, current, r1[0].attrid, r1[0].value);
      assert (r1 + r2)[0] == r1[0];
      assert (r1 + r2)[1..] == r1[1..] + r2;
      RunAppend(endpointId, head.current, r1[1..], r2);
      var rest := Run(endpointId, head.current, r1[1..]);
      var second := Run(endpointId, rest.current, r2);
      assert Run(endpointId, current, r1) == Step(rest.current, head.events + rest.events);
      assert head.events + (rest.events + second.events) == (head.events + rest.events) + second.events;
    }
  }

  // ---------------------------------------------------------------------
  // Lemmas about the listeners
  // ---------------------------------------------------------------------

  lemma ReceiveAllSnoc(events: seq<Event>, e: Event)
    ensures forall kind, endpointId, attrs ::
      ReceiveAll(kind, endpointId, attrs, events + [e]) == Receive(kind, endpointId, ReceiveAll(kind, endpointId, attrs, events), e)
  {
    assert (events + [e])[..|events|] == events;
  }

  /**
   * A listener exposes the value of the last event it accepts and keeps its
   * attributes when it accepts none.
   */
  lemma {:induction false} ReceiveAllIsLastAccepted(kind: ListenerKind, endpointId: int, attrs: map<int, real>, events: seq<Event>)
    ensures NoneAccepted(kind, endpointId, events) ==> ReceiveAll(kind, endpointId, attrs, events) == attrs
    ensures forall i :: IsLastAccepted(kind, endpointId, events, i) ==>
              ReceiveAll(kind, endpointId, attrs, events) == attrs[StoredAttribute(kind) := events[i].value]
    decreases |events|
  {
    if events != [] {
      var n := |events| - 1;
      var init := events[..n];
      var last := events[n];
      ReceiveAllIsLastAccepted(kind, endpointId, attrs, init);
      assert ReceiveAll(kind, endpointId, attrs, events) ==
             Receive(kind, endpointId, ReceiveAll(kind, endpointId, attrs, init), last);
      if Accepts(kind, endpointId, last) {
        var k := StoredAttribute(kind);
        var r := ReceiveAll(kind, endpointId, attrs, init);
        OnlyStoredAttributeChanges(kind, endpointId, attrs, init);
        AgreeingMapsUpdated(r, attrs, k, last.value);
        assert !NoneAccepted(kind, endpointId, events) by { assert !Accepts(kind, endpointId, events[n]) == false; }
        forall i | IsLastAccepted(kind, endpointId, events, i) ensures i == n {
        }
      } else {
        if NoneAccepted(kind, endpointId, events) {
          forall j | 0 <= j < |init| ensures !Accepts(kind, endpointId, init[j]) {
            assert init[j] == events[j];
          }
        }
        forall i | IsLastAccepted(kind, endpointId, events, i)
          ensures IsLastAccepted(kind, endpointId, init, i) && init[i] == events[i]
        {
          assert i != n;
          forall j | i < j < |init| ensures !Accepts(kind, endpointId, init[j]) {
            assert init[j] == events[j];
          }
        }
      }
    }
  }

  /** Receiving events changes no attribute but the one the listener stores. */
  lemma {:induction false} OnlyStoredAttributeChanges(kind: ListenerKind, endpointId: int, attrs: map<int, real>, events: seq<Event>)
    ensures forall key :: key != StoredAttribute(kind) ==>
              (key in ReceiveAll(kind, endpointId, attrs, events) <==> key in attrs)
    ensures forall key :: key != StoredAttribute(kind) && key in attrs ==>
              ReceiveAll(kind, endpointId, attrs, events)[key] == attrs[key]
    decreases |events|
  {
    if events != [] {
      OnlyStoredAttributeChanges(kind, endpointId, attrs, events[..|events| - 1]);
    }
  }

  lemma {:induction false} ReceiveAllAppend(kind: ListenerKind, endpointId: int, attrs: map<int, real>, e1: seq<Event>, e2: seq<Event>)
    ensures ReceiveAll(kind, endpointId, attrs, e1 + e2) ==
            ReceiveAll(kind, endpointId, ReceiveAll(kind, endpointId, attrs, e1), e2)
    decreases |e2|
  {
    if e2 == [] {
      assert e1 + e2 == e1;
    } else {
      var n := |e2| - 1;
      assert (e1 + e2)[..|e1 + e2| - 1] == e1 + e2[..n];
      ReceiveAllAppend(kind, endpointId, attrs, e1, e2[..n]);
    }
  }

  /** Publishing the same events a second time leaves every listener as the first time did. */
  lemma ReceiveAllIdempotent(kind: ListenerKind, endpointId: int, attrs: map<int, real>, events: seq<Event>)
    ensures ReceiveAll(kind, endpointId, ReceiveAll(kind, endpointId, attrs, events), events) ==
            ReceiveAll(kind, endpointId, attrs, events)
  {
    var once := ReceiveAll(kind, endpointId, attrs, events);
    ReceiveAllIsLastAccepted(kind, endpointId, attrs, events);
    ReceiveAllIsLastAccepted(kind, endpointId, once, events);
    if !NoneAccepted(kind, endpointId, events) {
      var i := LastAcceptedIndex(kind, endpointId, events);
      assert once == attrs[StoredAttribute(kind) := events[i].value];
      assert once[StoredAttribute(kind) := events[i].value] == once;
    }
  }

  lemma {:induction false} LastAcceptedIndex(kind: ListenerKind, endpointId: int, events: seq<Event>) returns (i: int)
    requires !NoneAccepted(kind, endpointId, events)
    ensures IsLastAccepted(kind, endpointId, events, i)
    decreases |events|
  {
    var n := |events| - 1;
    if Accepts(kind, endpointId, events[n]) {
      i := n;
    } else {
      var init := events[..n];
      assert !NoneAccepted(kind, endpointId, init) by {
        var j :| 0 <= j < |events| && Accepts(kind, endpointId, events[j]);
        assert j < n && init[j] == events[j];
      }
      i := LastAcceptedIndex(kind, endpointId, init);
    }
  }

  /** A stored value is never removed, only overwritten. */
  lemma ValueIsNeverCleared(kind: ListenerKind, endpointId: int, attrs: map<int, real>, events: seq<Event>)
    requires StoredAttribute(kind) in attrs
    ensures StoredAttribute(kind) in ReceiveAll(kind, endpointId, attrs, events)
  {
    ReceiveAllIsLastAccepted(kind, endpointId, attrs, events);
    if !NoneAccepted(kind, endpointId, events) {
      var i := LastAcceptedIndex(kind, endpointId, events);
    }
  }

  /** A temperature listener stores temperature_reported_1 only on endpoint 1 and _3 only on endpoint 3. */
  lemma TemperatureListenerFilters(endpointId: int, attrs: map<int, real>, v: real)
    ensures Receive(TemperatureListener, endpointId, attrs, TemperatureReported1(v)) ==
            if endpointId == 1 then attrs[MEASURED_VALUE := v] else attrs
    ensures Receive(TemperatureListener, endpointId, attrs, TemperatureReported3(v)) ==
            if endpointId == 3 then attrs[MEASURED_VALUE := v] else attrs
  {
  }

  // ---------------------------------------------------------------------
  // Properties of the whole device
  // ---------------------------------------------------------------------

  /**
   * Whatever a router on one endpoint is sent, the temperature listener of a
   * different endpoint keeps its attributes.
   */
  lemma NoTemperatureCrosstalk(endpointId: int, current: real, reports: seq<Report>, listenerEndpoint: int, attrs: map<int, real>)
    requires AllWellTyped(reports)
    requires listenerEndpoint != endpointId
    ensures ReceiveAll(TemperatureListener, listenerEndpoint, attrs, Run(endpointId, current, reports).events) == attrs
  {
    RunReachesOnlyOwnTemperatureListener(endpointId, current, reports, listenerEndpoint);
    ReceiveAllIsLastAccepted(TemperatureListener, listenerEndpoint, attrs, Run(endpointId, current, reports).events);
  }

  /** A reading followed by a tag: the reading's own event, then the tag's events carrying it. */
  lemma PairRun(endpointId: int, current: real, v: real, tag: string)
    ensures var pair := [Report(PRESENT_VALUE, Number(v)), Report(DESCRIPTION, Text(tag))];
            var reading := Route(endpointId, current, PRESENT_VALUE, Number(v));
            Run(endpointId, current, pair) ==
            Step(v * 100.0, reading.events + TagEvents(endpointId, v * 100.0, tag))
  {
    var pair := [Report(PRESENT_VALUE, Number(v)), Report(DESCRIPTION, Text(tag))];
    var reading := Route(endpointId, current, PRESENT_VALUE, Number(v));
    var tagged := Route(endpointId, reading.current, DESCRIPTION, Text(tag));
    assert pair[1..] == [Report(DESCRIPTION, Text(tag))];
    assert pair[1..][1..] == [];
    assert Run(endpointId, tagged.current, pair[1..][1..]) == Step(tagged.current, []);
    assert Run(endpointId, reading.current, pair[1..]) == Step(tagged.current, tagged.events + []);
    assert tagged.events + [] == tagged.events;
  }

  /**
   * A reading followed by a unit tag: the reading is v * 100 afterwards and,
   * replayed, the pair publishes the same events again and leaves every
   * listener where the first pair left it.
   */
  lemma ReplayedPairIsIdempotent(endpointId: int, current: real, v: real, tag: string)
    ensures var pair := [Report(PRESENT_VALUE, Number(v)), Report(DESCRIPTION, Text(tag))];
            var once := Run(endpointId, current, pair);
            && once.current == v * 100.0
            && Run(endpointId, current, pair + pair) == Step(once.current, once.events + once.events)
            && forall kind, listenerEndpoint, attrs ::
                 ReceiveAll(kind, listenerEndpoint, attrs, once.events + once.events) ==
                 ReceiveAll(kind, listenerEndpoint, attrs, once.events)
  {
    var pair := [Report(PRESENT_VALUE, Number(v)), Report(DESCRIPTION, Text(tag))];
    var once := Run(endpointId, current, pair);
    var again := Run(endpointId, once.current, pair);
    PairRun(endpointId, current, v, tag);
    PairRun(endpointId, once.current, v, tag);
    assert again == once;
    RunAppend(endpointId, current, pair, pair);
    forall kind, listenerEndpoint, attrs
      ensures ReceiveAll(kind, listenerEndpoint, attrs, once.events + once.events) ==
              ReceiveAll(kind, listenerEndpoint, attrs, once.events)
    {
      ReceiveAllAppend(kind, listenerEndpoint, attrs, once.events, once.events);
      ReceiveAllIdempotent(kind, listenerEndpoint, attrs, once.events);
    }
  }

  /** The values the two-endpoint scenario goes through, worked out on the specification. */
  lemma TemperaturePair()
    ensures Route(1, 0.0, PRESENT_VALUE, Number(21.5)) == Step(2150.0, [])
    ensures Route(1, 2150.0, DESCRIPTION, Text("C")) == Step(2150.0, [TemperatureReported1(2150.0)])
    ensures ReceiveAll(TemperatureListener, 1, map[], []) == map[]
    ensures ReceiveAll(TemperatureListener, 3, map[], []) == map[]
    ensures ReceiveAll(HumidityListener, 1, map[], []) == map[]
    ensures ReceiveAll(TemperatureListener, 1, map[], [TemperatureReported1(2150.0)]) == map[MEASURED_VALUE := 2150.0]
    ensures ReceiveAll(TemperatureListener, 3, map[], [TemperatureReported1(2150.0)]) == map[]
  {
    TagPublishesByClassification(1, 2150.0, "C");
    assert [TemperatureReported1(2150.0)][..0] == [];
  }

  /**
   * Endpoints 1 and 3 as the replacement table lays them out, each with a
   * router and a temperature listener: 21.5 then "C" on endpoint 1 is
   * exposed as 2150 by endpoint 1's listener only.
   */
  method TwoTemperatureEndpointsScenario() returns (temperature1: Option<real>, temperature3: Option<real>)
    ensures temperature1 == Some(2150.0)
    ensures temperature3 == None
  {
    var device := new PtvoTemperature();
    var input1 := new PtvoAnalogInputCluster(device, 1);
    var humidity1 := new HumidityMeasurementCluster(device, 1);
    var temperatureAt1 := new TemperatureMeasurementCluster(device, 1);
    var input3 := new PtvoAnalogInputCluster(device, 3);
    var temperatureAt3 := new TemperatureMeasurementCluster(device, 3);
    assert device.temperatureBus == [temperatureAt1, temperatureAt3];
    TemperaturePair();

    ghost var published := input1.UpdateAttribute(PRESENT_VALUE, Number(21.5));
    assert temperatureAt1 in device.temperatureBus && temperatureAt3 in device.temperatureBus;
    published := input1.UpdateAttribute(DESCRIPTION, Text("C"));
    assert temperatureAt1 in device.temperatureBus && temperatureAt3 in device.temperatureBus;

    temperature1 := temperatureAt1.MeasuredValue();
    temperature3 := temperatureAt3.MeasuredValue();
  }

  /**
   * Endpoint 3: a reading of 1013 followed by "Pa" publishes pressure 10.13,
   * which a pressure listener then exposes.
   */
  lemma PressureExample()
    ensures Run(3, 0.0, [Report(PRESENT_VALUE, Number(1013.0)), Report(DESCRIPTION, Text("Pa"))]) ==
            Step(101300.0, [PressureReported(10.13)])
    ensures ReceiveAll(PressureListener, 3, map[], [PressureReported(10.13)]) == map[MEASURED_VALUE := 10.13]
  {
    PairRun(3, 0.0, 1013.0, "Pa");
    assert Classify("Pa") == Some(Pressure) by { assert "Pa"[0] == 'P' && "Pa"[1] == 'a'; }
    TagPublishesByClassification(3, 101300.0, "Pa");
    assert [PressureReported(10.13)][..0] == [];
  }

  /** Endpoint 4: a bare reading of 7 is exposed as 700 at once. */
  method CounterScenario() returns (counter: Option<real>)
    ensures counter == Some(700.0)
  {
    var device := new PtvoTemperature();
    var input4 := new PtvoAnalogInputCluster(device, 4);
    var valueAt4 := new AnalogValueMeasurementCluster(device, 4);
    assert device.counterBus == [valueAt4];

    ghost var published := input4.UpdateAttribute(PRESENT_VALUE, Number(7.0));
    assert published == [ValueReported(700.0)];

    counter := valueAt4.PresentValue();
  }

  /** Endpoint 1: a "%RH" tag before any reading exposes humidity 0. */
  method HumidityBeforeReadingScenario() returns (humidity: Option<real>)
    ensures humidity == Some(0.0)
  {
    var device := new PtvoTemperature();
    var input1 := new PtvoAnalogInputCluster(device, 1);
    var humidityAt1 := new HumidityMeasurementCluster(device, 1);
    assert device.humidityBus == [humidityAt1];

    TagPublishesByClassification(1, 0.0, "%RH");
    ghost var published := input1.UpdateAttribute(DESCRIPTION, Text("%RH"));
    assert published == [HumidityReported(0.0)];

    humidity := humidityAt1.MeasuredValue();
  }
}
