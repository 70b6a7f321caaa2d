/**
 * The two versions of the handler side by side: the newer one matches unit
 * tags by prefix, the older one by equality; only the newer one knows
 * pressure; both scale readings alike, and each has one cluster that
 * publishes every reading at once, though not on the same bus.
 */
module Versions {
  import opened Zcl
  import Ptvo
  import Ptvo2

  /** Every tag the older version recognises, the newer one recognises as the same quantity. */
  lemma ExactMatchImpliesPrefixMatch(tag: string)
    requires Ptvo.Classify(Text(tag)).Some?
    ensures Ptvo2.Classify(tag) == Ptvo.Classify(Text(tag))
  {
  }

  /**
   * On a tag both recognise, both routers keep the reading and publish
   * exactly one event carrying it (the newer one on endpoints 1 and 3 for
   * temperature, where its listeners are).
   */
  lemma SharedTagsPublishTheReading(instanceFlag: int, endpointId: int, current: real, tag: string)
    requires Ptvo.Classify(Text(tag)).Some?
    requires endpointId == 1 || endpointId == 3
    ensures var legacy := Ptvo.Route(instanceFlag, current, DESCRIPTION, Text(tag));
            var newer := Ptvo2.Route(endpointId, current, DESCRIPTION, Text(tag));
            && legacy.current == current == newer.current
            && |legacy.events| == 1 == |newer.events|
            && legacy.events[0].value == current == newer.events[0].value
  {
    Ptvo.TagPublishesByExactMatch(instanceFlag, current, Text(tag));
    Ptvo2.TagPublishesByClassification(endpointId, current, tag);
  }

  /** "%RH" and "C " name humidity and temperature to the newer version only. */
  lemma PrefixTagsOnlyInNewer(endpointId: int, current: real)
    ensures Ptvo2.Classify("%RH") == Some(Humidity) && Ptvo.Classify(Text("%RH")) == None
    ensures Ptvo2.Classify("C ") == Some(Temperature) && Ptvo.Classify(Text("C ")) == None
    ensures Ptvo2.Route(endpointId, current, DESCRIPTION, Text("%RH")).events == [Ptvo2.HumidityReported(current)]
    ensures Ptvo.Route(0, current, DESCRIPTION, Text("%RH")).events == []
  {
    Ptvo2.TagPublishesByClassification(endpointId, current, "%RH");
    Ptvo.NearMissTagsPublishNothing(0, current);
    assert Text("%RH") != Text("%") && Text("%RH") != Text("C") by { assert |"%RH"| == 3; }
    assert Text("C ") != Text("%") && Text("C ") != Text("C") by { assert |"C "| == 2; }
  }

  /**
   * A "Pa..." tag publishes nothing in the older version; the newer one
   * classifies it as pressure and publishes the reading / 10000.
   */
  lemma PressureOnlyInNewer(instanceFlag: int, endpointId: int, current: real, tag: string)
    requires |tag| >= 2 && tag[..2] == "Pa"
    ensures Ptvo.Route(instanceFlag, current, DESCRIPTION, Text(tag)).events == []
    ensures Ptvo2.Classify(tag) == Some(Pressure)
    ensures Ptvo2.Route(endpointId, current, DESCRIPTION, Text(tag)).events == [Ptvo2.PressureReported(current / 10000.0)]
  {
    assert tag[0] == 'P' && tag[1] == 'a' by { assert tag[0] == tag[..2][0] && tag[1] == tag[..2][1]; }
    assert Text(tag) != Text("%") && Text(tag) != Text("C") by {
      assert tag[0] != "%"[0] && tag[0] != "C"[0];
    }
    Ptvo.TagPublishesByExactMatch(instanceFlag, current, Text(tag));
    Ptvo2.TagPublishesByClassification(endpointId, current, tag);
  }

  /**
   * Both versions store a reading as value * 100. The newer version
   * publishes it at once on endpoint 4 as a counter value; the older one on
   * the cluster with flag 1 as humidity.
   */
  lemma ImmediatePublishDiffers(current: real, v: real)
    ensures Ptvo.Route(1, current, PRESENT_VALUE, Number(v)).current ==
            Ptvo2.Route(4, current, PRESENT_VALUE, Number(v)).current == v * 100.0
    ensures Ptvo.Route(1, current, PRESENT_VALUE, Number(v)).events == [Ptvo.HumidityReported(v * 100.0)]
    ensures Ptvo2.Route(4, current, PRESENT_VALUE, Number(v)).events == [Ptvo2.ValueReported(v * 100.0)]
    ensures Ptvo2.Route(1, current, PRESENT_VALUE, Number(v)).events == []
  {
    Ptvo.ReadingIsStoredScaled(1, current, v);
    Ptvo2.ReadingIsStoredScaled(4, current, v);
    Ptvo2.ReadingIsStoredScaled(1, current, v);
  }

  /** The older temperature listener stores a value the newer one, on the wrong endpoint, ignores. */
  lemma TemperatureFilterOnlyInNewer(attrs: map<int, real>, v: real)
    ensures Ptvo.Receive(Ptvo.TemperatureListener, attrs, Ptvo.TemperatureReported(v)) == attrs[MEASURED_VALUE := v]
    ensures Ptvo2.Receive(Ptvo2.TemperatureListener, 3, attrs, Ptvo2.TemperatureReported1(v)) == attrs
  {
  }
}
