/**
 * Vocabulary shared by both versions of the PTVO device handler: the values
 * the host hands to a cluster's attribute-update callback, the attribute ids
 * the routers look at, and the quantities a unit tag can name.
 */
module Zcl {

  datatype Option<+T> = None | Some(value: T)

  /** A decoded attribute value: Python's None, a number, or a character string. */
  datatype Value = Absent | Number(n: real) | Text(s: string)

  /** One attribute report as the host delivers it to an analog input cluster. */
  datatype Report = Report(attrid: int, value: Value)

  /** The physical quantities a unit tag can name. */
  datatype Quantity = Humidity | Temperature | Pressure

  /** present_value of the analog input (and analog output) cluster: the reading. */
  const PRESENT_VALUE: int := 85
  /** description of the analog input cluster: this firmware puts the unit tag there. */
  const DESCRIPTION: int := 28
  /** measured_value of the humidity, temperature and pressure measurement clusters. */
  const MEASURED_VALUE: int := 0

  /** Python's str.startswith. */
  predicate StartsWith(s: string, prefix: string)
  {
    |prefix| <= |s| && s[..|prefix|] == prefix
  }

  /** StartsWith compares the leading characters one by one, and only those. */
  lemma StartsWithIsCharwise(s: string, prefix: string)
    ensures StartsWith(s, prefix) <==>
      |prefix| <= |s| && forall i :: 0 <= i < |prefix| ==> s[i] == prefix[i]
  {
    if |prefix| <= |s| && forall i :: 0 <= i < |prefix| ==> s[i] == prefix[i] {
      assert s[..|prefix|] == prefix;
    }
  }

  /** A numeric present_value report, the only kind that sets a router's reading. */
  predicate IsReading(r: Report)
  {
    r.attrid == PRESENT_VALUE && r.value.Number?
  }

  /** No report of the trace is a numeric present_value report. */
  ghost predicate NoReadingIn(reports: seq<Report>)
  {
    forall i :: 0 <= i < |reports| ==> !IsReading(reports[i])
  }

  /** reports[i] is the last numeric present_value report of the trace. */
  ghost predicate IsLastReading(reports: seq<Report>, i: int)
  {
    0 <= i < |reports| && IsReading(reports[i]) &&
    forall j :: i < j < |reports| ==> !IsReading(reports[j])
  }

  /** Two maps that agree everywhere but at k agree everywhere once k is set in both. */
  lemma AgreeingMapsUpdated(r: map<int, real>, a: map<int, real>, k: int, v: real)
    requires forall key :: key != k ==> (key in r <==> key in a)
    requires forall key :: key != k && key in a ==> r[key] == a[key]
    ensures r[k := v] == a[k := v]
  {
    var r2, a2 := r[k := v], a[k := v];
    forall key | key in r2 ensures key in a2 {
      if key != k { assert key in r; }
    }
    forall key | key in a2 ensures key in r2 {
      if key != k { assert key in a; }
    }
    assert r2.Keys == a2.Keys;
    forall key | key in r2 ensures r2[key] == a2[key] {
      if key != k { assert key in a; }
    }
  }
}
