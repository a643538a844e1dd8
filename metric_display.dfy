/** The text of a metric card while its count animates: `displayValue` in
    `MetricCounterCard` (src/components/themed/MetricCounter.tsx) and the
    counter line of `MetricCard` (src/components/home/MetricTiles.tsx). */
module MetricDisplay {
  import opened JsArray
  import opened JsText
  import opened CountUp

  /** `ProjectMetric`, without its label and icon; a numeric value is an
      integer in every record of the catalog. */
  datatype ProjectMetric = ProjectMetric(
    value: string,
    prefix: Option<string>,
    suffix: Option<string>,
    numericValue: Option<int>)

  /** JavaScript truthiness of `metric.numericValue`: present and not 0. */
  predicate Animated(m: ProjectMetric) {
    m.numericValue.Some? && m.numericValue.value != 0
  }

  /** The target the card's counter animates to: `numericValue ?? 0`. */
  function CounterTarget(m: ProjectMetric): (t: int)
    ensures m.numericValue.None? ==> t == 0
    ensures m.numericValue.Some? ==> t == m.numericValue.value
  {
    m.numericValue.GetOr(0)
  }

  /** `displayValue` for the current `count`. */
  function DisplayValue(m: ProjectMetric, count: int): (r: string)
    ensures !Animated(m) ==> r == m.value
    ensures Animated(m) ==>
      |r| == |m.prefix.GetOr("")| + |IntToString(count)| + |m.suffix.GetOr("")|
  {
    if Animated(m) then m.prefix.GetOr("") + IntToString(count) + m.suffix.GetOr("")
    else m.value
  }

  /** When the metric animates, the text between prefix and suffix reads back
      as the current count. */
  lemma DisplayValueShowsCount(m: ProjectMetric, count: int)
    requires Animated(m)
    ensures var r := DisplayValue(m, count);
      var p, s := m.prefix.GetOr(""), m.suffix.GetOr("");
      r[..|p|] == p && r[|r| - |s|..] == s && ParseInt(r[|p|..|r| - |s|]) == Some(count)
  {
    var r := DisplayValue(m, count);
    var p, s := m.prefix.GetOr(""), m.suffix.GetOr("");
    assert r[|p|..|r| - |s|] == IntToString(count);
    IntToStringRoundTrip(count);
  }

  /** Once the last frame has run, the card shows the metric's own number. */
  lemma DisplayValueAtEnd(m: ProjectMetric, duration: real, elapsed: real)
    requires Animated(m) && duration > 0.0 && elapsed >= duration
    ensures var r := DisplayValue(m, Sample(CounterTarget(m), duration, elapsed));
      var p, s := m.prefix.GetOr(""), m.suffix.GetOr("");
      ParseInt(r[|p|..|r| - |s|]) == m.numericValue
  {
    DisplayValueShowsCount(m, Sample(CounterTarget(m), duration, elapsed));
  }

  /** The counter line of a home-page tile: `(prefix ?? '') + count + suffix`. */
  function TileText(prefix: Option<string>, count: int, suffix: string): (r: string)
    ensures |r| == |prefix.GetOr("")| + |IntToString(count)| + |suffix|
  {
    prefix.GetOr("") + IntToString(count) + suffix
  }

  /** The tile's number reads back as the count, between prefix and suffix. */
  lemma TileTextShowsCount(prefix: Option<string>, count: int, suffix: string)
    ensures var r := TileText(prefix, count, suffix);
      var p := prefix.GetOr("");
      r[..|p|] == p && r[|r| - |suffix|..] == suffix && ParseInt(r[|p|..|r| - |suffix|]) == Some(count)
  {
    var r := TileText(prefix, count, suffix);
    var p := prefix.GetOr("");
    assert r[|p|..|r| - |suffix|] == IntToString(count);
    IntToStringRoundTrip(count);
  }
}
