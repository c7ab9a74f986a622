/**
  The whole-set report computed in `allCities.thenRun` (src/Main.java:110-167)
  once every city's measurement is in: the best beach city, the coldest city
  and the city with the highest pressure. `cities` and `data` are the two
  parallel lists; `data[i]` is the measurement of `cities[i]`.
 */
module Aggregation {
  import opened Wrappers
  import opened Weather

  /** What the beach search answers when no city qualifies. */
  const NoBeachCity: string := "Краще піти в кафе"

  // ---------------------------------------------------------------------
  // Specification: first-index extrema and the first qualifying city.

  /** `k` holds the least value of `xs`, and no earlier index holds it. */
  predicate IsFirstMin(xs: seq<real>, k: int)
  {
    && 0 <= k < |xs|
    && (forall j :: 0 <= j < |xs| ==> xs[k] <= xs[j])
    && (forall j :: 0 <= j < k ==> xs[k] < xs[j])
  }

  /** `k` holds the greatest value of `xs`, and no earlier index holds it. */
  predicate IsFirstMax(xs: seq<real>, k: int)
  {
    && 0 <= k < |xs|
    && (forall j :: 0 <= j < |xs| ==> xs[j] <= xs[k])
    && (forall j :: 0 <= j < k ==> xs[j] < xs[k])
  }

  /** The beach condition: warmer than 25 and less wind than 10. */
  predicate BeachWeather(w: Measurement)
    requires Temperature in w && WindSpeed in w
  {
    w[Temperature] > 25.0 && w[WindSpeed] < 10.0
  }

  /** `k` is the first index whose measurement meets the beach condition. */
  predicate IsFirstBeach(data: seq<Measurement>, k: int)
    requires HasField(data, Temperature) && HasField(data, WindSpeed)
  {
    && 0 <= k < |data|
    && BeachWeather(data[k])
    && (forall j :: 0 <= j < k ==> !BeachWeather(data[j]))
  }

  /** At most one index is the first minimum. */
  lemma FirstMinUnique(xs: seq<real>, k1: int, k2: int)
    requires IsFirstMin(xs, k1) && IsFirstMin(xs, k2)
    ensures k1 == k2
  {
    assert xs[k1] == xs[k2];
  }

  /** At most one index is the first maximum. */
  lemma FirstMaxUnique(xs: seq<real>, k1: int, k2: int)
    requires IsFirstMax(xs, k1) && IsFirstMax(xs, k2)
    ensures k1 == k2
  {
    assert xs[k1] == xs[k2];
  }

  // ---------------------------------------------------------------------
  // Best beach city: the stream pipeline of src/Main.java:123-130.

  /** `List.indexOf`: the first position of an equal element, or -1. */
  function IndexOf(xs: seq<Measurement>, x: Measurement): (k: int)
    ensures -1 <= k < |xs|
    ensures k == -1 <==> x !in xs
    ensures 0 <= k ==> xs[k] == x && forall j :: 0 <= j < k ==> xs[j] != x
  {
    if |xs| == 0 then -1
    else if xs[0] == x then 0
    else
      var k := IndexOf(xs[1..], x);
      if k == -1 then -1 else k + 1
  }

  /** The `map` stage: the city of a qualifying measurement, found by `indexOf`, or null. */
  function BeachCandidate(cities: seq<string>, data: seq<Measurement>, w: Measurement): (r: Option<string>)
    requires |cities| == |data|
    requires w in data && Temperature in w && WindSpeed in w
    ensures r.Some? <==> BeachWeather(w)
    ensures r.Some? ==>
              exists j :: 0 <= j < |data| && data[j] == w && (forall i :: 0 <= i < j ==> data[i] != w) && r.value == cities[j]
  {
    var cityIndex := IndexOf(data, w);
    if BeachWeather(w) then Some(cities[cityIndex]) else None
  }

  /** The `map` stage over the whole list. */
  function BeachCandidates(cities: seq<string>, data: seq<Measurement>): (r: seq<Option<string>>)
    requires |cities| == |data|
    requires HasField(data, Temperature) && HasField(data, WindSpeed)
    ensures |r| == |data|
    ensures forall i :: 0 <= i < |data| ==> (r[i].None? <==> !BeachWeather(data[i]))
    ensures forall i :: 0 <= i < |data| && r[i].Some? ==> r[i].value == cities[IndexOf(data, data[i])]
  {
    seq(|data|, i requires 0 <= i < |data| => BeachCandidate(cities, data, data[i]))
  }

  /** The `filter(Objects::nonNull)` stage. */
  function NonNull(xs: seq<Option<string>>): (r: seq<string>)
    ensures |r| <= |xs|
    ensures forall x :: x in r <==> Some(x) in xs
  {
    if |xs| == 0 then []
    else (if xs[0].Some? then [xs[0].value] else []) + NonNull(xs[1..])
  }

  /** The filter keeps every non-null entry exactly as often as it occurs. */
  lemma {:induction false} NonNullKeepsCounts(xs: seq<Option<string>>)
    ensures forall x :: multiset(NonNull(xs))[x] == multiset(xs)[Some(x)]
  {
    if |xs| > 0 {
      NonNullKeepsCounts(xs[1..]);
      assert xs == [xs[0]] + xs[1..];
      assert multiset(xs) == multiset([xs[0]]) + multiset(xs[1..]);
    }
  }

  /** The filter is empty exactly when every entry is null. */
  lemma {:induction false} NonNullEmpty(xs: seq<Option<string>>)
    ensures (forall i :: 0 <= i < |xs| ==> xs[i].None?) <==> NonNull(xs) == []
  {
    if |xs| > 0 {
      NonNullEmpty(xs[1..]);
      if xs[0].None? {
        assert forall i :: 0 < i < |xs| ==> xs[i] == xs[1..][i - 1];
      }
    }
  }

  /** The filter keeps the order: its head is the first non-null entry. */
  lemma NonNullHead(xs: seq<Option<string>>)
    ensures forall k :: 0 <= k < |xs| && xs[k].Some? && (forall j :: 0 <= j < k ==> xs[j].None?) ==>
              |NonNull(xs)| > 0 && NonNull(xs)[0] == xs[k].value
  {
    FindFirstNonNull(xs);
  }

  /** The `findFirst` stage. */
  function FindFirst(xs: seq<string>): (r: Option<string>)
    ensures r.None? <==> xs == []
    ensures r.Some? ==> r.value == xs[0]
  {
    if |xs| == 0 then None else Some(xs[0])
  }

  /**
    `bestCityForBeach`: the pipeline ending in `orElse("Краще піти в кафе")`.
    It answers the city at the first index meeting the beach condition, and
    the sentinel when no index meets it.
   */
  function BestBeachCity(cities: seq<string>, data: seq<Measurement>): (best: string)
    requires |cities| == |data|
    requires HasField(data, Temperature) && HasField(data, WindSpeed)
    ensures (forall i :: 0 <= i < |data| ==> !BeachWeather(data[i])) ==> best == NoBeachCity
    ensures forall k :: IsFirstBeach(data, k) ==> best == cities[k]
  {
    var xs := BeachCandidates(cities, data);
    CandidatesAt(cities, data);
    FindFirstNonNull(xs);
    match FindFirst(NonNull(xs))
    case Some(city) => city
    case None => NoBeachCity
  }

  /** Filtering out the nulls and taking the first element finds the first non-null entry. */
  lemma {:induction false} FindFirstNonNull(xs: seq<Option<string>>)
    ensures (forall i :: 0 <= i < |xs| ==> xs[i].None?) ==> FindFirst(NonNull(xs)) == None
    ensures forall k :: 0 <= k < |xs| && xs[k].Some? && (forall j :: 0 <= j < k ==> xs[j].None?) ==>
              FindFirst(NonNull(xs)) == xs[k]
  {
    if |xs| > 0 {
      FindFirstNonNull(xs[1..]);
      if xs[0].None? {
        assert NonNull(xs) == NonNull(xs[1..]);
        forall k | 0 < k < |xs| && xs[k].Some? && (forall j :: 0 <= j < k ==> xs[j].None?)
          ensures FindFirst(NonNull(xs)) == xs[k]
        {
          assert xs[1..][k - 1] == xs[k];
          assert forall j :: 0 <= j < k - 1 ==> xs[1..][j] == xs[j + 1];
        }
      }
    }
  }

  /** At the first qualifying index the `indexOf` lookup finds that index itself, so the entry is that index's own city. */
  lemma CandidatesAt(cities: seq<string>, data: seq<Measurement>)
    requires |cities| == |data|
    requires HasField(data, Temperature) && HasField(data, WindSpeed)
    ensures forall k :: IsFirstBeach(data, k) ==> BeachCandidates(cities, data)[k] == Some(cities[k])
  {
    forall k | IsFirstBeach(data, k)
      ensures BeachCandidates(cities, data)[k] == Some(cities[k])
    {
      var m := IndexOf(data, data[k]);
      assert data[m] == data[k];
    }
  }

  /** Either no city qualifies or some first one does, so the search is one of the two cases above. */
  lemma BeachSearchCases(data: seq<Measurement>)
    requires HasField(data, Temperature) && HasField(data, WindSpeed)
    ensures (forall i :: 0 <= i < |data| ==> !BeachWeather(data[i])) || exists k :: IsFirstBeach(data, k)
  {
    var k := 0;
    while k < |data| && !BeachWeather(data[k])
      invariant 0 <= k <= |data|
      invariant forall j :: 0 <= j < k ==> !BeachWeather(data[j])
    {
      k := k + 1;
    }
    if k < |data| {
      assert IsFirstBeach(data, k);
    }
  }

  // ---------------------------------------------------------------------
  // Coldest and highest-pressure city: the two loops of src/Main.java:134-154.

  /** `coldestCity`: a scan that replaces the candidate only on a strictly colder city. */
  method ColdestCity(cities: seq<string>, data: seq<Measurement>) returns (coldestCity: string)
    requires |data| > 0 && |cities| == |data|
    requires HasField(data, Temperature)
    ensures exists k :: IsFirstMin(Column(data, Temperature), k) && coldestCity == cities[k]
    ensures coldestCity in cities
  {
    coldestCity := cities[0];
    var coldestTemp := data[0][Temperature];
    ghost var k := 0;
    for i := 1 to |data|
      invariant 0 <= k < i
      invariant coldestCity == cities[k] && coldestTemp == data[k][Temperature]
      invariant forall j :: 0 <= j < i ==> coldestTemp <= data[j][Temperature]
      invariant forall j :: 0 <= j < k ==> coldestTemp < data[j][Temperature]
    {
      var currentTemp := data[i][Temperature];
      if currentTemp < coldestTemp {
        coldestTemp := currentTemp;
        coldestCity := cities[i];
        k := i;
      }
    }
    assert IsFirstMin(Column(data, Temperature), k);
  }

  /** `highestPressureCity`: a scan that replaces the candidate only on a strictly higher pressure. */
  method HighestPressureCity(cities: seq<string>, data: seq<Measurement>) returns (highestPressureCity: string)
    requires |data| > 0 && |cities| == |data|
    requires HasField(data, Pressure)
    ensures exists k :: IsFirstMax(Column(data, Pressure), k) && highestPressureCity == cities[k]
    ensures highestPressureCity in cities
  {
    highestPressureCity := cities[0];
    var highestPressure := data[0][Pressure];
    ghost var k := 0;
    for i := 1 to |data|
      invariant 0 <= k < i
      invariant highestPressureCity == cities[k] && highestPressure == data[k][Pressure]
      invariant forall j :: 0 <= j < i ==> data[j][Pressure] <= highestPressure
      invariant forall j :: 0 <= j < k ==> data[j][Pressure] < highestPressure
    {
      var currentPressure := data[i][Pressure];
      if currentPressure > highestPressure {
        highestPressure := currentPressure;
        highestPressureCity := cities[i];
        k := i;
      }
    }
    assert IsFirstMax(Column(data, Pressure), k);
  }

  /** Equal highest pressures: [A=1010, B=1010, C=1005] reports A. */
  method PressureTieGoesToFirst() returns (city: string)
    ensures city == "A"
  {
    var cities := ["A", "B", "C"];
    var data := [map[Pressure := 1010.0], map[Pressure := 1010.0], map[Pressure := 1005.0]];
    city := HighestPressureCity(cities, data);
    var k :| IsFirstMax(Column(data, Pressure), k) && city == cities[k];
    assert IsFirstMax(Column(data, Pressure), 0);
    FirstMaxUnique(Column(data, Pressure), k, 0);
  }

  // ---------------------------------------------------------------------
  // The report as a whole.

  /** The two extrema, which need at least one city. */
  datatype Extremes = Extremes(coldest: string, highestPressure: string)

  /**
    What the block computes. `extremes` is None when the list is empty: the
    beach search still answers, but `cities.get(0)` then throws.
   */
  datatype Report = Report(bestBeach: string, extremes: Option<Extremes>)

  /** The body of the `thenRun` block: the beach search, then the two scans. */
  method FinalReport(cities: seq<string>, data: seq<Measurement>) returns (report: Report)
    requires |cities| == |data|
    requires HasField(data, Temperature) && HasField(data, WindSpeed) && HasField(data, Pressure)
    ensures report.bestBeach == BestBeachCity(cities, data)
    ensures report.extremes.None? <==> |data| == 0
    ensures report.extremes.Some? ==>
              && (exists k :: IsFirstMin(Column(data, Temperature), k) && report.extremes.value.coldest == cities[k])
              && (exists k :: IsFirstMax(Column(data, Pressure), k) && report.extremes.value.highestPressure == cities[k])
  {
    var bestCityForBeach := BestBeachCity(cities, data);
    if |data| == 0 {
      report := Report(bestCityForBeach, None);
    } else {
      var coldestCity := ColdestCity(cities, data);
      var highestPressureCity := HighestPressureCity(cities, data);
      report := Report(bestCityForBeach, Some(Extremes(coldestCity, highestPressureCity)));
    }
  }
}
