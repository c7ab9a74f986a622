# Weather recommendations and whole-set report

A Dafny model of the sequential logic inside a `CompletableFuture` demonstration
(`src/Main.java`) that fetches simulated weather for five Ukrainian cities. Two
pieces are modelled:

- **The recommendation rule** (`getRecommendation`). The temperature picks one of
  three advice texts: above 25 the beach, below 10 the cold, otherwise a walk.
  Both bounds are exclusive. The advice is wrapped as
  `"Рекомендація для " + city + ": " + advice`. A measurement has no
  temperature when the empty `HashMap` is passed at line 89. The model returns
  an error there, where Java fails on unboxing `null`.
- **The whole-set report** (the `allCities.thenRun` block). It runs over the parallel
  lists of city names and measurements and computes three things:
  - the best beach city: the first city with temperature above 25 and wind
    below 10, or the sentinel `"Краще піти в кафе"`;
  - the coldest city: a scan that moves only on a strictly lower temperature;
  - the highest-pressure city: a scan that moves only on a strictly higher pressure.

  The two scans keep the first city that reaches the extremum.

A measurement is a `map<string, real>` keyed by the source's own field names
(`температура`, `вологість`, `швидкість_вітру`, `тиск`). Measurements are given
as inputs. The beach search keeps the shape of the Java stream pipeline: `map`
with `indexOf`, `filter(nonNull)`, `findFirst`, `orElse`. The two scans are
methods with `for` loops, proved against first-index extremum predicates.

Files: `wrappers.dfy` (Option, Result), `weather.dfy` (the measurement and its
fields), `recommendation.dfy` (module `Recommendation`), `aggregation.dfy`
(module `Aggregation`).

## Model

| member | source | states |
|---|---|---|
| `Recommendation.Classify` | src/Main.java:39-45 | beach exactly when temp > 25, cold exactly when temp < 10, walk exactly when 10 <= temp <= 25: the three outcomes are exclusive and cover every temperature |
| `Recommendation.Advice` | src/Main.java:39-45 | the advice is one of the three literal texts of the source, and each category gets a different one |
| `Recommendation.Message` | src/Main.java:46 | the text is the prefix "Рекомендація для ", then the city unchanged, then ": " and the category's advice, in that order and nothing else |
| `Recommendation.Recommend` | src/Main.java:35-48 | error exactly when the temperature key is missing, and then it names that key; otherwise the text is prefix, city, ": " and the advice of the temperature's category |
| `Recommendation.BoundariesAreExclusive` | src/Main.java:39-44 | temperatures of exactly 25 and exactly 10 both get the walking advice |
| `Recommendation.RecommendReadsOnlyTemperature` | src/Main.java:37-46 | two measurements that agree on the temperature (or both lack it) give the same result for the same city; no other field matters |
| `Recommendation.EmptyMapFails` | src/Main.java:89 | the empty map passed at line 89 gives the missing-temperature error instead of a recommendation (Java reads it at line 37 and fails unboxing null) |
| `Recommendation.GeneratedNeverCool` | src/Main.java:19 | any measurement shaped as `getWeather` makes it (temperature drawn from 15 to 35, both included) gets a recommendation, and never the cold one |
| `Recommendation.ParseRecommendation` | src/Main.java:46 | whatever it reads back from a string is a city and category whose message is exactly that string |
| `Recommendation.ParseMessage` | src/Main.java:46 | reading a message back gives the city and the category it was built from, so the message loses nothing |
| `Recommendation.RecommendationReadsBack` | src/Main.java:37-46 | every recommendation produced reads back as its city and the category of the measured temperature |
| `Weather.Generated` | src/Main.java:18-22 | a measurement as `getWeather` makes it holds the temperature, wind-speed and pressure keys, and exactly four keys |
| `Weather.GeneratedHasFields` | src/Main.java:18-22 | measurements shaped as `getWeather` makes them carry every field the report reads |
| `Aggregation.IndexOf` | src/Main.java:125 | -1 exactly when absent; otherwise the position holds an equal element and no earlier position does |
| `Aggregation.BeachCandidate` | src/Main.java:124-127 | the `map` lambda gives non-null exactly when temp > 25 and wind < 10, and then the city at the first position whose measurement equals the given one, as `indexOf` finds it |
| `Aggregation.BeachCandidates` | src/Main.java:123-127 | the mapped list has one entry per measurement; an entry is null exactly where the beach condition fails, and a non-null entry is the city at `indexOf` of its own measurement |
| `Aggregation.NonNull` | src/Main.java:128 | `filter(Objects::nonNull)` keeps exactly the cities of the non-null entries and never lengthens the list |
| `Aggregation.NonNullKeepsCounts` | src/Main.java:128 | the filter keeps each city exactly as many times as it occurs among the non-null entries |
| `Aggregation.NonNullEmpty` | src/Main.java:128 | the filtered list is empty exactly when every entry is null |
| `Aggregation.NonNullHead` | src/Main.java:128 | the filter keeps the order: the head of the filtered list is the first non-null entry |
| `Aggregation.FindFirst` | src/Main.java:129 | `findFirst` is empty exactly on an empty list, and otherwise gives its head |
| `Aggregation.FindFirstNonNull` | src/Main.java:128-130 | filtering out nulls and taking the first gives the first non-null entry, or nothing when all entries are null |
| `Aggregation.CandidatesAt` | src/Main.java:124-127 | at the first qualifying index the `indexOf` lookup gives that index's own city: an equal measurement at an earlier index would itself qualify |
| `Aggregation.BestBeachCity` | src/Main.java:123-130 | the answer is the city at the smallest index with temp > 25 and wind < 10, and the sentinel when no index qualifies |
| `Aggregation.BeachSearchCases` | src/Main.java:123-130 | every input either has no qualifying city or has a first one, so the contract of `BestBeachCity` always determines the answer |
| `Aggregation.FirstMinUnique` | src/Main.java:138 | at most one index is the first minimum, so the strict `<` update fixes the coldest city |
| `Aggregation.FirstMaxUnique` | src/Main.java:150 | at most one index is the first maximum, so the strict `>` update fixes the highest-pressure city |
| `Aggregation.ColdestCity` | src/Main.java:134-142 | needs a non-empty input and equal lengths; returns the city at an index holding the least temperature, with no earlier index holding it; the result is one of the cities |
| `Aggregation.HighestPressureCity` | src/Main.java:146-154 | needs a non-empty input and equal lengths; returns the city at an index holding the greatest pressure, with no earlier index holding it; the result is one of the cities |
| `Aggregation.PressureTieGoesToFirst` | src/Main.java:146-154 | with pressures A=1010, B=1010, C=1005 the highest-pressure city is A |
| `Aggregation.FinalReport` | src/Main.java:123-155 | the beach answer is the pipeline's; the two extrema are missing exactly when the list is empty (`cities.get(0)` throws); otherwise they are the first-index minimum temperature and maximum pressure cities |

## Left out

- The `CompletableFuture` composition is not modelled: `supplyAsync`, `thenCompose`, `thenCombine`, `allOf`, `anyOf`, `join`, `get` (src/Main.java:60-107, 170-180). It is concurrency, and its behaviour lives in the JDK. `getWeather` is called at lines 63, 81 and 88. The report and the `anyOf` race share the futures of lines 80-82, and nothing caches a fetch by city.
- `getWeather`'s sleep and random values (src/Main.java:12, 19-22) are not modelled. Measurements are inputs. `Weather.Generated` records only the ranges the values are drawn from.
- `formatWeatherData` and `combineWeatherAndRecommendation` (src/Main.java:29-32, 50-54) are left out. They render floating-point numbers with `%.2f`.
- The average temperature (src/Main.java:158-161) is left out. It is a floating-point mean with a NaN fallback.
- Console output (`System.out.println`) and `printStackTrace` are left out.
- Numbers are exact `real`s, not IEEE doubles. Only comparisons are involved, and the generated values are never NaN, so no comparison changes. `indexOf` compares maps by entries; Java's `Double.equals` also tells 0.0 from -0.0, which the model does not.
- `Aggregation.ColdestCity`, `Aggregation.HighestPressureCity`: require every measurement to carry the field they read (temperature, pressure). In Java a missing one raises a NullPointerException, which the `catch` at src/Main.java:164-166 prints.
- `Aggregation.BestBeachCity`, `Aggregation.FinalReport`: require a temperature and a wind speed on every measurement. Java is less demanding. The `&&` at src/Main.java:126 reads the wind speed only when the temperature is above 25. The lazy `findFirst` (line 129) also stops at the first qualifying city. So Java finishes normally on some inputs the model excludes, such as a single measurement with temperature 20 and no wind key. In the source every measurement comes from `getWeather`, which fills all four fields (`Weather.GeneratedHasFields`).
- `Aggregation.BestBeachCity` and the scans require `|cities| == |data|`. The source builds the measurement list by mapping over `cities` (src/Main.java:80-82, 112-114), so the two lengths are always equal.
- `Aggregation.FinalReport`: on an empty list it returns the beach answer and no extrema. It does not model the exception's trip to the `catch` block.
