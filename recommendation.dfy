/**
  The recommendation rule of `getRecommendation` (src/Main.java:35-48): a
  three-way threshold on the temperature with exclusive bounds 25 and 10,
  wrapped in a message that names the city.
 */
module Recommendation {
  import opened Wrappers
  import opened Weather

  /** The three outcomes of the threshold rule. */
  datatype Category = Beach | Cool | Mild

  const BeachAdvice: string := "Чудова погода для пляжу!"
  const CoolAdvice: string := "Зараз досить прохолодно."
  const MildAdvice: string := "Гарна погода для прогулянки!"

  const Prefix: string := "Рекомендація для "
  const Separator: string := ": "

  /** Why no recommendation could be made: `get` returned null. */
  datatype Error = MissingField(name: string)

  /** The threshold rule, characterised by the temperature interval of each outcome. */
  function Classify(temp: real): (c: Category)
    ensures c == Beach <==> temp > 25.0
    ensures c == Cool <==> temp < 10.0
    ensures c == Mild <==> 10.0 <= temp <= 25.0
  {
    if temp > 25.0 then Beach else if temp < 10.0 then Cool else Mild
  }

  /** One of the three advice texts, a different one for each category. */
  function Advice(c: Category): (r: string)
    ensures r == BeachAdvice || r == CoolAdvice || r == MildAdvice
    ensures c != Beach ==> r != BeachAdvice
    ensures c != Cool ==> r != CoolAdvice
    ensures c != Mild ==> r != MildAdvice
  {
    match c
    case Beach => BeachAdvice
    case Cool => CoolAdvice
    case Mild => MildAdvice
  }

  /** The text of a recommendation for `city` in category `c`. */
  function Message(city: string, c: Category): (r: string)
    ensures |r| == |Prefix| + |city| + |Separator| + |Advice(c)|
    ensures r[..|Prefix|] == Prefix
    ensures r[|Prefix|..|Prefix| + |city|] == city
    ensures r[|Prefix| + |city|..] == Separator + Advice(c)
  {
    Prefix + city + Separator + Advice(c)
  }

  /**
    `getRecommendation(city, weatherData)`: reads only the temperature; a map
    without it makes the unboxing of `get`'s null fail, which becomes an error.
   */
  function Recommend(city: string, w: Measurement): (r: Result<string, Error>)
    ensures r.Err? <==> Temperature !in w
    ensures r.Err? ==> r.error == MissingField(Temperature)
    ensures r.Ok? ==> r.value == Message(city, Classify(w[Temperature]))
  {
    if Temperature !in w then Err(MissingField(Temperature))
    else
      var temp := w[Temperature];
      Ok(Message(city, Classify(temp)))
  }

  /** A temperature of exactly 25 or exactly 10 falls into the walking branch. */
  lemma BoundariesAreExclusive(city: string)
    ensures Classify(25.0) == Mild && Classify(10.0) == Mild
    ensures Recommend(city, map[Temperature := 25.0]) == Ok(Prefix + city + Separator + MildAdvice)
    ensures Recommend(city, map[Temperature := 10.0]) == Ok(Prefix + city + Separator + MildAdvice)
  {
  }

  /** The result depends on the city and the temperature only; no other field is read. */
  lemma RecommendReadsOnlyTemperature(city: string, w1: Measurement, w2: Measurement)
    requires Temperature in w1 <==> Temperature in w2
    requires Temperature in w1 ==> w1[Temperature] == w2[Temperature]
    ensures Recommend(city, w1) == Recommend(city, w2)
  {
  }

  /** The empty map passed at src/Main.java:89 yields no recommendation. */
  lemma EmptyMapFails(city: string)
    ensures Recommend(city, map[]) == Err(MissingField(Temperature))
  {
  }

  /** Temperatures as `getWeather` draws them (15 to 35, both included) never give the cold advice. */
  lemma GeneratedNeverCool(city: string, w: Measurement)
    requires Generated(w)
    ensures Recommend(city, w).Ok?
    ensures Recommend(city, w).value != Message(city, Cool)
  {
    var c := Classify(w[Temperature]);
    MessageEndsWithTail(city, c);
    MessageEndsWithTail(city, Cool);
    if Message(city, c) == Message(city, Cool) {
      EndsWithOneTail(Message(city, c), c, Cool);
    }
  }

  // ---------------------------------------------------------------------
  // Reading a recommendation back: the message loses neither the city nor
  // the category.

  predicate StartsWith(s: string, t: string)
  {
    |t| <= |s| && s[..|t|] == t
  }

  predicate EndsWith(s: string, t: string)
  {
    |t| <= |s| && s[|s| - |t|..] == t
  }

  /** What the message ends with for category `c`. */
  function Tail(c: Category): string
  {
    Separator + Advice(c)
  }

  /** Reads `s` as a message of category `c`, if it has that shape. */
  function ParseAs(s: string, c: Category): (r: Option<(string, Category)>)
    ensures r.Some? ==> r.value.1 == c && Message(r.value.0, c) == s
  {
    if StartsWith(s, Prefix) && |Prefix| + |Tail(c)| <= |s| && EndsWith(s, Tail(c)) then
      var city := s[|Prefix|..|s| - |Tail(c)|];
      assert s == s[..|Prefix|] + city + s[|s| - |Tail(c)|..];
      assert Message(city, c) == Prefix + city + Tail(c);
      Some((city, c))
    else
      None
  }

  /** The city and the category a recommendation text was built from. */
  function ParseRecommendation(s: string): (r: Option<(string, Category)>)
    ensures r.Some? ==> Message(r.value.0, r.value.1) == s
  {
    var b := ParseAs(s, Beach);
    if b.Some? then b
    else
      var k := ParseAs(s, Cool);
      if k.Some? then k else ParseAs(s, Mild)
  }

  /** The last two characters of the three tails differ pairwise. */
  lemma TailsDistinct(c1: Category, c2: Category)
    requires c1 != c2
    ensures |Tail(c1)| >= 2 && |Tail(c2)| >= 2
    ensures Tail(c1)[|Tail(c1)| - 2..] != Tail(c2)[|Tail(c2)| - 2..]
  {
    assert Tail(Beach)[|Tail(Beach)| - 2..] == "у!";
    assert Tail(Cool)[|Tail(Cool)| - 2..] == "о.";
    assert Tail(Mild)[|Tail(Mild)| - 2..] == "и!";
  }

  /** A string ends with the tail of at most one category. */
  lemma EndsWithOneTail(s: string, c1: Category, c2: Category)
    requires EndsWith(s, Tail(c1)) && EndsWith(s, Tail(c2))
    ensures c1 == c2
  {
    if c1 != c2 {
      TailsDistinct(c1, c2);
    }
  }

  /** A message ends with the tail of its category. */
  lemma MessageEndsWithTail(city: string, c: Category)
    ensures EndsWith(Message(city, c), Tail(c))
  {
    ConcatEndsWith(Prefix + city, Tail(c));
    assert Message(city, c) == (Prefix + city) + Tail(c);
  }

  lemma ConcatEndsWith(head: string, tail: string)
    ensures EndsWith(head + tail, tail)
  {
    assert (head + tail)[|head|..] == tail;
  }

  /** Parsing a message gives back the city and the category it was built from. */
  lemma ParseMessage(city: string, c: Category)
    ensures ParseRecommendation(Message(city, c)) == Some((city, c))
  {
    var s := Message(city, c);
    assert s == Prefix + city + Tail(c);
    assert s[..|Prefix|] == Prefix;
    assert s[|s| - |Tail(c)|..] == Tail(c);
    assert s[|Prefix|..|s| - |Tail(c)|] == city;
    assert ParseAs(s, c) == Some((city, c));
    forall c' | c' != c
      ensures ParseAs(s, c') == None
    {
      if EndsWith(s, Tail(c')) {
        EndsWithOneTail(s, c, c');
      }
    }
  }

  /** Every recommendation the rule produces reads back as its city and the temperature's category. */
  lemma RecommendationReadsBack(city: string, w: Measurement)
    requires Temperature in w
    ensures Recommend(city, w).Ok?
    ensures ParseRecommendation(Recommend(city, w).value) == Some((city, Classify(w[Temperature])))
  {
    ParseMessage(city, Classify(w[Temperature]));
  }
}
