/**
 * Display classification (src/utils/plantHelpers.ts): Tailwind colour classes for a
 * plant's health, a temperature and a humidity.
 */
module PlantHelpers {
  import opened Types

  const Green := "text-green-600"
  const Blue := "text-blue-600"
  const Yellow := "text-yellow-600"
  const Red := "text-red-600"
  const Orange := "text-orange-600"
  const Gray := "text-gray-600"

  /** The string the source stores in `Plant.health`. */
  function HealthName(h: Health): string
  {
    match h
    case Excellent => "Excellent"
    case Good => "Good"
    case Fair => "Fair"
    case Poor => "Poor"
  }

  /**
   * `getHealthColor`: a `switch` over the stored string, with a gray default for
   * anything that is not one of the four health names.
   */
  function HealthColor(health: string): (c: string)
    ensures c == Green <==> health == "Excellent"
    ensures c == Blue <==> health == "Good"
    ensures c == Yellow <==> health == "Fair"
    ensures c == Red <==> health == "Poor"
    ensures c == Gray <==> forall h: Health :: health != HealthName(h)
  {
    assert Green[7] != Gray[7] && Blue[5] != Gray[5] && Yellow[5] != Gray[5] && Red[5] != Gray[5];
    assert Green[5] != Blue[5] && Green[5] != Yellow[5] && Green[5] != Red[5];
    assert Blue[5] != Yellow[5] && Blue[5] != Red[5] && Yellow[5] != Red[5];
    if health == "Excellent" then assert health == HealthName(Excellent); Green
    else if health == "Good" then assert health == HealthName(Good); Blue
    else if health == "Fair" then assert health == HealthName(Fair); Yellow
    else if health == "Poor" then assert health == HealthName(Poor); Red
    else
      assert health != HealthName(Excellent) && health != HealthName(Good);
      assert health != HealthName(Fair) && health != HealthName(Poor);
      Gray
  }

  /** The four health values get four distinct colours, and never the gray default. */
  lemma HealthColorsDistinct(h1: Health, h2: Health)
    ensures HealthColor(HealthName(h1)) != Gray
    ensures h1 != h2 ==> HealthColor(HealthName(h1)) != HealthColor(HealthName(h2))
  {
  }

  /** JavaScript's `<` and `>` on numbers: every comparison with NaN is false. */
  predicate Below(x: Num, bound: real)
  {
    x.Finite? && x.r < bound
  }

  predicate Above(x: Num, bound: real)
  {
    x.Finite? && x.r > bound
  }

  /** `getTempColor`: below 60 blue, above 80 red, otherwise green. */
  function TempColor(temp: Num): (c: string)
    ensures c == Blue <==> Below(temp, 60.0)
    ensures c == Red <==> Above(temp, 80.0)
    ensures c == Green <==> !Below(temp, 60.0) && !Above(temp, 80.0)
  {
    if Below(temp, 60.0) then Blue
    else if Above(temp, 80.0) then Red
    else Green
  }

  /** `getHumidityColor`: below 40 orange, above 70 blue, otherwise green. */
  function HumidityColor(humidity: Num): (c: string)
    ensures c == Orange <==> Below(humidity, 40.0)
    ensures c == Blue <==> Above(humidity, 70.0)
    ensures c == Green <==> !Below(humidity, 40.0) && !Above(humidity, 70.0)
  {
    if Below(humidity, 40.0) then Orange
    else if Above(humidity, 70.0) then Blue
    else Green
  }

  /** The position of a temperature class on the cold-to-hot scale. */
  function TempRank(c: string): int
  {
    if c == Blue then 0 else if c == Green then 1 else 2
  }

  /** A warmer finite temperature never gets a colder class. */
  lemma TempColorMonotone(a: real, b: real)
    requires a <= b
    ensures TempRank(TempColor(Finite(a))) <= TempRank(TempColor(Finite(b)))
  {
  }

  /** A NaN reading compares false both ways, so it is shown green. */
  lemma NaNShowsGreen()
    ensures TempColor(NaN) == Green && HumidityColor(NaN) == Green
  {
  }
}
