/** The simplified hourly Newton-cooling step of
    weather-app/backend/api/hvac_output/indoor_temp_simulation.py: the
    insulation coefficient, the house volume, the one-hour update with wind,
    house-size damping, solar gain and precipitation cooling, and the input
    preparation of run_simulation_step. The stored records are the ones the
    thermostat step reads. */
module HourlyDrift {
  import opened Common
  import ThermostatStep

  /** get_insulation_coefficient, on the text of the quality; case-insensitive. */
  function InsulationCoefficient(quality: string): (k: real)
    ensures Lower(quality) == "poor" ==> k == 0.05
    ensures Lower(quality) == "average" ==> k == 0.03
    ensures Lower(quality) == "excellent" ==> k == 0.01
    ensures Lower(quality) !in {"poor", "average", "excellent"} ==> k == 0.03
    ensures 0.01 <= k <= 0.05
  {
    var q := Lower(quality);
    if q == "poor" then 0.05 else if q == "average" then 0.03 else if q == "excellent" then 0.01 else 0.03
  }

  /** calculate_house_volume: floor area in m² times a 2.5 m ceiling. */
  function HouseVolume(homeSizeSqft: real): (v: real)
    ensures v == homeSizeSqft * 0.2322575
  {
    var areaM2 := homeSizeSqft * 0.092903;
    areaM2 * 2.5
  }

  /** Larger houses change temperature more slowly; the divisor is never
      below 1. */
  function SizeDivisor(houseVolume: real): (d: real)
    ensures d >= 1.0
    ensures houseVolume <= 200.0 ==> d == 1.0
    ensures houseVolume >= 200.0 ==> d == houseVolume / 200.0
  {
    Max(houseVolume / 200.0, 1.0)
  }

  /** The transfer coefficient after the wind and size adjustments. */
  function EffectiveCoefficient(insulation: real, windspeed: real, houseVolume: real): (k: real)
    ensures 0.0 <= insulation * (1.0 + windspeed / 50.0) ==> 0.0 <= k <= insulation * (1.0 + windspeed / 50.0)
  {
    var k := insulation * (1.0 + windspeed / 50.0);
    var d := SizeDivisor(houseVolume);
    DivideByAtLeastOne(k, d);
    k / d
  }

  lemma DivideByAtLeastOne(x: real, d: real)
    requires d >= 1.0
    ensures 0.0 <= x ==> 0.0 <= x / d <= x
  {
    if 0.0 <= x {
      var q := x / d;
      assert q * d == x;
      assert q >= 0.0;
      assert q * (d - 1.0) >= 0.0;
      assert x - q == q * (d - 1.0);
    }
  }

  /** Solar gain over the hour. */
  function SolarGain(solarRadiation: real): real
  {
    solarRadiation * 0.0002
  }

  /** Any precipitation cools the house by 0.1 degrees. */
  function PrecipitationCooling(precipitation: real): (c: real)
    ensures precipitation > 0.0 ==> c == -0.1
    ensures precipitation <= 0.0 ==> c == 0.0
  {
    if precipitation > 0.0 then -0.1 else 0.0
  }

  /** simulate_indoor_temp. */
  function SimulateIndoorTemp(indoorTemp: real, outdoorTemp: real, windspeed: real, solarRadiation: real,
                              precipitation: real, houseVolume: real, insulation: real): (t: real)
    ensures indoorTemp == outdoorTemp ==>
              t == indoorTemp + SolarGain(solarRadiation) + PrecipitationCooling(precipitation)
  {
    var k := EffectiveCoefficient(insulation, windspeed, houseVolume);
    var delta := (outdoorTemp - indoorTemp) * k;
    indoorTemp + delta + SolarGain(solarRadiation) + PrecipitationCooling(precipitation)
  }

  /** In dry, dark conditions with a coefficient in [0, 1] the next
      temperature lies between indoor and outdoor, and stays put when they
      are equal. */
  lemma DryDarkStepIsBetween(indoorTemp: real, outdoorTemp: real, windspeed: real, precipitation: real,
                             houseVolume: real, insulation: real)
    requires precipitation <= 0.0
    requires 0.0 <= EffectiveCoefficient(insulation, windspeed, houseVolume) <= 1.0
    ensures var t := SimulateIndoorTemp(indoorTemp, outdoorTemp, windspeed, 0.0, precipitation, houseVolume, insulation);
            && Min(indoorTemp, outdoorTemp) <= t <= Max(indoorTemp, outdoorTemp)
            && (indoorTemp == outdoorTemp ==> t == indoorTemp)
  {
    var k := EffectiveCoefficient(insulation, windspeed, houseVolume);
    PartialStepBetween(indoorTemp, outdoorTemp, k);
  }

  /** A wet hour ends exactly 0.1 degrees below the same hour dry, and sun
      adds 0.0002 degrees per W/m². */
  lemma WeatherOffsets(indoorTemp: real, outdoorTemp: real, windspeed: real, solarRadiation: real,
                       precipitation: real, houseVolume: real, insulation: real)
    ensures precipitation > 0.0 ==>
              SimulateIndoorTemp(indoorTemp, outdoorTemp, windspeed, solarRadiation, precipitation, houseVolume, insulation)
              == SimulateIndoorTemp(indoorTemp, outdoorTemp, windspeed, solarRadiation, 0.0, houseVolume, insulation) - 0.1
    ensures SimulateIndoorTemp(indoorTemp, outdoorTemp, windspeed, solarRadiation, precipitation, houseVolume, insulation)
            == SimulateIndoorTemp(indoorTemp, outdoorTemp, windspeed, 0.0, precipitation, houseVolume, insulation)
               + 0.0002 * solarRadiation
  {
  }

  /** Why the step could not run. */
  datatype StepError = UserNotFound | WeatherNotFound | WeatherEmpty

  /** What the step reports. */
  datatype StepReport = StepReport(date: Option<string>, tInPrev: real, tInNew: real)

  /** run_simulation_step without the database: `userId` is the stored id
      (None, or 0, counts as missing), `house` and `weather` the stored
      records, and `storedTemp` the previous simulated temperature, which
      defaults to 21. */
  function RunSimulationStep(userId: Option<int>, house: ThermostatStep.HouseRecord,
                             weather: Option<seq<ThermostatStep.WeatherRow>>, storedTemp: Option<real>)
    : (r: Result<StepReport, StepError>)
    ensures userId.None? || userId == Some(0) <==> r == Err(UserNotFound)
    ensures userId.Some? && userId.value != 0 && weather.None? ==> r == Err(WeatherNotFound)
    ensures userId.Some? && userId.value != 0 && weather == Some([]) ==> r == Err(WeatherEmpty)
    ensures r.Ok? <==> userId.Some? && userId.value != 0 && weather.Some? && weather.value != []
    ensures r.Ok? ==> r.value.tInPrev == OrElse(storedTemp, 21.0)
    ensures r.Ok? ==> r.value.date == weather.value[0].date
    ensures r.Ok? ==> var row := weather.value[0];
                      r.value.tInNew == SimulateIndoorTemp(
                        r.value.tInPrev, OrElse(row.temperature2m, 0.0), OrElse(row.windspeed10m, 0.0),
                        OrElse(row.solarRadiation, 0.0), OrElse(row.rain, 0.0) + OrElse(row.snowfall, 0.0),
                        HouseVolume(OrElse(house.homeSize, 1500.0)),
                        InsulationCoefficient(OrElse(house.insulation, "average")))
  {
    if userId.None? || userId.value == 0 then Err(UserNotFound)
    else
      var volume := HouseVolume(OrElse(house.homeSize, 1500.0));
      var k := InsulationCoefficient(OrElse(house.insulation, "average"));
      match weather
      case None => Err(WeatherNotFound)
      case Some(rows) =>
        if rows == [] then Err(WeatherEmpty)
        else
          var row := rows[0];
          var precipitation := OrElse(row.rain, 0.0) + OrElse(row.snowfall, 0.0);
          var tIn := OrElse(storedTemp, 21.0);
          var tNext := SimulateIndoorTemp(tIn, OrElse(row.temperature2m, 0.0), OrElse(row.windspeed10m, 0.0),
                                          OrElse(row.solarRadiation, 0.0), precipitation, volume, k);
          Ok(StepReport(row.date, tIn, tNext))
  }
}
