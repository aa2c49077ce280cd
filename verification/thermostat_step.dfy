/** The hourly energy-balance step of
    weather-app/backend/api/thermostat_data_api/indoor_temp_simulation.py:
    insulation U-values, air changes per hour, the lumped thermal mass, and
    the computation inside run_simulation_step (conduction with snow and
    rain adjustments, wind infiltration, solar gain, a deadband thermostat
    and the explicit hourly update). The database reads become inputs and
    the database write is left out. */
module ThermostatStep {
  import opened Common

  const AirDensity: real := 1.225
  const SpecificHeatAir: real := 1005.0
  const CeilingHeight: real := 2.5
  const WindowRatio: real := 0.15
  const ShgcAvg: real := 0.5
  const SqftToM2: real := 0.092903
  const HvacPowerCapacity: real := 10000.0
  const Deadband: real := 0.5
  /** Length of the step in seconds. */
  const StepSeconds: real := 3600.0

  /** get_insulation_u_value, on the text of the quality; case-insensitive. */
  function InsulationUValue(quality: string): (u: real)
    ensures Lower(quality) == "poor" ==> u == 1.2
    ensures Lower(quality) == "average" ==> u == 0.5
    ensures Lower(quality) == "excellent" ==> u == 0.15
    ensures Lower(quality) !in {"poor", "average", "excellent"} ==> u == 0.5
  {
    var q := Lower(quality);
    if q == "poor" then 1.2 else if q == "average" then 0.5 else if q == "excellent" then 0.15 else 0.5
  }

  /** get_ach: the base air changes of the envelope plus 0.02 per m/s of wind. */
  function AirChanges(quality: string, windSpeed: real): (ach: real)
    ensures Lower(quality) == "poor" ==> ach == 1.0 + 0.02 * windSpeed
    ensures Lower(quality) == "average" ==> ach == 0.5 + 0.02 * windSpeed
    ensures Lower(quality) != "poor" && Lower(quality) != "average" ==> ach == 0.1 + 0.02 * windSpeed
  {
    var q := Lower(quality);
    var base := if q == "average" then 0.5 else if q == "poor" then 1.0 else 0.1;
    base + 0.02 * windSpeed
  }

  /** calculate_thermal_mass: the heat capacity of the air, times 12 for
      the structure. */
  function ThermalMass(homeSizeSqft: real): real
  {
    var areaM2 := homeSizeSqft * SqftToM2;
    var volume := areaM2 * CeilingHeight;
    var cAir := volume * AirDensity * SpecificHeatAir;
    cAir * 12.0
  }

  /** The thermal mass is linear in the floor size, so it is zero exactly
      for a zero size and adds up over parts of the floor. */
  lemma ThermalMassLinear(a: real, b: real)
    ensures ThermalMass(a) == a * 3431.25617625
    ensures ThermalMass(a + b) == ThermalMass(a) + ThermalMass(b)
    ensures ThermalMass(a) == 0.0 <==> a == 0.0
    ensures a > 0.0 ==> ThermalMass(a) > 0.0
  {
    assert a * SqftToM2 * CeilingHeight == a * 0.2322575;
    assert a * 0.2322575 * AirDensity == a * 0.2845154375;
    assert b * SqftToM2 * CeilingHeight == b * 0.2322575;
    assert b * 0.2322575 * AirDensity == b * 0.2845154375;
    assert (a + b) * SqftToM2 * CeilingHeight == (a + b) * 0.2322575;
    assert (a + b) * 0.2322575 * AirDensity == (a + b) * 0.2845154375;
  }

  /** The fields of a stored house record; None where the key is absent. */
  datatype HouseRecord = HouseRecord(homeSize: Option<real>, insulation: Option<string>,
                                     personalComfort: Option<real>)

  /** The fields of one weather row; None where the key is absent. */
  datatype WeatherRow = WeatherRow(
    date: Option<string>, temperature2m: Option<real>, windspeed10m: Option<real>,
    solarRadiation: Option<real>, rain: Option<real>, snowfall: Option<real>, dewPoint2m: Option<real>)

  datatype HvacMode = Off | Heating | Cooling

  /** The strings the step reports. */
  function ModeName(m: HvacMode): string
  {
    match m
    case Off => "off"
    case Heating => "heating"
    case Cooling => "cooling"
  }

  /** The deadband thermostat: heat below target − 0.5, cool above
      target + 0.5. */
  function ThermostatMode(tIn: real, target: real): (m: HvacMode)
    ensures m == Heating <==> tIn < target - Deadband
    ensures m == Cooling <==> tIn > target + Deadband
    ensures m == Off <==> target - Deadband <= tIn <= target + Deadband
  {
    if tIn < target - Deadband then Heating
    else if tIn > target + Deadband then Cooling
    else Off
  }

  /** Heat the HVAC adds in each mode, in watts. */
  function HvacLoad(m: HvacMode): (q: real)
    ensures m == Heating ==> q == HvacPowerCapacity
    ensures m == Cooling ==> q == -HvacPowerCapacity
    ensures m == Off ==> q == 0.0
  {
    match m
    case Off => 0.0
    case Heating => HvacPowerCapacity
    case Cooling => -HvacPowerCapacity
  }

  /** Snow on the roof improves the envelope by 30 %. */
  function SnowAdjustedU(u: real, snowing: bool): (r: real)
    ensures snowing ==> r == u * 0.7
    ensures !snowing ==> r == u
  {
    if snowing then u * 0.7 else u
  }

  /** The outside temperature the walls see: the dew point when it rains
      (or two degrees below the air when the dew point is missing),
      otherwise the air temperature. */
  function BoundaryTemp(tOut: real, raining: bool, dewPoint: Option<real>): (t: real)
    ensures !raining ==> t == tOut
    ensures raining && dewPoint.Some? ==> t == dewPoint.value
    ensures raining && dewPoint.None? ==> t == tOut - 2.0
  {
    if raining then (match dewPoint case Some(d) => d case None => tOut - 2.0)
    else tOut
  }

  /** The heat flows of one step, in watts. */
  datatype Loads = Loads(conductive: real, wind: real, solar: real, hvac: real)

  function Total(l: Loads): real
  {
    l.conductive + l.wind + l.solar + l.hvac
  }

  function ConductiveLoad(u: real, envelopeM2: real, boundary: real, tIn: real): real
  {
    u * envelopeM2 * (boundary - tIn)
  }

  function InfiltrationLoad(volumeM3: real, ach: real, tOut: real, tIn: real): real
  {
    AirDensity * SpecificHeatAir * volumeM3 * (ach / 3600.0) * (tOut - tIn)
  }

  /** The weather inputs of a step, with absent fields at their defaults. */
  datatype Conditions = Conditions(tOut: real, windSpeed: real, solarRad: real, raining: bool,
                                   snowing: bool, dewPoint: Option<real>)

  /** The inputs of a step read from a weather row: missing numbers are 0,
      and rain or snow count when their amount is positive. */
  function ConditionsOf(row: WeatherRow): (c: Conditions)
    ensures c.tOut == OrElse(row.temperature2m, 0.0)
    ensures c.raining <==> OrElse(row.rain, 0.0) > 0.0
    ensures c.snowing <==> OrElse(row.snowfall, 0.0) > 0.0
    ensures c.dewPoint == row.dewPoint2m
  {
    Conditions(OrElse(row.temperature2m, 0.0), OrElse(row.windspeed10m, 0.0), OrElse(row.solarRadiation, 0.0),
               OrElse(row.rain, 0.0) > 0.0, OrElse(row.snowfall, 0.0) > 0.0, row.dewPoint2m)
  }

  /** The four heat flows for a house of `areaM2` with indoor temperature
      `tIn`. */
  function LoadsOf(quality: string, areaM2: real, target: real, c: Conditions, tIn: real): (l: Loads)
    ensures l.conductive == ConductiveLoad(SnowAdjustedU(InsulationUValue(quality), c.snowing), areaM2 * 2.5,
                                           BoundaryTemp(c.tOut, c.raining, c.dewPoint), tIn)
    ensures l.wind == InfiltrationLoad(areaM2 * CeilingHeight, AirChanges(quality, c.windSpeed), c.tOut, tIn)
    ensures l.hvac == HvacLoad(ThermostatMode(tIn, target))
  {
    var u := SnowAdjustedU(InsulationUValue(quality), c.snowing);
    var boundary := BoundaryTemp(c.tOut, c.raining, c.dewPoint);
    Loads(ConductiveLoad(u, areaM2 * 2.5, boundary, tIn),
          InfiltrationLoad(areaM2 * CeilingHeight, AirChanges(quality, c.windSpeed), c.tOut, tIn),
          areaM2 * WindowRatio * ShgcAvg * c.solarRad,
          HvacLoad(ThermostatMode(tIn, target)))
  }

  /** The explicit hourly update. */
  function NextTemp(tIn: real, l: Loads, cHome: real): (t: real)
    requires cHome != 0.0
    ensures t == tIn <==> Total(l) == 0.0
    ensures cHome > 0.0 ==> (t > tIn <==> Total(l) > 0.0)
  {
    tIn + (Total(l) * StepSeconds) / cHome
  }

  /** With the outside at the indoor temperature, no rain, no sun and the
      thermostat off, the temperature does not move. */
  lemma StillAirIsSteady(quality: string, areaM2: real, target: real, c: Conditions, tIn: real, cHome: real)
    requires cHome != 0.0 && c.tOut == tIn && !c.raining && c.solarRad == 0.0
    requires target - Deadband <= tIn <= target + Deadband
    ensures NextTemp(tIn, LoadsOf(quality, areaM2, target, c, tIn), cHome) == tIn
  {
    var l := LoadsOf(quality, areaM2, target, c, tIn);
    NoGradientNoFlow(SnowAdjustedU(InsulationUValue(quality), c.snowing), areaM2 * 2.5,
                     areaM2 * CeilingHeight, AirChanges(quality, c.windSpeed), tIn);
    assert l.solar == areaM2 * WindowRatio * ShgcAvg * 0.0 == 0.0;
    assert Total(l) == 0.0;
    NoLoadNoChange(tIn, l, cHome);
  }

  lemma NoLoadNoChange(tIn: real, l: Loads, cHome: real)
    requires cHome != 0.0 && Total(l) == 0.0
    ensures NextTemp(tIn, l, cHome) == tIn
  {
    assert Total(l) * StepSeconds == 0.0;
  }

  lemma NoGradientNoFlow(u: real, envelopeM2: real, volumeM3: real, ach: real, t: real)
    ensures ConductiveLoad(u, envelopeM2, t, t) == 0.0
    ensures InfiltrationLoad(volumeM3, ach, t, t) == 0.0
  {
  }

  /** Heating moves the next temperature up by exactly the HVAC capacity over
      the step, relative to the same loads with the thermostat off. */
  lemma HeatingShift(tIn: real, l: Loads, cHome: real)
    requires cHome != 0.0 && l.hvac == HvacPowerCapacity
    ensures NextTemp(tIn, l, cHome) - NextTemp(tIn, l.(hvac := 0.0), cHome)
            == HvacPowerCapacity * StepSeconds / cHome
  {
    var q := l.conductive + l.wind + l.solar;
    assert Total(l) == q + HvacPowerCapacity;
    assert Total(l.(hvac := 0.0)) == q;
    assert (q + HvacPowerCapacity) * StepSeconds / cHome - q * StepSeconds / cHome
           == HvacPowerCapacity * StepSeconds / cHome;
  }

  /** Rain changes only the conductive boundary: infiltration always sees
      the outside air. */
  lemma RainLeavesInfiltration(quality: string, areaM2: real, target: real, c: Conditions, tIn: real)
    ensures LoadsOf(quality, areaM2, target, c.(raining := true), tIn).wind
            == LoadsOf(quality, areaM2, target, c.(raining := false), tIn).wind
  {
  }

  /** Why the step could not run. */
  datatype StepError = WeatherNotFound | WeatherEmpty | ZeroThermalMass

  /** What the step reports. */
  datatype StepReport = StepReport(date: Option<string>, tInPrev: real, tInNew: real, tOut: real,
                                   mode: HvacMode, loads: Loads)

  /** run_simulation_step without the database: `house` is the stored house
      (absent fields take size 1500, insulation "average" and target 22),
      `weather` the stored weather rows (None when there is no weather
      record) of which the first is used, and `storedTemp` the previous
      simulated temperature. A zero thermal mass is the source's division
      by zero. */
  function RunSimulationStep(house: HouseRecord, weather: Option<seq<WeatherRow>>, storedTemp: Option<real>)
    : (r: Result<StepReport, StepError>)
    ensures r == Err(WeatherNotFound) <==> weather.None?
    ensures r == Err(WeatherEmpty) <==> weather == Some([])
    ensures r.Ok? <==> weather.Some? && weather.value != [] && OrElse(house.homeSize, 1500.0) != 0.0
    ensures r.Ok? ==> r.value.date == weather.value[0].date
    ensures r == Err(ZeroThermalMass) <==> weather.Some? && weather.value != [] && OrElse(house.homeSize, 1500.0) == 0.0
    ensures r.Ok? ==> r.value.tInPrev == OrElse(storedTemp, OrElse(house.personalComfort, 22.0))
    ensures r.Ok? ==> r.value.tOut == OrElse(weather.value[0].temperature2m, 0.0)
    ensures r.Ok? ==> r.value.mode == ThermostatMode(r.value.tInPrev, OrElse(house.personalComfort, 22.0))
    ensures r.Ok? ==> r.value.loads.hvac == HvacLoad(r.value.mode)
    ensures r.Ok? ==> r.value.loads == LoadsOf(OrElse(house.insulation, "average"), OrElse(house.homeSize, 1500.0) * SqftToM2,
                                               OrElse(house.personalComfort, 22.0), ConditionsOf(weather.value[0]),
                                               r.value.tInPrev)
    ensures r.Ok? ==> ThermalMass(OrElse(house.homeSize, 1500.0)) != 0.0
                      && r.value.tInNew == NextTemp(r.value.tInPrev, r.value.loads, ThermalMass(OrElse(house.homeSize, 1500.0)))
  {
    var areaSqft := OrElse(house.homeSize, 1500.0);
    var quality := OrElse(house.insulation, "average");
    var target := OrElse(house.personalComfort, 22.0);
    var areaM2 := areaSqft * SqftToM2;
    var cHome := ThermalMass(areaSqft);
    match weather
    case None => Err(WeatherNotFound)
    case Some(rows) =>
      if rows == [] then Err(WeatherEmpty)
      else
        var c := ConditionsOf(rows[0]);
        var tIn := OrElse(storedTemp, target);
        var l := LoadsOf(quality, areaM2, target, c, tIn);
        ThermalMassLinear(areaSqft, 0.0);
        if cHome == 0.0 then Err(ZeroThermalMass)
        else Ok(StepReport(rows[0].date, tIn, NextTemp(tIn, l, cHome), c.tOut, ThermostatMode(tIn, target), l))
  }
}
