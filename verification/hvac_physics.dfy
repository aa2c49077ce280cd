/** The deterministic part of the HVAC controller service
    (weather-app/backend/api/hvac_simulation/hvac_physics.py): capacity and
    time-of-use price tables, the 5-minute step with its output clamps and its
    deadband fallback, the 24-hour schedules (padding of a model reply and the
    fallback scheduler), and the look-ups of the current and upcoming actions.
    The generative-model calls themselves are outside the model: their replies
    are parameters. */
module HvacPhysics {
  import opened Common

  // ------------------------------------------------------------------
  // Capacity and price tables
  // ------------------------------------------------------------------

  /** Row of HVAC_POWER_RATINGS as (heating kW, cooling kW); None for a type the table lacks. */
  function RatingRow(hvacType: string): Option<(real, real)>
  {
    if hvacType == "central" then Some((10.0, 3.5))
    else if hvacType == "heat_pump" then Some((3.0, 3.0))
    else if hvacType == "mini_split" then Some((1.5, 1.2))
    else if hvacType == "window_ac" then Some((1.5, 1.0))
    else if hvacType == "none" then Some((0.0, 0.0))
    else None
  }

  /** Rated power before size scaling: unknown types use the "central" row,
      unknown modes use 3.0 kW. */
  function BaseRating(hvacType: string, mode: string): (r: real)
    ensures 0.0 <= r <= 10.0
  {
    var row := match RatingRow(hvacType) case Some(p) => p case None => (10.0, 3.5);
    if mode == "heating" then row.0 else if mode == "cooling" then row.1 else 3.0
  }

  /** House-size factor relative to a 1500 sqft reference, clamped to [0.5, 2.0]. */
  function SizeScale(houseSizeSqft: real): (r: real)
    ensures 0.5 <= r <= 2.0
    ensures 750.0 <= houseSizeSqft <= 3000.0 ==> r == houseSizeSqft / 1500.0
    ensures houseSizeSqft <= 750.0 ==> r == 0.5
    ensures houseSizeSqft >= 3000.0 ==> r == 2.0
  {
    Clamp(0.5, 2.0, houseSizeSqft / 1500.0)
  }

  /** get_hvac_capacity (kW); the final rounding to 2 decimals is the identity here. */
  function HvacCapacity(hvacType: string, houseSizeSqft: real, mode: string): (r: real)
    ensures 0.5 * BaseRating(hvacType, mode) <= r <= 2.0 * BaseRating(hvacType, mode)
    ensures hvacType == "none" && (mode == "heating" || mode == "cooling") ==> r == 0.0
    ensures 0.0 <= r <= 20.0
  {
    var b := BaseRating(hvacType, mode);
    var s := SizeScale(houseSizeSqft);
    assert 0.5 * b <= s * b <= 2.0 * b by {
      assert (s - 0.5) * b >= 0.0;
      assert (2.0 - s) * b >= 0.0;
    }
    b * s
  }

  lemma UnknownTypeRatesAsCentral(hvacType: string, houseSizeSqft: real, mode: string)
    requires RatingRow(hvacType).None?
    ensures HvacCapacity(hvacType, houseSizeSqft, mode) == HvacCapacity("central", houseSizeSqft, mode)
  {
  }

  /** get_electricity_price ($/kWh): three time-of-use tiers keyed by the hour. */
  function ElectricityPrice(hour: int): (r: real)
    ensures r == 0.08 <==> (hour >= 22 || hour < 6)
    ensures r == 0.20 <==> (16 <= hour < 21)
    ensures r == 0.12 <==> (6 <= hour < 16 || hour == 21)
    ensures r == 0.08 || r == 0.12 || r == 0.20
  {
    if 22 <= hour || hour < 6 then 0.08
    else if 16 <= hour < 21 then 0.20
    else 0.12
  }

  function CelsiusToFahrenheit(c: real): real
  {
    c * 9.0 / 5.0 + 32.0
  }

  function FahrenheitToCelsius(f: real): real
  {
    (f - 32.0) * 5.0 / 9.0
  }

  lemma ConversionsRoundTrip(c: real, f: real)
    ensures FahrenheitToCelsius(CelsiusToFahrenheit(c)) == c
    ensures CelsiusToFahrenheit(FahrenheitToCelsius(f)) == f
    ensures CelsiusToFahrenheit(100.0) == 212.0 && FahrenheitToCelsius(32.0) == 0.0
  {
  }

  // ------------------------------------------------------------------
  // One 5-minute step
  // ------------------------------------------------------------------

  /** The house fields this module reads; a missing field is None. */
  datatype House = House(hvacType: Option<string>, homeSize: Option<real>, insulation: Option<string>)

  function HvacTypeOf(h: House): string
  {
    match h.hvacType case Some(t) => t case None => "central"
  }

  function HomeSizeOf(h: House): real
  {
    match h.homeSize case Some(s) => s case None => 1500.0
  }

  function InsulationOf(h: House): string
  {
    match h.insulation case Some(q) => q case None => "average"
  }

  /** Largest change of the indoor temperature accepted in one 5-minute step. */
  const MaxStepChange: real := 0.5

  /** Input validation of simulate_step_with_hvac: the current temperature is
      kept in [5, 40] and the target in [15, 30]. */
  function ClampCurrent(t: real): (r: real)
    ensures 5.0 <= r <= 40.0
  {
    Clamp(5.0, 40.0, t)
  }

  function ClampTarget(t: real): (r: real)
    ensures 15.0 <= r <= 30.0
  {
    Clamp(15.0, 30.0, t)
  }

  /** Post-processing of the temperature a model reply proposes: the change is
      limited to 0.5 degC, then the result is kept in [10, 35]. A reply without
      a temperature proposes the current one. */
  function LimitNewTemp(current: real, proposed: Option<real>): (r: real)
    ensures 10.0 <= r <= 35.0
    ensures 10.0 <= current <= 35.0 ==> Abs(r - current) <= MaxStepChange
    ensures (proposed.Some? && 10.0 <= proposed.value <= 35.0
             && Abs(proposed.value - current) <= MaxStepChange) ==> r == proposed.value
    ensures proposed.None? && 10.0 <= current <= 35.0 ==> r == current
  {
    var newTemp := match proposed case Some(t) => t case None => current;
    var change := newTemp - current;
    var limited :=
      if Abs(change) > MaxStepChange
      then current + (if change > 0.0 then MaxStepChange else -MaxStepChange)
      else newTemp;
    Clamp(10.0, 35.0, limited)
  }

  datatype StepMode = Off | Heating | Cooling

  /** Result record of the fallback step (the free-text reason is not modelled). */
  datatype FallbackStep = FallbackStep(
    newTempC: real, mode: StepMode, powerKw: real, energyKwh: real,
    rate: real, cost: real, shouldRunHvac: bool)

  /** Drift rate toward the outdoor temperature per insulation quality. */
  function DriftRate(insulation: string): (r: real)
    ensures insulation == "excellent" ==> r == 0.005
    ensures insulation == "poor" ==> r == 0.03
    ensures insulation != "excellent" && insulation != "poor" ==> r == 0.015
  {
    if insulation == "excellent" then 0.005
    else if insulation == "poor" then 0.03
    else 0.015
  }

  /** Energy (kWh) of running at `powerKw` for one 5-minute step. */
  function FiveMinuteEnergy(powerKw: real): (e: real)
    ensures e * 12.0 == powerKw
  {
    powerKw * (5.0 / 60.0)
  }

  /** Cost ($) of `energyKwh` at `rate` $/kWh. */
  function EnergyCost(energyKwh: real, rate: real): (c: real)
    ensures c == energyKwh * rate
  {
    energyKwh * rate
  }

  /** Natural drift of one fallback step toward the outdoor temperature,
      which reads as 20 degC when the weather has none. */
  function NaturalDrift(house: House, current: real, outdoor: Option<real>): real
  {
    (OrElse(outdoor, 20.0) - current) * DriftRate(InsulationOf(house))
  }

  /** The fixed temperature effect of the HVAC in one fallback step. */
  function ModeEffect(mode: StepMode): real
  {
    match mode
    case Heating => 0.2
    case Cooling => -0.15
    case Off => 0.0
  }

  /** _fallback_simulation: deadband of 0.5 degC around the target, fixed
      heating/cooling effects, natural drift toward outdoor, energy of a
      5-minute step and its cost at the hour's price. The hour is
      datetime.now().hour in the source. */
  function FallbackSimulation(house: House, current: real, target: real, outdoor: Option<real>, hour: int)
    : (r: FallbackStep)
    ensures 10.0 <= r.newTempC <= 35.0
    ensures r.newTempC == Clamp(10.0, 35.0, current + NaturalDrift(house, current, outdoor) + ModeEffect(r.mode))
    ensures r.mode == Heating <==> target - current > 0.5
    ensures r.mode == Cooling <==> target - current < -0.5
    ensures r.mode == Off ==> r.powerKw == 0.0 && !r.shouldRunHvac
    ensures r.shouldRunHvac <==> r.mode != Off
    ensures r.mode == Heating ==> r.powerKw == HvacCapacity(HvacTypeOf(house), HomeSizeOf(house), "heating")
    ensures r.mode == Cooling ==> r.powerKw == HvacCapacity(HvacTypeOf(house), HomeSizeOf(house), "cooling")
    ensures r.energyKwh * 12.0 == r.powerKw
    ensures r.rate == ElectricityPrice(hour)
    ensures r.cost == EnergyCost(r.energyKwh, r.rate)
  {
    var drift := NaturalDrift(house, current, outdoor);
    var diff := target - current;
    var mode := if diff > 0.5 then Heating else if diff < -0.5 then Cooling else Off;
    var power :=
      if mode == Heating then HvacCapacity(HvacTypeOf(house), HomeSizeOf(house), "heating")
      else if mode == Cooling then HvacCapacity(HvacTypeOf(house), HomeSizeOf(house), "cooling")
      else 0.0;
    var effect := ModeEffect(mode);
    var energy := FiveMinuteEnergy(power);
    var rate := ElectricityPrice(hour);
    FallbackStep(Clamp(10.0, 35.0, current + drift + effect), mode, power, energy,
                 rate, EnergyCost(energy, rate), mode != Off)
  }

  /** With no HVAC, a step from a realistic indoor temperature towards a
      realistic outdoor one lands between the two (the clamp never acts). */
  lemma FallbackOffStaysBetween(house: House, current: real, target: real, outdoor: Option<real>, hour: int)
    requires 10.0 <= current <= 35.0 && 10.0 <= OrElse(outdoor, 20.0) <= 35.0
    requires -0.5 <= target - current <= 0.5
    ensures var r := FallbackSimulation(house, current, target, outdoor, hour);
            r.mode == Off && Min(current, OrElse(outdoor, 20.0)) <= r.newTempC <= Max(current, OrElse(outdoor, 20.0))
  {
    var k := DriftRate(InsulationOf(house));
    PartialStepBetween(current, OrElse(outdoor, 20.0), k);
  }

  /** Relative to the same step at the target (an OFF step), heating adds
      exactly 0.2 degC and cooling takes away exactly 0.15 degC, as long as
      neither result is clamped. */
  lemma FallbackHvacShift(house: House, current: real, target: real, outdoor: Option<real>, hour: int)
    ensures FallbackSimulation(house, current, current, outdoor, hour).mode == Off
    ensures var r := FallbackSimulation(house, current, target, outdoor, hour);
            var off := current + NaturalDrift(house, current, outdoor);
            r.mode == Heating && 10.0 <= off && off + 0.2 <= 35.0 ==>
              r.newTempC == FallbackSimulation(house, current, current, outdoor, hour).newTempC + 0.2
    ensures var r := FallbackSimulation(house, current, target, outdoor, hour);
            var off := current + NaturalDrift(house, current, outdoor);
            r.mode == Cooling && 10.0 <= off - 0.15 && off <= 35.0 ==>
              r.newTempC == FallbackSimulation(house, current, current, outdoor, hour).newTempC - 0.15
  {
  }

  /** The part of a model reply to one step that this core reads. */
  datatype StepReply = StepReply(newTempC: Option<real>)

  datatype StepOutcome = FromReply(newTempC: real) | FromFallback(step: FallbackStep)

  function OutcomeTemp(o: StepOutcome): real
  {
    match o case FromReply(t) => t case FromFallback(s) => s.newTempC
  }

  /** simulate_step_with_hvac without the model call: the inputs are clamped,
      then either the reply is post-processed or, without a reply, the
      fallback step runs on the clamped inputs. */
  function SimulateStepWithHvac(house: House, currentRaw: real, targetRaw: real,
                                outdoor: Option<real>, hour: int, reply: Option<StepReply>)
    : (r: StepOutcome)
    ensures r.FromFallback? <==> reply.None?
    ensures 10.0 <= OutcomeTemp(r) <= 35.0
    ensures reply.Some? && 10.0 <= ClampCurrent(currentRaw) <= 35.0 ==>
              Abs(OutcomeTemp(r) - ClampCurrent(currentRaw)) <= MaxStepChange
    ensures r.FromFallback? ==>
              (r.step.mode == Heating <==> ClampTarget(targetRaw) - ClampCurrent(currentRaw) > 0.5)
  {
    var current := ClampCurrent(currentRaw);
    var target := ClampTarget(targetRaw);
    match reply
    case None => FromFallback(FallbackSimulation(house, current, target, outdoor, hour))
    case Some(rep) => FromReply(LimitNewTemp(current, rep.newTempC))
  }

  // ------------------------------------------------------------------
  // Schedules
  // ------------------------------------------------------------------

  /** One hour of a schedule (the free-text reason is not modelled). */
  datatype HvacAction = HvacAction(
    hour: int, mode: string, startTime: string, endTime: string,
    powerKw: real, cost: real, predictedTempC: real, targetTempC: real)

  /** A schedule (the generation timestamp is not modelled). */
  datatype HvacSchedule = HvacSchedule(
    actions: seq<HvacAction>, totalCost: real, totalEnergyKwh: real, comfortScore: real)

  function Digit(d: int): (c: char)
    requires 0 <= d < 10
    ensures c as int - '0' as int == d
  {
    ('0' as int + d) as char
  }

  /** f"{hour:02d}:00" for an hour below 100. */
  function HourLabel(hour: int): (r: string)
    requires 0 <= hour < 100
    ensures |r| == 5 && r[2..] == ":00"
    ensures (r[0] as int - '0' as int) * 10 + (r[1] as int - '0' as int) == hour
  {
    [Digit(hour / 10), Digit(hour % 10), ':', '0', '0']
  }

  /** Sum of the cost fields, accumulated front to back. */
  function TotalCost(acts: seq<HvacAction>): real
  {
    if acts == [] then 0.0 else TotalCost(acts[..|acts| - 1]) + acts[|acts| - 1].cost
  }

  /** Sum of the power fields (one hour at power P uses P kWh). */
  function TotalPower(acts: seq<HvacAction>): real
  {
    if acts == [] then 0.0 else TotalPower(acts[..|acts| - 1]) + acts[|acts| - 1].powerKw
  }

  lemma TotalsAppend(acts: seq<HvacAction>, a: HvacAction)
    ensures TotalCost(acts + [a]) == TotalCost(acts) + a.cost
    ensures TotalPower(acts + [a]) == TotalPower(acts) + a.powerKw
  {
    assert (acts + [a])[..|acts|] == acts;
  }

  /** Filler action appended while a schedule has fewer than 24 entries. */
  function IdleAction(hour: int, target: real): (a: HvacAction)
    requires 0 <= hour < 24
    ensures a.hour == hour && a.mode == "off" && a.powerKw == 0.0 && a.cost == 0.0
    ensures a.startTime == HourLabel(hour) && a.endTime == HourLabel((hour + 1) % 24)
    ensures a.predictedTempC == target && a.targetTempC == target
  {
    HvacAction(hour, "off", HourLabel(hour), HourLabel((hour + 1) % 24), 0.0, 0.0, target, target)
  }

  /** One entry of a model reply; a missing field is None. */
  datatype ReplyAction = ReplyAction(
    hour: Option<int>, mode: Option<string>, startTime: Option<string>, endTime: Option<string>,
    powerKw: Option<real>, cost: Option<real>, predictedTempC: Option<real>)

  /** A model reply to the schedule request; `actions` is None when the reply has no "actions" key. */
  datatype ScheduleReply = ScheduleReply(
    actions: Option<seq<ReplyAction>>, totalCost: Option<real>,
    totalEnergyKwh: Option<real>, comfortScore: Option<real>)

  /** Reading one reply entry with the source's defaults; the target always overrides. */
  function ToAction(a: ReplyAction, target: real): (r: HvacAction)
    ensures r.targetTempC == target
    ensures a.hour.None? ==> r.hour == 0
    ensures a.mode.None? ==> r.mode == "off"
    ensures a.predictedTempC.None? ==> r.predictedTempC == target
  {
    HvacAction(OrElse(a.hour, 0), OrElse(a.mode, "off"), OrElse(a.startTime, "00:00"),
               OrElse(a.endTime, "01:00"), OrElse(a.powerKw, 0.0), OrElse(a.cost, 0.0),
               OrElse(a.predictedTempC, target), target)
  }

  /** The padding loop of generate_hvac_schedule followed by the cut to 24
      entries: the first 24 parsed actions are kept, missing hours are filled
      with idle actions numbered by their position. */
  method PadActions(parsed: seq<HvacAction>, target: real) returns (actions: seq<HvacAction>)
    ensures |actions| == 24
    ensures forall i :: 0 <= i < 24 && i < |parsed| ==> actions[i] == parsed[i]
    ensures forall i :: |parsed| <= i < 24 ==> actions[i] == IdleAction(i, target)
  {
    actions := parsed;
    while |actions| < 24
      invariant |parsed| <= |actions|
      invariant actions[..|parsed|] == parsed
      invariant forall i :: |parsed| <= i < |actions| ==> i < 24 && actions[i] == IdleAction(i, target)
      decreases 24 - |actions|
    {
      var hour := |actions|;
      actions := actions + [IdleAction(hour, target)];
    }
    assert forall i :: 0 <= i < 24 && i < |parsed| ==> actions[i] == actions[..|parsed|][i];
    actions := actions[..24];
  }

  // --- fallback scheduler ---

  datatype PlanMode = Heat | Cool | Maintain

  function PlanLabel(m: PlanMode): string
  {
    match m case Heat => "heat" case Cool => "cool" case Maintain => "off"
  }

  /** Mode choice of the fallback scheduler; heating is tested first, so it
      wins when both triggers hold. */
  function PlanDecision(predicted: real, target: real, outdoor: real): (m: PlanMode)
    ensures m == Heat <==> (target - predicted > 1.0 || outdoor < target - 5.0)
    ensures m == Cool <==> (!(target - predicted > 1.0 || outdoor < target - 5.0)
                            && (target - predicted < -1.0 || outdoor > target + 5.0))
  {
    if target - predicted > 1.0 || outdoor < target - 5.0 then Heat
    else if target - predicted < -1.0 || outdoor > target + 5.0 then Cool
    else Maintain
  }

  /** Predicted temperature after one hour of the chosen mode. */
  function PlanNext(predicted: real, target: real, outdoor: real): (r: real)
    ensures PlanDecision(predicted, target, outdoor) == Heat ==>
              r <= target + 0.5 && r <= predicted + 1.0 && (r == target + 0.5 || r == predicted + 1.0)
    ensures PlanDecision(predicted, target, outdoor) == Cool ==>
              r >= target - 0.5 && r >= predicted - 0.8 && (r == target - 0.5 || r == predicted - 0.8)
    ensures PlanDecision(predicted, target, outdoor) == Maintain ==>
              r - predicted == (outdoor - predicted) * 0.1
  {
    match PlanDecision(predicted, target, outdoor)
    case Heat => Min(target + 0.5, predicted + 1.0)
    case Cool => Max(target - 0.5, predicted - 0.8)
    case Maintain => predicted + (outdoor - predicted) * 0.1
  }

  /** A forecast row: only its outdoor temperature is read (default 20). */
  datatype ForecastRow = ForecastRow(temperature: Option<real>)

  /** Outdoor temperature of hour `hour`, reusing the last row past the end. */
  function PaddedOutdoor(rows: seq<ForecastRow>, hour: nat): (t: real)
    requires |rows| > 0
    ensures hour >= |rows| ==> t == PaddedOutdoor(rows, |rows| - 1)
  {
    var row := if hour < |rows| then rows[hour] else rows[|rows| - 1];
    OrElse(row.temperature, 20.0)
  }

  /** Predicted temperature at the start of hour `hour` of the fallback plan. */
  function PredictedAt(current: real, target: real, rows: seq<ForecastRow>, hour: nat): real
    requires |rows| > 0
  {
    if hour == 0 then current
    else
      var p := PredictedAt(current, target, rows, hour - 1);
      PlanNext(p, target, PaddedOutdoor(rows, hour - 1))
  }

  function PlanModeAt(current: real, target: real, rows: seq<ForecastRow>, hour: nat): PlanMode
    requires |rows| > 0
  {
    PlanDecision(PredictedAt(current, target, rows, hour), target, PaddedOutdoor(rows, hour))
  }

  /** Power drawn in an hour of the given plan mode. */
  function PlanPower(house: House, m: PlanMode): (p: real)
    ensures m == Maintain ==> p == 0.0
    ensures p >= 0.0
  {
    match m
    case Heat => HvacCapacity(HvacTypeOf(house), HomeSizeOf(house), "heating")
    case Cool => HvacCapacity(HvacTypeOf(house), HomeSizeOf(house), "cooling")
    case Maintain => 0.0
  }

  /** Cost of running at `power` kW for one hour at the hour's price. */
  function HourCost(power: real, hour: int): real
  {
    power * ElectricityPrice(hour)
  }

  /** The action of hour `hour` given the predicted temperature at its start. */
  function PlanAction(house: House, target: real, hour: nat, predicted: real, outdoor: real): HvacAction
    requires hour < 24
  {
    var m := PlanDecision(predicted, target, outdoor);
    var power := PlanPower(house, m);
    HvacAction(hour, PlanLabel(m), HourLabel(hour), HourLabel((hour + 1) % 24),
               power, HourCost(power, hour), PlanNext(predicted, target, outdoor), target)
  }

  /** The action the fallback scheduler emits for hour `hour`. */
  function FallbackActionAt(house: House, current: real, target: real, rows: seq<ForecastRow>, hour: nat)
    : (a: HvacAction)
    requires |rows| > 0 && hour < 24
    ensures a.hour == hour && a.startTime == HourLabel(hour) && a.endTime == HourLabel((hour + 1) % 24)
    ensures a.cost == a.powerKw * ElectricityPrice(hour)
    ensures a.mode == "off" <==> PlanModeAt(current, target, rows, hour) == Maintain
    ensures a.mode == "off" ==> a.powerKw == 0.0
    ensures a.predictedTempC == PredictedAt(current, target, rows, hour + 1)
    ensures a.targetTempC == target
  {
    PlanAction(house, target, hour, PredictedAt(current, target, rows, hour), PaddedOutdoor(rows, hour))
  }

  /** What _generate_fallback_schedule returns. */
  ghost predicate IsFallbackSchedule(s: HvacSchedule, house: House, current: real, target: real,
                                     rows: seq<ForecastRow>)
    requires |rows| > 0
  {
    && |s.actions| == 24
    && (forall i :: 0 <= i < 24 ==> s.actions[i] == FallbackActionAt(house, current, target, rows, i))
    && s.totalCost == TotalCost(s.actions)
    && s.totalEnergyKwh == TotalPower(s.actions)
    && s.comfortScore == 75.0
  }

  /** _generate_fallback_schedule: 24 hourly steps of the plan, reusing the
      last forecast row when the forecast is short. An empty forecast makes
      the source fail on `weather_rows[-1]`, so it is excluded. */
  method GenerateFallbackSchedule(house: House, current: real, target: real, rows: seq<ForecastRow>)
    returns (s: HvacSchedule)
    requires |rows| > 0
    ensures IsFallbackSchedule(s, house, current, target, rows)
  {
    var actions: seq<HvacAction> := [];
    var totalCost := 0.0;
    var totalEnergy := 0.0;
    var predicted := current;
    for hour := 0 to 24
      invariant |actions| == hour
      invariant predicted == PredictedAt(current, target, rows, hour)
      invariant FallbackPrefix(actions, house, current, target, rows)
      invariant totalCost == TotalCost(actions) && totalEnergy == TotalPower(actions)
    {
      var outdoor := OrElse((if hour < |rows| then rows[hour] else rows[|rows| - 1]).temperature, 20.0);
      assert outdoor == PaddedOutdoor(rows, hour);
      var action;
      action, predicted := PlanHour(house, target, hour, predicted, outdoor);
      assert action == FallbackActionAt(house, current, target, rows, hour);
      totalCost := totalCost + action.cost;
      totalEnergy := totalEnergy + action.powerKw;
      FallbackPrefixAppend(actions, action, house, current, target, rows);
      TotalsAppend(actions, action);
      actions := actions + [action];
    }
    s := HvacSchedule(actions, totalCost, totalEnergy, 75.0);
  }

  /** One hour of the fallback plan: choose the mode, move the predicted
      temperature and price the hour. */
  method PlanHour(house: House, target: real, hour: nat, predicted: real, outdoor: real)
    returns (action: HvacAction, next: real)
    requires hour < 24
    ensures action == PlanAction(house, target, hour, predicted, outdoor)
    ensures next == PlanNext(predicted, target, outdoor) == action.predictedTempC
  {
    var mode := PlanDecision(predicted, target, outdoor);
    var power := 0.0;
    if mode == Heat {
      power := HvacCapacity(HvacTypeOf(house), HomeSizeOf(house), "heating");
      next := Min(target + 0.5, predicted + 1.0);
    } else if mode == Cool {
      power := HvacCapacity(HvacTypeOf(house), HomeSizeOf(house), "cooling");
      next := Max(target - 0.5, predicted - 0.8);
    } else {
      var drift := (outdoor - predicted) * 0.1;
      next := predicted + drift;
    }
    var cost := HourCost(power, hour);
    action := HvacAction(hour, PlanLabel(mode), HourLabel(hour), HourLabel((hour + 1) % 24),
                         power, cost, next, target);
    assert power == PlanPower(house, mode);
  }

  /** `actions` are the fallback actions of the first |actions| hours. */
  ghost predicate FallbackPrefix(actions: seq<HvacAction>, house: House, current: real, target: real,
                                 rows: seq<ForecastRow>)
    requires |rows| > 0 && |actions| <= 24
  {
    forall i :: 0 <= i < |actions| ==> actions[i] == FallbackActionAt(house, current, target, rows, i)
  }

  lemma FallbackPrefixAppend(actions: seq<HvacAction>, a: HvacAction, house: House, current: real, target: real,
                             rows: seq<ForecastRow>)
    requires |rows| > 0 && |actions| < 24 && FallbackPrefix(actions, house, current, target, rows)
    requires a == FallbackActionAt(house, current, target, rows, |actions|)
    ensures FallbackPrefix(actions + [a], house, current, target, rows)
  {
    var actions' := actions + [a];
    forall i | 0 <= i < |actions'|
      ensures actions'[i] == FallbackActionAt(house, current, target, rows, i)
    {
      if i < |actions| {
        assert actions'[i] == actions[i];
      }
    }
  }

  /** In a fallback schedule a heating hour never plans above target + 0.5
      and a cooling hour never below target - 0.5; idle hours draw no power. */
  lemma FallbackScheduleBounds(s: HvacSchedule, house: House, current: real, target: real,
                               rows: seq<ForecastRow>)
    requires |rows| > 0
    requires IsFallbackSchedule(s, house, current, target, rows)
    ensures forall i :: 0 <= i < 24 ==> s.actions[i].hour == i
    ensures forall i :: 0 <= i < 24 && s.actions[i].mode == "heat" ==> s.actions[i].predictedTempC <= target + 0.5
    ensures forall i :: 0 <= i < 24 && s.actions[i].mode == "cool" ==> s.actions[i].predictedTempC >= target - 0.5
    ensures forall i :: 0 <= i < 24 && s.actions[i].mode == "off" ==> s.actions[i].powerKw == 0.0
  {
    forall i | 0 <= i < 24
      ensures s.actions[i].mode == "heat" ==> s.actions[i].predictedTempC <= target + 0.5
      ensures s.actions[i].mode == "cool" ==> s.actions[i].predictedTempC >= target - 0.5
    {
      var p := PredictedAt(current, target, rows, i);
      var m := PlanModeAt(current, target, rows, i);
      assert PredictedAt(current, target, rows, i + 1) == PlanNext(p, target, PaddedOutdoor(rows, i));
      assert s.actions[i].mode == PlanLabel(m);
    }
  }

  /** generate_hvac_schedule without the model call. The target is clamped to
      [15, 30]; without a reply carrying "actions" the fallback scheduler runs
      (then the forecast must not be empty); otherwise the reply's actions are
      read, their costs and powers summed over ALL of them, the list padded
      and cut to 24, and totals and comfort score taken from the reply when it
      has them (default comfort 85). */
  method GenerateHvacSchedule(house: House, rows: seq<ForecastRow>, current: real, targetRaw: real,
                              reply: Option<ScheduleReply>)
    returns (s: HvacSchedule)
    requires (reply.None? || reply.value.actions.None?) ==> |rows| > 0
    ensures |s.actions| == 24
    ensures reply.None? || reply.value.actions.None? ==>
              IsFallbackSchedule(s, house, current, ClampTarget(targetRaw), rows)
    ensures reply.Some? && reply.value.actions.Some? ==>
              var parsed := reply.value.actions.value;
              var target := ClampTarget(targetRaw);
              && (forall i :: 0 <= i < 24 && i < |parsed| ==> s.actions[i] == ToAction(parsed[i], target))
              && (forall i :: |parsed| <= i < 24 ==> s.actions[i] == IdleAction(i, target))
              && s.totalCost == OrElse(reply.value.totalCost, TotalCost(Parsed(parsed, target)))
              && s.totalEnergyKwh == OrElse(reply.value.totalEnergyKwh, TotalPower(Parsed(parsed, target)))
              && s.comfortScore == OrElse(reply.value.comfortScore, 85.0)
  {
    var target := ClampTarget(targetRaw);
    if reply.None? || reply.value.actions.None? {
      s := GenerateFallbackSchedule(house, current, target, rows);
      return;
    }
    var replyActions := reply.value.actions.value;
    var parsed: seq<HvacAction> := [];
    var totalCost := 0.0;
    var totalEnergy := 0.0;
    for i := 0 to |replyActions|
      invariant parsed == Parsed(replyActions[..i], target)
      invariant totalCost == TotalCost(parsed) && totalEnergy == TotalPower(parsed)
    {
      var action := ToAction(replyActions[i], target);
      TotalsAppend(parsed, action);
      assert replyActions[..i + 1] == replyActions[..i] + [replyActions[i]];
      ParsedAppend(replyActions[..i], replyActions[i], target);
      parsed := parsed + [action];
      totalCost := totalCost + action.cost;
      totalEnergy := totalEnergy + action.powerKw;
    }
    assert replyActions[..|replyActions|] == replyActions;
    var padded := PadActions(parsed, target);
    s := HvacSchedule(padded, OrElse(reply.value.totalCost, totalCost),
                      OrElse(reply.value.totalEnergyKwh, totalEnergy),
                      OrElse(reply.value.comfortScore, 85.0));
  }

  /** The reply's entries read one by one. */
  function Parsed(replyActions: seq<ReplyAction>, target: real): (r: seq<HvacAction>)
    ensures |r| == |replyActions|
    ensures forall i :: 0 <= i < |r| ==> r[i] == ToAction(replyActions[i], target)
  {
    seq(|replyActions|, i requires 0 <= i < |replyActions| => ToAction(replyActions[i], target))
  }

  lemma ParsedAppend(xs: seq<ReplyAction>, x: ReplyAction, target: real)
    ensures Parsed(xs + [x], target) == Parsed(xs, target) + [ToAction(x, target)]
  {
  }

  // ------------------------------------------------------------------
  // Current and upcoming actions
  // ------------------------------------------------------------------

  /** get_current_hvac_action: the first action whose hour is the current
      hour (datetime.now().hour in the source), if any. */
  method GetCurrentHvacAction(schedule: HvacSchedule, currentHour: int) returns (r: Option<HvacAction>)
    ensures r.None? <==> forall i :: 0 <= i < |schedule.actions| ==> schedule.actions[i].hour != currentHour
    ensures r.Some? ==> exists i :: 0 <= i < |schedule.actions| && schedule.actions[i] == r.value
                          && r.value.hour == currentHour
                          && forall j :: 0 <= j < i ==> schedule.actions[j].hour != currentHour
  {
    for i := 0 to |schedule.actions|
      invariant forall j :: 0 <= j < i ==> schedule.actions[j].hour != currentHour
    {
      if schedule.actions[i].hour == currentHour {
        return Some(schedule.actions[i]);
      }
    }
    return None;
  }

  /** hours_until: distance of an action's hour from the current hour,
      wrapping negative differences once around midnight. */
  function HoursUntil(actionHour: int, currentHour: int): (d: int)
    ensures d == actionHour - currentHour || d == actionHour - currentHour + 24
    ensures 0 <= actionHour < 24 && 0 <= currentHour < 24 ==>
              0 <= d < 24 && (currentHour + d) % 24 == actionHour
  {
    var diff := actionHour - currentHour;
    if diff < 0 then diff + 24 else diff
  }

  function Key(a: HvacAction, now: int): int
  {
    HoursUntil(a.hour, now)
  }

  ghost predicate SortedByKey(s: seq<HvacAction>, now: int)
  {
    forall i, j :: 0 <= i < j < |s| ==> Key(s[i], now) <= Key(s[j], now)
  }

  /** Insertion of `x` after every element whose key is not larger: this keeps
      equal keys in their original order, as Python's stable `sorted` does. */
  function InsertByKey(x: HvacAction, s: seq<HvacAction>, now: int): (r: seq<HvacAction>)
    ensures multiset(r) == multiset(s) + multiset{x}
  {
    if s == [] then [x]
    else if Key(s[|s| - 1], now) <= Key(x, now) then s + [x]
    else
      assert s == s[..|s| - 1] + [s[|s| - 1]];
      InsertByKey(x, s[..|s| - 1], now) + [s[|s| - 1]]
  }

  lemma {:induction false} InsertKeepsSorted(x: HvacAction, s: seq<HvacAction>, now: int)
    requires SortedByKey(s, now)
    ensures SortedByKey(InsertByKey(x, s, now), now)
    decreases |s|
  {
    if s == [] {
      assert InsertByKey(x, s, now) == [x];
    } else {
      var init := s[..|s| - 1];
      var last := s[|s| - 1];
      if Key(last, now) <= Key(x, now) {
        forall k | 0 <= k < |s| ensures Key(s[k], now) <= Key(x, now) {
          if k < |s| - 1 {
            assert Key(s[k], now) <= Key(last, now);
          }
        }
        SortedSnoc(s, x, now);
      } else {
        assert SortedByKey(init, now);
        InsertKeepsSorted(x, init, now);
        var r' := InsertByKey(x, init, now);
        forall k | 0 <= k < |r'| ensures Key(r'[k], now) <= Key(last, now) {
          var y := r'[k];
          assert y in multiset(r');
          if y != x {
            assert y in multiset(init);
            var m :| 0 <= m < |init| && init[m] == y;
            assert s[m] == y;
          }
        }
        SortedSnoc(r', last, now);
      }
    }
  }

  /** Appending an element whose key is at least every key keeps a list sorted. */
  lemma SortedSnoc(r: seq<HvacAction>, y: HvacAction, now: int)
    requires SortedByKey(r, now)
    requires forall k :: 0 <= k < |r| ==> Key(r[k], now) <= Key(y, now)
    ensures SortedByKey(r + [y], now)
  {
    var r' := r + [y];
    forall i, j | 0 <= i < j < |r'| ensures Key(r'[i], now) <= Key(r'[j], now) {
      assert r'[i] == r[i];
      if j < |r| {
        assert r'[j] == r[j];
      }
    }
  }

  /** `sorted(actions, key=hours_until)`. */
  function SortByHoursUntil(actions: seq<HvacAction>, now: int): (r: seq<HvacAction>)
    ensures multiset(r) == multiset(actions)
  {
    if actions == [] then []
    else
      assert actions == actions[..|actions| - 1] + [actions[|actions| - 1]];
      InsertByKey(actions[|actions| - 1], SortByHoursUntil(actions[..|actions| - 1], now), now)
  }

  lemma {:induction false} SortIsSorted(actions: seq<HvacAction>, now: int)
    ensures SortedByKey(SortByHoursUntil(actions, now), now)
    decreases |actions|
  {
    if actions != [] {
      SortIsSorted(actions[..|actions| - 1], now);
      InsertKeepsSorted(actions[|actions| - 1], SortByHoursUntil(actions[..|actions| - 1], now), now);
    }
  }

  /** The actions of `s` whose key is `k`, in their order in `s`. */
  function WithKey(s: seq<HvacAction>, now: int, k: int): seq<HvacAction>
  {
    if s == [] then []
    else WithKey(s[..|s| - 1], now, k) + (if Key(s[|s| - 1], now) == k then [s[|s| - 1]] else [])
  }

  lemma {:induction false} WithKeyAppend(a: seq<HvacAction>, b: seq<HvacAction>, now: int, k: int)
    ensures WithKey(a + b, now, k) == WithKey(a, now, k) + WithKey(b, now, k)
    decreases |b|
  {
    if b == [] {
      assert a + b == a;
    } else {
      var init := b[..|b| - 1];
      assert (a + b)[..|a + b| - 1] == a + init;
      assert (a + b)[|a + b| - 1] == b[|b| - 1];
      WithKeyAppend(a, init, now, k);
    }
  }

  /** Insertion puts `x` after every action with its key and moves no other
      action past one with the same key. */
  lemma {:induction false} InsertIsStable(x: HvacAction, s: seq<HvacAction>, now: int, k: int)
    ensures WithKey(InsertByKey(x, s, now), now, k)
            == WithKey(s, now, k) + (if Key(x, now) == k then [x] else [])
    decreases |s|
  {
    WithKeySingle(x, now, k);
    if s == [] {
      assert InsertByKey(x, s, now) == [x];
      assert WithKey(s, now, k) == [];
    } else {
      var init := s[..|s| - 1];
      var last := s[|s| - 1];
      assert s == init + [last];
      WithKeyAppend(init, [last], now, k);
      WithKeySingle(last, now, k);
      if Key(last, now) <= Key(x, now) {
        assert InsertByKey(x, s, now) == s + [x];
        WithKeyAppend(s, [x], now, k);
      } else {
        var r := InsertByKey(x, init, now);
        assert InsertByKey(x, s, now) == r + [last];
        InsertIsStable(x, init, now, k);
        WithKeyAppend(r, [last], now, k);
        var xs := if Key(x, now) == k then [x] else [];
        var ls := if Key(last, now) == k then [last] else [];
        assert WithKey(r + [last], now, k) == WithKey(r, now, k) + ls;
        assert WithKey(r, now, k) == WithKey(init, now, k) + xs;
        assert WithKey(s, now, k) == WithKey(init, now, k) + ls;
        SwapAroundEmpty(WithKey(init, now, k), xs, ls);
      }
    }
  }

  lemma SwapAroundEmpty(a: seq<HvacAction>, b: seq<HvacAction>, c: seq<HvacAction>)
    requires b == [] || c == []
    ensures a + b + c == a + c + b
  {
    if b == [] {
      assert a + b == a;
      assert c + b == c;
    } else {
      assert a + c == a;
      assert b + c == b;
    }
  }

  lemma WithKeySingle(y: HvacAction, now: int, k: int)
    ensures WithKey([y], now, k) == if Key(y, now) == k then [y] else []
  {
    assert [y][..0] == [];
  }

  /** The sort is stable: for every key, the actions with that key keep
      their relative order, as with Python's `sorted`. */
  lemma {:induction false} SortIsStable(actions: seq<HvacAction>, now: int, k: int)
    ensures WithKey(SortByHoursUntil(actions, now), now, k) == WithKey(actions, now, k)
    decreases |actions|
  {
    if actions != [] {
      var init := actions[..|actions| - 1];
      SortIsStable(init, now, k);
      InsertIsStable(actions[|actions| - 1], SortByHoursUntil(init, now), now, k);
    }
  }

  predicate Upcoming(a: HvacAction, now: int)
  {
    Key(a, now) <= 12 && a.mode != "off"
  }

  /** The actions the loop keeps when it never stops early. */
  function Eligible(s: seq<HvacAction>, now: int): (r: seq<HvacAction>)
    ensures |r| <= |s|
  {
    if s == [] then []
    else
      var init := Eligible(s[..|s| - 1], now);
      var last := s[|s| - 1];
      if Upcoming(last, now) then init + [last] else init
  }

  lemma {:induction false} EligibleMembers(s: seq<HvacAction>, now: int)
    ensures forall a :: a in Eligible(s, now) ==> a in s && Upcoming(a, now)
    decreases |s|
  {
    if s != [] {
      EligibleMembers(s[..|s| - 1], now);
      forall a | a in s[..|s| - 1] ensures a in s {
        var k :| 0 <= k < |s| - 1 && s[k] == a;
      }
    }
  }

  /** Reading one more action keeps it exactly when it is upcoming. */
  lemma EligibleSnoc(s: seq<HvacAction>, i: nat, now: int)
    requires i < |s|
    ensures Eligible(s[..i + 1], now) == Eligible(s[..i], now) + (if Upcoming(s[i], now) then [s[i]] else [])
  {
    assert s[..i + 1][..i] == s[..i];
  }

  lemma {:induction false} EligibleAppend(a: seq<HvacAction>, b: seq<HvacAction>, now: int)
    ensures Eligible(a + b, now) == Eligible(a, now) + Eligible(b, now)
    decreases |b|
  {
    if b == [] {
      assert a + b == a;
    } else {
      var b' := b[..|b| - 1];
      assert (a + b)[..|a + b| - 1] == a + b';
      EligibleAppend(a, b', now);
    }
  }

  lemma {:induction false} EligibleKeepsSorted(s: seq<HvacAction>, now: int)
    requires SortedByKey(s, now)
    ensures SortedByKey(Eligible(s, now), now)
    decreases |s|
  {
    if s != [] {
      var init := s[..|s| - 1];
      assert SortedByKey(init, now);
      EligibleKeepsSorted(init, now);
      EligibleMembers(init, now);
      forall y | y in Eligible(init, now) ensures Key(y, now) <= Key(s[|s| - 1], now) {
        var k :| 0 <= k < |init| && init[k] == y;
        assert s[k] == y;
      }
    }
  }

  function Take(s: seq<HvacAction>, n: int): (r: seq<HvacAction>)
    ensures |r| <= |s| && r == s[..|r|]
    ensures n >= 0 ==> |r| <= n
    ensures n >= |s| ==> r == s
  {
    if n <= 0 then [] else if n < |s| then s[..n] else s
  }

  /** What get_upcoming_actions returns as written: the loop appends an
      eligible action BEFORE testing `len(upcoming) >= count`, so a count
      of 0 or less still yields one action. */
  function UpcomingAsWritten(actions: seq<HvacAction>, count: int, now: int): seq<HvacAction>
  {
    Take(Eligible(SortByHoursUntil(actions, now), now), if count < 1 then 1 else count)
  }

  /** The evidently intended result: at most `count` actions. */
  function UpcomingIntended(actions: seq<HvacAction>, count: int, now: int): seq<HvacAction>
  {
    Take(Eligible(SortByHoursUntil(actions, now), now), count)
  }

  /** Whatever the bound, the upcoming list holds scheduled non-off actions
      at most 12 hours ahead, in order of their distance from now. */
  lemma UpcomingListProperties(actions: seq<HvacAction>, n: int, now: int)
    ensures var u := Take(Eligible(SortByHoursUntil(actions, now), now), n);
            && (forall a :: a in u ==> a in actions && a.mode != "off" && Key(a, now) <= 12)
            && SortedByKey(u, now)
  {
    var sorted := SortByHoursUntil(actions, now);
    var e := Eligible(sorted, now);
    var u := Take(e, n);
    SortIsSorted(actions, now);
    EligibleKeepsSorted(sorted, now);
    EligibleMembers(sorted, now);
    forall a | a in u ensures a in actions && a.mode != "off" && Key(a, now) <= 12 {
      var k :| 0 <= k < |u| && u[k] == a;
      assert e[k] == a;
      assert a in sorted;
      assert a in multiset(sorted);
    }
  }

  /** With hours of the day on both sides, every upcoming action is 0 to 12
      hours ahead. */
  lemma UpcomingWithinTwelveHours(actions: seq<HvacAction>, n: int, now: int)
    requires 0 <= now < 24
    requires forall a :: a in actions ==> 0 <= a.hour < 24
    ensures forall a :: a in Take(Eligible(SortByHoursUntil(actions, now), now), n) ==>
              0 <= Key(a, now) <= 12
  {
    UpcomingListProperties(actions, n, now);
  }

  /** get_upcoming_actions as written: sort by hours until the action, keep
      non-off actions at most 12 hours ahead, stop after the append that
      reaches `count`. */
  method GetUpcomingActions(schedule: HvacSchedule, count: int, currentHour: int)
    returns (upcoming: seq<HvacAction>)
    ensures upcoming == UpcomingAsWritten(schedule.actions, count, currentHour)
    ensures |upcoming| <= if count < 1 then 1 else count
  {
    var sorted := SortByHoursUntil(schedule.actions, currentHour);
    upcoming := CollectUpcoming(sorted, count, currentHour);
  }

  /** The loop of get_upcoming_actions over the sorted actions: each kept
      action is appended before the length is compared with `count`. */
  method CollectUpcoming(sorted: seq<HvacAction>, count: int, currentHour: int)
    returns (upcoming: seq<HvacAction>)
    ensures upcoming == Take(Eligible(sorted, currentHour), if count < 1 then 1 else count)
    ensures |upcoming| <= if count < 1 then 1 else count
  {
    ghost var limit := if count < 1 then 1 else count;
    upcoming := [];
    var i := 0;
    while i < |sorted|
      invariant 0 <= i <= |sorted|
      invariant upcoming == Eligible(sorted[..i], currentHour)
      invariant |upcoming| < limit
    {
      var action := sorted[i];
      EligibleSnoc(sorted, i, currentHour);
      if Upcoming(action, currentHour) {
        upcoming := upcoming + [action];
        if |upcoming| >= count {
          TakeAfterStop(sorted, i + 1, limit, currentHour);
          return;
        }
      }
      i := i + 1;
    }
    assert sorted[..i] == sorted;
  }

  /** Once the kept actions among sorted[..i] number `limit`, the rest
      of the list is not looked at. */
  lemma TakeAfterStop(sorted: seq<HvacAction>, i: nat, limit: int, now: int)
    requires i <= |sorted| && |Eligible(sorted[..i], now)| == limit
    ensures Take(Eligible(sorted, now), limit) == Eligible(sorted[..i], now)
  {
    var e1, e2 := Eligible(sorted[..i], now), Eligible(sorted[i..], now);
    EligibleAppend(sorted[..i], sorted[i..], now);
    assert sorted[..i] + sorted[i..] == sorted;
    assert (e1 + e2)[..|e1|] == e1;
  }

  /** get_upcoming_actions with the evidently intended bound: the length test
      comes before the append, so at most `count` actions are returned. */
  method GetUpcomingActionsBounded(schedule: HvacSchedule, count: int, currentHour: int)
    returns (upcoming: seq<HvacAction>)
    ensures upcoming == UpcomingIntended(schedule.actions, count, currentHour)
    ensures count >= 0 ==> |upcoming| <= count
    ensures count <= 0 ==> upcoming == []
  {
    var sorted := SortByHoursUntil(schedule.actions, currentHour);
    upcoming := CollectUpcomingBounded(sorted, count, currentHour);
  }

  /** The corrected loop over the sorted actions: the length is compared
      with `count` before each append. */
  method CollectUpcomingBounded(sorted: seq<HvacAction>, count: int, currentHour: int)
    returns (upcoming: seq<HvacAction>)
    ensures upcoming == Take(Eligible(sorted, currentHour), count)
    ensures count >= 0 ==> |upcoming| <= count
    ensures count <= 0 ==> upcoming == []
  {
    upcoming := [];
    var i := 0;
    while i < |sorted|
      invariant 0 <= i <= |sorted|
      invariant count <= 0 ==> upcoming == []
      invariant count > 0 ==> upcoming == Eligible(sorted[..i], currentHour) && |upcoming| <= count
    {
      var action := sorted[i];
      EligibleSnoc(sorted, i, currentHour);
      if Upcoming(action, currentHour) {
        if |upcoming| >= count {
          if count > 0 {
            TakeAfterStop(sorted, i, count, currentHour);
          }
          return;
        }
        upcoming := upcoming + [action];
      }
      i := i + 1;
    }
    if i == |sorted| {
      assert sorted[..i] == sorted;
    }
  }

  /** A heating action in the current hour, asked for with count 0, is
      returned anyway by the code as written; the intended version returns
      nothing. */
  lemma UpcomingZeroCountStillReturnsOne()
    ensures var a := HvacAction(8, "heat", "08:00", "09:00", 3.0, 0.36, 21.0, 22.0);
            |UpcomingAsWritten([a], 0, 8)| == 1 && UpcomingIntended([a], 0, 8) == []
  {
    var a := HvacAction(8, "heat", "08:00", "09:00", 3.0, 0.36, 21.0, 22.0);
    assert SortByHoursUntil([a], 8) == [a] by {
      assert [a][..0] == [];
    }
    assert Eligible([a], 8) == [a] by {
      assert [a][..0] == [];
    }
  }
}
