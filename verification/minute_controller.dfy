/** The minute-level smart controller (model_testing/model.py): the house
    model built in SmartHVACModel.__init__, its one-minute temperature step,
    and the control loop of generate_schedule with its five modes, run and
    off lockouts, OFF-mode look-ahead prediction and block aggregation. The
    database, the weather resampling and the spreadsheet output are outside
    the model; the random setpoint is a parameter. */
module MinuteController {
  import opened Common

  const AirDensity: real := 1.225
  const CpAir: real := 1005.0
  /** Length of one simulation step, in seconds. */
  const StepSeconds: real := 60.0
  /** Samples a running mode must hold before it may stop. */
  const MinRunTime: int := 15
  /** Samples OFF must hold before a mode may start. */
  const MinOffTime: int := 10
  const Deadband: real := 0.5
  /** Look-ahead horizon of the prediction, in samples, and its stride. */
  const PredictWindow: nat := 60
  const PredictStride: nat := 5

  // ------------------------------------------------------------------
  // Modes
  // ------------------------------------------------------------------

  datatype Mode = Off | Heat | Cool | PreHeat | PreCool

  /** The mode names the source compares and writes out. */
  function Label(m: Mode): string
  {
    match m
    case Off => "OFF"
    case Heat => "HEAT"
    case Cool => "COOL"
    case PreHeat => "PRE-HEAT"
    case PreCool => "PRE-COOL"
  }

  /** Python's substring test `sub in s`. */
  predicate Contains(s: string, sub: string)
    decreases |s|
  {
    |sub| <= |s| && (s[..|sub|] == sub || Contains(s[1..], sub))
  }

  predicate IsCoolFamily(m: Mode) { m == Cool || m == PreCool }

  predicate IsHeatFamily(m: Mode) { m == Heat || m == PreHeat }

  /** A text none of whose characters is the first one of `sub` does not
      contain `sub`. */
  lemma {:induction false} FirstCharMissing(s: string, sub: string)
    requires |sub| > 0 && forall j :: 0 <= j < |s| ==> s[j] != sub[0]
    ensures !Contains(s, sub)
    decreases |s|
  {
    if |sub| <= |s| {
      assert s[..|sub|][0] != sub[0];
      FirstCharMissing(s[1..], sub);
    }
  }

  /** A text contains whatever follows its first character. */
  lemma ContainsInTail(s: string, sub: string)
    requires |s| > 0 && Contains(s[1..], sub)
    ensures Contains(s, sub)
  {
  }

  /** "PRE-" followed by a family name contains that name. */
  lemma PrefixedContains(s: string, name: string)
    requires |name| == 4 && s == "PRE-" + name
    ensures Contains(s, name)
  {
    var t := s[4..];
    assert t == name && t[..4] == name;
    assert Contains(t, name);
    assert s[3..][1..] == t;
    ContainsInTail(s[3..], name);
    assert s[2..][1..] == s[3..];
    ContainsInTail(s[2..], name);
    assert s[1..][1..] == s[2..];
    ContainsInTail(s[1..], name);
    ContainsInTail(s, name);
  }

  /** A family name contains itself and not the other family's name. */
  lemma NameLabel(name: string, other: string)
    requires |name| == 4 && |other| == 4 && (forall j :: 0 <= j < 4 ==> name[j] != other[0])
    ensures Contains(name, name) && !Contains(name, other)
  {
    assert name[..4] == name;
    FirstCharMissing(name, other);
  }

  /** "PRE-" followed by a family name contains that name and not the other. */
  lemma PrefixedLabel(s: string, name: string, other: string)
    requires |name| == 4 && |other| == 4 && s == "PRE-" + name
    requires forall j :: 0 <= j < |s| ==> s[j] != other[0]
    ensures Contains(s, name) && !Contains(s, other)
  {
    PrefixedContains(s, name);
    FirstCharMissing(s, other);
  }

  /** `"COOL" in mode` holds exactly for COOL and PRE-COOL, `"HEAT" in mode`
      exactly for HEAT and PRE-HEAT. */
  lemma LabelFamilies(m: Mode)
    ensures Contains(Label(m), "COOL") <==> IsCoolFamily(m)
    ensures Contains(Label(m), "HEAT") <==> IsHeatFamily(m)
  {
    CoolLabels(m);
    HeatLabels(m);
  }

  lemma CoolLabels(m: Mode)
    ensures Contains(Label(m), "COOL") <==> IsCoolFamily(m)
  {
    match m
    case Off =>
    case Heat => NameLabel(Label(m), "COOL");
    case Cool => NameLabel(Label(m), "HEAT");
    case PreHeat => PrefixedLabel(Label(m), "HEAT", "COOL");
    case PreCool => PrefixedLabel(Label(m), "COOL", "HEAT");
  }

  lemma HeatLabels(m: Mode)
    ensures Contains(Label(m), "HEAT") <==> IsHeatFamily(m)
  {
    match m
    case Off =>
    case Heat => NameLabel(Label(m), "COOL");
    case Cool => NameLabel(Label(m), "HEAT");
    case PreHeat => PrefixedLabel(Label(m), "HEAT", "COOL");
    case PreCool => PrefixedLabel(Label(m), "COOL", "HEAT");
  }

  // ------------------------------------------------------------------
  // House model
  // ------------------------------------------------------------------

  /** The fields SmartHVACModel.__init__ sets; they never change afterwards. */
  datatype ThermalModel = ThermalModel(
    area: real, ceilingHeight: real, volume: real, setpoint: real, hvacPower: real,
    uVal: real, cHome: real)

  /** U-value per insulation quality, compared after lower-casing. */
  function UValue(quality: string): (u: real)
    ensures Lower(quality) == "poor" ==> u == 1.5
    ensures Lower(quality) == "excellent" ==> u == 0.2
    ensures Lower(quality) != "poor" && Lower(quality) != "excellent" ==> u == 0.5
  {
    var q := Lower(quality);
    if q == "poor" then 1.5 else if q == "excellent" then 0.2 else 0.5
  }

  /** SmartHVACModel.__init__: `homeSize` is the parsed "home_size" entry
      (default 100), `insulation` the "insulation_quality" entry (default
      "average"), and `drawnSetpoint` the value random.randint(20, 24) drew. */
  function NewModel(homeSize: Option<real>, insulation: Option<string>, drawnSetpoint: int): (m: ThermalModel)
    requires 20 <= drawnSetpoint <= 24
    ensures m.volume == m.area * 2.5
    ensures m.cHome == m.volume * AirDensity * CpAir * 5.0
    ensures 20.0 <= m.setpoint <= 24.0 && m.hvacPower == 3500.0
    ensures m.setpoint == drawnSetpoint as real
    ensures m.ceilingHeight == 2.5
    ensures homeSize.None? ==> m.area == 100.0
    ensures homeSize.Some? ==> m.area == homeSize.value
    ensures m.uVal == UValue(match insulation case Some(q) => q case None => "average")
  {
    var area := match homeSize case Some(a) => a case None => 100.0;
    var volume := area * 2.5;
    var quality := match insulation case Some(q) => q case None => "average";
    var massAir := volume * AirDensity;
    ThermalModel(area, 2.5, volume, drawnSetpoint as real, 3500.0, UValue(quality), massAir * CpAir * 5.0)
  }

  /** The lumped heat capacity is positive exactly when the floor area is. */
  lemma HeatCapacitySign(homeSize: Option<real>, insulation: Option<string>, drawnSetpoint: int)
    requires 20 <= drawnSetpoint <= 24
    ensures var m := NewModel(homeSize, insulation, drawnSetpoint);
            (m.cHome > 0.0 <==> m.area > 0.0) && (m.cHome == 0.0 <==> m.area == 0.0)
  {
    var m := NewModel(homeSize, insulation, drawnSetpoint);
    assert m.volume * AirDensity == m.area * 3.0625;
    assert m.cHome == m.area * 3.0625 * 5025.0;
  }

  /** HVAC heat flow of a mode: cooling for the cool family, heating for
      the heat family, nothing when OFF. */
  function HvacHeat(m: ThermalModel, mode: Mode): real
  {
    if IsCoolFamily(mode) then -m.hvacPower
    else if IsHeatFamily(mode) then m.hvacPower
    else 0.0
  }

  /** The source picks the flow by testing the mode name for the substrings
      "COOL" and then "HEAT"; that test selects the same flow as HvacHeat. */
  lemma HvacHeatBySubstring(m: ThermalModel, mode: Mode)
    ensures HvacHeat(m, mode) == if Contains(Label(mode), "COOL") then -m.hvacPower
                                 else if Contains(Label(mode), "HEAT") then m.hvacPower
                                 else 0.0
    ensures mode == Off ==> HvacHeat(m, mode) == 0.0
  {
    LabelFamilies(mode);
  }

  /** calculate_next_temp: one minute of conduction, solar gain through 15 %
      of the floor area and the mode's HVAC flow. */
  function CalculateNextTemp(m: ThermalModel, tIn: real, tOut: real, solar: real, mode: Mode): (t: real)
    requires m.cHome != 0.0
    ensures tOut == tIn && solar == 0.0 && mode == Off ==> t == tIn
  {
    var qCond := m.uVal * m.area * (tOut - tIn);
    var qSolar := (m.area * 0.15) * 0.5 * solar;
    var qTotal := qCond + qSolar + HvacHeat(m, mode);
    tIn + (qTotal * StepSeconds) / m.cHome
  }

  /** A running mode moves the next temperature by exactly its HVAC flow
      over one step, relative to OFF. */
  lemma ModeShiftsNextTemp(m: ThermalModel, tIn: real, tOut: real, solar: real, mode: Mode)
    requires m.cHome != 0.0
    ensures CalculateNextTemp(m, tIn, tOut, solar, mode) - CalculateNextTemp(m, tIn, tOut, solar, Off)
            == HvacHeat(m, mode) * StepSeconds / m.cHome
  {
    var q := m.uVal * m.area * (tOut - tIn) + (m.area * 0.15) * 0.5 * solar;
    SharedPartCancels(q, HvacHeat(m, mode), m.cHome);
  }

  lemma SharedPartCancels(q: real, h: real, c: real)
    requires c != 0.0
    ensures (q + h) * StepSeconds / c - (q + 0.0) * StepSeconds / c == h * StepSeconds / c
  {
    assert (q + h) * StepSeconds == q * StepSeconds + h * StepSeconds;
  }

  // ------------------------------------------------------------------
  // Decision
  // ------------------------------------------------------------------

  /** A mode may not change yet: running for fewer than 15 samples, or OFF
      for fewer than 10. */
  predicate Locked(mode: Mode, minutes: int)
  {
    (mode != Off && minutes < MinRunTime) || (mode == Off && minutes < MinOffTime)
  }

  /** Steps 2 of the loop: lockout, then from OFF the reactive modes before
      the predictive ones, and from a running mode only a stop to OFF once
      the setpoint is reached. */
  function NextMode(current: Mode, minutes: int, temp: real, setpoint: real, predicted: real): (r: Mode)
    ensures Locked(current, minutes) ==> r == current
    ensures current != Off ==> r == current || r == Off
    ensures current != Off && !Locked(current, minutes) && IsCoolFamily(current) ==> (r == Off <==> temp <= setpoint)
    ensures current != Off && !Locked(current, minutes) && IsHeatFamily(current) ==> (r == Off <==> temp >= setpoint)
    ensures current == Off && !Locked(current, minutes) ==>
              && (r == Cool <==> temp > setpoint + Deadband)
              && (r == Heat <==> temp < setpoint - Deadband)
              && (r == PreCool <==> setpoint - Deadband <= temp <= setpoint + Deadband
                                    && predicted > setpoint + Deadband + 0.5)
              && (r == PreHeat <==> setpoint - Deadband <= temp <= setpoint + Deadband
                                    && !(predicted > setpoint + Deadband + 0.5)
                                    && predicted < setpoint - Deadband - 0.5)
  {
    if Locked(current, minutes) then current
    else if current == Off then
      if temp > setpoint + Deadband then Cool
      else if temp < setpoint - Deadband then Heat
      else if predicted > setpoint + Deadband + 0.5 then PreCool
      else if predicted < setpoint - Deadband - 0.5 then PreHeat
      else Off
    else if IsCoolFamily(current) && temp <= setpoint then Off
    else if IsHeatFamily(current) && temp >= setpoint then Off
    else current
  }

  // ------------------------------------------------------------------
  // Prediction
  // ------------------------------------------------------------------

  /** One minute of weather: the date ("%Y-%m-%d") and time ("%H:%M") of its
      timestamp, the outdoor temperature and the solar radiation. */
  datatype Sample = Sample(date: string, time: string, tempOut: real, solar: real)

  /** OFF-mode steps over samples k, k+5, ... below `limit`, from `temp`. */
  function PredictFrom(m: ThermalModel, samples: seq<Sample>, k: nat, limit: nat, temp: real): real
    requires m.cHome != 0.0 && limit <= |samples|
    decreases limit - k
  {
    if k >= limit then temp
    else PredictFrom(m, samples, k + PredictStride, limit,
                     CalculateNextTemp(m, temp, samples[k].tempOut, samples[k].solar, Off))
  }

  /** Number of model steps the prediction takes. */
  function PredictSteps(k: nat, limit: nat): nat
    decreases limit - k
  {
    if k >= limit then 0 else 1 + PredictSteps(k + PredictStride, limit)
  }

  lemma {:induction false} PredictStepsBound(k: nat, limit: nat)
    ensures PredictSteps(k, limit) * PredictStride < limit - k + PredictStride || k >= limit
    decreases limit - k
  {
    if k < limit && k + PredictStride < limit {
      PredictStepsBound(k + PredictStride, limit);
    }
  }

  function LookAheadLimit(i: nat, n: nat): nat
  {
    if i + PredictWindow < n then i + PredictWindow else n
  }

  /** The prediction of sample i takes at most 12 model steps. */
  lemma PredictionAtMostTwelveSteps(i: nat, n: nat)
    ensures PredictSteps(i, LookAheadLimit(i, n)) <= 12
  {
    PredictStepsBound(i, LookAheadLimit(i, n));
  }

  /** In a window where outside equals the current temperature and there is
      no sun, the prediction is the current temperature. */
  lemma {:induction false} PredictionAtEquilibrium(m: ThermalModel, samples: seq<Sample>, k: nat, limit: nat, temp: real)
    requires m.cHome != 0.0 && limit <= |samples|
    requires forall j :: k <= j < limit ==> samples[j].tempOut == temp && samples[j].solar == 0.0
    ensures PredictFrom(m, samples, k, limit, temp) == temp
    decreases limit - k
  {
    if k < limit {
      PredictionAtEquilibrium(m, samples, k + PredictStride, limit, temp);
    }
  }

  /** Step 1 of the loop: the look-ahead prediction for sample i. */
  method Predict(m: ThermalModel, samples: seq<Sample>, i: nat, currentTemp: real) returns (pred: real, ghost steps: nat)
    requires m.cHome != 0.0 && i < |samples|
    ensures pred == PredictFrom(m, samples, i, LookAheadLimit(i, |samples|), currentTemp)
    ensures steps == PredictSteps(i, LookAheadLimit(i, |samples|)) && steps <= 12
  {
    pred := currentTemp;
    steps := 0;
    var limit := LookAheadLimit(i, |samples|);
    var k := i;
    while k < limit
      invariant PredictFrom(m, samples, k, limit, pred) == PredictFrom(m, samples, i, limit, currentTemp)
      invariant steps + PredictSteps(k, limit) == PredictSteps(i, limit)
      decreases limit - k
    {
      pred := CalculateNextTemp(m, pred, samples[k].tempOut, samples[k].solar, Off);
      k := k + PredictStride;
      steps := steps + 1;
    }
    PredictionAtMostTwelveSteps(i, |samples|);
  }

  // ------------------------------------------------------------------
  // Control loop
  // ------------------------------------------------------------------

  /** One row of the schedule. */
  datatype ScheduleRow = ScheduleRow(
    date: string, startTime: string, stopTime: string,
    outsideTemp: real, insideTemp: real, setpoint: real, mode: Mode)

  /** The loop's variables after some samples, with the sample indices at
      which each emitted row started and stopped. */
  datatype LoopState = LoopState(
    temp: real, mode: Mode, minutes: int, blockStart: nat,
    blockIn: seq<real>, blockOut: seq<real>,
    rows: seq<ScheduleRow>, rowStarts: seq<nat>, rowEnds: seq<nat>)

  function InitialState(m: ThermalModel): LoopState
  {
    LoopState(m.setpoint, Off, 0, 0, [], [], [], [], [])
  }

  /** Closing the current block at sample i: its row is appended and a new
      block holding `newMode` starts at i with the new temperature. */
  function CloseBlock(m: ThermalModel, samples: seq<Sample>, i: nat, st: LoopState, temp: real, newMode: Mode): LoopState
    requires i < |samples| && st.blockStart < |samples|
  {
    var s := samples[i];
    var start := samples[st.blockStart];
    var row := ScheduleRow(start.date, start.time, s.time, MeanOr(st.blockOut, s.tempOut),
                           MeanOr(st.blockIn, temp), m.setpoint, st.mode);
    LoopState(temp, newMode, 1, i, [temp], [s.tempOut],
              st.rows + [row], st.rowStarts + [st.blockStart], st.rowEnds + [i])
  }

  /** Sample i stays in the current block. */
  function ExtendBlock(samples: seq<Sample>, i: nat, st: LoopState, temp: real): LoopState
    requires i < |samples|
  {
    LoopState(temp, st.mode, st.minutes + 1, st.blockStart, st.blockIn + [temp], st.blockOut + [samples[i].tempOut],
              st.rows, st.rowStarts, st.rowEnds)
  }

  /** One iteration of the loop for sample i: predict, decide, advance the
      temperature, and close the block on a mode change or at the last
      sample. */
  function Step(m: ThermalModel, samples: seq<Sample>, i: nat, st: LoopState): LoopState
    requires m.cHome != 0.0 && i < |samples| && st.blockStart < |samples|
  {
    var pred := PredictFrom(m, samples, i, LookAheadLimit(i, |samples|), st.temp);
    var newMode := NextMode(st.mode, st.minutes, st.temp, m.setpoint, pred);
    var temp := CalculateNextTemp(m, st.temp, samples[i].tempOut, samples[i].solar, newMode);
    if newMode != st.mode || i == |samples| - 1 then CloseBlock(m, samples, i, st, temp, newMode)
    else ExtendBlock(samples, i, st, temp)
  }

  /** The loop state after the first i samples. */
  function StateAfter(m: ThermalModel, samples: seq<Sample>, i: nat): (st: LoopState)
    requires m.cHome != 0.0 && i <= |samples| && |samples| > 0
    ensures st.blockStart < |samples|
  {
    if i == 0 then InitialState(m)
    else Step(m, samples, i - 1, StateAfter(m, samples, i - 1))
  }

  /** Step 2 of the loop: the lockout check and the mode decision. */
  method DecideMode(currentMode: Mode, minutesInCurrentState: int, currentTemp: real, setpoint: real,
                    predTemp: real) returns (newMode: Mode)
    ensures newMode == NextMode(currentMode, minutesInCurrentState, currentTemp, setpoint, predTemp)
  {
    LabelFamilies(currentMode);
    newMode := currentMode;
    var isLocked := false;
    if currentMode != Off && minutesInCurrentState < MinRunTime {
      isLocked := true;
    } else if currentMode == Off && minutesInCurrentState < MinOffTime {
      isLocked := true;
    }
    if !isLocked {
      if currentMode == Off {
        if currentTemp > setpoint + Deadband {
          newMode := Cool;
        } else if currentTemp < setpoint - Deadband {
          newMode := Heat;
        } else {
          if predTemp > setpoint + Deadband + 0.5 {
            newMode := PreCool;
          } else if predTemp < setpoint - Deadband - 0.5 {
            newMode := PreHeat;
          }
        }
      } else {
        if Contains(Label(currentMode), "COOL") && currentTemp <= setpoint {
          newMode := Off;
        } else if Contains(Label(currentMode), "HEAT") && currentTemp >= setpoint {
          newMode := Off;
        }
      }
    }
  }

  /** The control loop of generate_schedule for one house; `samples` is the
      minute-resolution weather (an empty series makes the source fail on
      its first row, so it is excluded). */
  method GenerateSchedule(m: ThermalModel, samples: seq<Sample>) returns (rows: seq<ScheduleRow>)
    requires m.cHome != 0.0 && |samples| > 0
    ensures rows == StateAfter(m, samples, |samples|).rows
  {
    rows := [];
    var currentTemp := m.setpoint;
    var currentMode := Off;
    var blockStart: nat := 0;
    var blockTempsIn: seq<real> := [];
    var blockTempsOut: seq<real> := [];
    var minutesInCurrentState := 0;
    ghost var rowStarts: seq<nat> := [];
    ghost var rowEnds: seq<nat> := [];
    var n := |samples|;
    for i := 0 to n
      invariant LoopState(currentTemp, currentMode, minutesInCurrentState, blockStart, blockTempsIn,
                          blockTempsOut, rows, rowStarts, rowEnds) == StateAfter(m, samples, i)
    {
      ghost var before := StateAfter(m, samples, i);
      assert StateAfter(m, samples, i + 1) == Step(m, samples, i, before);
      var s := samples[i];
      var predTemp, _ := Predict(m, samples, i, currentTemp);
      var newMode := DecideMode(currentMode, minutesInCurrentState, currentTemp, m.setpoint, predTemp);
      currentTemp := CalculateNextTemp(m, currentTemp, s.tempOut, s.solar, newMode);
      ghost var closing := newMode != currentMode || i == n - 1;
      if newMode != currentMode || i == n - 1 {
        assert StateAfter(m, samples, i + 1) == CloseBlock(m, samples, i, before, currentTemp, newMode);
        var avgIn := if |blockTempsIn| > 0 then Sum(blockTempsIn) / (|blockTempsIn| as real) else currentTemp;
        var avgOut := if |blockTempsOut| > 0 then Sum(blockTempsOut) / (|blockTempsOut| as real) else s.tempOut;
        assert avgIn == MeanOr(blockTempsIn, currentTemp) && avgOut == MeanOr(blockTempsOut, s.tempOut);
        var start := samples[blockStart];
        rows := rows + [ScheduleRow(start.date, start.time, s.time, avgOut, avgIn, m.setpoint, currentMode)];
        rowStarts := rowStarts + [blockStart];
        rowEnds := rowEnds + [i];
        currentMode := newMode;
        blockStart := i;
        blockTempsIn := [];
        blockTempsOut := [];
        minutesInCurrentState := 0;
      } else {
        assert StateAfter(m, samples, i + 1) == ExtendBlock(samples, i, before, currentTemp);
      }
      blockTempsIn := blockTempsIn + [currentTemp];
      blockTempsOut := blockTempsOut + [s.tempOut];
      minutesInCurrentState := minutesInCurrentState + 1;
      if closing {
        assert blockTempsIn == [currentTemp] && blockTempsOut == [s.tempOut];
      }
    }
  }

  // ------------------------------------------------------------------
  // Properties of the schedule
  // ------------------------------------------------------------------

  /** Outdoor temperatures of a stretch of samples. */
  function OutTemps(samples: seq<Sample>): (r: seq<real>)
    ensures |r| == |samples|
    ensures forall j :: 0 <= j < |r| ==> r[j] == samples[j].tempOut
  {
    seq(|samples|, j requires 0 <= j < |samples| => samples[j].tempOut)
  }

  /** Rows k and k+1 are consecutive blocks: they meet, their modes differ,
      and a running block is always followed by OFF. */
  ghost predicate Adjacent(st: LoopState, k: nat)
    requires k + 1 < |st.rows| == |st.rowStarts| == |st.rowEnds|
  {
    && st.rowEnds[k] == st.rowStarts[k + 1]
    && st.rows[k].mode != st.rows[k + 1].mode
    && (st.rows[k].mode != Off ==> st.rows[k + 1].mode == Off)
  }

  /** Row k covers samples [rowStarts[k], rowEnds[k]) and was closed by a
      mode change after the lockout expired. */
  ghost predicate ClosedBlock(samples: seq<Sample>, st: LoopState, k: nat)
    requires k < |st.rows| == |st.rowStarts| == |st.rowEnds|
  {
    && st.rowStarts[k] < st.rowEnds[k] < |samples|
    && st.rowEnds[k] - st.rowStarts[k] >= (if st.rows[k].mode == Off then MinOffTime else MinRunTime)
    && st.rows[k].date == samples[st.rowStarts[k]].date
    && st.rows[k].startTime == samples[st.rowStarts[k]].time
    && st.rows[k].stopTime == samples[st.rowEnds[k]].time
    && st.rows[k].outsideTemp == MeanOr(OutTemps(samples[st.rowStarts[k]..st.rowEnds[k]]), 0.0)
  }

  /** What holds after i < n samples, before the final sample forces a row. */
  ghost predicate Consistent(m: ThermalModel, samples: seq<Sample>, i: nat, st: LoopState)
  {
    && i < |samples|
    && |st.rows| == |st.rowStarts| == |st.rowEnds|
    && st.blockStart <= i
    && st.minutes == i - st.blockStart
    && st.blockOut == OutTemps(samples[st.blockStart..i])
    && |st.blockIn| == i - st.blockStart
    && (|st.rows| == 0 ==> st.blockStart == 0)
    && (|st.rows| > 0 ==> && st.rowStarts[0] == 0
                          && st.rowEnds[|st.rows| - 1] == st.blockStart
                          && st.rows[|st.rows| - 1].mode != st.mode
                          && (st.rows[|st.rows| - 1].mode != Off ==> st.mode == Off))
    && (forall k :: 0 <= k < |st.rows| - 1 ==> Adjacent(st, k))
    && (forall k :: 0 <= k < |st.rows| ==> ClosedBlock(samples, st, k))
  }

  lemma CloseKeepsConsistent(m: ThermalModel, samples: seq<Sample>, i: nat, st: LoopState, temp: real, newMode: Mode)
    requires i + 1 < |samples| && Consistent(m, samples, i, st)
    requires newMode != st.mode && !Locked(st.mode, st.minutes)
    requires st.mode != Off ==> newMode == Off
    ensures Consistent(m, samples, i + 1, CloseBlock(m, samples, i, st, temp, newMode))
  {
    var st' := CloseBlock(m, samples, i, st, temp, newMode);
    var k := |st.rows|;
    forall j | 0 <= j < k ensures ClosedBlock(samples, st', j) {
      assert st'.rows[j] == st.rows[j] && st'.rowStarts[j] == st.rowStarts[j] && st'.rowEnds[j] == st.rowEnds[j];
      assert ClosedBlock(samples, st, j);
    }
    assert ClosedBlock(samples, st', k);
    forall j | 0 <= j < k ensures Adjacent(st', j) {
      assert st'.rows[j] == st.rows[j] && st'.rowEnds[j] == st.rowEnds[j];
      if j < k - 1 {
        assert Adjacent(st, j);
      }
    }
    assert samples[i..i + 1] == [samples[i]];
  }

  lemma ExtendKeepsConsistent(m: ThermalModel, samples: seq<Sample>, i: nat, st: LoopState, temp: real)
    requires i + 1 < |samples| && Consistent(m, samples, i, st)
    ensures Consistent(m, samples, i + 1, ExtendBlock(samples, i, st, temp))
  {
    var st' := ExtendBlock(samples, i, st, temp);
    assert samples[st.blockStart..i + 1] == samples[st.blockStart..i] + [samples[i]];
    forall k | 0 <= k < |st.rows| ensures ClosedBlock(samples, st', k) {
      assert ClosedBlock(samples, st, k);
    }
    forall k | 0 <= k < |st.rows| - 1 ensures Adjacent(st', k) {
      assert Adjacent(st, k);
    }
  }

  lemma StepKeepsConsistent(m: ThermalModel, samples: seq<Sample>, i: nat, st: LoopState)
    requires m.cHome != 0.0 && i + 1 < |samples|
    requires Consistent(m, samples, i, st)
    ensures Consistent(m, samples, i + 1, Step(m, samples, i, st))
  {
    var pred := PredictFrom(m, samples, i, LookAheadLimit(i, |samples|), st.temp);
    var newMode := NextMode(st.mode, st.minutes, st.temp, m.setpoint, pred);
    var temp := CalculateNextTemp(m, st.temp, samples[i].tempOut, samples[i].solar, newMode);
    if newMode != st.mode {
      CloseKeepsConsistent(m, samples, i, st, temp, newMode);
    } else {
      ExtendKeepsConsistent(m, samples, i, st, temp);
    }
  }

  /** The invariant for the loop state after the first i samples. */
  ghost predicate ConsistentAt(m: ThermalModel, samples: seq<Sample>, i: nat)
    requires m.cHome != 0.0 && i < |samples|
  {
    Consistent(m, samples, i, StateAfter(m, samples, i))
  }

  lemma ConsistentAtStart(m: ThermalModel, samples: seq<Sample>)
    requires m.cHome != 0.0 && |samples| > 0
    ensures ConsistentAt(m, samples, 0)
  {
    assert samples[0..0] == [];
    assert OutTemps(samples[0..0]) == [];
  }

  lemma ConsistentStep(m: ThermalModel, samples: seq<Sample>, i: nat)
    requires m.cHome != 0.0 && 0 < i < |samples|
    requires ConsistentAt(m, samples, i - 1)
    ensures ConsistentAt(m, samples, i)
  {
    var prev := StateAfter(m, samples, i - 1);
    StepKeepsConsistent(m, samples, i - 1, prev);
    StateAfterStep(m, samples, i);
    ConsistentSame(m, samples, i - 1 + 1, i, Step(m, samples, i - 1, prev), StateAfter(m, samples, i));
  }

  lemma StateAfterStep(m: ThermalModel, samples: seq<Sample>, i: nat)
    requires m.cHome != 0.0 && 0 < i <= |samples|
    ensures StateAfter(m, samples, i) == Step(m, samples, i - 1, StateAfter(m, samples, i - 1))
  {
  }

  /** Restating the invariant for equal indices and equal states. */
  lemma ConsistentSame(m: ThermalModel, samples: seq<Sample>, i: nat, j: nat, a: LoopState, b: LoopState)
    requires i == j && a == b
    ensures Consistent(m, samples, i, a) ==> Consistent(m, samples, j, b)
  {
  }

  lemma {:induction false} ConsistentBeforeLastSample(m: ThermalModel, samples: seq<Sample>, i: nat)
    requires m.cHome != 0.0 && i < |samples|
    ensures Consistent(m, samples, i, StateAfter(m, samples, i))
  {
    ConsistentUpTo(m, samples, i);
  }

  lemma {:induction false} ConsistentUpTo(m: ThermalModel, samples: seq<Sample>, i: nat)
    requires m.cHome != 0.0 && i < |samples|
    ensures ConsistentAt(m, samples, i)
  {
    if i == 0 {
      ConsistentAtStart(m, samples);
    } else {
      ConsistentUpTo(m, samples, i - 1);
      ConsistentStep(m, samples, i);
    }
  }

  /** The schedule is a sequence of blocks that tile the samples from the
      first to the last: each block but the last was closed by a mode change
      after its lockout (at least 15 samples for a running mode, 10 for OFF),
      consecutive blocks have different modes, a running block is followed
      by OFF, and each row carries its block's start and stop times and mean
      outdoor temperature. */
  lemma ScheduleBlocks(m: ThermalModel, samples: seq<Sample>)
    requires m.cHome != 0.0 && |samples| > 0
    ensures var st := StateAfter(m, samples, |samples|);
            && |st.rows| == |st.rowStarts| == |st.rowEnds| > 0
            && st.rowStarts[0] == 0
            && st.rowEnds[|st.rows| - 1] == |samples| - 1
            && (forall k :: 0 <= k < |st.rows| - 1 ==> Adjacent(st, k) && ClosedBlock(samples, st, k))
  {
    var st0 := StateAfter(m, samples, |samples| - 1);
    ConsistentBeforeLastSample(m, samples, |samples| - 1);
    StateAfterStep(m, samples, |samples|);
    var pred := PredictFrom(m, samples, |samples| - 1, LookAheadLimit(|samples| - 1, |samples|), st0.temp);
    var newMode := NextMode(st0.mode, st0.minutes, st0.temp, m.setpoint, pred);
    var temp := CalculateNextTemp(m, st0.temp, samples[|samples| - 1].tempOut, samples[|samples| - 1].solar, newMode);
    assert Step(m, samples, |samples| - 1, st0) == CloseBlock(m, samples, |samples| - 1, st0, temp, newMode);
    LastCloseKeepsBlocks(m, samples, st0, temp, newMode, StateAfter(m, samples, |samples|));
  }

  /** The row forced by the last sample keeps the earlier rows closed and
      adjacent, and the last of them meets it. */
  lemma LastCloseKeepsBlocks(m: ThermalModel, samples: seq<Sample>, st0: LoopState, temp: real, newMode: Mode,
                             st: LoopState)
    requires |samples| > 0 && Consistent(m, samples, |samples| - 1, st0)
    requires st == CloseBlock(m, samples, |samples| - 1, st0, temp, newMode)
    ensures && |st.rows| == |st.rowStarts| == |st.rowEnds| > 0
            && st.rowStarts[0] == 0
            && st.rowEnds[|st.rows| - 1] == |samples| - 1
            && (forall k :: 0 <= k < |st.rows| - 1 ==> Adjacent(st, k) && ClosedBlock(samples, st, k))
  {
    var k := |st0.rows|;
    forall j | 0 <= j < k ensures Adjacent(st, j) && ClosedBlock(samples, st, j) {
      assert st.rows[j] == st0.rows[j] && st.rowStarts[j] == st0.rowStarts[j] && st.rowEnds[j] == st0.rowEnds[j];
      assert ClosedBlock(samples, st0, j);
      if j < k - 1 {
        assert Adjacent(st0, j);
        assert st.rows[j + 1] == st0.rows[j + 1] && st.rowStarts[j + 1] == st0.rowStarts[j + 1];
      }
    }
  }
}
