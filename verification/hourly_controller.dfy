/** The standalone hourly prototype (model/model.py): the "key: value"
    house-file parser, the lumped-capacitance thermal model with its
    look-ahead heat-pump controller, and the collapse of the hourly log into
    contiguous ON intervals. File access, pandas and float parsing are outside
    the model: file contents and already-parsed numbers are parameters. */
module SmartHvac {
  import opened Common

  // ------------------------------------------------------------------
  // House-variables file
  // ------------------------------------------------------------------

  /** The characters Python's `str.splitlines` breaks on. */
  predicate IsLineBreak(c: char)
  {
    var n := c as int;
    10 <= n <= 13 || 28 <= n <= 30 || n == 0x85 || n == 0x2028 || n == 0x2029
  }

  /** Index of the first line break, or |s| when there is none. */
  function FirstBreak(s: string): (k: nat)
    ensures k <= |s|
    ensures forall j :: 0 <= j < k ==> !IsLineBreak(s[j])
    ensures k < |s| ==> IsLineBreak(s[k])
  {
    if s == [] || IsLineBreak(s[0]) then 0 else 1 + FirstBreak(s[1..])
  }

  /** `text.splitlines()`, except that "\r\n" yields an extra empty line; an
      empty line has no colon, so the parsed variables are the same. */
  function SplitLines(s: string): (r: seq<string>)
    ensures forall i, j :: 0 <= i < |r| && 0 <= j < |r[i]| ==> !IsLineBreak(r[i][j])
    decreases |s|
  {
    if s == [] then []
    else
      var k := FirstBreak(s);
      if k == |s| then [s] else [s[..k]] + SplitLines(s[k + 1..])
  }

  /** Index of the first colon, or |s| when there is none. */
  function FirstColon(s: string): (p: nat)
    ensures p <= |s|
    ensures forall j :: 0 <= j < p ==> s[j] != ':'
    ensures p < |s| ==> s[p] == ':'
  {
    if s == [] || s[0] == ':' then 0 else 1 + FirstColon(s[1..])
  }

  /** `p` is the index of the first colon of `line`. */
  predicate IsFirstColon(line: string, p: int)
  {
    0 <= p < |line| && line[p] == ':' && forall j :: 0 <= j < p ==> line[j] != ':'
  }

  /** `re.match(r"\s*([^:]+)\s*:\s*(.+)$", line)` followed by stripping both
      groups: the line matches when its first colon has at least one
      character before it and at least one after it. */
  function ParseLine(line: string): (r: Option<(string, string)>)
    ensures r.Some? <==> exists p :: IsFirstColon(line, p) && 0 < p < |line| - 1
    ensures r.Some? ==> exists p :: IsFirstColon(line, p) && 0 < p < |line| - 1
                                    && r.value == (Strip(line[..p]), Strip(line[p + 1..]))
    ensures ':' !in line ==> r.None?
  {
    var p := FirstColon(line);
    if 0 < p && p + 1 < |line| then
      assert IsFirstColon(line, p);
      Some((Strip(line[..p]), Strip(line[p + 1..])))
    else
      None
  }

  /** The value the dictionary ends with for `key`: the one from the LAST
      line that parses to that key. */
  function Assigned(lines: seq<string>, key: string): Option<string>
  {
    if lines == [] then None
    else
      match ParseLine(lines[|lines| - 1])
      case Some(kv) => if kv.0 == key then Some(kv.1) else Assigned(lines[..|lines| - 1], key)
      case None => Assigned(lines[..|lines| - 1], key)
  }

  /** The text used when the file does not exist. */
  const DefaultHouseText: string :=
    "home_size: 123\ninsulation_quality: good\nhvac_type: heat_pump\noccupancy_start: 123\noccupancy_end: 123\n"

  /** read_house_variables: `fileText` is the file's content, None when the
      file does not exist. Every parsed line sets its key, later lines
      overriding earlier ones. */
  method ReadHouseVariables(fileText: Option<string>) returns (vars: map<string, string>)
    ensures var lines := SplitLines(OrElse(fileText, DefaultHouseText));
            forall key :: (key in vars <==> Assigned(lines, key).Some?)
                          && (key in vars ==> vars[key] == Assigned(lines, key).value)
  {
    var txt := OrElse(fileText, DefaultHouseText);
    var lines := SplitLines(txt);
    vars := map[];
    for i := 0 to |lines|
      invariant BuiltFrom(vars, lines[..i])
    {
      ghost var before := vars;
      var m := ParseLine(lines[i]);
      if m.Some? {
        vars := vars[m.value.0 := m.value.1];
      }
      BuiltFromSnoc(before, vars, lines, i);
    }
    assert lines[..|lines|] == lines;
  }

  /** `vars` is the dictionary that parsing `lines` in order builds. */
  ghost predicate BuiltFrom(vars: map<string, string>, lines: seq<string>)
  {
    forall key :: (key in vars <==> Assigned(lines, key).Some?)
                  && (key in vars ==> vars[key] == Assigned(lines, key).value)
  }

  lemma BuiltFromSnoc(before: map<string, string>, after: map<string, string>, lines: seq<string>, i: nat)
    requires i < |lines| && BuiltFrom(before, lines[..i])
    requires var m := ParseLine(lines[i]); after == if m.Some? then before[m.value.0 := m.value.1] else before
    ensures BuiltFrom(after, lines[..i + 1])
  {
    var pre, line := lines[..i], lines[i];
    var m := ParseLine(line);
    assert lines[..i + 1] == pre + [line];
    AssignedSnoc(pre, line);
    forall key
      ensures (key in after <==> Assigned(pre + [line], key).Some?)
              && (key in after ==> after[key] == Assigned(pre + [line], key).value)
    {
      if m.Some? && m.value.0 == key {
        assert Assigned(pre + [line], key) == Some(m.value.1);
      } else {
        assert Assigned(pre + [line], key) == Assigned(pre, key);
      }
    }
  }

  lemma AssignedSnoc(lines: seq<string>, line: string)
    ensures forall key :: Assigned(lines + [line], key)
                          == if ParseLine(line).Some? && ParseLine(line).value.0 == key
                             then Some(ParseLine(line).value.1) else Assigned(lines, key)
  {
    assert (lines + [line])[..|lines|] == lines;
  }

  /** A line that parses to `key` decides the value when no later line
      parses to the same key. */
  lemma {:induction false} LastAssignmentWins(lines: seq<string>, i: nat, key: string, value: string)
    requires i < |lines| && ParseLine(lines[i]) == Some((key, value))
    requires forall j :: i < j < |lines| ==> ParseLine(lines[j]).None? || ParseLine(lines[j]).value.0 != key
    ensures Assigned(lines, key) == Some(value)
    decreases |lines|
  {
    if i < |lines| - 1 {
      var init := lines[..|lines| - 1];
      assert init[i] == lines[i];
      LastAssignmentWins(init, i, key, value);
    }
  }

  /** A line without a colon leaves every key as it was. */
  lemma LineWithoutColonIgnored(lines: seq<string>, line: string, key: string)
    requires ':' !in line
    ensures Assigned(lines + [line], key) == Assigned(lines, key)
  {
    assert (lines + [line])[..|lines|] == lines;
  }

  /** A key is only ever assigned from some line that parses to it. */
  lemma {:induction false} AssignedComesFromALine(lines: seq<string>, key: string)
    requires Assigned(lines, key).Some?
    ensures exists i :: 0 <= i < |lines| && ParseLine(lines[i]) == Some((key, Assigned(lines, key).value))
    decreases |lines|
  {
    var last := lines[|lines| - 1];
    var init := lines[..|lines| - 1];
    var parsed := ParseLine(last);
    if parsed.Some? && parsed.value.0 == key {
      assert Assigned(lines, key) == Some(parsed.value.1);
      assert ParseLine(lines[|lines| - 1]) == Some((key, Assigned(lines, key).value));
    } else {
      assert Assigned(lines, key) == Assigned(init, key);
      AssignedComesFromALine(init, key);
      var i :| 0 <= i < |init| && ParseLine(init[i]) == Some((key, Assigned(init, key).value));
      assert lines[i] == init[i];
    }
  }

  // ------------------------------------------------------------------
  // Thermal model and controller
  // ------------------------------------------------------------------

  /** The entries of ASSUMPTIONS other than cop_func (see Cop). */
  datatype Assumptions = Assumptions(
    homeSizeM2: real, insulationQuality: string, uaPerM2Good: real, uaPerM2Poor: real,
    thermalMassJPerK: real, hvacMaxThermalW: real,
    occupiedSetpointC: real, unoccupiedSetbackC: real,
    occupancyStartHour: int, occupancyEndHour: int, timeStepSeconds: real)

  const DefaultAssumptions: Assumptions :=
    Assumptions(123.0, "good", 1.8, 2.5, 3000000.0, 5000.0, 20.0, 17.0, 7, 22, 3600.0)

  /** cop_func: heat-pump coefficient of performance at outdoor temperature
      `tout`, linear in the temperature with a floor of 1.5. */
  function Cop(tout: real): (c: real)
    ensures c >= 1.5
    ensures tout >= -40.0 ==> c == 3.0 + 0.03 * (tout - 10.0)
    ensures tout <= -40.0 ==> c == 1.5
  {
    Max(1.5, 3.0 + 0.03 * (tout - 10.0))
  }

  lemma CopMonotone(t1: real, t2: real)
    requires t1 <= t2
    ensures Cop(t1) <= Cop(t2)
  {
  }

  /** COP of a look-ahead row: a missing (NaN) temperature gives
      `max(1.5, nan)`, which Python evaluates to 1.5. */
  function FutureCop(tout: Option<real>): (c: real)
    ensures c >= 1.5
  {
    match tout case Some(t) => Cop(t) case None => 1.5
  }

  predicate IsOccupied(a: Assumptions, hour: int)
  {
    a.occupancyStartHour <= hour < a.occupancyEndHour
  }

  function Setpoint(a: Assumptions, hour: int): (sp: real)
    ensures IsOccupied(a, hour) ==> sp == a.occupiedSetpointC
    ensures !IsOccupied(a, hour) ==> sp == a.unoccupiedSetbackC
  {
    if IsOccupied(a, hour) then a.occupiedSetpointC else a.unoccupiedSetbackC
  }

  /** With the default assumptions the comfort setpoint holds exactly for
      the hours 7 to 21. */
  lemma DefaultOccupiedHours(hour: int)
    ensures Setpoint(DefaultAssumptions, hour) == 20.0 <==> 7 <= hour <= 21
    ensures Setpoint(DefaultAssumptions, hour) == 17.0 <==> (hour < 7 || hour > 21)
  {
  }

  /** UA per square metre: "good" when the lower-cased quality starts with "g". */
  function UaPerM2(a: Assumptions, insulation: string): (u: real)
    ensures |insulation| > 0 && (insulation[0] == 'g' || insulation[0] == 'G') ==> u == a.uaPerM2Good
    ensures (|insulation| == 0 || (insulation[0] != 'g' && insulation[0] != 'G')) ==> u == a.uaPerM2Poor
  {
    var q := Lower(insulation);
    if |q| > 0 && q[0] == 'g' then a.uaPerM2Good else a.uaPerM2Poor
  }

  /** Heating power (W) needed to reach the setpoint within one step, plus
      the term `max(0, -Q_loss)`, which is positive only when it is warmer
      outside than inside. */
  function RequiredPower(a: Assumptions, ua: real, tin: real, tout: real, setpoint: real): (p: real)
    requires a.timeStepSeconds != 0.0
    ensures a.timeStepSeconds > 0.0 ==> p >= 0.0
  {
    var energyNeeded := Max(0.0, a.thermalMassJPerK * (setpoint - tin));
    var powerNeeded := energyNeeded / a.timeStepSeconds;
    var qLoss := ua * (tin - tout);
    powerNeeded + Max(0.0, -qLoss)
  }

  datatype Decision = Decision(hvacOn: bool, thermalW: real, elecKw: real)

  /** The run-now-or-defer rule. The heat pump is considered only when the
      house is more than 0.05 degC below the setpoint; it then runs when the
      current COP is at least the look-ahead average or the required power
      exceeds 80 % of the maximum, delivering the required power up to the
      maximum. */
  function ControlDecision(a: Assumptions, ua: real, tin: real, tout: real, setpoint: real,
                           copNow: real, avgFutureCop: real): (d: Decision)
    requires a.timeStepSeconds != 0.0
    ensures d.hvacOn <==> tin < setpoint - 0.05
                          && (copNow >= avgFutureCop
                              || RequiredPower(a, ua, tin, tout, setpoint) > 0.8 * a.hvacMaxThermalW)
    ensures !d.hvacOn ==> d.thermalW == 0.0 && d.elecKw == 0.0
    ensures d.hvacOn ==> d.thermalW == Min(a.hvacMaxThermalW, RequiredPower(a, ua, tin, tout, setpoint))
    ensures a.timeStepSeconds > 0.0 && a.hvacMaxThermalW >= 0.0 ==> 0.0 <= d.thermalW <= a.hvacMaxThermalW
    ensures d.elecKw * 1000.0 * Max(copNow, 0.001) == d.thermalW
  {
    if tin < setpoint - 0.05 then
      var required := RequiredPower(a, ua, tin, tout, setpoint);
      if copNow >= avgFutureCop || required > 0.8 * a.hvacMaxThermalW then
        var thermal := Min(a.hvacMaxThermalW, required);
        Decision(true, thermal, (thermal / Max(copNow, 0.001)) / 1000.0)
      else
        Decision(false, 0.0, 0.0)
    else
      Decision(false, 0.0, 0.0)
  }

  /** One hour of the lumped-capacitance balance
      Cth * dT/dt = -UA * (Tin - Tout) + Q_hvac. */
  function NextIndoor(a: Assumptions, ua: real, tin: real, tout: real, thermalW: real): (t: real)
    requires a.thermalMassJPerK != 0.0
    ensures thermalW == 0.0 && tin == tout ==> t == tin
  {
    var netQ := -ua * (tin - tout) + thermalW;
    tin + (netQ * a.timeStepSeconds) / a.thermalMassJPerK
  }

  /** Delivered heat raises the next temperature by Q * dt / Cth over the
      unheated balance, so it raises it when time step and mass are positive. */
  lemma HeatRaisesNextIndoor(a: Assumptions, ua: real, tin: real, tout: real, thermalW: real)
    requires a.thermalMassJPerK > 0.0 && a.timeStepSeconds > 0.0 && thermalW >= 0.0
    ensures NextIndoor(a, ua, tin, tout, thermalW) - NextIndoor(a, ua, tin, tout, 0.0)
            == thermalW * a.timeStepSeconds / a.thermalMassJPerK
    ensures NextIndoor(a, ua, tin, tout, thermalW) >= NextIndoor(a, ua, tin, tout, 0.0)
  {
    var q0 := -ua * (tin - tout);
    var dt := a.timeStepSeconds;
    var c := a.thermalMassJPerK;
    assert (q0 + thermalW) * dt / c - q0 * dt / c == thermalW * dt / c;
    assert thermalW * dt >= 0.0;
  }

  /** One row of the weather series: its date and time labels, the hour of
      its timestamp and its temperature (None when missing). */
  datatype WeatherHour = WeatherHour(date: string, time: string, hour: int, tempC: Option<real>)

  /** One row of the hourly log. */
  datatype HourRow = HourRow(
    date: string, time: string, outsideTC: real, insideTCStart: real, setpointC: real,
    occupied: bool, hvacOn: bool, hvacThermalKw: real, elecKw: real, cop: real)

  /** COPs of the up to three following rows that exist. */
  function FutureCops(weather: seq<WeatherHour>, idx: nat): (cops: seq<real>)
    requires idx < |weather|
    ensures |cops| == if |weather| - idx - 1 < 3 then |weather| - idx - 1 else 3
    ensures forall h :: 0 <= h < |cops| ==> cops[h] == FutureCop(weather[idx + 1 + h].tempC)
  {
    var m := if |weather| - idx - 1 < 3 then |weather| - idx - 1 else 3;
    seq(m, h requires 0 <= h < m => FutureCop(weather[idx + 1 + h].tempC))
  }

  predicate ValidAssumptions(a: Assumptions)
  {
    a.thermalMassJPerK != 0.0 && a.timeStepSeconds != 0.0
  }

  /** The row the loop emits for index `idx` when the indoor temperature at
      its start is `tin`. */
  function RowAt(a: Assumptions, ua: real, weather: seq<WeatherHour>, idx: nat, tin: real): (row: HourRow)
    requires ValidAssumptions(a) && idx < |weather|
    ensures row.setpointC == Setpoint(a, weather[idx].hour) && row.occupied == IsOccupied(a, weather[idx].hour)
    ensures row.outsideTC == OrElse(weather[idx].tempC, 10.0) && row.insideTCStart == tin
    ensures row.cop == Cop(row.outsideTC)
    ensures row.hvacOn <==>
              tin < row.setpointC - 0.05
              && (row.cop >= MeanOr(FutureCops(weather, idx), row.cop)
                  || RequiredPower(a, ua, tin, row.outsideTC, row.setpointC) > 0.8 * a.hvacMaxThermalW)
    ensures !row.hvacOn ==> row.hvacThermalKw == 0.0 && row.elecKw == 0.0
    ensures a.timeStepSeconds > 0.0 && a.hvacMaxThermalW >= 0.0 ==>
              0.0 <= row.hvacThermalKw * 1000.0 <= a.hvacMaxThermalW
  {
    var w := weather[idx];
    var tout := OrElse(w.tempC, 10.0);
    var d := DecisionAt(a, ua, weather, idx, tin);
    HourRow(w.date, w.time, tout, tin, Setpoint(a, w.hour), IsOccupied(a, w.hour), d.hvacOn,
            d.thermalW / 1000.0, d.elecKw, Cop(tout))
  }

  /** The controller's decision for row `idx` when the indoor temperature is `tin`. */
  function DecisionAt(a: Assumptions, ua: real, weather: seq<WeatherHour>, idx: nat, tin: real): Decision
    requires ValidAssumptions(a) && idx < |weather|
  {
    var tout := OrElse(weather[idx].tempC, 10.0);
    var copNow := Cop(tout);
    ControlDecision(a, ua, tin, tout, Setpoint(a, weather[idx].hour), copNow,
                    MeanOr(FutureCops(weather, idx), copNow))
  }

  /** The indoor temperature at the start of the run: the first row's
      temperature, or the setback when the series has no temperature. */
  function InitialIndoor(a: Assumptions, weather: seq<WeatherHour>): real
  {
    if |weather| > 0 && weather[0].tempC.Some? then weather[0].tempC.value else a.unoccupiedSetbackC
  }

  /** The indoor temperature at the start of the row after row `idx`. */
  function IndoorAfter(a: Assumptions, ua: real, weather: seq<WeatherHour>, idx: nat, tin: real): real
    requires ValidAssumptions(a) && idx < |weather|
  {
    NextIndoor(a, ua, tin, OrElse(weather[idx].tempC, 10.0), DecisionAt(a, ua, weather, idx, tin).thermalW)
  }

  /** The look-ahead loop: COPs of the rows idx+1 .. idx+3 that exist. */
  method LookAheadCops(weather: seq<WeatherHour>, idx: nat) returns (cops: seq<real>)
    requires idx < |weather|
    ensures cops == FutureCops(weather, idx)
  {
    var n := |weather|;
    cops := [];
    for h := 1 to 4
      invariant |cops| == if n - idx - 1 < h - 1 then n - idx - 1 else h - 1
      invariant forall j :: 0 <= j < |cops| ==> cops[j] == FutureCop(weather[idx + 1 + j].tempC)
    {
      if idx + h < n {
        cops := cops + [FutureCop(weather[idx + h].tempC)];
      }
    }
  }

  /** UA of the house (W/K) from its floor area and insulation quality. */
  function HouseUa(a: Assumptions, area: Option<real>, insulation: Option<string>): real
  {
    UaPerM2(a, OrElse(insulation, a.insulationQuality)) * OrElse(area, a.homeSizeM2)
  }

  /** The body of the simulation loop for row `idx`: the row it logs and
      the indoor temperature it carries to the next row. */
  method SimulateHour(a: Assumptions, ua: real, weather: seq<WeatherHour>, idx: nat, tin: real)
    returns (row: HourRow, tinNext: real)
    requires ValidAssumptions(a) && idx < |weather|
    ensures row == RowAt(a, ua, weather, idx, tin)
    ensures tinNext == IndoorAfter(a, ua, weather, idx, tin)
  {
    var w := weather[idx];
    var tout := OrElse(w.tempC, 10.0);
    var occupied := a.occupancyStartHour <= w.hour < a.occupancyEndHour;
    var setpoint := if occupied then a.occupiedSetpointC else a.unoccupiedSetbackC;
    var copNow := Cop(tout);

    var futureCops := LookAheadCops(weather, idx);
    var avgFutureCop := if |futureCops| > 0 then Sum(futureCops) / (|futureCops| as real) else copNow;

    var d := ControlDecision(a, ua, tin, tout, setpoint, copNow, avgFutureCop);
    tinNext := NextIndoor(a, ua, tin, tout, d.thermalW);
    row := HourRow(w.date, w.time, tout, tin, setpoint, occupied, d.hvacOn,
                   d.thermalW / 1000.0, d.elecKw, copNow);
    assert d == DecisionAt(a, ua, weather, idx, tin);
    assert row == RowAt(a, ua, weather, idx, tin);
  }

  /** run_simulation. `area` is the parsed "home_size" entry and `insulation`
      the "insulation_quality" entry of the house variables (None when
      absent). When the first temperature is missing but a later one is
      present the source starts from NaN, which is not modelled. */
  method RunSimulation(a: Assumptions, area: Option<real>, insulation: Option<string>,
                       weather: seq<WeatherHour>)
    returns (rows: seq<HourRow>)
    requires ValidAssumptions(a)
    requires |weather| > 0 && weather[0].tempC.None? ==> forall i :: 0 <= i < |weather| ==> weather[i].tempC.None?
    ensures |rows| == |weather|
    ensures |rows| > 0 ==> rows[0].insideTCStart == InitialIndoor(a, weather)
    ensures forall i :: 0 <= i < |rows| ==>
              rows[i] == RowAt(a, HouseUa(a, area, insulation), weather, i, rows[i].insideTCStart)
    ensures forall i :: 0 <= i < |rows| - 1 ==>
              rows[i + 1].insideTCStart == IndoorAfter(a, HouseUa(a, area, insulation), weather, i, rows[i].insideTCStart)
  {
    var ua := HouseUa(a, area, insulation);
    var tin := a.unoccupiedSetbackC;
    if |weather| > 0 && weather[0].tempC.Some? {
      tin := weather[0].tempC.value;
    }
    rows := [];
    var n := |weather|;
    for idx := 0 to n
      invariant |rows| == idx
      invariant idx == 0 ==> tin == InitialIndoor(a, weather)
      invariant idx > 0 ==> tin == IndoorAfter(a, ua, weather, idx - 1, rows[idx - 1].insideTCStart)
      invariant |rows| > 0 ==> rows[0].insideTCStart == InitialIndoor(a, weather)
      invariant Simulated(a, ua, weather, rows)
    {
      var row, tinNext := SimulateHour(a, ua, weather, idx, tin);
      SimulatedAppend(a, ua, weather, rows, row);
      rows := rows + [row];
      tin := tinNext;
    }
  }

  /** The rows of a run so far: each is the controller's row for its start
      temperature, and each starts where the previous hour's balance ended. */
  ghost predicate Simulated(a: Assumptions, ua: real, weather: seq<WeatherHour>, rows: seq<HourRow>)
    requires ValidAssumptions(a) && |rows| <= |weather|
  {
    && (forall i :: 0 <= i < |rows| ==> rows[i] == RowAt(a, ua, weather, i, rows[i].insideTCStart))
    && (forall i :: 0 <= i < |rows| - 1 ==>
          rows[i + 1].insideTCStart == IndoorAfter(a, ua, weather, i, rows[i].insideTCStart))
  }

  /** Appending the row of the next hour, started where the last row's
      balance ended, keeps the rows simulated. */
  lemma SimulatedAppend(a: Assumptions, ua: real, weather: seq<WeatherHour>, rows: seq<HourRow>, row: HourRow)
    requires ValidAssumptions(a) && |rows| < |weather|
    requires Simulated(a, ua, weather, rows)
    requires row == RowAt(a, ua, weather, |rows|, row.insideTCStart)
    requires |rows| > 0 ==> row.insideTCStart == IndoorAfter(a, ua, weather, |rows| - 1, rows[|rows| - 1].insideTCStart)
    ensures Simulated(a, ua, weather, rows + [row])
  {
    var rows' := rows + [row];
    forall i | 0 <= i < |rows'|
      ensures rows'[i] == RowAt(a, ua, weather, i, rows'[i].insideTCStart)
    {
      if i < |rows| {
        assert rows'[i] == rows[i];
      }
    }
    forall i | 0 <= i < |rows'| - 1
      ensures rows'[i + 1].insideTCStart == IndoorAfter(a, ua, weather, i, rows'[i].insideTCStart)
    {
      assert rows'[i] == rows[i];
      if i + 1 < |rows| {
        assert rows'[i + 1] == rows[i + 1];
      }
    }
  }

  // ------------------------------------------------------------------
  // ON intervals
  // ------------------------------------------------------------------

  /** One contiguous ON run of the hourly log. */
  datatype Interval = Interval(
    date: string, startTime: string, endTime: string, outsideTStartC: real, insideTStartC: real,
    totalElecKwh: real, totalThermalKwh: real, hours: nat)

  function SumElec(rows: seq<HourRow>): real
  {
    if rows == [] then 0.0 else SumElec(rows[..|rows| - 1]) + rows[|rows| - 1].elecKw
  }

  function SumThermal(rows: seq<HourRow>): real
  {
    if rows == [] then 0.0 else SumThermal(rows[..|rows| - 1]) + rows[|rows| - 1].hvacThermalKw
  }

  function CountOn(rows: seq<HourRow>): nat
  {
    if rows == [] then 0 else CountOn(rows[..|rows| - 1]) + (if rows[|rows| - 1].hvacOn then 1 else 0)
  }

  function TotalHours(intervals: seq<Interval>): nat
  {
    if intervals == [] then 0 else TotalHours(intervals[..|intervals| - 1]) + intervals[|intervals| - 1].hours
  }

  /** The interval summarising rows [start, end). */
  function MakeInterval(rows: seq<HourRow>, start: nat, end: nat): (iv: Interval)
    requires start < end <= |rows|
    ensures iv.hours == end - start && iv.hours >= 1
    ensures iv.startTime == rows[start].time && iv.endTime == rows[end - 1].time
  {
    Interval(rows[start].date, rows[start].time, rows[end - 1].time, rows[start].outsideTC,
             rows[start].insideTCStart, SumElec(rows[start..end]), SumThermal(rows[start..end]), end - start)
  }

  /** Rows [start, end) form a maximal block of consecutive ON rows. */
  ghost predicate IsRun(rows: seq<HourRow>, start: nat, end: nat)
  {
    && start < end <= |rows|
    && (forall j :: start <= j < end ==> rows[j].hvacOn)
    && (start == 0 || !rows[start - 1].hvacOn)
    && (end == |rows| || !rows[end].hvacOn)
  }

  ghost predicate Covered(runs: seq<(nat, nat)>, j: nat)
  {
    exists k :: 0 <= k < |runs| && runs[k].0 <= j < runs[k].1
  }

  /** `runs` lists, in order, exactly the maximal blocks of consecutive ON rows. */
  ghost predicate MaximalOnRuns(rows: seq<HourRow>, runs: seq<(nat, nat)>)
  {
    && (forall k :: 0 <= k < |runs| ==> IsRun(rows, runs[k].0, runs[k].1))
    && (forall k :: 0 <= k < |runs| - 1 ==> runs[k].1 < runs[k + 1].0)
    && (forall j :: 0 <= j < |rows| && rows[j].hvacOn ==> Covered(runs, j))
  }

  /** What the scan knows after reading rows[..i]: `runs` are the blocks
      already closed and, when `open`, rows [start, i) are the current block. */
  ghost predicate ScanInv(rows: seq<HourRow>, i: nat, runs: seq<(nat, nat)>, open: bool, start: nat)
  {
    && i <= |rows|
    && (forall k :: 0 <= k < |runs| ==> IsRun(rows, runs[k].0, runs[k].1) && runs[k].1 <= i)
    && (forall k :: 0 <= k < |runs| - 1 ==> runs[k].1 < runs[k + 1].0)
    && (open <==> i > 0 && rows[i - 1].hvacOn)
    && (open ==> && start < i
                 && (start == 0 || !rows[start - 1].hvacOn)
                 && (forall j :: start <= j < i ==> rows[j].hvacOn)
                 && (|runs| == 0 || runs[|runs| - 1].1 < start))
    && (forall j :: 0 <= j < i && rows[j].hvacOn ==> Covered(runs, j) || (open && start <= j))
  }

  lemma ScanOn(rows: seq<HourRow>, i: nat, runs: seq<(nat, nat)>, open: bool, start: nat)
    requires ScanInv(rows, i, runs, open, start) && i < |rows| && rows[i].hvacOn
    ensures ScanInv(rows, i + 1, runs, true, if open then start else i)
  {
  }

  lemma ScanOff(rows: seq<HourRow>, i: nat, runs: seq<(nat, nat)>, open: bool, start: nat)
    requires ScanInv(rows, i, runs, open, start) && i < |rows| && !rows[i].hvacOn
    ensures ScanInv(rows, i + 1, if open then runs + [(start, i)] else runs, false, 0)
  {
    if open {
      CloseRun(rows, i, runs, start);
    }
  }

  /** Closing the open block [start, i) at the OFF row i. */
  lemma CloseRun(rows: seq<HourRow>, i: nat, runs: seq<(nat, nat)>, start: nat)
    requires ScanInv(rows, i, runs, true, start) && i < |rows| && !rows[i].hvacOn
    ensures ScanInv(rows, i + 1, runs + [(start, i)], false, 0)
  {
    var runs' := runs + [(start, i)];
    assert IsRun(rows, start, i);
    forall k | 0 <= k < |runs'| ensures IsRun(rows, runs'[k].0, runs'[k].1) && runs'[k].1 <= i + 1 {
      if k < |runs| {
        assert runs'[k] == runs[k];
      }
    }
    forall k | 0 <= k < |runs'| - 1 ensures runs'[k].1 < runs'[k + 1].0 {
      assert runs'[k] == runs[k];
      if k + 1 < |runs| {
        assert runs'[k + 1] == runs[k + 1];
      }
    }
    forall j | 0 <= j < i + 1 && rows[j].hvacOn ensures Covered(runs', j) {
      if Covered(runs, j) {
        var k :| 0 <= k < |runs| && runs[k].0 <= j < runs[k].1;
        assert runs'[k] == runs[k];
      } else {
        assert runs'[|runs|] == (start, i);
      }
    }
  }

  lemma ScanEnd(rows: seq<HourRow>, runs: seq<(nat, nat)>, open: bool, start: nat)
    requires ScanInv(rows, |rows|, runs, open, start)
    ensures MaximalOnRuns(rows, if open then runs + [(start, |rows|)] else runs)
  {
    if open {
      FinishRun(rows, runs, start);
    }
  }

  /** The block still open after the last row runs to the end of the log. */
  lemma FinishRun(rows: seq<HourRow>, runs: seq<(nat, nat)>, start: nat)
    requires ScanInv(rows, |rows|, runs, true, start)
    ensures MaximalOnRuns(rows, runs + [(start, |rows|)])
  {
    var runs' := runs + [(start, |rows|)];
    assert IsRun(rows, start, |rows|);
    forall k | 0 <= k < |runs'| ensures IsRun(rows, runs'[k].0, runs'[k].1) {
      if k < |runs| {
        assert runs'[k] == runs[k];
      }
    }
    forall k | 0 <= k < |runs'| - 1 ensures runs'[k].1 < runs'[k + 1].0 {
      assert runs'[k] == runs[k];
      if k + 1 < |runs| {
        assert runs'[k + 1] == runs[k + 1];
      }
    }
    forall j | 0 <= j < |rows| && rows[j].hvacOn ensures Covered(runs', j) {
      if Covered(runs, j) {
        var k :| 0 <= k < |runs| && runs[k].0 <= j < runs[k].1;
        assert runs'[k] == runs[k];
      } else {
        assert runs'[|runs|] == (start, |rows|);
      }
    }
  }

  /** Start of the ON block the scan is inside after reading rows[..i]
      (0 when the last row read is OFF). */
  ghost function BlockStart(rows: seq<HourRow>, i: nat): (start: nat)
    requires i <= |rows|
    ensures i > 0 && rows[i - 1].hvacOn ==> start < i
  {
    if i == 0 || !rows[i - 1].hvacOn then 0
    else if i == 1 || !rows[i - 2].hvacOn then i - 1
    else BlockStart(rows, i - 1)
  }

  /** The blocks closed by an OFF row among rows[..i]. */
  ghost function ClosedRuns(rows: seq<HourRow>, i: nat): seq<(nat, nat)>
    requires i <= |rows|
  {
    if i == 0 then []
    else
      var prev := ClosedRuns(rows, i - 1);
      if !rows[i - 1].hvacOn && i >= 2 && rows[i - 2].hvacOn then prev + [(BlockStart(rows, i - 1), i - 1)]
      else prev
  }

  /** All blocks of the log: the closed ones and the one still open at the end. */
  ghost function AllRuns(rows: seq<HourRow>): seq<(nat, nat)>
  {
    var closed := ClosedRuns(rows, |rows|);
    if |rows| > 0 && rows[|rows| - 1].hvacOn then closed + [(BlockStart(rows, |rows|), |rows|)] else closed
  }

  /** The scan invariant for the blocks the ghost functions above describe. */
  ghost predicate ScanInvAt(rows: seq<HourRow>, i: nat)
    requires i <= |rows|
  {
    ScanInv(rows, i, ClosedRuns(rows, i), i > 0 && rows[i - 1].hvacOn, BlockStart(rows, i))
  }

  lemma ScanStep(rows: seq<HourRow>, i: nat)
    requires i < |rows| && ScanInvAt(rows, i)
    ensures ScanInvAt(rows, i + 1)
  {
    var runs, start := ClosedRuns(rows, i), BlockStart(rows, i);
    var open := i > 0 && rows[i - 1].hvacOn;
    if rows[i].hvacOn {
      ScanOn(rows, i, runs, open, start);
      assert ClosedRuns(rows, i + 1) == runs;
      assert BlockStart(rows, i + 1) == if open then start else i;
    } else {
      ScanOff(rows, i, runs, open, start);
      assert ClosedRuns(rows, i + 1) == if open then runs + [(start, i)] else runs;
      assert BlockStart(rows, i + 1) == 0;
    }
  }

  /** ScanStep, stated for the index it reaches. */
  lemma ScanStepTo(rows: seq<HourRow>, i: nat)
    requires 0 < i <= |rows| && ScanInvAt(rows, i - 1)
    ensures ScanInvAt(rows, i)
  {
    ScanStep(rows, i - 1);
  }

  lemma {:induction false} ScanInvHolds(rows: seq<HourRow>, i: nat)
    requires i <= |rows|
    ensures ScanInvAt(rows, i)
  {
    if i > 0 {
      ScanInvHolds(rows, i - 1);
      ScanStepTo(rows, i);
    }
  }

  /** The blocks found by the scan are exactly the maximal ON runs, in order. */
  lemma AllRunsAreMaximal(rows: seq<HourRow>)
    ensures MaximalOnRuns(rows, AllRuns(rows))
  {
    ScanInvHolds(rows, |rows|);
    ScanEnd(rows, ClosedRuns(rows, |rows|), |rows| > 0 && rows[|rows| - 1].hvacOn, BlockStart(rows, |rows|));
  }

  /** The interval of a single row. */
  lemma IntervalStart(rows: seq<HourRow>, i: nat)
    requires i < |rows|
    ensures MakeInterval(rows, i, i + 1)
            == Interval(rows[i].date, rows[i].time, rows[i].time, rows[i].outsideTC, rows[i].insideTCStart,
                        rows[i].elecKw, rows[i].hvacThermalKw, 1)
  {
    var one := rows[i..i + 1];
    assert one[..|one| - 1] == [] && one[|one| - 1] == rows[i];
    assert SumElec(one) == rows[i].elecKw;
    assert SumThermal(one) == rows[i].hvacThermalKw;
  }

  /** Extending an interval by the next row adds that row's energies and
      moves the end time to it. */
  lemma IntervalExtend(rows: seq<HourRow>, start: nat, end: nat)
    requires start < end < |rows|
    ensures var iv := MakeInterval(rows, start, end);
            MakeInterval(rows, start, end + 1)
            == iv.(endTime := rows[end].time,
                   totalElecKwh := iv.totalElecKwh + rows[end].elecKw,
                   totalThermalKwh := iv.totalThermalKwh + rows[end].hvacThermalKw,
                   hours := iv.hours + 1)
  {
    var longer := rows[start..end + 1];
    assert longer[..|longer| - 1] == rows[start..end] && longer[|longer| - 1] == rows[end];
    assert SumElec(longer) == SumElec(rows[start..end]) + rows[end].elecKw;
    assert SumThermal(longer) == SumThermal(rows[start..end]) + rows[end].hvacThermalKw;
  }

  /** `intervals` summarises the row ranges `runs`, one interval per range. */
  ghost predicate Summarises(rows: seq<HourRow>, runs: seq<(nat, nat)>, intervals: seq<Interval>)
  {
    && |intervals| == |runs|
    && forall k :: 0 <= k < |runs| ==> runs[k].0 < runs[k].1 <= |rows|
                                       && intervals[k] == MakeInterval(rows, runs[k].0, runs[k].1)
  }

  lemma SummarisesAppend(rows: seq<HourRow>, runs: seq<(nat, nat)>, intervals: seq<Interval>, start: nat, end: nat)
    requires Summarises(rows, runs, intervals) && start < end <= |rows|
    ensures Summarises(rows, runs + [(start, end)], intervals + [MakeInterval(rows, start, end)])
  {
    var runs', intervals' := runs + [(start, end)], intervals + [MakeInterval(rows, start, end)];
    forall k | 0 <= k < |runs'|
      ensures runs'[k].0 < runs'[k].1 <= |rows| && intervals'[k] == MakeInterval(rows, runs'[k].0, runs'[k].1)
    {
      if k < |runs| {
        assert runs'[k] == runs[k] && intervals'[k] == intervals[k];
      }
    }
  }

  /** What extract_on_intervals knows after reading rows[..i]: `intervals`
      summarises the closed blocks `runs` and `cur` the block still open. */
  ghost predicate ExtractInv(rows: seq<HourRow>, i: nat, runs: seq<(nat, nat)>, intervals: seq<Interval>,
                             cur: Option<Interval>, curStart: nat)
  {
    && i <= |rows|
    && runs == ClosedRuns(rows, i)
    && (cur.Some? <==> i > 0 && rows[i - 1].hvacOn)
    && (cur.Some? ==> curStart == BlockStart(rows, i) && curStart < i && cur.value == MakeInterval(rows, curStart, i))
    && Summarises(rows, runs, intervals)
    && TotalHours(intervals) + (if cur.Some? then cur.value.hours else 0) == CountOn(rows[..i])
  }

  /** An ON row after an OFF row opens a one-row interval. */
  lemma ExtractOpen(rows: seq<HourRow>, i: nat, runs: seq<(nat, nat)>, intervals: seq<Interval>, curStart: nat)
    requires ExtractInv(rows, i, runs, intervals, None, curStart) && i < |rows| && rows[i].hvacOn
    ensures var row := rows[i];
            ExtractInv(rows, i + 1, runs, intervals,
                       Some(Interval(row.date, row.time, row.time, row.outsideTC, row.insideTCStart,
                                     row.elecKw, row.hvacThermalKw, 1)), i)
  {
    CountOnSnoc(rows, i);
    IntervalStart(rows, i);
  }

  /** An ON row after an ON row extends the open interval. */
  lemma ExtractGrow(rows: seq<HourRow>, i: nat, runs: seq<(nat, nat)>, intervals: seq<Interval>, cur: Interval,
                    curStart: nat)
    requires ExtractInv(rows, i, runs, intervals, Some(cur), curStart) && i < |rows| && rows[i].hvacOn
    ensures ExtractInv(rows, i + 1, runs, intervals,
                       Some(cur.(endTime := rows[i].time,
                                 totalElecKwh := cur.totalElecKwh + rows[i].elecKw,
                                 totalThermalKwh := cur.totalThermalKwh + rows[i].hvacThermalKw,
                                 hours := cur.hours + 1)), curStart)
  {
    CountOnSnoc(rows, i);
    IntervalExtend(rows, curStart, i);
  }

  /** An OFF row closes the open interval, if any. */
  lemma ExtractClose(rows: seq<HourRow>, i: nat, runs: seq<(nat, nat)>, intervals: seq<Interval>,
                     cur: Option<Interval>, curStart: nat)
    requires ExtractInv(rows, i, runs, intervals, cur, curStart) && i < |rows| && !rows[i].hvacOn
    ensures cur.Some? ==> ExtractInv(rows, i + 1, runs + [(curStart, i)], intervals + [cur.value], None, curStart)
    ensures cur.None? ==> ExtractInv(rows, i + 1, runs, intervals, None, curStart)
  {
    CountOnSnoc(rows, i);
    if cur.Some? {
      TotalHoursAppend(intervals, cur.value);
      SummarisesAppend(rows, runs, intervals, curStart, i);
    }
  }

  /** After the last row the open interval, if any, is the last block. */
  lemma ExtractFinish(rows: seq<HourRow>, runs: seq<(nat, nat)>, intervals: seq<Interval>,
                      cur: Option<Interval>, curStart: nat)
    requires ExtractInv(rows, |rows|, runs, intervals, cur, curStart)
    ensures var runs' := if cur.Some? then runs + [(curStart, |rows|)] else runs;
            var intervals' := if cur.Some? then intervals + [cur.value] else intervals;
            && runs' == AllRuns(rows)
            && Summarises(rows, runs', intervals')
            && TotalHours(intervals') == CountOn(rows)
  {
    assert rows[..|rows|] == rows;
    if cur.Some? {
      TotalHoursAppend(intervals, cur.value);
      SummarisesAppend(rows, runs, intervals, curStart, |rows|);
    }
  }

  /** extract_on_intervals: one interval per maximal ON run, in order, with
      the run's first and last times, its length in hours and the sums of
      its electrical and thermal energy. `runs` names the row ranges. */
  method ExtractOnIntervals(rows: seq<HourRow>) returns (intervals: seq<Interval>, ghost runs: seq<(nat, nat)>)
    ensures runs == AllRuns(rows)
    ensures |intervals| == |runs|
    ensures forall k :: 0 <= k < |runs| ==> runs[k].0 < runs[k].1 <= |rows|
                                              && intervals[k] == MakeInterval(rows, runs[k].0, runs[k].1)
    ensures TotalHours(intervals) == CountOn(rows)
  {
    intervals := [];
    runs := [];
    var cur: Option<Interval> := None;
    ghost var curStart: nat := 0;
    for i := 0 to |rows|
      invariant ExtractInv(rows, i, runs, intervals, cur, curStart)
    {
      var row := rows[i];
      if row.hvacOn {
        if cur.None? {
          ExtractOpen(rows, i, runs, intervals, curStart);
          cur := Some(Interval(row.date, row.time, row.time, row.outsideTC, row.insideTCStart,
                               row.elecKw, row.hvacThermalKw, 1));
          curStart := i;
        } else {
          ExtractGrow(rows, i, runs, intervals, cur.value, curStart);
          cur := Some(cur.value.(endTime := row.time,
                                 totalElecKwh := cur.value.totalElecKwh + row.elecKw,
                                 totalThermalKwh := cur.value.totalThermalKwh + row.hvacThermalKw,
                                 hours := cur.value.hours + 1));
        }
      } else {
        ExtractClose(rows, i, runs, intervals, cur, curStart);
        if cur.Some? {
          intervals := intervals + [cur.value];
          runs := runs + [(curStart, i)];
          cur := None;
        }
      }
    }
    ExtractFinish(rows, runs, intervals, cur, curStart);
    if cur.Some? {
      intervals := intervals + [cur.value];
      runs := runs + [(curStart, |rows|)];
    }
  }

  lemma CountOnSnoc(rows: seq<HourRow>, i: nat)
    requires i < |rows|
    ensures CountOn(rows[..i + 1]) == CountOn(rows[..i]) + (if rows[i].hvacOn then 1 else 0)
  {
    assert rows[..i + 1][..i] == rows[..i];
  }

  lemma TotalHoursAppend(intervals: seq<Interval>, iv: Interval)
    ensures TotalHours(intervals + [iv]) == TotalHours(intervals) + iv.hours
  {
    assert (intervals + [iv])[..|intervals|] == intervals;
  }
}
