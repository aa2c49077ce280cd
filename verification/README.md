# Smart-home HVAC core, modelled in Dafny

This project models the deterministic thermal-simulation and HVAC-control
logic of a smart-home thermostat application. The logic is spread over several
prototype files, each modelled as a separate Dafny module.

- `HvacPhysics` (`hvac_physics.dfy`) is the controller service. It covers:
  - the HVAC capacity table scaled by house size;
  - time-of-use electricity prices;
  - the 5-minute step, with its output clamps and its deadband fallback;
  - padding a generated 24-hour schedule, and the fallback scheduler;
  - finding the current and the upcoming schedule actions.
- `SmartHvac` (`hourly_controller.dfy`) is the standalone hourly prototype. It covers:
  - the "key: value" house-file parser;
  - the heat-pump COP curve and the occupancy setpoints;
  - the hourly lumped-capacitance simulation, whose controller runs now or
    defers by comparing the current COP with the mean COP of the next three hours;
  - the collapse of the hourly log into maximal ON intervals.
- `MinuteController` (`minute_controller.dfy`) is the minute-level smart controller. It covers:
  - the house model and its one-minute step;
  - the OFF / HEAT / COOL / PRE-HEAT / PRE-COOL state machine, with
    minimum-run and minimum-off lockouts;
  - the OFF-mode look-ahead prediction;
  - aggregating the minutes into schedule blocks.
- `IndoorDrift` (`indoor_drift.dfy`) holds the passive indoor-temperature steps. It covers:
  - the simple, basic and RC steps;
  - the weather-row timestamp parser and the nearest-row selection;
  - the pure part of the step that ties them together.
- `ThermostatStep` (`thermostat_step.dfy`) is the hourly energy-balance step. It covers:
  - U-values, air changes and thermal mass;
  - the snow and rain adjustments;
  - the 10 kW deadband thermostat.
- `HourlyDrift` (`hourly_drift.dfy`) is the simplified hourly Newton-cooling step. It covers:
  - wind, house size, solar gain and precipitation;
  - how its inputs are prepared.
- `Common` (`common.dfy`) holds the shared helpers:
  - `Option` and `Result`;
  - min, max, clamp and mean;
  - ASCII `strip` and `lower`.

Modelling conventions:

- Temperatures, powers and prices are exact `real`s, and Python's `round(x, n)` is the identity.
- Python exceptions that escape to the caller become `Err` values, except where "## Left out" says otherwise, for example:
  - an unknown insulation quality;
  - a division by a zero thermal mass;
  - a missing weather record.
- Database reads, the wall clock (`datetime.now().hour`) and the random setpoint are parameters.
  So are the replies of the generative model.
- Loops in the source are methods with loop invariants. Each method is proved equal to
  a specification function, and the properties are proved about that function as lemmas.

## Model

| member | source | states |
|---|---|---|
| HvacPhysics.BaseRating | weather-app/backend/api/hvac_simulation/hvac_physics.py:43-55 | the per-type rated power (unknown types read as "central", unknown modes 3.0 kW) is between 0 and 10 kW |
| HvacPhysics.SizeScale | weather-app/backend/api/hvac_simulation/hvac_physics.py:57 | the size factor is always in [0.5, 2]; it is size/1500 between 750 and 3000 sqft, 0.5 below and 2 above |
| HvacPhysics.HvacCapacity | weather-app/backend/api/hvac_simulation/hvac_physics.py:52-58 | capacity lies between 0.5x and 2x the rating of the type, is 0 for type "none", and never exceeds 20 kW |
| HvacPhysics.UnknownTypeRatesAsCentral | weather-app/backend/api/hvac_simulation/hvac_physics.py:54 | a type missing from the table gets exactly the capacity of "central" |
| HvacPhysics.ElectricityPrice | weather-app/backend/api/hvac_simulation/hvac_physics.py:61-68 | 0.08 iff hour >= 22 or < 6, 0.20 iff 16 <= hour < 21, 0.12 iff 6 <= hour < 16 or hour = 21; always one of the three tiers |
| HvacPhysics.ConversionsRoundTrip | weather-app/backend/api/hvac_simulation/hvac_physics.py:767-774 | Celsius-to-Fahrenheit and back are mutual inverses; 100 C is 212 F and 32 F is 0 C |
| HvacPhysics.ClampCurrent | weather-app/backend/api/hvac_simulation/hvac_physics.py:475 | the validated current temperature lies in [5, 40] |
| HvacPhysics.ClampTarget | weather-app/backend/api/hvac_simulation/hvac_physics.py:476 | the validated target lies in [15, 30] |
| HvacPhysics.LimitNewTemp | weather-app/backend/api/hvac_simulation/hvac_physics.py:497-507 | the accepted temperature is in [10, 35]; from a current value in [10, 35] it moves at most 0.5; an in-range proposal within 0.5 is kept; no proposal keeps the current value |
| HvacPhysics.DriftRate | weather-app/backend/api/hvac_simulation/hvac_physics.py:527-528 | drift rate 0.005 for "excellent", 0.03 for "poor", 0.015 for anything else |
| HvacPhysics.FallbackSimulation | weather-app/backend/api/hvac_simulation/hvac_physics.py:514-567 | new temperature = clamp to [10, 35] of current + (outdoor, 20 when unknown, - current) x drift rate of the insulation + 0.2 when heating, -0.15 when cooling, 0 when off; heating iff target - current > 0.5, cooling iff < -0.5, otherwise off with zero power and no run; power is the capacity of the mode; energy = power x 5/60; cost = energy x price of the hour |
| HvacPhysics.FallbackOffStaysBetween | weather-app/backend/api/hvac_simulation/hvac_physics.py:531-550 | with current and outdoor temperatures in [10, 35] and the target within the deadband, the step is off and the new temperature lies between current and outdoor |
| HvacPhysics.FallbackHvacShift | weather-app/backend/api/hvac_simulation/hvac_physics.py:538-550 | the step at the target is off; when nothing is clamped, heating ends exactly 0.2 above that off step and cooling exactly 0.15 below it |
| HvacPhysics.SimulateStepWithHvac | weather-app/backend/api/hvac_simulation/hvac_physics.py:463-511 | the fallback runs iff there is no reply; the outcome temperature is always in [10, 35]; with a reply it moves at most 0.5 from the clamped current temperature; the fallback heats iff clamped target - clamped current > 0.5 |
| HvacPhysics.HourLabel | weather-app/backend/api/hvac_simulation/hvac_physics.py:628-629 | `f"{hour:02d}:00"`: five characters ending in ":00" whose two digits read back as the hour |
| HvacPhysics.TotalsAppend | weather-app/backend/api/hvac_simulation/hvac_physics.py:684-687 | appending an action adds its cost to the total cost and its power to the total energy |
| HvacPhysics.IdleAction | weather-app/backend/api/hvac_simulation/hvac_physics.py:623-635 | a filler action for hour h is "off" with zero power and cost, runs from h:00 to (h+1) mod 24:00, and predicts the target |
| HvacPhysics.ToAction | weather-app/backend/api/hvac_simulation/hvac_physics.py:604-620 | a reply entry keeps the clamped target, and missing hour, mode and prediction default to 0, "off" and the target |
| HvacPhysics.Parsed | weather-app/backend/api/hvac_simulation/hvac_physics.py:604-620 | the parsed list has one action per reply entry, each read by ToAction |
| HvacPhysics.ParsedAppend | weather-app/backend/api/hvac_simulation/hvac_physics.py:604-620 | parsing distributes over appending one reply entry |
| HvacPhysics.PadActions | weather-app/backend/api/hvac_simulation/hvac_physics.py:622-638 | the result has exactly 24 actions: the first min(24, n) parsed actions, then the filler action of each missing hour |
| HvacPhysics.PlanDecision | weather-app/backend/api/hvac_simulation/hvac_physics.py:669-679 | heat iff target - predicted > 1 or outdoor < target - 5; cool iff not heat and (target - predicted < -1 or outdoor > target + 5); heat wins when both hold |
| HvacPhysics.PlanNext | weather-app/backend/api/hvac_simulation/hvac_physics.py:671-682 | a heating hour ends at most at target + 0.5 and at most 1 degree up; a cooling hour ends at least at target - 0.5 and at most 0.8 down; otherwise the temperature drifts 10 % of the way to outdoor |
| HvacPhysics.PaddedOutdoor | weather-app/backend/api/hvac_simulation/hvac_physics.py:662-663 | hours past the end of the forecast reuse the last row |
| HvacPhysics.PlanPower | weather-app/backend/api/hvac_simulation/hvac_physics.py:666-677 | the planned power is never negative and is 0 in a maintain hour |
| HvacPhysics.FallbackActionAt | weather-app/backend/api/hvac_simulation/hvac_physics.py:661-699 | action i has hour i and runs from i:00 to (i+1) mod 24:00; cost = power x price(i); it is "off", with zero power, iff the plan maintains; it carries the prediction after hour i and the target |
| HvacPhysics.GenerateFallbackSchedule | weather-app/backend/api/hvac_simulation/hvac_physics.py:646-707 | exactly 24 actions, action i being FallbackActionAt i; total cost and total energy are the sums of cost and power; comfort score 75 |
| HvacPhysics.FallbackScheduleBounds | weather-app/backend/api/hvac_simulation/hvac_physics.py:671-687 | in every fallback schedule, action i has hour i, heating hours predict at most target + 0.5, cooling hours at least target - 0.5, and off hours draw no power |
| HvacPhysics.GenerateHvacSchedule | weather-app/backend/api/hvac_simulation/hvac_physics.py:570-643 | always 24 actions; without a reply carrying "actions" it is the fallback schedule at the clamped target; otherwise the parsed actions are padded with filler actions, and the totals come from the reply or are the sums over all parsed actions, with comfort from the reply or 85 |
| HvacPhysics.GetCurrentHvacAction | weather-app/backend/api/hvac_simulation/hvac_physics.py:732-738 | None iff no action has the current hour; otherwise the first action with that hour |
| HvacPhysics.HoursUntil | weather-app/backend/api/hvac_simulation/hvac_physics.py:747-751 | the distance is the hour difference, or that plus 24; for hours of the day it lies in [0, 23] |
| HvacPhysics.InsertByKey | weather-app/backend/api/hvac_simulation/hvac_physics.py:754 | insertion adds exactly the new action (as a multiset) |
| HvacPhysics.InsertKeepsSorted | weather-app/backend/api/hvac_simulation/hvac_physics.py:754 | inserting into a list sorted by hours-until keeps it sorted |
| HvacPhysics.SortByHoursUntil | weather-app/backend/api/hvac_simulation/hvac_physics.py:754 | the sorted list is a permutation of the actions |
| HvacPhysics.SortIsSorted | weather-app/backend/api/hvac_simulation/hvac_physics.py:754 | the sorted list is in non-decreasing hours-until order |
| HvacPhysics.InsertIsStable | weather-app/backend/api/hvac_simulation/hvac_physics.py:754 | for every key, inserting an action keeps the actions with that key in their order and puts the new one after them |
| HvacPhysics.SortIsStable | weather-app/backend/api/hvac_simulation/hvac_physics.py:754 | the sort is stable: for every hours-until value, the actions with that value appear in the same relative order as in the input |
| HvacPhysics.Eligible | weather-app/backend/api/hvac_simulation/hvac_physics.py:756-760 | filtering never lengthens the list |
| HvacPhysics.EligibleMembers | weather-app/backend/api/hvac_simulation/hvac_physics.py:756-760 | every kept action is in the input, is not "off" and is at most 12 hours ahead |
| HvacPhysics.EligibleAppend | weather-app/backend/api/hvac_simulation/hvac_physics.py:756-760 | filtering distributes over concatenation |
| HvacPhysics.EligibleKeepsSorted | weather-app/backend/api/hvac_simulation/hvac_physics.py:756-760 | filtering a sorted list keeps it sorted |
| HvacPhysics.Take | weather-app/backend/api/hvac_simulation/hvac_physics.py:761-762 | the result is a prefix of at most n elements, and the whole list when n covers it |
| HvacPhysics.UpcomingListProperties | weather-app/backend/api/hvac_simulation/hvac_physics.py:754-764 | the upcoming list holds only scheduled, non-off actions at most 12 hours ahead, in non-decreasing hours-until order |
| HvacPhysics.UpcomingAsWritten | weather-app/backend/api/hvac_simulation/hvac_physics.py:754-762 | the list the loop returns as written: the first max(count, 1) eligible actions of the sorted schedule; characterised by UpcomingListProperties and GetUpcomingActions, and contrasted by UpcomingZeroCountStillReturnsOne |
| HvacPhysics.UpcomingIntended | weather-app/backend/api/hvac_simulation/hvac_physics.py:741-742 | the first count eligible actions of the sorted schedule, as "next N" promises; characterised by UpcomingListProperties and GetUpcomingActionsBounded |
| HvacPhysics.UpcomingWithinTwelveHours | weather-app/backend/api/hvac_simulation/hvac_physics.py:747-759 | with hours of the day on both sides, every upcoming action is 0 to 12 hours ahead |
| HvacPhysics.GetUpcomingActions | weather-app/backend/api/hvac_simulation/hvac_physics.py:741-764 | the loop with its early break returns the as-written list, which has at most max(count, 1) actions |
| HvacPhysics.CollectUpcoming | weather-app/backend/api/hvac_simulation/hvac_physics.py:756-762 | over a sorted list, the loop that appends before testing the length keeps the first max(count, 1) eligible actions |
| HvacPhysics.GetUpcomingActionsBounded | weather-app/backend/api/hvac_simulation/hvac_physics.py:741-764 | with the length test before the append, at most count actions, and none for count <= 0 |
| HvacPhysics.CollectUpcomingBounded | weather-app/backend/api/hvac_simulation/hvac_physics.py:756-762 | over a sorted list, the corrected loop keeps the first count eligible actions, and none for count <= 0 |
| HvacPhysics.UpcomingZeroCountStillReturnsOne | weather-app/backend/api/hvac_simulation/hvac_physics.py:756-762 | for count 0 and one heating action in the current hour, the code as written returns one action and the intended version returns none |
| SmartHvac.FirstBreak | model/model.py:72 | the first line-break position: no break before it, and a break at it unless it is the end |
| SmartHvac.SplitLines | model/model.py:72 | no piece contains a line-break character |
| SmartHvac.FirstColon | model/model.py:73 | the first colon position: no colon before it, and a colon at it unless it is the end |
| SmartHvac.ParseLine | model/model.py:73-76 | a line yields a pair iff its first colon has a character before and after it; the pair is the stripped text before and after that colon; lines without a colon yield nothing |
| SmartHvac.ReadHouseVariables | model/model.py:55-78 | a key is in the dictionary iff some line parses to it, and its value is the one from the last such line; a missing file reads the built-in defaults |
| SmartHvac.AssignedSnoc | model/model.py:72-77 | one more line overrides its own key only |
| SmartHvac.LastAssignmentWins | model/model.py:72-77 | a line setting a key that no later line sets again determines the key's value |
| SmartHvac.LineWithoutColonIgnored | model/model.py:73-74 | a line without a colon changes nothing |
| SmartHvac.AssignedComesFromALine | model/model.py:72-77 | every value in the dictionary comes from some line that parses to that key |
| SmartHvac.Cop | model/model.py:40 | COP is at least 1.5, equals 3 + 0.03 (T - 10) from -40 C up, and 1.5 at or below -40 C |
| SmartHvac.CopMonotone | model/model.py:40 | COP never decreases as the outdoor temperature rises |
| SmartHvac.FutureCop | model/model.py:189-192 | the COP of a look-ahead row is at least 1.5, including rows without a temperature |
| SmartHvac.Setpoint | model/model.py:156-174 | the occupied setpoint iff start <= hour < end, otherwise the setback |
| SmartHvac.DefaultOccupiedHours | model/model.py:43-46 | with the default assumptions the setpoint is 20 iff 7 <= hour <= 21, and 17 otherwise |
| SmartHvac.UaPerM2 | model/model.py:149-150 | the "good" coefficient iff the lower-cased quality starts with "g", the "poor" one otherwise |
| SmartHvac.RequiredPower | model/model.py:179-201 | for a positive time step the required power is never negative |
| SmartHvac.ControlDecision | model/model.py:195-210 | considered only when Tin < setpoint - 0.05; runs iff COP now >= the look-ahead mean or the required power > 0.8 x max; off means no thermal and no electrical power; delivered power = min(max, required), in [0, max]; electrical kW x 1000 x max(COP, 0.001) = thermal W |
| SmartHvac.NextIndoor | model/model.py:212-215 | with no HVAC power and Tin = Tout the temperature is unchanged |
| SmartHvac.HeatRaisesNextIndoor | model/model.py:212-215 | delivered heat raises the next temperature by exactly Q dt / Cth over the unheated step |
| SmartHvac.FutureCops | model/model.py:187-193 | the look-ahead holds the COPs of the up to three following rows, in order |
| SmartHvac.RowAt | model/model.py:169-229 | a log row carries the hour's setpoint, occupancy, outdoor temperature (10 C when missing), COP and start temperature; it is on iff Tin < setpoint - 0.05 and (COP >= look-ahead mean, or that COP when no row follows, or required power > 0.8 x max); off rows have zero powers; thermal power within [0, max] |
| SmartHvac.LookAheadCops | model/model.py:187-193 | the loop computes exactly the look-ahead COPs |
| SmartHvac.SimulateHour | model/model.py:169-231 | one loop iteration emits the row for the hour and advances Tin by the hourly balance |
| SmartHvac.RunSimulation | model/model.py:139-234 | one row per weather row; the first starts at the first outdoor temperature (the setback when none is known); each row is the controller's row for its start temperature; each row starts where the previous hour's balance ended |
| SmartHvac.MakeInterval | model/model.py:248-263 | an interval over a run has hours = run length >= 1 and the times of the run's first and last rows |
| SmartHvac.AllRunsAreMaximal | model/model.py:244-274 | the runs found are the maximal contiguous ON runs, in order: every ON row is in exactly one run, and no run can be extended |
| SmartHvac.ExtractOnIntervals | model/model.py:239-280 | one interval per maximal ON run, in order, each with the run's times, sums of electrical and thermal energy, and length; the hours add up to the number of ON rows |
| MinuteController.LabelFamilies | model_testing/model.py:47-50 | the label contains "COOL" iff the mode is COOL or PRE-COOL, and "HEAT" iff HEAT or PRE-HEAT |
| MinuteController.UValue | model_testing/model.py:32-35 | 1.5 for "poor", 0.2 for "excellent", 0.5 otherwise, case-insensitive |
| MinuteController.NewModel | model_testing/model.py:22-39 | area = home_size (100 by default); ceiling 2.5; volume = area x 2.5; c_home = volume x 1.225 x 1005 x 5; setpoint = the drawn value, in [20, 24]; 3500 W; U-value of the quality, "average" by default |
| MinuteController.HeatCapacitySign | model_testing/model.py:24-39 | c_home is positive iff the area is, and zero iff the area is |
| MinuteController.HvacHeat | model_testing/model.py:46-50 | the HVAC heat flow by mode family; HvacHeatBySubstring proves it equal to the source's substring tests, and ModeShiftsNextTemp shows its effect on the next temperature |
| MinuteController.HvacHeatBySubstring | model_testing/model.py:46-50 | the substring tests on the mode name ("COOL" first, then "HEAT") select minus the HVAC power, plus the HVAC power, or 0, exactly the flow HvacHeat gives by mode family (cool, heat, OFF) |
| MinuteController.CalculateNextTemp | model_testing/model.py:41-54 | with Tout = Tin, no sun and mode OFF the temperature is unchanged |
| MinuteController.ModeShiftsNextTemp | model_testing/model.py:46-54 | a mode shifts the next temperature by exactly its HVAC heat x 60 / c_home relative to OFF |
| MinuteController.NextMode | model_testing/model.py:133-161 | a locked mode is kept; a running mode only stays or goes OFF, so heat never switches directly to cool; the cool family stops iff temp <= setpoint, the heat family iff temp >= setpoint; from unlocked OFF: COOL iff temp > sp + 0.5, HEAT iff temp < sp - 0.5, otherwise PRE-COOL iff predicted > sp + 1, otherwise PRE-HEAT iff predicted < sp - 1 |
| MinuteController.PredictFrom | model_testing/model.py:126-130 | the OFF-mode prediction over samples i, i+5, ... below min(i + 60, n); Predict's loop is proved equal to it, and PredictionAtEquilibrium fixes it at equilibrium |
| MinuteController.PredictStepsBound | model_testing/model.py:128 | the stride-5 range from k below the limit has fewer than (limit - k)/5 + 1 steps |
| MinuteController.PredictionAtMostTwelveSteps | model_testing/model.py:127-128 | the look-ahead range takes at most 12 steps; Predict counts its loop iterations and meets this bound |
| MinuteController.PredictionAtEquilibrium | model_testing/model.py:126-130 | when every look-ahead row has the current temperature outside and no sun, the prediction is the current temperature |
| MinuteController.Predict | model_testing/model.py:126-130 | the loop computes the OFF-mode prediction over rows i, i+5, ... below min(i + 60, n) |
| MinuteController.DecideMode | model_testing/model.py:133-161 | the lock and decision code, which tests the mode name for the substrings "COOL" and "HEAT" as the source does, returns exactly NextMode, which decides by mode family |
| MinuteController.ExtendBlock | model_testing/model.py:187-189 | one more sample in the current block: no row, the mode kept, the minute count up by one; ExtendKeepsConsistent proves it keeps the block invariant |
| MinuteController.CloseBlock | model_testing/model.py:167-189 | the block's row is emitted and a new block starts at sample i with the new mode; CloseKeepsConsistent proves it keeps the block invariant |
| MinuteController.Step | model_testing/model.py:118-189 | one loop iteration: predict, decide by NextMode, advance by CalculateNextTemp, then close or extend the block; StepKeepsConsistent proves it keeps the invariant |
| MinuteController.StateAfter | model_testing/model.py:104-189 | the loop state after i samples; GenerateSchedule is proved equal to it and ScheduleBlocks proves the tiling of its rows |
| MinuteController.GenerateSchedule | model_testing/model.py:104-189 | the loop's schedule is the one the per-sample step function builds |
| MinuteController.CloseKeepsConsistent | model_testing/model.py:167-185 | closing a block on an unlocked mode change keeps the schedule invariant |
| MinuteController.ExtendKeepsConsistent | model_testing/model.py:187-189 | extending the current block keeps the schedule invariant |
| MinuteController.StepKeepsConsistent | model_testing/model.py:117-189 | every sample before the last keeps the schedule invariant |
| MinuteController.ConsistentBeforeLastSample | model_testing/model.py:104-189 | the invariant holds after every prefix of the samples |
| MinuteController.ScheduleBlocks | model_testing/model.py:133-189 | the rows tile samples 0 to n - 1; every row but the last: lasts at least 15 samples (running) or 10 (OFF), differs in mode from the next row, is followed by OFF when running, and has its block's start date and time, stop time and mean outdoor temperature |
| IndoorDrift.ParseInsulation | weather-app/backend/api/hvac_simulation/indoor_temp_simulation.py:52-53 | only the exact strings "poor", "average" and "excellent" are accepted |
| IndoorDrift.BaseRate | weather-app/backend/api/hvac_simulation/indoor_temp_simulation.py:14-18 | the base rate lies in [0.007, 0.030] |
| IndoorDrift.UaPerM2 | weather-app/backend/api/hvac_simulation/indoor_temp_simulation.py:20-24 | UA per m2 lies in [1.2, 3.0] |
| IndoorDrift.Shgc | weather-app/backend/api/hvac_simulation/indoor_temp_simulation.py:26-30 | SHGC lies in [0.45, 0.65] |
| IndoorDrift.Relax | weather-app/backend/api/hvac_simulation/indoor_temp_simulation.py:65-67 | for k in [0, 1] the result lies between indoor and outdoor; it is unchanged when they are equal, and any positive k moves it strictly towards outdoor |
| IndoorDrift.SimpleAgeMultiplier | weather-app/backend/api/hvac_simulation/indoor_temp_simulation.py:59 | at most 1.5, at least 1 for age >= 0, and 1.5 from 25 years |
| IndoorDrift.SizeMultiplier | weather-app/backend/api/hvac_simulation/indoor_temp_simulation.py:62 | in [0.5, 1.5] for every nonzero size, 0.5 for negative sizes |
| IndoorDrift.SimpleRateBound | weather-app/backend/api/hvac_simulation/indoor_temp_simulation.py:56-65 | at the default 5-minute step and age >= 0 the simple k_eff lies in [0, 0.0675] |
| IndoorDrift.SimpleStep | weather-app/backend/api/hvac_simulation/indoor_temp_simulation.py:39-68 | invalid insulation iff the quality is not in the table; division by zero iff it is and size = 0; unchanged when indoor = outdoor; at the default step and age >= 0 the result lies between indoor and outdoor |
| IndoorDrift.BasicStep | weather-app/backend/api/hvac_simulation/indoor_temp_simulation.py:71-92 | fails iff the insulation is invalid, checked before the size; size <= 0 returns indoor; unchanged when indoor = outdoor; between indoor and outdoor at the default step |
| IndoorDrift.RcAgeFactor | weather-app/backend/api/hvac_simulation/indoor_temp_simulation.py:119 | at most 1.6, and at least 1 for age >= 0 |
| IndoorDrift.WindFactor | weather-app/backend/api/hvac_simulation/indoor_temp_simulation.py:120 | in [1, 1.24]; 1 for no wind and 1.24 from 20 m/s |
| IndoorDrift.MassFactor | weather-app/backend/api/hvac_simulation/indoor_temp_simulation.py:125 | at most 1.25, at least 1 for age >= 0, and 0 exactly at age -80 |
| IndoorDrift.SolarGain | weather-app/backend/api/hvac_simulation/indoor_temp_simulation.py:128-131 | the solar gain is never negative, and 0 for irradiance <= 0 |
| IndoorDrift.LossCoefficient | weather-app/backend/api/hvac_simulation/indoor_temp_simulation.py:118-121 | UA is positive for a positive floor area and age >= 0 |
| IndoorDrift.Capacitance | weather-app/backend/api/hvac_simulation/indoor_temp_simulation.py:124-125 | C is zero iff age = -80, and positive for age >= 0 |
| IndoorDrift.RcStep | weather-app/backend/api/hvac_simulation/indoor_temp_simulation.py:95-138 | size <= 0 returns indoor before the insulation check; otherwise invalid insulation fails; division by zero iff age = -80; with no gains and indoor = outdoor the temperature is unchanged |
| IndoorDrift.RcStepMovesTowardsOutdoor | weather-app/backend/api/hvac_simulation/indoor_temp_simulation.py:133-137 | with no gains, a valid house and age >= 0 the RC step succeeds and moves strictly towards outdoor |
| IndoorDrift.ParseStamp | weather-app/backend/api/hvac_simulation/indoor_temp_simulation.py:157-160 | every accepted "YYYY-MM-DD HH:MM:SS" text is a valid calendar date and time |
| IndoorDrift.FormatStamp | weather-app/backend/api/hvac_simulation/indoor_temp_simulation.py:158 | formatting a valid date and time gives the 19-character layout |
| IndoorDrift.FormatThenParse | weather-app/backend/api/hvac_simulation/indoor_temp_simulation.py:158 | parsing a formatted date and time gives it back |
| IndoorDrift.ParseThenFormat | weather-app/backend/api/hvac_simulation/indoor_temp_simulation.py:158 | formatting a parsed text gives the text back |
| IndoorDrift.DropZone | weather-app/backend/api/hvac_simulation/indoor_temp_simulation.py:154-155 | the input when it has at most one space; otherwise the prefix before the second space, which holds exactly one space |
| IndoorDrift.ParseWeatherRowTime | weather-app/backend/api/hvac_simulation/indoor_temp_simulation.py:145-160 | a non-string date gives None; any result is a valid date and time |
| IndoorDrift.ParseWeatherRowTimeRoundTrip | weather-app/backend/api/hvac_simulation/indoor_temp_simulation.py:153-158 | a formatted time parses back, both bare and followed by a time-zone token |
| IndoorDrift.Seconds | weather-app/backend/api/hvac_simulation/indoor_temp_simulation.py:176 | seconds since a fixed day of a valid date and time, the scale of `total_seconds`; used by RowDelta |
| IndoorDrift.SecondsInjective | weather-app/backend/api/hvac_simulation/indoor_temp_simulation.py:176 | two valid datetimes with the same seconds count are the same datetime, so `total_seconds` of their difference is 0 only for equal times |
| IndoorDrift.DayNumberInjective | weather-app/backend/api/hvac_simulation/indoor_temp_simulation.py:176 | two valid dates with the same proleptic-Gregorian day number have the same year, month and day |
| IndoorDrift.RowDelta | weather-app/backend/api/hvac_simulation/indoor_temp_simulation.py:168-176 | a distance exists iff the row is a dictionary with a parsable date, and it is 0 iff the row's time has the target's seconds count, which by SecondsInjective means iff it is the target datetime |
| IndoorDrift.SelectWeatherRow | weather-app/backend/api/hvac_simulation/indoor_temp_simulation.py:163-181 | None iff no row is a dictionary with a parsable date; otherwise a row with the least distance to the target, and every earlier row has a strictly larger distance |
| IndoorDrift.ChosenRowUnique | weather-app/backend/api/hvac_simulation/indoor_temp_simulation.py:176-179 | the strict `<` makes the chosen row unique: of the rows at the least distance, only the earliest is chosen |
| IndoorDrift.DriftStep | weather-app/backend/api/hvac_simulation/indoor_temp_simulation.py:221-255 | exactly: no rows is "rows missing"; a chosen row (the earliest nearest usable row, or the first row when none is usable) without a temperature is "temperature missing"; otherwise an invalid insulation fails and a valid one succeeds. A success starts from the stored temperature or the outdoor one and is one basic 5-minute step |
| ThermostatStep.InsulationUValue | weather-app/backend/api/thermostat_data_api/indoor_temp_simulation.py:13-20 | 1.2, 0.5 and 0.15 for poor, average and excellent, case-insensitive, and 0.5 otherwise |
| ThermostatStep.AirChanges | weather-app/backend/api/thermostat_data_api/indoor_temp_simulation.py:22-27 | base 1.0 for poor, 0.5 for average, 0.1 for any other text, plus 0.02 x wind |
| ThermostatStep.ThermalMassLinear | weather-app/backend/api/thermostat_data_api/indoor_temp_simulation.py:29-39 | the thermal mass is 3431.25617625 x sqft: additive, zero iff the size is zero, and positive for positive sizes |
| ThermostatStep.ThermostatMode | weather-app/backend/api/thermostat_data_api/indoor_temp_simulation.py:123-129 | heating iff T_in < target - 0.5, cooling iff T_in > target + 0.5, off iff inside the deadband |
| ThermostatStep.HvacLoad | weather-app/backend/api/thermostat_data_api/indoor_temp_simulation.py:119-128 | +10000 W heating, -10000 W cooling, 0 off |
| ThermostatStep.SnowAdjustedU | weather-app/backend/api/thermostat_data_api/indoor_temp_simulation.py:94-96 | snow scales U by 0.7, otherwise U is unchanged |
| ThermostatStep.BoundaryTemp | weather-app/backend/api/thermostat_data_api/indoor_temp_simulation.py:99-105 | dry: T_out; rain: the dew point, or T_out - 2 when there is none |
| ThermostatStep.ConditionsOf | weather-app/backend/api/thermostat_data_api/indoor_temp_simulation.py:80-84 | missing fields read as 0; raining iff rain > 0; snowing iff snowfall > 0 |
| ThermostatStep.LoadsOf | weather-app/backend/api/thermostat_data_api/indoor_temp_simulation.py:107-129 | conduction uses the snow-adjusted U and the rain boundary over the envelope; infiltration always uses T_out; the HVAC load follows the thermostat mode |
| ThermostatStep.NextTemp | weather-app/backend/api/thermostat_data_api/indoor_temp_simulation.py:132-135 | T_next = T_in iff the total load is 0; with C > 0 the temperature rises iff the load is positive |
| ThermostatStep.StillAirIsSteady | weather-app/backend/api/thermostat_data_api/indoor_temp_simulation.py:132-135 | with T_out = T_in, no rain, no sun and the thermostat off, T_next = T_in |
| ThermostatStep.NoLoadNoChange | weather-app/backend/api/thermostat_data_api/indoor_temp_simulation.py:132-135 | a zero total load leaves the temperature unchanged |
| ThermostatStep.NoGradientNoFlow | weather-app/backend/api/thermostat_data_api/indoor_temp_simulation.py:108-113 | no temperature difference means no conduction and no infiltration |
| ThermostatStep.HeatingShift | weather-app/backend/api/thermostat_data_api/indoor_temp_simulation.py:125-135 | heating raises T_next by exactly 10000 x 3600 / C over the same step without HVAC |
| ThermostatStep.RainLeavesInfiltration | weather-app/backend/api/thermostat_data_api/indoor_temp_simulation.py:98-113 | rain changes the conductive boundary but never the infiltration load |
| ThermostatStep.RunSimulationStep | weather-app/backend/api/thermostat_data_api/indoor_temp_simulation.py:41-141 | exactly: no weather record is "not found", no rows is "empty", size 0 is the division by zero, and every other input succeeds. Defaults are 1500 sqft, "average" and 22; T_in defaults to the target; the first row is used and its date reported; the mode and loads are those of the step; T_next = T_in + Q_total x 3600 / C |
| HourlyDrift.InsulationCoefficient | weather-app/backend/api/hvac_output/indoor_temp_simulation.py:8-20 | 0.05, 0.03 and 0.01 for poor, average and excellent, case-insensitive, 0.03 otherwise; always in [0.01, 0.05] |
| HourlyDrift.HouseVolume | weather-app/backend/api/hvac_output/indoor_temp_simulation.py:22-28 | the volume is 0.2322575 m3 per sqft |
| HourlyDrift.SizeDivisor | weather-app/backend/api/hvac_output/indoor_temp_simulation.py:50 | the divisor is at least 1; it is 1 up to 200 m3 and volume/200 above |
| HourlyDrift.EffectiveCoefficient | weather-app/backend/api/hvac_output/indoor_temp_simulation.py:43-50 | a non-negative wind-scaled coefficient is only reduced by the size adjustment, never made negative |
| HourlyDrift.DivideByAtLeastOne | weather-app/backend/api/hvac_output/indoor_temp_simulation.py:50 | dividing a non-negative value by a divisor >= 1 keeps it within [0, value] |
| HourlyDrift.PrecipitationCooling | weather-app/backend/api/hvac_output/indoor_temp_simulation.py:59 | -0.1 for any positive precipitation, 0 otherwise |
| HourlyDrift.SimulateIndoorTemp | weather-app/backend/api/hvac_output/indoor_temp_simulation.py:30-62 | with indoor = outdoor, only the solar gain and the precipitation cooling move the temperature; DryDarkStepIsBetween and WeatherOffsets give the rest |
| HourlyDrift.DryDarkStepIsBetween | weather-app/backend/api/hvac_output/indoor_temp_simulation.py:52-62 | with no sun, no precipitation and k in [0, 1], the next temperature lies between indoor and outdoor, and is unchanged when they are equal |
| HourlyDrift.WeatherOffsets | weather-app/backend/api/hvac_output/indoor_temp_simulation.py:55-62 | a wet hour ends exactly 0.1 below the dry one, and sun adds exactly 0.0002 x radiation |
| HourlyDrift.RunSimulationStep | weather-app/backend/api/hvac_output/indoor_temp_simulation.py:66-130 | a missing or zero user id is "user not found", checked first; no weather record or no rows is an error; otherwise the first row is stepped from the stored temperature (21 by default) with precipitation = rain + snow, size 1500 and "average" by default |

## Left out

- Calls to the generative model are not modelled: prompt building, the calls themselves and
  the JSON replies. They are foreign and non-deterministic, so their replies are parameters.
  The alert module and the chat prototype are left out for the same reason.
- Database access, the web routes, geocoding, weather fetching and password hashing are not
  modelled. Each `run_simulation_step` keeps only its pure computation, and the database
  write is left out.
- Reading weather files, the synthetic weather series and the minute resampling are not
  modelled: the model takes the per-row series as input.
- model/generate_train.py is not part of this model. It imports functions that the hourly
  prototype does not define, and it trains with random data.
- Python's `round`, IEEE floating point and NaN are not modelled. Real arithmetic is exact and
  `round` is the identity.
- SmartHvac.RunSimulation requires that the first row has a temperature whenever any row has
  one. In the source, the other case starts from NaN, which exact reals cannot express.
- `datetime.now()` (hour, simulation time) and `random.randint(20, 24)` are not modelled;
  they are parameters.
- The free-text `reason` fields and the `generated_at` timestamps are not modelled.
- Non-ASCII text is not modelled: `lower()` and `strip()` act on ASCII letters and
  whitespace only.
- IndoorDrift.ParseStamp accepts exactly two digits per field, four for the year. `strptime`
  also accepts one-digit fields such as "2025-1-5 3:04:05", which the model rejects. The space
  of the format also matches any run of whitespace in `strptime`, so "2025-01-05\t03:04:05"
  (which has no space, and so reaches `strptime` whole) parses in the source; the model
  requires a single ' ' between date and time.
- Text that is not a number is not modelled where the source converts it with `float(...)`
  and fails with `ValueError`; the model takes the already-converted number:
  - SmartHvac.RunSimulation: `home_size` from the house file.
  - MinuteController.NewModel: `home_size`. A non-string insulation quality, on which
    `.lower()` raises `AttributeError`, cannot be expressed either (the parameter is a string).
  - ThermostatStep.RunSimulationStep and HourlyDrift.RunSimulationStep: `home_size`, the
    weather fields and, for ThermostatStep, `personal_comfort`.
  - HvacPhysics.FallbackSimulation: `temperature_2m` and `home_size`. A `temperature_2m` stored
    as `None` raises `TypeError` in the source, where the model uses 20.
  - IndoorDrift.DriftStep: `temperature_2m` of the chosen row and a stored `simulated_temp`.
    The model takes both as numbers (`WeatherRow.temperature2m` and `simulatedTemp`).
- IndoorDrift.DriftStep: the simulation time has whole seconds only. The source's
  `datetime.now()` fallback and `fromisoformat` both carry microseconds, which can break a tie
  between two rows: with rows at 14:00 and 15:00 and a time of 14:30:00.6 the source picks the
  15:00 row, which no whole-second time reproduces (14:30:00 ties and picks 14:00).
- IndoorDrift.DriftStep starts where the house fields have been read. A non-dictionary row
  chosen as the fallback first row is reported as missing its temperature; in the source, the
  `in` test on such a value depends on its Python type.
- ThermostatStep.RunSimulationStep: `Some([])` stands for both a stored record with no rows
  and an empty top-level list. The source reports the empty list as "not found" rather than
  "empty"; both are errors.
- HourlyDrift.RunSimulationStep: `Some([])` stands for both a stored record with no rows and
  an empty top-level list, as for ThermostatStep.RunSimulationStep.
- MinuteController.ScheduleBlocks does not tie `inside_temp` to the block's indoor samples.
  That average comes from the same buffers as the outdoor one, which the lemma does state.
- MinuteController.CalculateNextTemp and MinuteController.GenerateSchedule require a nonzero
  `c_home`. A `home_size` of 0 gives `c_home` 0, and the source then fails with a division by
  zero on the first sample; the model excludes that input instead of returning an error.
  MinuteController.GenerateSchedule also requires at least one sample, because the source
  fails on the first row of an empty series.
- Stored records distinguish only a present value from an absent key. A key stored with the
  value `None` reads like an absent key, which the source does not do:
  - ThermostatStep.RunSimulationStep and HourlyDrift.RunSimulationStep: `float(None)` on a
    weather field or on `home_size` raises `TypeError` in the source, where the model uses the
    default. In ThermostatStep.RunSimulationStep an insulation stored as `None` becomes "none"
    after `str(...).lower()`, so the source uses the fallback constants (U 0.5, base air
    changes 0.1), where the model's default "average" gives an air-change base of 0.5.
  - HvacPhysics.HomeSizeOf and HvacPhysics.ToAction: `float(None)` or `int(None)` on
    `home_size`, `hour`, `power_kw` or `cost` raises `TypeError` in the source, where the
    model uses the default.
  - HvacPhysics.HvacTypeOf, HvacPhysics.InsulationOf and HvacPhysics.ToAction: a `None` type,
    insulation, mode or time is passed on by `dict.get` in the source, where the model
    substitutes the default.
  - IndoorDrift.DriftStep: the `in` test on the chosen row checks only that `temperature_2m`
    is present, so a value stored as `None` passes it and `float(None)` raises `TypeError` in
    the source; the model has no present-but-`None` temperature and reports such a row as
    `TemperatureMissing`.
- HvacPhysics.GenerateFallbackSchedule requires a non-empty forecast, because the source
  fails on `weather_rows[-1]` when the forecast is empty.
- SmartHvac.ParseLine follows the regular expression of the source, not the plain "every line
  with a colon" reading: a line needs at least one character before its first colon and at
  least one after it.

## Findings

| source | as written | input that shows it | evidently intended | confidence | as-written member | corrected member |
|---|---|---|---|---|---|---|
| weather-app/backend/api/hvac_simulation/hvac_physics.py:759-762 | the length test `len(upcoming) >= count` runs only after an append, so for count <= 0 the first eligible action is still returned | count 0, current hour 8, one "heat" action at hour 8: one action is returned | at most `count` actions, none for count <= 0 | not executed; the default count is 5, so only callers passing 0 or less see it | HvacPhysics.UpcomingZeroCountStillReturnsOne | HvacPhysics.GetUpcomingActionsBounded |
