/** The passive indoor-temperature steps of
    weather-app/backend/api/hvac_simulation/indoor_temp_simulation.py: the
    simple and basic Newton-cooling steps, the first-order RC step, the
    weather-row timestamp parser and the nearest-row selection, and the pure
    part of run_simulation_step around them. Insulation names are matched
    exactly (no lower-casing), as the source's dictionary lookups do. */
module IndoorDrift {
  import opened Common

  datatype Insulation = Poor | Average | Excellent

  /** Membership in the source's per-quality tables. */
  function ParseInsulation(s: string): (r: Option<Insulation>)
    ensures r == Some(Poor) <==> s == "poor"
    ensures r == Some(Average) <==> s == "average"
    ensures r == Some(Excellent) <==> s == "excellent"
  {
    if s == "poor" then Some(Poor)
    else if s == "average" then Some(Average)
    else if s == "excellent" then Some(Excellent)
    else None
  }

  /** BASE_INSULATION_RATE, per five minutes. */
  function BaseRate(q: Insulation): (k: real)
    ensures 0.007 <= k <= 0.030
  {
    match q
    case Poor => 0.030
    case Average => 0.015
    case Excellent => 0.007
  }

  /** UA_PER_M2, in W/(m²·K). */
  function UaPerM2(q: Insulation): (u: real)
    ensures 1.2 <= u <= 3.0
  {
    match q
    case Poor => 3.0
    case Average => 2.0
    case Excellent => 1.2
  }

  /** SHGC_VALUES, the window solar heat gain coefficient. */
  function Shgc(q: Insulation): (g: real)
    ensures 0.45 <= g <= 0.65
  {
    match q
    case Poor => 0.65
    case Average => 0.55
    case Excellent => 0.45
  }

  const SqftToM2: real := 0.092903
  const DefaultTimestepMinutes: int := 5

  /** The exceptions the step functions let escape: ValueError for an
      unknown insulation quality, ZeroDivisionError for a zero divisor. */
  datatype SimError = InvalidInsulation | DivisionByZero

  // ------------------------------------------------------------------
  // Newton-cooling steps
  // ------------------------------------------------------------------

  /** One relaxation step of rate k from `indoor` towards `outdoor`. */
  function Relax(indoor: real, outdoor: real, k: real): (t: real)
    ensures 0.0 <= k <= 1.0 ==> Min(indoor, outdoor) <= t <= Max(indoor, outdoor)
    ensures indoor == outdoor ==> t == indoor
    ensures 0.0 < k && indoor < outdoor ==> indoor < t
    ensures 0.0 < k && outdoor < indoor ==> t < indoor
  {
    RelaxBounds(indoor, outdoor, k);
    DifferenceTimesSign(indoor, outdoor, k);
    indoor + (outdoor - indoor) * k
  }

  lemma RelaxBounds(indoor: real, outdoor: real, k: real)
    ensures 0.0 <= k <= 1.0 ==> Min(indoor, outdoor) <= indoor + (outdoor - indoor) * k <= Max(indoor, outdoor)
  {
    if 0.0 <= k <= 1.0 {
      PartialStepBetween(indoor, outdoor, k);
    }
  }

  /** Leakage multiplier of the simple model: at most 50 % more for old houses. */
  function SimpleAgeMultiplier(ageYears: int): (r: real)
    ensures r <= 1.5
    ensures ageYears >= 0 ==> 1.0 <= r
    ensures ageYears >= 25 ==> r == 1.5
  {
    1.0 + Min(ageYears as real / 50.0, 0.5)
  }

  /** Thermal-mass proxy: 1500 ft² over the size, clamped to [0.5, 1.5]. */
  function SizeMultiplier(sizeSqft: real): (r: real)
    requires sizeSqft != 0.0
    ensures 0.5 <= r <= 1.5
    ensures sizeSqft < 0.0 ==> r == 0.5
  {
    Max(0.5, Min(1500.0 / sizeSqft, 1.5))
  }

  /** The effective rate at the default five-minute step. */
  lemma SimpleRateBound(q: Insulation, ageYears: int, sizeSqft: real)
    requires sizeSqft != 0.0
    ensures var k := BaseRate(q) * SimpleAgeMultiplier(ageYears) * SizeMultiplier(sizeSqft)
                     * (DefaultTimestepMinutes as real / 5.0);
            ageYears >= 0 ==> 0.0 <= k <= 0.0675
  {
    if ageYears >= 0 {
      var b, a, s := BaseRate(q), SimpleAgeMultiplier(ageYears), SizeMultiplier(sizeSqft);
      var f := DefaultTimestepMinutes as real / 5.0;
      assert f == 1.0;
      assert b * a <= 0.045 by {
        assert b * a <= 0.030 * a <= 0.030 * 1.5;
      }
      assert 0.0 <= b * a;
      assert (b * a) * s <= 0.045 * s <= 0.045 * 1.5;
      assert 0.0 <= (b * a) * s;
      var k := b * a * s * f;
      assert k == (b * a) * s;
      assert 0.0 <= k <= 0.0675;
    }
  }

  /** simulate_indoor_temp_simple. */
  function SimpleStep(indoor: real, outdoor: real, quality: string, sizeSqft: real, ageYears: int,
                      timestepMinutes: int): (r: Result<real, SimError>)
    ensures r == Err(InvalidInsulation) <==> ParseInsulation(quality).None?
    ensures r == Err(DivisionByZero) <==> ParseInsulation(quality).Some? && sizeSqft == 0.0
    ensures r.Ok? && indoor == outdoor ==> r.value == indoor
    ensures r.Ok? && ageYears >= 0 && timestepMinutes == DefaultTimestepMinutes ==>
              Min(indoor, outdoor) <= r.value <= Max(indoor, outdoor)
  {
    match ParseInsulation(quality)
    case None => Err(InvalidInsulation)
    case Some(q) =>
      if sizeSqft == 0.0 then Err(DivisionByZero)
      else
        var k := BaseRate(q) * SimpleAgeMultiplier(ageYears) * SizeMultiplier(sizeSqft)
                 * (timestepMinutes as real / 5.0);
        SimpleRateBound(q, ageYears, sizeSqft);
        Ok(Relax(indoor, outdoor, k))
  }

  /** simulate_indoor_temp_basic: the insulation is validated first, then a
      non-positive size leaves the temperature where it is. */
  function BasicStep(indoor: real, outdoor: real, quality: string, sizeSqft: real,
                     timestepMinutes: int): (r: Result<real, SimError>)
    ensures r.Err? <==> ParseInsulation(quality).None?
    ensures r.Err? ==> r.error == InvalidInsulation
    ensures ParseInsulation(quality).Some? && sizeSqft <= 0.0 ==> r == Ok(indoor)
    ensures r.Ok? && indoor == outdoor ==> r.value == indoor
    ensures r.Ok? && timestepMinutes == DefaultTimestepMinutes ==>
              Min(indoor, outdoor) <= r.value <= Max(indoor, outdoor)
  {
    match ParseInsulation(quality)
    case None => Err(InvalidInsulation)
    case Some(q) =>
      if sizeSqft <= 0.0 then Ok(indoor)
      else
        var k := BaseRate(q) * SizeMultiplier(sizeSqft) * (timestepMinutes as real / 5.0);
        assert timestepMinutes == DefaultTimestepMinutes ==> k <= 0.045;
        Ok(Relax(indoor, outdoor, k))
  }

  // ------------------------------------------------------------------
  // RC step
  // ------------------------------------------------------------------

  /** Older houses lose up to 60 % more heat. */
  function RcAgeFactor(ageYears: int): (r: real)
    ensures r <= 1.6
    ensures ageYears >= 0 ==> 1.0 <= r
  {
    1.0 + Min(ageYears as real / 60.0, 0.6)
  }

  /** Wind raises the loss by up to 24 %, and negative speeds count as calm. */
  function WindFactor(windMs: real): (r: real)
    ensures 1.0 <= r <= 1.24
    ensures windMs <= 0.0 ==> r == 1.0
    ensures windMs >= 20.0 ==> r == 1.24
  {
    1.0 + Max(0.0, Min(windMs / 10.0, 2.0)) * 0.12
  }

  /** Heavier, older houses store up to 25 % more heat per m². */
  function MassFactor(ageYears: int): (r: real)
    ensures r <= 1.25
    ensures ageYears >= 0 ==> 1.0 <= r
    ensures r == 0.0 <==> ageYears == -80
  {
    1.0 + Min(ageYears as real / 80.0, 0.25)
  }

  /** Solar gain through windows of 15 % of the floor area. */
  function SolarGain(q: Insulation, floorAreaM2: real, irradiance: real): (w: real)
    requires floorAreaM2 >= 0.0
    ensures w >= 0.0
    ensures irradiance <= 0.0 ==> w == 0.0
  {
    var windowArea := floorAreaM2 * 0.15;
    var g := Max(0.0, irradiance);
    assert g * windowArea >= 0.0;
    g * windowArea * Shgc(q) * 0.35
  }

  /** The loss coefficient UA in W/K. */
  function LossCoefficient(q: Insulation, floorAreaM2: real, ageYears: int, windMs: real): (ua: real)
    requires floorAreaM2 > 0.0
    ensures ageYears >= 0 ==> ua > 0.0
  {
    var u := UaPerM2(q) * floorAreaM2;
    assert u > 0.0;
    u * RcAgeFactor(ageYears) * WindFactor(windMs)
  }

  /** The heat capacity C in J/K. */
  function Capacitance(floorAreaM2: real, ageYears: int): (c: real)
    requires floorAreaM2 > 0.0
    ensures c == 0.0 <==> ageYears == -80
    ensures ageYears >= 0 ==> c > 0.0
  {
    60000.0 * floorAreaM2 * MassFactor(ageYears)
  }

  /** simulate_indoor_temp_rc: a non-positive size leaves the temperature
      where it is, before the insulation is validated. */
  function RcStep(indoorC: real, outdoorC: real, quality: string, sizeSqft: real, ageYears: int,
                  timestepMinutes: int, irradiance: real, windMs: real, internalGainsW: real)
    : (r: Result<real, SimError>)
    ensures sizeSqft <= 0.0 ==> r == Ok(indoorC)
    ensures sizeSqft > 0.0 ==> (r == Err(InvalidInsulation) <==> ParseInsulation(quality).None?)
    ensures r == Err(DivisionByZero) <==> sizeSqft > 0.0 && ParseInsulation(quality).Some? && ageYears == -80
    ensures r.Ok? && indoorC == outdoorC && internalGainsW == 0.0 && irradiance <= 0.0 ==> r.value == indoorC
  {
    if sizeSqft <= 0.0 then Ok(indoorC)
    else match ParseInsulation(quality)
      case None => Err(InvalidInsulation)
      case Some(q) =>
        var area := sizeSqft * SqftToM2;
        var ua := LossCoefficient(q, area, ageYears, windMs);
        var c := Capacitance(area, ageYears);
        if c == 0.0 then Err(DivisionByZero)
        else
          var dt := timestepMinutes as real * 60.0;
          var heat := ua * (outdoorC - indoorC) + internalGainsW + SolarGain(q, area, irradiance);
          Ok(indoorC + (dt / c) * heat)
  }

  /** With no internal or solar gains the RC step moves strictly towards
      the outdoor temperature. */
  lemma RcStepMovesTowardsOutdoor(indoorC: real, outdoorC: real, q: Insulation, sizeSqft: real, ageYears: int,
                                  timestepMinutes: int, windMs: real)
    requires sizeSqft > 0.0 && ageYears >= 0 && timestepMinutes > 0
    ensures var r := RcStep(indoorC, outdoorC, InsulationName(q), sizeSqft, ageYears, timestepMinutes, 0.0, windMs, 0.0);
            && r.Ok?
            && (indoorC < outdoorC ==> indoorC < r.value)
            && (outdoorC < indoorC ==> r.value < indoorC)
  {
    var area := sizeSqft * SqftToM2;
    var ua := LossCoefficient(q, area, ageYears, windMs);
    var c := Capacitance(area, ageYears);
    var dt := timestepMinutes as real * 60.0;
    var f := dt / c;
    assert f > 0.0;
    var heat := ua * (outdoorC - indoorC) + 0.0 + SolarGain(q, area, 0.0);
    assert heat == ua * (outdoorC - indoorC);
    assert indoorC < outdoorC ==> heat > 0.0 && f * heat > 0.0;
    assert outdoorC < indoorC ==> heat < 0.0 && f * heat < 0.0;
  }

  function InsulationName(q: Insulation): (s: string)
    ensures ParseInsulation(s) == Some(q)
  {
    match q
    case Poor => "poor"
    case Average => "average"
    case Excellent => "excellent"
  }

  // ------------------------------------------------------------------
  // Weather-row timestamps
  // ------------------------------------------------------------------

  /** A naive datetime. */
  datatype DateTime = DateTime(year: int, month: int, day: int, hour: int, minute: int, second: int)

  predicate IsLeap(y: int)
  {
    y % 4 == 0 && (y % 100 != 0 || y % 400 == 0)
  }

  function DaysInMonth(y: int, m: int): (d: int)
    requires 1 <= m <= 12
    ensures 28 <= d <= 31
  {
    if m == 2 then (if IsLeap(y) then 29 else 28)
    else if m == 4 || m == 6 || m == 9 || m == 11 then 30
    else 31
  }

  /** What Python's datetime constructor accepts. */
  predicate ValidDateTime(t: DateTime)
  {
    && 1 <= t.year <= 9999 && 1 <= t.month <= 12 && 1 <= t.day <= DaysInMonth(t.year, t.month)
    && 0 <= t.hour <= 23 && 0 <= t.minute <= 59 && 0 <= t.second <= 59
  }

  predicate IsDigit(c: char) { '0' <= c <= '9' }

  function DigitValue(c: char): int { c as int - '0' as int }

  function Digit(d: int): (c: char)
    requires 0 <= d <= 9
    ensures IsDigit(c) && DigitValue(c) == d
  {
    ('0' as int + d) as char
  }

  /** A digit character is the digit of its value. */
  lemma DigitOfValue(c: char)
    requires IsDigit(c)
    ensures 0 <= DigitValue(c) <= 9 && Digit(DigitValue(c)) == c
  {
  }

  /** The two-digit field starting at s[i]. */
  function Two(s: string, i: nat): int
    requires i + 2 <= |s|
  {
    10 * DigitValue(s[i]) + DigitValue(s[i + 1])
  }

  /** Positions of the fixed separators in "YYYY-MM-DD HH:MM:SS". */
  predicate StampLayout(s: string)
  {
    && |s| == 19 && s[4] == '-' && s[7] == '-' && s[10] == ' ' && s[13] == ':' && s[16] == ':'
    && forall j :: 0 <= j < 19 && j != 4 && j != 7 && j != 10 && j != 13 && j != 16 ==> IsDigit(s[j])
  }

  /** The datetime the fields of a laid-out stamp spell. */
  function StampFields(s: string): DateTime
    requires |s| == 19
  {
    DateTime(100 * Two(s, 0) + Two(s, 2), Two(s, 5), Two(s, 8), Two(s, 11), Two(s, 14), Two(s, 17))
  }

  /** datetime.strptime(s, "%Y-%m-%d %H:%M:%S") on two-digit fields. */
  function ParseStamp(s: string): (r: Option<DateTime>)
    ensures r.Some? ==> ValidDateTime(r.value)
  {
    if !StampLayout(s) then None
    else if ValidDateTime(StampFields(s)) then Some(StampFields(s))
    else None
  }

  /** The canonical text of a datetime. */
  function FormatStamp(t: DateTime): (s: string)
    requires ValidDateTime(t)
    ensures StampLayout(s)
  {
    [Digit(t.year / 1000), Digit(t.year / 100 % 10), Digit(t.year / 10 % 10), Digit(t.year % 10), '-',
     Digit(t.month / 10), Digit(t.month % 10), '-', Digit(t.day / 10), Digit(t.day % 10), ' ',
     Digit(t.hour / 10), Digit(t.hour % 10), ':', Digit(t.minute / 10), Digit(t.minute % 10), ':',
     Digit(t.second / 10), Digit(t.second % 10)]
  }

  lemma SplitTwo(n: int)
    requires 0 <= n <= 99
    ensures 0 <= n / 10 <= 9 && 0 <= n % 10 <= 9 && n == 10 * (n / 10) + n % 10
  {
  }

  lemma SplitFour(n: int)
    requires 0 <= n <= 9999
    ensures n / 1000 == (n / 100) / 10 && n / 100 % 10 == (n / 100) % 10
    ensures n / 10 % 10 == (n % 100) / 10 && n % 10 == (n % 100) % 10
    ensures n == 100 * (n / 100) + n % 100 && 0 <= n / 100 <= 99
  {
  }

  lemma JoinTwo(a: int, b: int)
    requires 0 <= a <= 9 && 0 <= b <= 9
    ensures (10 * a + b) / 10 == a && (10 * a + b) % 10 == b
  {
  }

  lemma JoinFour(hi: int, lo: int)
    requires 0 <= hi <= 99 && 0 <= lo <= 99
    ensures (100 * hi + lo) / 100 == hi && (100 * hi + lo) % 100 == lo
  {
  }

  /** Parsing the canonical text gives the datetime back. */
  lemma FormatThenParse(t: DateTime)
    requires ValidDateTime(t)
    ensures ParseStamp(FormatStamp(t)) == Some(t)
  {
    var f := FormatStamp(t);
    SplitFour(t.year);
    SplitTwo(t.year / 100);
    SplitTwo(t.year % 100);
    assert Two(f, 0) == t.year / 100 && Two(f, 2) == t.year % 100;
    SplitTwo(t.month);
    SplitTwo(t.day);
    SplitTwo(t.hour);
    SplitTwo(t.minute);
    SplitTwo(t.second);
    assert StampFields(f) == t;
  }

  /** Two digit characters are the digits of the number they spell. */
  lemma TwoDigitsBack(s: string, i: nat)
    requires i + 2 <= |s| && IsDigit(s[i]) && IsDigit(s[i + 1])
    ensures 0 <= Two(s, i) <= 99
    ensures Digit(Two(s, i) / 10) == s[i] && Digit(Two(s, i) % 10) == s[i + 1]
  {
    DigitOfValue(s[i]);
    DigitOfValue(s[i + 1]);
    JoinTwo(DigitValue(s[i]), DigitValue(s[i + 1]));
  }

  /** The same for the four digits of a year. */
  lemma YearDigitsBack(s: string)
    requires |s| >= 4 && IsDigit(s[0]) && IsDigit(s[1]) && IsDigit(s[2]) && IsDigit(s[3])
    ensures var y := 100 * Two(s, 0) + Two(s, 2);
            && Digit(y / 1000) == s[0] && Digit(y / 100 % 10) == s[1]
            && Digit(y / 10 % 10) == s[2] && Digit(y % 10) == s[3]
  {
    TwoDigitsBack(s, 0);
    TwoDigitsBack(s, 2);
    JoinFour(Two(s, 0), Two(s, 2));
    SplitFour(100 * Two(s, 0) + Two(s, 2));
  }

  /** A text that parses is the canonical text of its datetime. */
  lemma ParseThenFormat(s: string)
    requires ParseStamp(s).Some?
    ensures FormatStamp(ParseStamp(s).value) == s
  {
    var t := ParseStamp(s).value;
    assert StampLayout(s) && t == StampFields(s);
    YearDigitsBack(s);
    TwoDigitsBack(s, 5);
    TwoDigitsBack(s, 8);
    TwoDigitsBack(s, 11);
    TwoDigitsBack(s, 14);
    TwoDigitsBack(s, 17);
    var f := FormatStamp(t);
    assert f[0] == s[0] && f[1] == s[1] && f[2] == s[2] && f[3] == s[3];
    assert f[5] == s[5] && f[6] == s[6] && f[8] == s[8] && f[9] == s[9];
    assert f[11] == s[11] && f[12] == s[12] && f[14] == s[14] && f[15] == s[15] && f[17] == s[17] && f[18] == s[18];
    assert forall j :: 0 <= j < 19 ==> f[j] == s[j];
  }

  /** Index of the first space at or after `from`. */
  function FindSpace(s: string, from: nat): (r: Option<nat>)
    ensures r.Some? ==> from <= r.value < |s| && s[r.value] == ' '
    ensures r.Some? ==> forall j :: from <= j < r.value ==> s[j] != ' '
    ensures r.None? ==> forall j :: from <= j < |s| ==> s[j] != ' '
    decreases |s| - from
  {
    if from >= |s| then None
    else if s[from] == ' ' then Some(from)
    else FindSpace(s, from + 1)
  }

  /** `" ".join(s.split(" ")[:2])` when the split gives three or more parts,
      else `s`: the text before the second space, if there is one. */
  function DropZone(s: string): (r: string)
    ensures |r| <= |s| && r == s[..|r|]
    ensures r == s <==> forall p, q :: 0 <= p < q < |s| && s[p] == ' ' ==> s[q] != ' '
    ensures r != s ==> |r| < |s| && s[|r|] == ' '
    ensures r != s ==> exists p :: 0 <= p < |r| && r[p] == ' ' && forall j :: 0 <= j < |r| && j != p ==> r[j] != ' '
  {
    match FindSpace(s, 0)
    case None => s
    case Some(p) =>
      match FindSpace(s, p + 1)
      case None => s
      case Some(q) => s[..q]
  }

  /** _parse_weather_row_time; `date` is None when the value is not a string. */
  function ParseWeatherRowTime(date: Option<string>): (r: Option<DateTime>)
    ensures date.None? ==> r.None?
    ensures r.Some? ==> ValidDateTime(r.value)
  {
    match date
    case None => None
    case Some(s) => ParseStamp(DropZone(s))
  }

  /** A timestamp written canonically parses back, with or without a
      trailing time-zone token. */
  lemma ParseWeatherRowTimeRoundTrip(t: DateTime, zone: string)
    requires ValidDateTime(t)
    ensures ParseWeatherRowTime(Some(FormatStamp(t))) == Some(t)
    ensures ParseWeatherRowTime(Some(FormatStamp(t) + " " + zone)) == Some(t)
  {
    FormatThenParse(t);
    var f := FormatStamp(t);
    assert FindSpace(f, 0) == Some(10) by {
      assert forall j :: 0 <= j < 10 ==> f[j] != ' ';
    }
    assert FindSpace(f, 11) == None by {
      assert forall j :: 11 <= j < 19 ==> f[j] != ' ';
    }
    var s := f + " " + zone;
    assert s[..19] == f;
    assert FindSpace(s, 0) == Some(10) by {
      assert forall j :: 0 <= j < 10 ==> s[j] == f[j];
    }
    assert FindSpace(s, 11) == Some(19) by {
      assert forall j :: 11 <= j < 19 ==> s[j] == f[j];
      assert s[19] == ' ';
    }
  }

  /** Days since 0001-01-01 in the proleptic Gregorian calendar. */
  function DayNumber(t: DateTime): int
    requires ValidDateTime(t)
  {
    DaysBeforeYear(t.year) + DaysBeforeMonth(t.year, t.month) + t.day - 1
  }

  /** Days in the years before year y. */
  function DaysBeforeYear(y: int): int
    decreases y
  {
    if y <= 1 then 0 else DaysBeforeYear(y - 1) + (if IsLeap(y - 1) then 366 else 365)
  }

  function DaysBeforeMonth(y: int, m: int): int
    requires 1 <= m <= 12
  {
    if m == 1 then 0 else DaysBeforeMonth(y, m - 1) + DaysInMonth(y, m - 1)
  }

  function Seconds(t: DateTime): int
    requires ValidDateTime(t)
  {
    DayNumber(t) * 86400 + t.hour * 3600 + t.minute * 60 + t.second
  }

  /** Each year before y adds at least 365 days. */
  lemma {:induction false} DaysBeforeYearGrows(x: int, y: int)
    requires 1 <= x < y
    ensures DaysBeforeYear(x) + 365 <= DaysBeforeYear(y)
    decreases y - x
  {
    if x + 1 < y {
      DaysBeforeYearGrows(x, y - 1);
    }
  }

  /** The months before m take no more days than the months before n >= m. */
  lemma {:induction false} DaysBeforeMonthGrows(y: int, m: int, n: int)
    requires 1 <= m <= n <= 12
    ensures DaysBeforeMonth(y, m) <= DaysBeforeMonth(y, n)
    decreases n - m
  {
    if m < n {
      DaysBeforeMonthGrows(y, m, n - 1);
    }
  }

  /** The days before December leave room for its 31 days in the year. */
  lemma DaysBeforeDecember(y: int)
    requires y >= 1
    ensures DaysBeforeMonth(y, 12) + 31 == DaysBeforeYear(y + 1) - DaysBeforeYear(y)
  {
    var feb := if IsLeap(y) then 29 else 28;
    assert DaysBeforeMonth(y, 2) == 31;
    assert DaysBeforeMonth(y, 3) == 31 + feb;
    assert DaysBeforeMonth(y, 4) == 62 + feb;
    assert DaysBeforeMonth(y, 5) == 92 + feb;
    assert DaysBeforeMonth(y, 6) == 123 + feb;
    assert DaysBeforeMonth(y, 7) == 153 + feb;
    assert DaysBeforeMonth(y, 8) == 184 + feb;
    assert DaysBeforeMonth(y, 9) == 215 + feb;
    assert DaysBeforeMonth(y, 10) == 245 + feb;
    assert DaysBeforeMonth(y, 11) == 276 + feb;
  }

  /** A valid date's day number falls inside its own year and month. */
  lemma DayNumberWithin(t: DateTime)
    requires ValidDateTime(t)
    ensures DaysBeforeYear(t.year) <= DayNumber(t) < DaysBeforeYear(t.year + 1)
    ensures t.month < 12 ==> DayNumber(t) < DaysBeforeYear(t.year) + DaysBeforeMonth(t.year, t.month + 1)
  {
    DaysBeforeMonthGrows(t.year, 1, t.month);
    if t.month < 12 {
      assert DaysBeforeMonth(t.year, t.month + 1) == DaysBeforeMonth(t.year, t.month) + DaysInMonth(t.year, t.month);
      DaysBeforeMonthGrows(t.year, t.month + 1, 12);
    }
    DaysBeforeDecember(t.year);
  }

  /** Distinct valid dates have distinct day numbers. */
  lemma DayNumberInjective(t: DateTime, u: DateTime)
    requires ValidDateTime(t) && ValidDateTime(u)
    requires DayNumber(t) == DayNumber(u)
    ensures t.year == u.year && t.month == u.month && t.day == u.day
  {
    DayNumberWithin(t);
    DayNumberWithin(u);
    if t.year < u.year {
      if t.year + 1 < u.year {
        DaysBeforeYearGrows(t.year + 1, u.year);
      }
      assert false;
    } else if u.year < t.year {
      if u.year + 1 < t.year {
        DaysBeforeYearGrows(u.year + 1, t.year);
      }
      assert false;
    }
    if t.month < u.month {
      DaysBeforeMonthGrows(t.year, t.month + 1, u.month);
      assert false;
    } else if u.month < t.month {
      DaysBeforeMonthGrows(u.year, u.month + 1, t.month);
      assert false;
    }
  }

  /** Seconds tells valid datetimes apart: equal seconds mean the same datetime. */
  lemma SecondsInjective(t: DateTime, u: DateTime)
    requires ValidDateTime(t) && ValidDateTime(u)
    requires Seconds(t) == Seconds(u)
    ensures t == u
  {
    assert DayNumber(t) == DayNumber(u);
    DayNumberInjective(t, u);
  }

  // ------------------------------------------------------------------
  // Nearest weather row
  // ------------------------------------------------------------------

  /** One entry of the stored weather rows: whether it is a dictionary, its
      "date" when that is a string, and its "temperature_2m" when present. */
  datatype WeatherRow = WeatherRow(isDict: bool, date: Option<string>, temperature2m: Option<real>)

  /** The distance of a row to the target in seconds, when the row counts. */
  function RowDelta(row: WeatherRow, target: DateTime): (r: Option<nat>)
    requires ValidDateTime(target)
    ensures r.Some? <==> row.isDict && ParseWeatherRowTime(row.date).Some?
    ensures r.Some? ==> (r.value == 0 <==> Seconds(ParseWeatherRowTime(row.date).value) == Seconds(target))
    ensures r.Some? ==> (r.value == 0 <==> ParseWeatherRowTime(row.date).value == target)
  {
    if !row.isDict then None
    else match ParseWeatherRowTime(row.date)
      case None => None
      case Some(t) =>
        if Seconds(t) == Seconds(target) then SecondsInjective(t, target); Some(0)
        else Some(IntAbs(Seconds(t) - Seconds(target)))
  }

  /** _select_weather_row: the first row with the least distance, or None
      when no row has a usable date. */
  method SelectWeatherRow(rows: seq<WeatherRow>, target: DateTime) returns (best: Option<WeatherRow>, ghost at: nat)
    requires ValidDateTime(target)
    ensures best.None? <==> forall j :: 0 <= j < |rows| ==> RowDelta(rows[j], target).None?
    ensures best.Some? ==> at < |rows| && best.value == rows[at] && RowDelta(rows[at], target).Some?
    ensures best.Some? ==> forall j :: 0 <= j < |rows| && RowDelta(rows[j], target).Some? ==>
                             RowDelta(rows[at], target).value <= RowDelta(rows[j], target).value
    ensures best.Some? ==> forall j :: 0 <= j < at && RowDelta(rows[j], target).Some? ==>
                             RowDelta(rows[at], target).value < RowDelta(rows[j], target).value
  {
    ghost var ds := Deltas(rows, target);
    best := None;
    at := 0;
    var bestDelta: Option<nat> := None;
    for i := 0 to |rows|
      invariant best.None? <==> bestDelta.None?
      invariant best.None? <==> forall j :: 0 <= j < i ==> ds[j].None?
      invariant best.Some? ==> at < i && best.value == rows[at] && bestDelta == ds[at]
      invariant best.Some? ==> forall j :: 0 <= j < i && ds[j].Some? ==> bestDelta.value <= ds[j].value
      invariant best.Some? ==> forall j :: 0 <= j < at && ds[j].Some? ==> bestDelta.value < ds[j].value
    {
      // skips a row that is not a dictionary or whose date does not parse
      var rowDelta := RowDelta(rows[i], target);
      DeltasAt(rows, target, i);
      if rowDelta.None? {
        continue;
      }
      var delta := rowDelta.value;
      if bestDelta.None? || delta < bestDelta.value {
        bestDelta := Some(delta);
        best := Some(rows[i]);
        at := i;
      }
    }
    forall j | 0 <= j < |rows| ensures RowDelta(rows[j], target) == ds[j] {
      DeltasAt(rows, target, j);
    }
  }

  /** The distances of all rows, front to back. */
  ghost function Deltas(rows: seq<WeatherRow>, target: DateTime): (ds: seq<Option<nat>>)
    requires ValidDateTime(target)
    ensures |ds| == |rows|
  {
    if rows == [] then [] else Deltas(rows[..|rows| - 1], target) + [RowDelta(rows[|rows| - 1], target)]
  }

  lemma {:induction false} DeltasAt(rows: seq<WeatherRow>, target: DateTime, j: nat)
    requires ValidDateTime(target) && j < |rows|
    ensures Deltas(rows, target)[j] == RowDelta(rows[j], target)
    decreases |rows|
  {
    if j < |rows| - 1 {
      DeltasAt(rows[..|rows| - 1], target, j);
    }
  }

  /** Row `j` is the one run_simulation_step reads: the earliest of the
      nearest rows with a usable date, or the first row when no row has one. */
  ghost predicate ChosenRow(rows: seq<WeatherRow>, target: DateTime, j: int)
    requires ValidDateTime(target)
  {
    0 <= j < |rows| &&
    if forall k :: 0 <= k < |rows| ==> RowDelta(rows[k], target).None? then j == 0
    else RowDelta(rows[j], target).Some? &&
         (forall k :: 0 <= k < |rows| && RowDelta(rows[k], target).Some? ==>
            RowDelta(rows[j], target).value <= RowDelta(rows[k], target).value) &&
         (forall k :: 0 <= k < j && RowDelta(rows[k], target).Some? ==>
            RowDelta(rows[j], target).value < RowDelta(rows[k], target).value)
  }

  /** At most one row is the chosen one: ties go to the earliest row. */
  lemma ChosenRowUnique(rows: seq<WeatherRow>, target: DateTime, i: int, j: int)
    requires ValidDateTime(target)
    requires ChosenRow(rows, target, i) && ChosenRow(rows, target, j)
    ensures i == j
  {
  }

  /** The chosen row is a dictionary with a "temperature_2m" entry. */
  predicate HasTemperature(row: WeatherRow)
  {
    row.isDict && row.temperature2m.Some?
  }

  /** What run_simulation_step reports when it cannot step. */
  datatype StepError = WeatherRowsMissing | TemperatureMissing | BadInsulation

  /** The computation of run_simulation_step once the house fields are read:
      pick the nearest weather row (or the first), start from the outdoor
      temperature when no indoor temperature is stored, and take one basic
      step. The result is the previous and the new indoor temperature. */
  method DriftStep(insulation: string, houseSizeSqft: real, rows: seq<WeatherRow>, simTime: DateTime,
                   simulatedTemp: Option<real>) returns (r: Result<(real, real), StepError>)
    requires ValidDateTime(simTime)
    ensures r == Err(WeatherRowsMissing) <==> rows == []
    ensures r == Err(TemperatureMissing) <==>
              exists j :: ChosenRow(rows, simTime, j) && !HasTemperature(rows[j])
    ensures r == Err(BadInsulation) <==>
              (exists j :: ChosenRow(rows, simTime, j) && HasTemperature(rows[j])) && ParseInsulation(insulation).None?
    ensures r.Ok? <==>
              (exists j :: ChosenRow(rows, simTime, j) && HasTemperature(rows[j])) && ParseInsulation(insulation).Some?
    ensures r.Ok? ==> exists j :: ChosenRow(rows, simTime, j) && HasTemperature(rows[j])
                        && r.value.0 == OrElse(simulatedTemp, rows[j].temperature2m.value)
                        && Ok(r.value.1) == BasicStep(r.value.0, rows[j].temperature2m.value, insulation,
                                                      houseSizeSqft, DefaultTimestepMinutes)
  {
    if rows == [] {
      return Err(WeatherRowsMissing);
    }
    var selected, at := SelectWeatherRow(rows, simTime);
    ghost var j := if selected.Some? then at else 0;
    assert ChosenRow(rows, simTime, j);
    forall i | ChosenRow(rows, simTime, i)
      ensures i == j
    {
      ChosenRowUnique(rows, simTime, i, j);
    }
    var weather := OrElse(selected, rows[0]);
    assert weather == rows[j];
    if !weather.isDict || weather.temperature2m.None? {
      return Err(TemperatureMissing);
    }
    var outdoor := weather.temperature2m.value;
    var indoor := OrElse(simulatedTemp, outdoor);
    var next := BasicStep(indoor, outdoor, insulation, houseSizeSqft, DefaultTimestepMinutes);
    if next.Err? {
      return Err(BadInsulation);
    }
    r := Ok((indoor, next.value));
  }
}
