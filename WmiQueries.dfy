// windows_tools/wmi_queries: what a WMI query hands back, the timezone bias read from it, and the
// CIM datetime text (section 5.2.4 of DMTF DSP0004) the tools format and parse.
module WmiQueries {
  import opened Wrappers
  import opened Text

  /** A property value in a row of a query result: text, a number, or None. */
  datatype WmiValue = Text(s: string) | Number(n: int) | Null

  /** One row of a query result (one WMI object turned into a dict). */
  type Row = map<string, WmiValue>

  /** Python's str() of a property value. */
  function ValueText(v: WmiValue): string {
    match v
    case Text(s) => s
    case Number(n) => IntText(n)
    case Null => "None"
  }

  // ---------------------------------------------------------------- get_wmi_timezone_bias

  /** get_wmi_timezone_bias, given the query result: the first row's Bias, or the text "0" when the
      result is None (TypeError), empty (IndexError) or its first row has no Bias (KeyError). */
  function TimezoneBias(result: Option<seq<Row>>): (r: WmiValue)
    ensures (result.Some? && |result.value| > 0 && "Bias" in result.value[0]) ==> r == result.value[0]["Bias"]
    ensures !(result.Some? && |result.value| > 0 && "Bias" in result.value[0]) ==> r == Text("0")
  {
    if result.None? || |result.value| == 0 || "Bias" !in result.value[0] then Text("0")
    else result.value[0]["Bias"]
  }

  // ---------------------------------------------------------------- datetimes

  /** A naive datetime. */
  datatype DateTime = DateTime(year: int, month: int, day: int, hour: int, minute: int, second: int,
                               microsecond: int)

  /** What cim_timestamp_to_datetime returns: an aware datetime with a fixed offset in minutes when
      utc is True, the shifted naive datetime otherwise. */
  datatype Parsed = Aware(dt: DateTime, offset: int) | Naive(dt: DateTime)

  /** ValueError (malformed text, bad field, offset of a day or more) and OverflowError (a shift
      past year 1 or 9999). */
  datatype CimError = BadTimestamp | OutOfRange

  predicate IsLeap(y: int) {
    y % 4 == 0 && (y % 100 != 0 || y % 400 == 0)
  }

  function DaysInMonth(y: int, m: int): int {
    if m == 2 then (if IsLeap(y) then 29 else 28)
    else if m == 4 || m == 6 || m == 9 || m == 11 then 30
    else 31
  }

  /** The field ranges Python's datetime accepts. */
  predicate Valid(dt: DateTime) {
    && 1 <= dt.year <= 9999 && 1 <= dt.month <= 12 && 1 <= dt.day <= DaysInMonth(dt.year, dt.month)
    && 0 <= dt.hour < 24 && 0 <= dt.minute < 60 && 0 <= dt.second < 60 && 0 <= dt.microsecond < 1000000
  }

  // ---------------------------------------------------------------- utc_datetime_to_cim_timestamp

  function Pow10(k: nat): nat {
    if k == 0 then 1 else 10 * Pow10(k - 1)
  }

  /** The last `w` decimal digits of `n`, zero-padded. */
  function DecDigits(n: nat, w: nat): (r: string)
    ensures |r| == w && AllDigits(r)
  {
    if w == 0 then [] else DecDigits(n / 10, w - 1) + [DigitChar(n % 10)]
  }

  /** `dt.strftime("%Y%m%d%H%M%S.%f")`: fixed-width fields, a dot, six microsecond digits. */
  function StrfTime(dt: DateTime): string
    requires Valid(dt)
  {
    DecDigits(dt.year, 4) + (DecDigits(dt.month, 2) + (DecDigits(dt.day, 2) + (DecDigits(dt.hour, 2)
    + (DecDigits(dt.minute, 2) + (DecDigits(dt.second, 2) + ("." + DecDigits(dt.microsecond, 6)))))))
  }

  /** utc_datetime_to_cim_timestamp: the datetime text, `+`, and the bias text; the bias comes from
      the query result when localizing and is 0 otherwise. */
  function UtcDatetimeToCimTimestamp(dt: DateTime, localize: bool, biasResult: Option<seq<Row>>): string
    requires Valid(dt)
  {
    var bias := if localize then ValueText(TimezoneBias(biasResult)) else "0";
    StrfTime(dt) + "+" + bias
  }

  // ---------------------------------------------------------------- strptime("%Y%m%d%H%M%S.%f")

  /** The two-character alternatives of the month, day, hour, minute and second groups of the
      pattern strptime builds: `1[0-2]|0[1-9]`, `3[01]|[12]\d|0[1-9]`, `2[0-3]|[0-1]\d`, `[0-5]\d`
      and `6[0-1]|[0-5]\d`. */
  predicate Field2(k: nat, a: char, b: char) {
    if k == 0 then (a == '1' && '0' <= b <= '2') || (a == '0' && '1' <= b <= '9')
    else if k == 1 then (a == '3' && '0' <= b <= '1') || ('1' <= a <= '2' && IsDigit(b)) || (a == '0' && '1' <= b <= '9')
    else if k == 2 then (a == '2' && '0' <= b <= '3') || ('0' <= a <= '1' && IsDigit(b))
    else if k == 3 then '0' <= a <= '5' && IsDigit(b)
    else (a == '6' && '0' <= b <= '1') || ('0' <= a <= '5' && IsDigit(b))
  }

  /** The one-digit alternative, tried after the two-character ones: `[1-9]` for month and day,
      `\d` for the rest. */
  predicate Field1(k: nat, a: char) {
    if k <= 1 then '1' <= a <= '9' else IsDigit(a)
  }

  /** The regular-expression match of the month, day, hour, minute and second groups at the front
      of `s` (field `k` first), alternatives tried in pattern order with backtracking; the day's last
      alternative is a space and a digit. On success: the values of the remaining groups and the
      text after the dot, which must start with a digit. */
  function Fields(s: string, k: nat): (r: Option<(seq<nat>, string)>)
    requires k <= 5
    ensures r.Some? ==> |r.value.0| == 5 - k && |r.value.1| >= 1 && IsDigit(r.value.1[0])
    decreases |s| + 5 - k
  {
    if k == 5 then
      if |s| >= 2 && s[0] == '.' && IsDigit(s[1]) then Some(([], s[1..])) else None
    else
      var two := if |s| >= 2 && Field2(k, s[0], s[1]) then Fields(s[2..], k + 1) else None;
      if two.Some? then
        Some(([DigitValue(s[0]) * 10 + DigitValue(s[1])] + two.value.0, two.value.1))
      else
        var one := if |s| >= 1 && Field1(k, s[0]) then Fields(s[1..], k + 1) else None;
        if one.Some? then Some(([DigitValue(s[0])] + one.value.0, one.value.1))
        else if k == 1 && |s| >= 2 && s[0] == ' ' && '1' <= s[1] <= '9' then
          var space := Fields(s[2..], k + 1);
          if space.Some? then Some(([DigitValue(s[1])] + space.value.0, space.value.1)) else None
        else None
  }

  /** `datetime.strptime(text, "%Y%m%d%H%M%S.%f")`: four year digits, the groups above, a dot, then
      one to six fraction digits ending the text (more is "unconverted data"), the fraction padded
      on the right; the day must exist in that month, the seconds be below 60 and the year above 0. */
  function StrpTime(s: string): Result<DateTime, CimError> {
    if |s| < 4 || !AllDigits(s[..4]) then Err(BadTimestamp)
    else
      match Fields(s[4..], 0)
      case None => Err(BadTimestamp)
      case Some((vals, frac)) =>
        if |frac| > 6 || !AllDigits(frac) then Err(BadTimestamp)
        else
          var dt := DateTime(DigitsValue(s[..4]), vals[0], vals[1], vals[2], vals[3], vals[4],
                             DigitsValue(frac) * Pow10(6 - |frac|));
          if Valid(dt) then Ok(dt) else Err(BadTimestamp)
  }

  // ---------------------------------------------------------------- timedelta(minutes=offset)

  /** The minute after `dt`, or None past the last minute of year 9999. */
  function NextMinute(dt: DateTime): Option<DateTime> {
    if dt.minute < 59 then Some(dt.(minute := dt.minute + 1))
    else if dt.hour < 23 then Some(dt.(hour := dt.hour + 1, minute := 0))
    else if dt.day < DaysInMonth(dt.year, dt.month) then Some(dt.(day := dt.day + 1, hour := 0, minute := 0))
    else if dt.month < 12 then Some(dt.(month := dt.month + 1, day := 1, hour := 0, minute := 0))
    else if dt.year < 9999 then Some(dt.(year := dt.year + 1, month := 1, day := 1, hour := 0, minute := 0))
    else None
  }

  /** The minute before `dt`, or None before the first minute of year 1. */
  function PrevMinute(dt: DateTime): Option<DateTime> {
    if dt.minute > 0 then Some(dt.(minute := dt.minute - 1))
    else if dt.hour > 0 then Some(dt.(hour := dt.hour - 1, minute := 59))
    else if dt.day > 1 then Some(dt.(day := dt.day - 1, hour := 23, minute := 59))
    else if dt.month > 1 then
      Some(dt.(month := dt.month - 1, day := DaysInMonth(dt.year, dt.month - 1), hour := 23, minute := 59))
    else if dt.year > 1 then Some(dt.(year := dt.year - 1, month := 12, day := 31, hour := 23, minute := 59))
    else None
  }

  /** `dt + timedelta(minutes=n)`; None is the OverflowError of leaving years 1 to 9999. */
  function AddMinutes(dt: DateTime, n: int): Option<DateTime>
    decreases if n < 0 then -n else n
  {
    if n == 0 then Some(dt)
    else if n > 0 then
      match NextMinute(dt)
      case None => None
      case Some(d) => AddMinutes(d, n - 1)
    else
      match PrevMinute(dt)
      case None => None
      case Some(d) => AddMinutes(d, n + 1)
  }

  // ---------------------------------------------------------------- cim_timestamp_to_datetime

  predicate IsSign(c: char) { c == '+' || c == '-' }

  function SignCount(s: string): nat {
    CountChar(s, '+') + CountChar(s, '-')
  }

  /** The first index of a `+` or `-`. */
  function SignAt(s: string): (k: nat)
    requires SignCount(s) > 0
    ensures k < |s| && IsSign(s[k]) && forall j :: 0 <= j < k ==> !IsSign(s[j])
  {
    if IsSign(s[0]) then 0 else SignAt(s[1..]) + 1
  }

  /** The end of cim_timestamp_to_datetime: with utc the offset must be under a day (the bound
      Python's timezone checks) and is attached; without utc the datetime is shifted by it. */
  function Attach(dt: DateTime, offset: int, utc: bool): Result<Parsed, CimError> {
    if utc then
      if -1440 < offset < 1440 then Ok(Aware(dt, offset)) else Err(BadTimestamp)
    else
      match AddMinutes(dt, offset)
      case None => Err(OutOfRange)
      case Some(shifted) => Ok(Naive(shifted))
  }

  /** cim_timestamp_to_datetime: the text must hold exactly one `+` or `-` (the two-way unpack of
      re.split); the part before it is parsed by strptime and the part after it by int(), negated
      after a `-`. */
  function CimTimestampToDatetime(ts: string, utc: bool): Result<Parsed, CimError> {
    if SignCount(ts) != 1 then Err(BadTimestamp)
    else
      var k := SignAt(ts);
      match StrpTime(ts[..k])
      case Err(e) => Err(e)
      case Ok(dt) =>
        match ParseInt(ts[k + 1..])
        case None => Err(BadTimestamp)
        case Some(v) => Attach(dt, if ts[k] == '+' then v else -v, utc)
  }

  // ---------------------------------------------------------------- formatting then parsing

  lemma {:induction false} DecDigitsValue(n: nat, w: nat)
    requires n < Pow10(w)
    ensures DigitsValue(DecDigits(n, w)) == n
  {
    if w > 0 {
      DecDigitsValue(n / 10, w - 1);
      var t := DecDigits(n / 10, w - 1) + [DigitChar(n % 10)];
      assert t[..|t| - 1] == DecDigits(n / 10, w - 1);
    }
  }

  lemma TwoDigits(v: nat)
    requires v < 100
    ensures DecDigits(v, 2) == [DigitChar(v / 10), DigitChar(v % 10)]
  {
    var t := v / 10;
    assert t < 10 && t / 10 == 0 && t % 10 == t;
    assert DecDigits(t, 1) == [DigitChar(t)];
  }

  /** The value range each group admits once written with two digits. */
  predicate InRange(k: nat, v: nat) {
    if k == 0 then 1 <= v <= 12
    else if k == 1 then 1 <= v <= 31
    else if k == 2 then v <= 23
    else v <= 59
  }

  lemma Field2OfValue(k: nat, v: nat)
    requires k < 5 && InRange(k, v)
    ensures Field2(k, DigitChar(v / 10), DigitChar(v % 10))
  {
  }

  /** A two-digit group in range is matched by its two-character alternative. */
  lemma FieldsStep(k: nat, v: nat, rest: string, vals: seq<nat>, frac: string)
    requires k < 5 && InRange(k, v) && Fields(rest, k + 1) == Some((vals, frac))
    ensures Fields(DecDigits(v, 2) + rest, k) == Some(([v] + vals, frac))
  {
    TwoDigits(v);
    Field2OfValue(k, v);
    var s := DecDigits(v, 2) + rest;
    assert s[2..] == rest;
    assert DigitValue(s[0]) * 10 + DigitValue(s[1]) == v;
  }

  lemma FieldsDot(f: string)
    requires |f| >= 1 && IsDigit(f[0])
    ensures Fields("." + f, 5) == Some(([], f))
  {
    assert ("." + f)[1..] == f;
  }

  /** The fields strftime writes after the year are matched back to their values, the fraction
      being the six microsecond digits. */
  lemma FieldsOfStrfTime(dt: DateTime)
    requires Valid(dt)
    ensures Fields(StrfTime(dt)[4..], 0)
      == Some(([dt.month, dt.day, dt.hour, dt.minute, dt.second], DecDigits(dt.microsecond, 6)))
  {
    var f := DecDigits(dt.microsecond, 6);
    assert StrfTime(dt)[4..] == DecDigits(dt.month, 2) + (DecDigits(dt.day, 2) + (DecDigits(dt.hour, 2)
      + (DecDigits(dt.minute, 2) + (DecDigits(dt.second, 2) + ("." + f)))));
    FieldsOfDigits(dt.month, dt.day, dt.hour, dt.minute, dt.second, f);
  }

  /** Five two-digit groups in range, a dot and a fraction are matched group by group. */
  lemma FieldsOfDigits(month: nat, day: nat, hour: nat, minute: nat, second: nat, f: string)
    requires InRange(0, month) && InRange(1, day) && InRange(2, hour) && InRange(3, minute) && InRange(4, second)
    requires |f| >= 1 && IsDigit(f[0])
    ensures Fields(DecDigits(month, 2) + (DecDigits(day, 2) + (DecDigits(hour, 2)
              + (DecDigits(minute, 2) + (DecDigits(second, 2) + ("." + f))))), 0)
            == Some(([month, day, hour, minute, second], f))
  {
    var t3 := DecDigits(minute, 2) + (DecDigits(second, 2) + ("." + f));
    var t2 := DecDigits(hour, 2) + t3;
    var t1 := DecDigits(day, 2) + t2;
    var v2: seq<nat> := [minute, second];
    var v1 := [hour] + v2;
    var v0 := [day] + v1;
    FieldsOfMinuteSecond(minute, second, f);
    FieldsStep(2, hour, t3, v2, f);
    FieldsStep(1, day, t2, v1, f);
    FieldsStep(0, month, t1, v0, f);
    assert [month] + v0 == [month, day, hour, minute, second];
  }

  /** The minute and second groups, the dot and the fraction. */
  lemma FieldsOfMinuteSecond(minute: nat, second: nat, f: string)
    requires InRange(3, minute) && InRange(4, second) && |f| >= 1 && IsDigit(f[0])
    ensures Fields(DecDigits(minute, 2) + (DecDigits(second, 2) + ("." + f)), 3) == Some(([minute, second], f))
  {
    var t5 := "." + f;
    var t4 := DecDigits(second, 2) + t5;
    var v4: seq<nat> := [];
    FieldsDot(f);
    FieldsStep(4, second, t5, v4, f);
    FieldsStep(3, minute, t4, [second] + v4, f);
    assert [minute] + ([second] + v4) == [minute, second];
  }

  lemma YearPrefix(dt: DateTime)
    requires Valid(dt)
    ensures |StrfTime(dt)| >= 4 && StrfTime(dt)[..4] == DecDigits(dt.year, 4)
  {
  }

  /** strptime gives back every datetime strftime wrote. */
  lemma StrpTimeOfStrfTime(dt: DateTime)
    requires Valid(dt)
    ensures StrpTime(StrfTime(dt)) == Ok(dt)
  {
    var s := StrfTime(dt);
    var f := DecDigits(dt.microsecond, 6);
    FieldsOfStrfTime(dt);
    YearPrefix(dt);
    DecDigitsValue(dt.year, 4);
    DecDigitsValue(dt.microsecond, 6);
    assert Pow10(6 - |f|) == 1;
  }

  predicate NoSign(s: string) {
    forall i :: 0 <= i < |s| ==> !IsSign(s[i])
  }

  lemma {:induction false} CountAbsent(s: string, c: char)
    requires forall i :: 0 <= i < |s| ==> s[i] != c
    ensures CountChar(s, c) == 0
  {
    if s != [] {
      CountAbsent(s[1..], c);
    }
  }

  lemma {:induction false} CountConcat(a: string, b: string, c: char)
    ensures CountChar(a + b, c) == CountChar(a, c) + CountChar(b, c)
  {
    if a != [] {
      assert (a + b)[0] == a[0];
      assert (a + b)[1..] == a[1..] + b;
      CountConcat(a[1..], b, c);
    } else {
      assert a + b == b;
    }
  }

  /** strftime writes 14 digits, a dot, and 6 digits. */
  lemma StrfTimeShape(dt: DateTime)
    requires Valid(dt)
    ensures |StrfTime(dt)| == 21 && StrfTime(dt)[14] == '.'
    ensures AllDigits(StrfTime(dt)[..14]) && AllDigits(StrfTime(dt)[15..])
  {
    var f := DecDigits(dt.microsecond, 6);
    var a := DateDigits(dt);
    StrfTimeSplit(dt);
    var s := a + ("." + f);
    assert s[..14] == a && s[14] == '.' && s[15..] == f;
  }

  /** The fourteen digits strftime writes before the dot. */
  function DateDigits(dt: DateTime): (r: string)
    requires Valid(dt)
    ensures |r| == 14 && AllDigits(r)
  {
    var y := DecDigits(dt.year, 4);
    var mo := DecDigits(dt.month, 2);
    var d := DecDigits(dt.day, 2);
    var h := DecDigits(dt.hour, 2);
    var mi := DecDigits(dt.minute, 2);
    var se := DecDigits(dt.second, 2);
    AllDigitsAppend(y, mo);
    AllDigitsAppend(y + mo, d);
    AllDigitsAppend(y + mo + d, h);
    AllDigitsAppend(y + mo + d + h, mi);
    AllDigitsAppend(y + mo + d + h + mi, se);
    y + mo + d + h + mi + se
  }

  lemma AllDigitsAppend(a: string, b: string)
    requires AllDigits(a) && AllDigits(b)
    ensures AllDigits(a + b)
  {
    forall i | 0 <= i < |a + b| ensures IsDigit((a + b)[i]) {
      if i >= |a| {
        assert (a + b)[i] == b[i - |a|];
      }
    }
  }

  /** strftime's text is those digits, the dot and the microsecond digits. */
  lemma StrfTimeSplit(dt: DateTime)
    requires Valid(dt)
    ensures StrfTime(dt) == DateDigits(dt) + ("." + DecDigits(dt.microsecond, 6))
  {
  }

  lemma StrfTimeNoSign(dt: DateTime)
    requires Valid(dt)
    ensures NoSign(StrfTime(dt))
  {
    var s := StrfTime(dt);
    StrfTimeShape(dt);
    forall i | 0 <= i < |s| ensures !IsSign(s[i]) {
      if i < 14 {
        assert s[i] == s[..14][i];
      } else if i > 14 {
        assert s[i] == s[15..][i - 15];
      }
    }
  }

  /** A formatted datetime, one sign and a sign-free offset text split where the sign is. */
  lemma Decompose(dt: DateTime, sign: char, t: string)
    requires Valid(dt) && IsSign(sign) && NoSign(t)
    ensures var ts := StrfTime(dt) + [sign] + t;
      SignCount(ts) == 1 && SignAt(ts) == 21 && ts[..21] == StrfTime(dt) && ts[21] == sign && ts[22..] == t
  {
    var s := StrfTime(dt);
    var ts := s + [sign] + t;
    StrfTimeShape(dt);
    StrfTimeNoSign(dt);
    CountConcat(s + [sign], t, '+');
    CountConcat(s, [sign], '+');
    CountConcat(s + [sign], t, '-');
    CountConcat(s, [sign], '-');
    CountAbsent(s, '+');
    CountAbsent(s, '-');
    CountAbsent(t, '+');
    CountAbsent(t, '-');
    assert ts[21] == sign;
    assert ts[..21] == s;
    assert ts[22..] == t;
  }

  lemma NatTextNoSign(n: nat)
    ensures NoSign(NatText(n))
  {
  }

  /** Formatting without localizing gives 14 date digits, a dot, 6 microsecond digits and "+0". */
  lemma TimestampShape(dt: DateTime, biasResult: Option<seq<Row>>)
    requires Valid(dt)
    ensures var ts := UtcDatetimeToCimTimestamp(dt, false, biasResult);
      |ts| == 23 && AllDigits(ts[..14]) && ts[14] == '.' && AllDigits(ts[15..21]) && ts[21..] == "+0"
  {
    var s := StrfTime(dt);
    var ts := UtcDatetimeToCimTimestamp(dt, false, biasResult);
    StrfTimeShape(dt);
    assert NatText(0) == "0";
    assert ts[..14] == s[..14];
    assert ts[15..21] == s[15..];
  }

  /** Parsing the text written without localizing gives back the naive datetime (utc False). */
  lemma RoundTripNaive(dt: DateTime, biasResult: Option<seq<Row>>)
    requires Valid(dt)
    ensures CimTimestampToDatetime(UtcDatetimeToCimTimestamp(dt, false, biasResult), false) == Ok(Naive(dt))
  {
    assert NatText(0) == "0";
    NatTextNoSign(0);
    Decompose(dt, '+', "0");
    StrpTimeOfStrfTime(dt);
    ParseIntText(0);
    ParseParts(UtcDatetimeToCimTimestamp(dt, false, biasResult), dt, 21, 0, false);
  }

  /** ... and, with utc True, the same wall-clock fields with a zero offset. */
  lemma RoundTripUtc(dt: DateTime, biasResult: Option<seq<Row>>)
    requires Valid(dt)
    ensures CimTimestampToDatetime(UtcDatetimeToCimTimestamp(dt, false, biasResult), true) == Ok(Aware(dt, 0))
  {
    assert NatText(0) == "0";
    NatTextNoSign(0);
    Decompose(dt, '+', "0");
    StrpTimeOfStrfTime(dt);
    ParseIntText(0);
    ParseParts(UtcDatetimeToCimTimestamp(dt, false, biasResult), dt, 21, 0, true);
  }

  /** A non-negative bias is read back as that offset, with or without utc. */
  lemma RoundTripBias(dt: DateTime, biasResult: Option<seq<Row>>, b: int, utc: bool)
    requires Valid(dt) && TimezoneBias(biasResult) == Number(b) && 0 <= b
    ensures CimTimestampToDatetime(UtcDatetimeToCimTimestamp(dt, true, biasResult), utc) == Attach(dt, b, utc)
  {
    NatTextNoSign(b);
    Decompose(dt, '+', NatText(b));
    StrpTimeOfStrfTime(dt);
    ParseIntText(b);
    ParseParts(UtcDatetimeToCimTimestamp(dt, true, biasResult), dt, 21, b, utc);
  }

  /** A negative bias is written after the `+`, giving `+-N`, which holds two signs: parsing it
      fails whatever utc is. */
  lemma NegativeBiasUnreadable(dt: DateTime, biasResult: Option<seq<Row>>, b: int, utc: bool)
    requires Valid(dt) && TimezoneBias(biasResult) == Number(b) && b < 0
    ensures CimTimestampToDatetime(UtcDatetimeToCimTimestamp(dt, true, biasResult), utc) == Err(BadTimestamp)
  {
    var s := StrfTime(dt);
    var t := NatText(-b);
    NatTextNoSign(-b);
    StrfTimeNoSign(dt);
    assert UtcDatetimeToCimTimestamp(dt, true, biasResult) == s + "+" + ("-" + t);
    TwoSigns(s, t);
  }

  lemma TwoSigns(s: string, t: string)
    requires NoSign(s) && NoSign(t)
    ensures SignCount(s + "+" + ("-" + t)) == 2
  {
    CountConcat(s + "+", "-" + t, '+');
    CountConcat(s + "+", "-" + t, '-');
    CountConcat(s, "+", '-');
    CountConcat(s, "+", '+');
    CountConcat("-", t, '-');
    CountConcat("-", t, '+');
    CountAbsent(s, '+');
    CountAbsent(s, '-');
    CountAbsent(t, '-');
    CountAbsent(t, '+');
  }

  /** The suffix as DSP0004 writes it: the sign of the offset, then its magnitude. */
  function SignedSuffix(bias: string): string {
    if bias != [] && bias[0] == '-' then bias else "+" + bias
  }

  /** utc_datetime_to_cim_timestamp with the sign taken from the bias rather than always `+`. */
  function SignedCimTimestamp(dt: DateTime, localize: bool, biasResult: Option<seq<Row>>): string
    requires Valid(dt)
  {
    var bias := if localize then ValueText(TimezoneBias(biasResult)) else "0";
    StrfTime(dt) + SignedSuffix(bias)
  }

  /** With the sign written out, every bias is read back as that offset, with or without utc. */
  lemma SignedParse(dt: DateTime, biasResult: Option<seq<Row>>, b: int, utc: bool)
    requires Valid(dt) && TimezoneBias(biasResult) == Number(b)
    ensures CimTimestampToDatetime(SignedCimTimestamp(dt, true, biasResult), utc) == Attach(dt, b, utc)
  {
    var m: nat := if b < 0 then -b else b;
    var sign := if b < 0 then '-' else '+';
    SignedText(dt, biasResult, b);
    var ts := StrfTime(dt) + [sign] + NatText(m);
    NatTextNoSign(m);
    Decompose(dt, sign, NatText(m));
    StrpTimeOfStrfTime(dt);
    ParseIntText(m);
    ParseParts(ts, dt, 21, m, utc);
  }

  /** The signed timestamp of a numeric bias: the date, the sign, then the magnitude. */
  lemma SignedText(dt: DateTime, biasResult: Option<seq<Row>>, b: int)
    requires Valid(dt) && TimezoneBias(biasResult) == Number(b)
    ensures SignedCimTimestamp(dt, true, biasResult)
            == StrfTime(dt) + [if b < 0 then '-' else '+'] + NatText(if b < 0 then -b else b)
  {
    var sign := if b < 0 then '-' else '+';
    var t := NatText(if b < 0 then -b else b);
    SignedSuffixOfInt(b);
    assert ValueText(TimezoneBias(biasResult)) == IntText(b);
    AppendSigned(StrfTime(dt), sign, t);
  }

  lemma AppendSigned(s: string, sign: char, t: string)
    ensures s + ([sign] + t) == s + [sign] + t
  {
  }

  /** The suffix of a numeric bias: its sign, then its magnitude. */
  lemma SignedSuffixOfInt(b: int)
    ensures SignedSuffix(IntText(b)) == [if b < 0 then '-' else '+'] + NatText(if b < 0 then -b else b)
  {
    var t := NatText(if b < 0 then -b else b);
    if b >= 0 {
      assert IsDigit(t[0]);
    }
  }

  /** In particular every bias under a day, either sign, comes back attached with utc True. */
  lemma SignedRoundTrip(dt: DateTime, biasResult: Option<seq<Row>>, b: int)
    requires Valid(dt) && TimezoneBias(biasResult) == Number(b) && -1440 < b < 1440
    ensures CimTimestampToDatetime(SignedCimTimestamp(dt, true, biasResult), true) == Ok(Aware(dt, b))
  {
    SignedParse(dt, biasResult, b, true);
  }

  /** How cim_timestamp_to_datetime reads a text with one sign whose two sides parse. */
  lemma ParseParts(ts: string, dt: DateTime, k: nat, v: int, utc: bool)
    requires SignCount(ts) == 1 && SignAt(ts) == k && StrpTime(ts[..k]) == Ok(dt) && ParseInt(ts[k + 1..]) == Some(v)
    ensures CimTimestampToDatetime(ts, utc) == Attach(dt, if ts[k] == '+' then v else -v, utc)
  {
  }

  // ---------------------------------------------------------------- the minute count

  function YearDays(y: int): int {
    if IsLeap(y) then 366 else 365
  }

  /** Days in the years before year `y` of the proleptic Gregorian calendar. */
  function DaysBeforeYear(y: int): int
    requires y >= 1
  {
    var p := y - 1;
    365 * p + p / 4 - p / 100 + p / 400
  }

  /** Days in the months of year `y` before month `m`. */
  function DaysBeforeMonth(y: int, m: int): int {
    var leap := if m > 2 && IsLeap(y) then 1 else 0;
    leap + (if m <= 1 then 0 else if m == 2 then 31 else if m == 3 then 59 else if m == 4 then 90
            else if m == 5 then 120 else if m == 6 then 151 else if m == 7 then 181 else if m == 8 then 212
            else if m == 9 then 243 else if m == 10 then 273 else if m == 11 then 304 else 334)
  }

  /** Minutes from 0001-01-01 00:00 to the minute of `dt`: the independent reference the minute
      stepping is checked against. */
  function MinutesOf(dt: DateTime): int
    requires Valid(dt)
  {
    ((DaysBeforeYear(dt.year) + DaysBeforeMonth(dt.year, dt.month) + dt.day - 1) * 24 + dt.hour) * 60 + dt.minute
  }

  const LastDay: DateTime := DateTime(9999, 12, 31, 23, 59, 0, 0)

  lemma YearStep(y: int)
    requires y >= 1
    ensures DaysBeforeYear(y + 1) == DaysBeforeYear(y) + YearDays(y)
  {
    QuotientStep(y, 4);
    QuotientStep(y, 100);
    QuotientStep(y, 400);
    DivisorsOfLeap(y);
  }

  /** A multiple of 400 is one of 100, and a multiple of 100 is one of 4. */
  lemma DivisorsOfLeap(y: int)
    ensures y % 400 == 0 ==> y % 100 == 0
    ensures y % 100 == 0 ==> y % 4 == 0
  {
    if y % 400 == 0 {
      var q := y / 400;
      assert y == 100 * (4 * q);
      QuotientOf(y, 100, 4 * q, 0);
    }
    if y % 100 == 0 {
      var q := y / 100;
      assert y == 4 * (25 * q);
      QuotientOf(y, 4, 25 * q, 0);
    }
  }

  /** Going from y - 1 to y adds one to the quotient by d exactly when d divides y. */
  lemma QuotientStep(y: int, d: int)
    requires d > 0
    ensures y / d == (y - 1) / d + (if y % d == 0 then 1 else 0)
  {
    var q, r := y / d, y % d;
    if r == 0 {
      QuotientOf(y - 1, d, q - 1, d - 1);
    } else {
      QuotientOf(y - 1, d, q, r - 1);
    }
  }

  lemma QuotientOf(x: int, d: int, q: int, r: int)
    requires d > 0 && 0 <= r < d && x == d * q + r
    ensures x / d == q
  {
    var q', r' := x / d, x % d;
    var k := q' - q;
    assert d * k == r - r' by {
      assert d * q' - d * q == d * (q' - q);
    }
    if k >= 1 {
      MulAtLeast(d, k);
    } else if k <= -1 {
      MulAtMost(d, k);
    }
  }

  lemma MulAtMost(d: int, k: int)
    requires d > 0 && k <= -1
    ensures d * k <= -d
  {
    MulAtLeast(d, -k);
    assert d * (-k) == -(d * k);
  }

  lemma {:induction false} MulAtLeast(d: int, k: int)
    requires d > 0 && k >= 1
    ensures d * k >= d
    decreases k
  {
    if k > 1 {
      MulAtLeast(d, k - 1);
      assert d * k == d * (k - 1) + d;
    }
  }

  lemma MonthStep(y: int, m: int)
    requires 1 <= m <= 12
    ensures DaysBeforeMonth(y, m) + DaysInMonth(y, m) == if m == 12 then YearDays(y) else DaysBeforeMonth(y, m + 1)
  {
  }

  lemma {:induction false} DaysBeforeMono(y: int, z: int)
    requires 1 <= y <= z
    ensures DaysBeforeYear(y) + YearDays(y) <= DaysBeforeYear(z) + YearDays(z)
    decreases z - y
  {
    if y < z {
      YearStep(y);
      DaysBeforeMono(y + 1, z);
    }
  }

  /** Every valid datetime lies between the first and the last minute of the calendar. */
  lemma MinutesBounds(dt: DateTime)
    requires Valid(dt)
    ensures 0 <= MinutesOf(dt) <= MinutesOf(LastDay)
  {
    MonthStep(dt.year, dt.month);
    DaysBeforeMono(dt.year, 9999);
    var d := DaysBeforeYear(dt.year) + DaysBeforeMonth(dt.year, dt.month) + dt.day - 1;
    assert d <= DaysBeforeYear(9999) + DaysBeforeMonth(9999, 12) + 30 by {
      assert DaysBeforeMonth(dt.year, dt.month) + dt.day <= YearDays(dt.year);
      MonthStep(9999, 12);
    }
  }

  lemma NextMinuteShift(dt: DateTime)
    requires Valid(dt) && NextMinute(dt).Some?
    ensures var d := NextMinute(dt).value;
      Valid(d) && MinutesOf(d) == MinutesOf(dt) + 1 && d.second == dt.second && d.microsecond == dt.microsecond
  {
    MonthStep(dt.year, dt.month);
    if dt.minute == 59 && dt.hour == 23 && dt.day == DaysInMonth(dt.year, dt.month) && dt.month == 12 {
      YearStep(dt.year);
    }
  }

  lemma NextMinuteNone(dt: DateTime)
    requires Valid(dt) && NextMinute(dt).None?
    ensures MinutesOf(dt) == MinutesOf(LastDay)
  {
  }

  lemma PrevMinuteShift(dt: DateTime)
    requires Valid(dt) && PrevMinute(dt).Some?
    ensures var d := PrevMinute(dt).value;
      Valid(d) && MinutesOf(d) == MinutesOf(dt) - 1 && d.second == dt.second && d.microsecond == dt.microsecond
  {
    if dt.month > 1 {
      MonthStep(dt.year, dt.month - 1);
    }
    if dt.minute == 0 && dt.hour == 0 && dt.day == 1 && dt.month == 1 && dt.year > 1 {
      YearStep(dt.year - 1);
      MonthStep(dt.year - 1, 12);
    }
  }

  lemma PrevMinuteNone(dt: DateTime)
    requires Valid(dt) && PrevMinute(dt).None?
    ensures MinutesOf(dt) == 0
  {
  }

  /** `dt + timedelta(minutes=n)` moves the minute count by exactly `n`, keeps the seconds and
      microseconds, and stays a valid datetime. */
  lemma {:induction false} AddMinutesShift(dt: DateTime, n: int)
    requires Valid(dt) && AddMinutes(dt, n).Some?
    ensures var d := AddMinutes(dt, n).value;
      Valid(d) && MinutesOf(d) == MinutesOf(dt) + n && d.second == dt.second && d.microsecond == dt.microsecond
    decreases if n < 0 then -n else n
  {
    if n > 0 {
      NextMinuteShift(dt);
      AddMinutesShift(NextMinute(dt).value, n - 1);
    } else if n < 0 {
      PrevMinuteShift(dt);
      AddMinutesShift(PrevMinute(dt).value, n + 1);
    }
  }

  /** The shift raises OverflowError exactly when the target minute falls outside years 1 to 9999. */
  lemma {:induction false} AddMinutesDefined(dt: DateTime, n: int)
    requires Valid(dt)
    ensures AddMinutes(dt, n).Some? <==> 0 <= MinutesOf(dt) + n <= MinutesOf(LastDay)
    decreases if n < 0 then -n else n
  {
    MinutesBounds(dt);
    if n > 0 {
      if NextMinute(dt).None? {
        NextMinuteNone(dt);
      } else {
        NextMinuteShift(dt);
        AddMinutesDefined(NextMinute(dt).value, n - 1);
      }
    } else if n < 0 {
      if PrevMinute(dt).None? {
        PrevMinuteNone(dt);
      } else {
        PrevMinuteShift(dt);
        AddMinutesDefined(PrevMinute(dt).value, n + 1);
      }
    }
  }
}
