/** The display formatters of the analytics dashboard: compact counts with a
    K/M suffix, durations as minutes and seconds, whole percentages, and the
    signed period-over-period change. Quantities are mathematical reals. */
module AnalyticsFormat {
  import opened Wrappers
  import opened JsText

  function Abs(x: real): real {
    if x < 0.0 then -x else x
  }

  predicate IsIntegral(x: real) {
    x == x.Floor as real
  }

  /* ---------------- toFixed(1) ---------------- */

  /** The number of tenths `toFixed(1)` shows for a non-negative `x`: the
      integer nearest to `10 * x`. Which neighbour wins an exact tie depends
      on the binary value the runtime actually holds, so the model takes it as
      the parameter `halfUp`. */
  function Tenths(x: real, halfUp: bool): (k: nat)
    requires x >= 0.0
    ensures Abs(k as real - 10.0 * x) <= 1.0 / 2.0
    ensures Abs(k as real - 10.0 * x) == 1.0 / 2.0 ==> (k as real > 10.0 * x <==> halfUp)
  {
    var f := (10.0 * x).Floor;
    var frac := 10.0 * x - f as real;
    if frac > 1.0 / 2.0 || (frac == 1.0 / 2.0 && halfUp) then f + 1 else f
  }

  /** A count of tenths written the way `toFixed(1)` writes it: "12.3". */
  function TenthsText(k: nat): string {
    NatToString(k / 10) + "." + [DigitChar(k % 10)]
  }

  /** Reads "digits.d" back as a count of tenths; the whole part must be
      written without leading zeros, as `toFixed` writes it. */
  function ParseTenths(s: string): Option<nat> {
    if |s| >= 3 && s[|s| - 2] == '.' && CanonicalDigits(s[..|s| - 2]) && IsDigit(s[|s| - 1])
    then Some(DigitsValue(s[..|s| - 2]) * 10 + DigitValue(s[|s| - 1]))
    else None
  }

  lemma TenthsTextRoundTrip(k: nat)
    ensures ParseTenths(TenthsText(k)) == Some(k)
  {
    var s := TenthsText(k);
    assert s[..|s| - 2] == NatToString(k / 10);
    NatToStringRoundTrip(k / 10);
  }

  /** `ParseTenths` accepts exactly the texts `toFixed(1)` writes. */
  lemma ParseTenthsCharacterised(s: string, k: nat)
    ensures ParseTenths(s) == Some(k) <==> s == TenthsText(k)
  {
    if s == TenthsText(k) {
      TenthsTextRoundTrip(k);
    }
    if ParseTenths(s) == Some(k) {
      var whole, last := s[..|s| - 2], s[|s| - 1];
      CanonicalDigitsRoundTrip(whole);
      assert k / 10 == DigitsValue(whole) && k % 10 == DigitValue(last);
      assert DigitChar(DigitValue(last)) == last;
      assert s == whole + "." + [last];
    }
  }

  /** `x.toFixed(1)` for a non-negative `x`. */
  function ToFixed1(x: real, halfUp: bool): (r: string)
    requires x >= 0.0
    ensures ParseTenths(r) == Some(Tenths(x, halfUp))
    ensures ParseTenths(r).Some? && Abs(ParseTenths(r).value as real - 10.0 * x) <= 1.0 / 2.0
  {
    TenthsTextRoundTrip(Tenths(x, halfUp));
    TenthsText(Tenths(x, halfUp))
  }

  /** `Number.prototype.toString`: integral values print as decimal integers;
      the shortest round-trip digits of a fractional value depend on its
      binary representation and are supplied by `fraction`. */
  function NumberToString(x: real, fraction: real -> string): string {
    if IsIntegral(x) then IntToString(x.Floor) else fraction(x)
  }

  /* ---------------- formatNumber ---------------- */

  /** `formatNumber`: millions and thousands get one decimal and an M/K
      suffix; anything smaller prints as the number itself. */
  function FormatNumber(num: real, halfUp: bool, fraction: real -> string): (r: string)
    ensures num >= 1000000.0 ==>
      |r| >= 4 && r[|r| - 1] == 'M' && ParseTenths(r[..|r| - 1]).Some?
      && Abs(ParseTenths(r[..|r| - 1]).value as real - num / 100000.0) <= 1.0 / 2.0
    ensures 1000.0 <= num < 1000000.0 ==>
      |r| >= 4 && r[|r| - 1] == 'K' && ParseTenths(r[..|r| - 1]).Some?
      && Abs(ParseTenths(r[..|r| - 1]).value as real - num / 100.0) <= 1.0 / 2.0
    ensures num < 1000.0 && IsIntegral(num) ==> r == IntToString(num.Floor)
    ensures IsIntegral(num) ==> |r| > 0 && (r[|r| - 1] == 'M' <==> num >= 1000000.0)
    ensures IsIntegral(num) ==> |r| > 0 && (r[|r| - 1] == 'K' <==> 1000.0 <= num < 1000000.0)
  {
    if num >= 1000000.0 then
      var t := ToFixed1(num / 1000000.0, halfUp);
      assert (t + "M")[..|t|] == t;
      t + "M"
    else if num >= 1000.0 then
      var t := ToFixed1(num / 1000.0, halfUp);
      assert (t + "K")[..|t|] == t;
      t + "K"
    else
      NumberToString(num, fraction)
  }

  /** Below one thousand, an integral count is shown exactly: reading the
      text back gives the count. */
  lemma SmallCountsExact(n: int)
    requires n < 1000
    ensures ParseInt(FormatNumber(n as real, true, _ => "")) == Some(n)
    ensures ParseInt(FormatNumber(n as real, false, _ => "")) == Some(n)
  {
    assert (n as real).Floor == n;
    IntToStringRoundTrip(n);
  }

  /* ---------------- formatDuration ---------------- */

  /** JavaScript's `seconds % 60` for non-negative `seconds`. */
  function Mod60(seconds: real): (r: real)
    requires seconds >= 0.0
    ensures 0.0 <= r < 60.0
    ensures seconds == 60.0 * (seconds / 60.0).Floor as real + r
  {
    seconds - 60.0 * (seconds / 60.0).Floor as real
  }

  /** The minutes and rounded leftover seconds shown for at least a minute:
      at least one minute, and a leftover in 0..60 (60 when the fraction
      rounds up). */
  function DurationParts(seconds: real): (p: (int, int))
    requires seconds >= 60.0
    ensures p.0 >= 1
    ensures 0 <= p.1 <= 60
  {
    assert seconds / 60.0 >= 1.0;
    ((seconds / 60.0).Floor, JsRound(Mod60(seconds)))
  }

  /** The fields a duration text shows: "Ns", "Mm" or "Mm Ns". */
  datatype DurationFields = SecondsOnly(s: int) | MinutesOnly(m: int) | MinutesSeconds(m: int, s: int)

  /** The number of seconds the fields add up to. */
  function TotalSeconds(d: DurationFields): int {
    match d
    case SecondsOnly(s) => s
    case MinutesOnly(m) => m * 60
    case MinutesSeconds(m, s) => m * 60 + s
  }

  /** `formatDuration`: under a minute the text shows only the rounded
      seconds; from a minute on it shows the whole minutes, followed by the
      rounded leftover seconds when there are any. */
  function FormatDuration(seconds: real): (r: string)
    ensures 'm' in r <==> seconds >= 60.0
    ensures seconds < 60.0 ==> ParseDuration(r) == Some(SecondsOnly(JsRound(seconds)))
    ensures seconds >= 60.0 ==>
      var (minutes, rest) := DurationParts(seconds);
      ParseDuration(r) == Some(if rest > 0 then MinutesSeconds(minutes, rest) else MinutesOnly(minutes))
  {
    if seconds < 60.0 then
      ParseSecondsText(JsRound(seconds));
      SecondsTextHasNoMinutes(JsRound(seconds));
      IntToString(JsRound(seconds)) + "s"
    else
      var (minutes, rest) := DurationParts(seconds);
      MinutesText(minutes, rest)
  }

  /** "Mm Ns", or "Mm" when the leftover is not positive. */
  function MinutesText(minutes: int, rest: int): (r: string)
    requires rest >= 0
    ensures 'm' in r
    ensures ParseDuration(r) == Some(if rest > 0 then MinutesSeconds(minutes, rest) else MinutesOnly(minutes))
  {
    if rest > 0 then
      ParseMinutesSecondsText(minutes, rest);
      MinutesTextShowsMinutes(IntToString(minutes), " " + IntToString(rest) + "s");
      MinutesSecondsShape(IntToString(minutes), IntToString(rest));
      IntToString(minutes) + "m " + IntToString(rest) + "s"
    else
      ParseMinutesText(minutes);
      MinutesTextShowsMinutes(IntToString(minutes), "");
      IntToString(minutes) + "m"
  }

  lemma SecondsTextHasNoMinutes(k: int)
    ensures 'm' !in IntToString(k) + "s"
  {
    NoLetterInNumber(k, 'm');
  }

  lemma MinutesTextShowsMinutes(a: string, rest: string)
    ensures 'm' in a + ['m'] + rest
  {
    assert (a + ['m'] + rest)[|a|] == 'm';
  }

  /** What the minutes/seconds split means: at least one minute, and the
      leftover lies in [0, 60]; for whole seconds it is an exact
      decomposition with leftover below 60. */
  lemma DurationPartsMeaning(seconds: real)
    requires seconds >= 60.0
    ensures DurationParts(seconds).0 >= 1
    ensures 0 <= DurationParts(seconds).1 <= 60
    ensures IsIntegral(seconds) ==>
      DurationParts(seconds).0 * 60 + DurationParts(seconds).1 == seconds.Floor
      && DurationParts(seconds).1 < 60
  {
    var m := (seconds / 60.0).Floor;
    var r := Mod60(seconds);
    assert seconds / 60.0 >= 1.0;
    if IsIntegral(seconds) {
      var k := seconds.Floor;
      assert r == (k - 60 * m) as real;
      JsRoundOfInteger(k - 60 * m);
    }
  }

  /** Fractional seconds just under a whole minute round up to a "60s" leftover. */
  lemma DurationShowsSixtySeconds()
    ensures FormatDuration(119.6) == "1m 60s"
  {
    assert (119.6 / 60.0).Floor == 1;
    assert Mod60(119.6) == 59.6;
    assert JsRound(59.6) == 60;
    assert IntToString(60) == "60";
  }

  /** Reads the fields of a duration text back: "Ns", "Mm" or "Mm Ns". */
  function ParseDuration(t: string): Option<DurationFields> {
    match IndexOf(t, 'm')
    case None =>
      if |t| > 0 && t[|t| - 1] == 's' then
        match ParseInt(t[..|t| - 1])
        case None => None
        case Some(n) => Some(SecondsOnly(n))
      else None
    case Some(i) =>
      match ParseInt(t[..i])
      case None => None
      case Some(m) => ParseLeftover(m, t[i + 1..])
  }

  /** What follows "Mm": nothing, or " Ns". */
  function ParseLeftover(m: int, rest: string): Option<DurationFields> {
    if rest == "" then Some(MinutesOnly(m))
    else if |rest| >= 2 && rest[0] == ' ' && rest[|rest| - 1] == 's' then
      match ParseInt(rest[1..|rest| - 1])
      case None => None
      case Some(r) => Some(MinutesSeconds(m, r))
    else None
  }

  /** The text of each shape of duration. */
  function DurationText(f: DurationFields): string {
    match f
    case SecondsOnly(k) => IntToString(k) + "s"
    case MinutesOnly(m) => IntToString(m) + "m"
    case MinutesSeconds(m, k) => IntToString(m) + "m " + IntToString(k) + "s"
  }

  /** `ParseDuration` accepts exactly the texts of `DurationText`: reading a
      duration back pins its text, not only its fields. */
  lemma ParseDurationCharacterised(t: string, f: DurationFields)
    ensures ParseDuration(t) == Some(f) <==> t == DurationText(f)
  {
    if t == DurationText(f) {
      match f
      case SecondsOnly(k) => ParseSecondsText(k);
      case MinutesOnly(m) => ParseMinutesText(m);
      case MinutesSeconds(m, k) => ParseMinutesSecondsText(m, k);
    }
    if ParseDuration(t) == Some(f) {
      ParsedDurationText(t);
    }
  }

  lemma ParsedDurationText(t: string)
    requires ParseDuration(t).Some?
    ensures t == DurationText(ParseDuration(t).value)
  {
    match IndexOf(t, 'm')
    case None =>
      ParsedSecondsText(t);
    case Some(i) =>
      ParsedMinutesText(t, i, ParseInt(t[..i]).value);
  }

  lemma ParsedSecondsText(t: string)
    requires |t| > 0 && t[|t| - 1] == 's' && ParseInt(t[..|t| - 1]).Some?
    ensures t == IntToString(ParseInt(t[..|t| - 1]).value) + "s"
  {
    ParseIntCharacterised(t[..|t| - 1], ParseInt(t[..|t| - 1]).value);
    assert t == t[..|t| - 1] + "s";
  }

  lemma ParsedMinutesText(t: string, i: nat, m: int)
    requires i < |t| && t[i] == 'm' && ParseInt(t[..i]) == Some(m)
    requires ParseLeftover(m, t[i + 1..]).Some?
    ensures t == DurationText(ParseLeftover(m, t[i + 1..]).value)
  {
    var head, rest := t[..i], t[i + 1..];
    ParseIntCharacterised(head, m);
    ParsedLeftoverText(m, rest);
    assert t == head + ['m'] + rest;
    var f := ParseLeftover(m, rest).value;
    if f.MinutesSeconds? {
      MinutesSecondsShape(head, IntToString(f.s));
    } else {
      assert head + ['m'] + rest == head + "m";
    }
  }

  lemma ParsedLeftoverText(m: int, rest: string)
    requires ParseLeftover(m, rest).Some?
    ensures ParseLeftover(m, rest).value.MinutesOnly? || ParseLeftover(m, rest).value.MinutesSeconds?
    ensures ParseLeftover(m, rest).value.m == m
    ensures ParseLeftover(m, rest).value.MinutesOnly? ==> rest == ""
    ensures ParseLeftover(m, rest).value.MinutesSeconds? ==> rest == " " + IntToString(ParseLeftover(m, rest).value.s) + "s"
  {
    if rest != "" {
      var digits := rest[1..|rest| - 1];
      var k := ParseInt(digits).value;
      ParseIntCharacterised(digits, k);
      assert rest == " " + digits + "s";
    }
  }

  /** A minutes count followed by "m" hands the rest to `ParseLeftover`. */
  lemma ParseAfterMinutes(m: int, rest: string)
    ensures ParseDuration(IntToString(m) + ['m'] + rest) == ParseLeftover(m, rest)
  {
    var t := IntToString(m) + ['m'] + rest;
    NoLetterInNumber(m, 'm');
    IntToStringRoundTrip(m);
    IndexOfAfter(IntToString(m), 'm', rest);
    assert t[..|IntToString(m)|] == IntToString(m);
    assert t[|IntToString(m)| + 1..] == rest;
  }

  lemma NoLetterInNumber(i: int, c: char)
    requires c == 'm' || c == 's'
    ensures forall j :: 0 <= j < |IntToString(i)| ==> IntToString(i)[j] != c
  {
    if i >= 0 {
      assert IntToString(i) == NatToString(i);
    } else {
      assert IntToString(i) == "-" + NatToString(-i);
      forall j | 1 <= j < |IntToString(i)|
        ensures IntToString(i)[j] != c
      {
        assert IntToString(i)[j] == NatToString(-i)[j - 1];
      }
    }
  }

  /** "Ns" reads back as N seconds. */
  lemma ParseSecondsText(k: int)
    ensures ParseDuration(IntToString(k) + "s") == Some(SecondsOnly(k))
  {
    var t := IntToString(k) + "s";
    NoLetterInNumber(k, 'm');
    assert t[..|t| - 1] == IntToString(k);
    IntToStringRoundTrip(k);
  }

  /** "Mm" reads back as M minutes. */
  lemma ParseMinutesText(m: int)
    ensures ParseDuration(IntToString(m) + "m") == Some(MinutesOnly(m))
  {
    ParseAfterMinutes(m, "");
    assert IntToString(m) + "m" == IntToString(m) + ['m'] + "";
  }

  /** " Ns" after the minutes adds N seconds. */
  lemma ParseLeftoverSeconds(m: int, digits: string, r: int)
    requires ParseInt(digits) == Some(r)
    ensures ParseLeftover(m, " " + digits + "s") == Some(MinutesSeconds(m, r))
  {
    var rest := " " + digits + "s";
    assert rest[1..|rest| - 1] == digits;
  }

  lemma MinutesSecondsShape(a: string, b: string)
    ensures a + "m " + b + "s" == a + ['m'] + (" " + b + "s")
  {
  }

  /** "Mm Ns" reads back as M minutes and N seconds. */
  lemma ParseMinutesSecondsText(m: int, r: int)
    ensures ParseDuration(IntToString(m) + "m " + IntToString(r) + "s") == Some(MinutesSeconds(m, r))
  {
    ParseAfterMinutes(m, " " + IntToString(r) + "s");
    MinutesSecondsShape(IntToString(m), IntToString(r));
    IntToStringRoundTrip(r);
    ParseLeftoverSeconds(m, IntToString(r), r);
  }

  /** The displayed duration adds up to within half a second of the input,
      and exactly for whole seconds. */
  lemma DurationRoundTrip(seconds: real)
    ensures ParseDuration(FormatDuration(seconds)).Some?
    ensures var total := TotalSeconds(ParseDuration(FormatDuration(seconds)).value);
      seconds - 1.0 / 2.0 < total as real <= seconds + 1.0 / 2.0
    ensures IsIntegral(seconds) ==> TotalSeconds(ParseDuration(FormatDuration(seconds)).value) == seconds.Floor
  {
    if seconds < 60.0 {
      if IsIntegral(seconds) {
        JsRoundOfInteger(seconds.Floor);
      }
    } else {
      var m := (seconds / 60.0).Floor;
      DurationPartsMeaning(seconds);
      assert seconds == 60.0 * m as real + Mod60(seconds);
    }
  }

  /* ---------------- formatPercentage ---------------- */

  /** `formatPercentage`: the value rounded to a whole number, then "%". */
  function FormatPercentage(value: real): (r: string)
    ensures |r| >= 2 && r[|r| - 1] == '%'
    ensures ParseInt(r[..|r| - 1]) == Some(JsRound(value))
  {
    var t := IntToString(JsRound(value));
    IntToStringRoundTrip(JsRound(value));
    assert (t + "%")[..|t|] == t;
    t + "%"
  }

  /* ---------------- formatChange ---------------- */

  datatype ChangeText = ChangeText(text: string, isPositive: bool)

  /** `formatChange`: `null` and zero show "0%" and count as not positive;
      otherwise the rounded change, with a "+" exactly when it is positive. */
  function FormatChange(change: Option<real>): (r: ChangeText)
    ensures change.None? || change == Some(0.0) ==> r == ChangeText("0%", false)
    ensures change.Some? && change.value != 0.0 ==> (r.isPositive <==> change.value > 0.0)
    ensures |r.text| >= 2 && r.text[|r.text| - 1] == '%'
    ensures r.text[0] == '+' <==> r.isPositive
    ensures ParseSignedPercent(r.text) == Some(if change.None? then 0 else JsRound(change.value))
  {
    if change.None? || change.value == 0.0 then
      assert ParseInt("0") == Some(0);
      ChangeText("0%", false)
    else
      var isPositive := change.value > 0.0;
      var digits := IntToString(JsRound(change.value));
      var text := (if isPositive then "+" else "") + digits + "%";
      SignedPercentRoundTrip(isPositive, JsRound(change.value));
      ChangeText(text, isPositive)
  }

  lemma SignedPercentRoundTrip(plus: bool, k: int)
    ensures ParseSignedPercent((if plus then "+" else "") + IntToString(k) + "%") == Some(k)
  {
    var digits := IntToString(k);
    var text := (if plus then "+" else "") + digits + "%";
    var body := text[..|text| - 1];
    assert body == (if plus then "+" else "") + digits;
    IntToStringRoundTrip(k);
    if plus {
      assert body[1..] == digits;
    } else {
      assert body == digits;
      assert body[0] != '+';
    }
  }

  /** Reads "+N%", "N%" or "-N%" back as the whole number N (or -N). */
  function ParseSignedPercent(t: string): Option<int> {
    if |t| >= 2 && t[|t| - 1] == '%' then
      var body := t[..|t| - 1];
      if body[0] == '+' then ParseInt(body[1..]) else ParseInt(body)
    else None
  }

  /** `ParseSignedPercent` accepts only an optional "+" before the rendering
      of the integer it returns, then "%". */
  lemma ParseSignedPercentText(t: string, k: int)
    requires ParseSignedPercent(t) == Some(k)
    ensures t == IntToString(k) + "%" || t == "+" + IntToString(k) + "%"
  {
    var body := t[..|t| - 1];
    assert t == body + "%";
    if body[0] == '+' {
      ParseIntCharacterised(body[1..], k);
      assert body == "+" + body[1..];
    } else {
      ParseIntCharacterised(body, k);
    }
  }

  /** Small positive changes render as "+0%" and negative halves round up. */
  lemma ChangeRoundingExamples()
    ensures FormatChange(Some(0.25)).text == "+0%"
    ensures FormatChange(Some(-2.5)).text == "-2%"
  {
    assert JsRound(0.25) == 0;
    assert JsRound(-2.5) == -2;
    assert IntToString(-2) == "-2";
  }
}
