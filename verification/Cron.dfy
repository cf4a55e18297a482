/**
 The next-run search of parseCron in internal/scheduler/scheduler.go and the field
 matcher under it.  Times are nanoseconds in UTC; the calendar (day of month, month,
 weekday of a day number) is a parameter.
 */
module Cron {
  import opened Segments
  import opened Text

  const MINUTE := 60_000_000_000
  const DAY := 1440 * MINUTE
  const HORIZON := 525600

  // ---------- the search ----------

  /** The minute a time lies in, counted from the zero time. */
  function MinuteOf(t: int): int {
    t / MINUTE
  }

  ghost predicate LeastMatch(matches: int -> bool, from: int, r: int) {
    from < r && matches(r) && forall k :: from < k < r ==> !matches(k)
  }

  /** What the search promises: strictly later than t; the least matching minute of the next 525600 if there
      is one, and otherwise a day later. */
  ghost predicate IsNextRun(matches: int -> bool, t: int, r: int) {
    var from := MinuteOf(t);
    && t < r
    && (if exists k :: from < k <= from + HORIZON && matches(k)
        then r % MINUTE == 0 && r / MINUTE <= from + HORIZON && LeastMatch(matches, from, r / MINUTE)
        else r == t + DAY)
  }

  method NextRun(matches: int -> bool, t: int) returns (r: int)
    ensures IsNextRun(matches, t, r)
  {
    var from := MinuteOf(t);
    var next := from * MINUTE;
    for i := 0 to HORIZON
      invariant next == (from + i) * MINUTE
      invariant forall k :: from < k <= from + i ==> !matches(k)
    {
      next := next + MINUTE;
      AtMinute(from + i + 1);
      if matches(next / MINUTE) {
        return next;
      }
    }
    return t + DAY;
  }

  lemma AtMinute(k: int)
    ensures k * MINUTE / MINUTE == k && k * MINUTE % MINUTE == 0
  {
  }

  /** The specification leaves no choice. */
  lemma NextRunUnique(matches: int -> bool, t: int, r: int, s: int)
    requires IsNextRun(matches, t, r) && IsNextRun(matches, t, s)
    ensures r == s
  {
  }

  // ---------- field patterns ----------

  predicate IsDigit(c: char) {
    '0' <= c <= '9'
  }

  function DigitValue(c: char): (d: nat)
    requires IsDigit(c)
    ensures d < 10
  {
    c as int - '0' as int
  }

  function DigitChar(d: nat): (c: char)
    requires d < 10
    ensures IsDigit(c) && DigitValue(c) == d
  {
    ('0' as int + d) as char
  }

  /** The decimal form of a value. */
  function Decimal(n: nat): (s: string)
    ensures s != "" && forall i :: 0 <= i < |s| ==> IsDigit(s[i])
  {
    if n < 10 then [DigitChar(n)] else Decimal(n / 10) + [DigitChar(n % 10)]
  }

  function LeadingDigits(s: string): (n: nat)
    ensures n <= |s| && forall i :: 0 <= i < n ==> IsDigit(s[i])
  {
    if s == "" || !IsDigit(s[0]) then 0 else 1 + LeadingDigits(s[1..])
  }

  function Number(s: string): nat
    requires forall i :: 0 <= i < |s| ==> IsDigit(s[i])
  {
    if s == "" then 0 else Number(s[..|s| - 1]) * 10 + DigitValue(s[|s| - 1])
  }

  datatype Scanned = NoNumber | Scanned(value: int, rest: string)

  /** One %d of fmt.Sscanf: an optional sign and digits. */
  function ScanInt(s: string): Scanned {
    var signed := s != "" && (s[0] == '-' || s[0] == '+');
    var body := if signed then s[1..] else s;
    var n := LeadingDigits(body);
    if n == 0 then NoNumber
    else
      var v: int := Number(body[..n]);
      Scanned(if signed && s[0] == '-' then -v else v, body[n..])
  }

  /** fmt.Sscanf with "%d-%d": what it could not scan stays zero. */
  function ScanRange(s: string): (int, int) {
    match ScanInt(s)
    case NoNumber => (0, 0)
    case Scanned(lo, rest) =>
      if rest == "" || rest[0] != '-' then (lo, 0)
      else
        match ScanInt(rest[1..])
        case NoNumber => (lo, 0)
        case Scanned(hi, _) => (lo, hi)
  }

  /** fmt.Sscanf with "*" + "/%d". */
  function ScanStep(s: string): int {
    if "*/" <= s then
      match ScanInt(s[2..])
      case NoNumber => 0
      case Scanned(step, _) => step
    else 0
  }

  /** One item of a list, with the space around it trimmed. */
  predicate PartMatches(part: string, value: nat, min: nat)
    requires min <= value
  {
    ItemMatches(Trim(part, IsSpace), value, min)
  }

  predicate ItemMatches(p: string, value: nat, min: nat)
    requires min <= value
  {
    || p == Decimal(value)
    || ('-' in p && var (lo, hi) := ScanRange(p); lo <= value <= hi)
    || ('/' in p && ScanStep(p) > 0 && (value - min) % ScanStep(p) == 0)
  }

  predicate MatchField(pattern: string, value: nat, min: nat)
    requires min <= value
  {
    pattern == "*" || exists i :: 0 <= i < |Split(pattern, ',')| && PartMatches(Split(pattern, ',')[i], value, min)
  }

  method MatchFieldLoop(pattern: string, value: nat, min: nat) returns (r: bool)
    requires min <= value
    ensures r == MatchField(pattern, value, min)
  {
    hide PartMatches;
    if pattern == "*" {
      return true;
    }
    var parts := Split(pattern, ',');
    for i := 0 to |parts|
      invariant forall k :: 0 <= k < i ==> !PartMatches(parts[k], value, min)
    {
      if PartMatches(parts[i], value, min) {
        return true;
      }
    }
    return false;
  }

  /** The calendar of a day number: day of month, month and weekday. */
  datatype Date = Date(day: nat, month: nat, weekday: nat)

  predicate ValidCalendar(d: Date) {
    d.day >= 1 && d.month >= 1
  }

  /** matchCron at a minute, for the five fields. */
  predicate MatchCron(fields: seq<string>, minute: int, date: Date)
    requires |fields| == 5 && ValidCalendar(date)
  {
    var dom := MatchField(fields[2], date.day, 1);
    var dow := MatchField(fields[4], date.weekday, 0);
    var dayMatch := if fields[2] == "*" || fields[4] == "*" then dom && dow else dom || dow;
    && MatchField(fields[0], minute % 60, 0)
    && MatchField(fields[1], minute / 60 % 24, 0)
    && MatchField(fields[3], date.month, 1)
    && dayMatch
  }

  // ---------- what the patterns mean ----------

  lemma {:induction false} DecimalNumber(n: nat)
    ensures Number(Decimal(n)) == n
  {
    if n >= 10 {
      DecimalNumber(n / 10);
      var s := Decimal(n);
      assert s[..|s| - 1] == Decimal(n / 10);
    } else {
      assert [DigitChar(n)][..0] == "";
    }
  }

  lemma {:induction false} LeadingOf(ds: string, rest: string)
    requires (forall i :: 0 <= i < |ds| ==> IsDigit(ds[i])) && (rest == "" || !IsDigit(rest[0]))
    ensures LeadingDigits(ds + rest) == |ds|
  {
    if ds == "" {
      assert ds + rest == rest;
    } else {
      LeadingOf(ds[1..], rest);
      assert (ds + rest)[1..] == ds[1..] + rest;
    }
  }

  lemma ScanDecimal(n: nat, rest: string)
    requires rest == "" || !IsDigit(rest[0])
    ensures ScanInt(Decimal(n) + rest) == Scanned(n, rest)
  {
    var ds := Decimal(n);
    LeadingOf(ds, rest);
    DecimalNumber(n);
    assert (ds + rest)[0] == ds[0];
    assert (ds + rest)[..|ds|] == ds && (ds + rest)[|ds|..] == rest;
  }

  lemma DecimalPlain(n: nat, c: char)
    requires !IsDigit(c)
    ensures c !in Decimal(n)
  {
  }

  /** A literal matches exactly its value. */
  lemma LiteralMatches(n: nat, value: nat, min: nat)
    requires min <= value
    ensures MatchField(Decimal(n), value, min) <==> value == n
  {
    hide PartMatches, Decimal;
    var p := Decimal(n);
    DecimalPlain(n, ',');
    SplitOne(p, ',');
    DecimalPlain(n, '*');
    assert p != "*" by { assert '*' !in p; }
    assert Split(p, ',') == [p] && [p][0] == p;
    LiteralPart(n, value, min);
  }

  lemma LiteralPart(n: nat, value: nat, min: nat)
    requires min <= value
    ensures PartMatches(Decimal(n), value, min) <==> value == n
  {
    DecimalPlain(n, '-');
    DecimalPlain(n, '/');
    DecimalNumber(n);
    DecimalNumber(value);
    TrimNothing(Decimal(n), IsSpace);
  }

  /** A range matches exactly the values between its ends. */
  lemma RangeMatches(lo: nat, hi: nat, value: nat, min: nat)
    requires min <= value
    ensures MatchField(Decimal(lo) + "-" + Decimal(hi), value, min) <==> lo <= value <= hi
  {
    hide PartMatches, Decimal;
    var p := Decimal(lo) + "-" + Decimal(hi);
    DecimalPlain(lo, ',');
    DecimalPlain(hi, ',');
    SplitOne(p, ',');
    assert p[|Decimal(lo)|] == '-';
    assert p != "*" by { assert '-' in p; }
    assert Split(p, ',') == [p] && [p][0] == p;
    RangePart(lo, hi, value, min);
  }

  lemma RangePart(lo: nat, hi: nat, value: nat, min: nat)
    requires min <= value
    ensures PartMatches(Decimal(lo) + "-" + Decimal(hi), value, min) <==> lo <= value <= hi
  {
    hide Decimal, ScanInt, Trim;
    var p := Decimal(lo) + "-" + Decimal(hi);
    assert p == Decimal(lo) + ("-" + Decimal(hi));
    ScanDecimal(lo, "-" + Decimal(hi));
    assert ("-" + Decimal(hi))[1..] == Decimal(hi) + "";
    ScanDecimal(hi, "");
    assert ScanRange(p) == (lo, hi);
    assert p[|Decimal(lo)|] == '-' && '-' in p;
    DecimalPlain(value, '-');
    DecimalPlain(lo, '/');
    DecimalPlain(hi, '/');
    assert '/' !in p;
    TrimNothing(p, IsSpace);
  }

  /** A step matches every k-th value from the field's minimum. */
  lemma StepMatches(k: nat, value: nat, min: nat)
    requires min <= value && k > 0
    ensures MatchField("*/" + Decimal(k), value, min) <==> (value - min) % k == 0
  {
    hide PartMatches, Decimal;
    var p := "*/" + Decimal(k);
    DecimalPlain(k, ',');
    SplitOne(p, ',');
    assert |p| > 1 && p != "*";
    assert Split(p, ',') == [p] && [p][0] == p;
    StepPart(k, value, min);
  }

  lemma StepPart(k: nat, value: nat, min: nat)
    requires min <= value && k > 0
    ensures PartMatches("*/" + Decimal(k), value, min) <==> (value - min) % k == 0
  {
    hide Decimal, ScanInt, ScanRange, Trim;
    var p := "*/" + Decimal(k);
    assert p[2..] == Decimal(k) + "";
    ScanDecimal(k, "");
    assert ScanStep(p) == k && p[1] == '/' && '/' in p;
    DecimalPlain(value, '*');
    assert p[0] == '*' && '*' in p;
    DecimalPlain(k, '-');
    assert '-' !in p;
    TrimNothing(p, IsSpace);
  }

  /** "*" is special only alone: as an item of a list it matches nothing. */
  lemma StarInList(b: string, value: nat, min: nat)
    requires min <= value && b != "*"
    ensures MatchField("*," + b, value, min) <==> MatchField(b, value, min)
  {
    hide PartMatches, Split;
    SplitConcat("*", b, ',');
    var q := Split(b, ',');
    assert Split("*", ',') == ["*"] by { SplitOne("*", ','); }
    assert ("*," + b)[1] == ',' && "*" + "," + b == "*," + b;
    assert forall i :: 0 <= i < |q| ==> (["*"] + q)[1 + i] == q[i];
    StarPart(value, min);
    if MatchField("*," + b, value, min) {
      var i :| 0 <= i < |["*"] + q| && PartMatches((["*"] + q)[i], value, min);
      assert i > 0 ==> (["*"] + q)[i] == q[i - 1];
    }
  }

  lemma StarPart(value: nat, min: nat)
    requires min <= value
    ensures !PartMatches("*", value, min)
  {
    DecimalPlain(value, '*');
    TrimNothing("*", IsSpace);
    assert "*"[0] == '*' && '*' in "*" && '-' !in "*" && '/' !in "*";
  }

  /** A list matches when one of its items does. */
  lemma ListMatches(a: string, b: string, value: nat, min: nat)
    requires min <= value && a != "*" && b != "*"
    ensures MatchField(a + "," + b, value, min) <==> MatchField(a, value, min) || MatchField(b, value, min)
  {
    hide PartMatches, Split;
    SplitConcat(a, b, ',');
    var p, q := Split(a, ','), Split(b, ',');
    assert (a + "," + b)[|a|] == ',' && a + "," + b != "*";
    assert forall i :: 0 <= i < |p| ==> (p + q)[i] == p[i];
    assert forall i :: 0 <= i < |q| ==> (p + q)[|p| + i] == q[i];
    if MatchField(a + "," + b, value, min) {
      var i :| 0 <= i < |p + q| && PartMatches((p + q)[i], value, min);
      assert i >= |p| ==> (p + q)[i] == q[i - |p|];
    }
  }

  // ---------- daily jobs ----------

  /** An expression that fixes the minute and the hour and nothing else. */
  function Daily(minute: nat, hour: nat): seq<string> {
    [Decimal(minute), Decimal(hour), "*", "*", "*"]
  }

  lemma DailyMatches(minute: nat, hour: nat, k: int, date: Date)
    requires minute < 60 && hour < 24 && ValidCalendar(date)
    ensures MatchCron(Daily(minute, hour), k, date) <==> k % 1440 == hour * 60 + minute
  {
    hide Decimal, Split;
    LiteralMatches(minute, k % 60, 0);
    LiteralMatches(hour, k / 60 % 24, 0);
    MinuteOfDay(k, minute, hour);
  }

  lemma MinuteOfDay(k: int, minute: nat, hour: nat)
    requires minute < 60 && hour < 24
    ensures k % 1440 == hour * 60 + minute <==> k % 60 == minute && k / 60 % 24 == hour
  {
  }

  /** For such an expression the search succeeds within a day, whatever the calendar: the next run is the next
      minute at that time of day. */
  lemma DailyRunWithinADay(minute: nat, hour: nat, calendar: int -> Date, t: int, r: int)
    requires minute < 60 && hour < 24 && forall d :: ValidCalendar(calendar(d))
    requires IsNextRun(k => MatchCron(Daily(minute, hour), k, calendar(k / 1440)), t, r)
    ensures r % MINUTE == 0 && r / MINUTE % 1440 == hour * 60 + minute
    ensures MinuteOf(t) < r / MINUTE <= MinuteOf(t) + 1440
  {
    hide MatchCron;
    var matches := k => MatchCron(Daily(minute, hour), k, calendar(k / 1440));
    var from := MinuteOf(t);
    var target := hour * 60 + minute;
    var gap := (target - from - 1) % 1440 + 1;
    var k := from + gap;
    assert k % 1440 == target by { NextAligned(from, target); }
    DailyMatches(minute, hour, k, calendar(k / 1440));
    assert matches(k) && from < k <= from + HORIZON;
    DailyMatches(minute, hour, r / MINUTE, calendar(r / MINUTE / 1440));
  }

  lemma NextAligned(from: int, target: nat)
    requires target < 1440
    ensures (from + ((target - from - 1) % 1440 + 1)) % 1440 == target
  {
  }
}
