/**
 What cron expressions mean, and that the matcher of internal/scheduler/scheduler.go
 gives them this meaning: fields as trees, the day rule, and items that fmt.Sscanf
 cannot scan.
 */
module CronMeaning {
  import opened Segments
  import opened Text
  import opened Cron

  // ---------- expressions ----------

  /** An item of a field: a value, a span of values, or every k-th value. */
  datatype Item = At(n: nat) | Span(lo: nat, hi: nat) | Every(k: nat)

  /** A field: anything, or a list of items. */
  datatype Field = Any | OneOf(items: seq<Item>)

  function ItemText(i: Item): string {
    match i
    case At(n) => Decimal(n)
    case Span(lo, hi) => Decimal(lo) + "-" + Decimal(hi)
    case Every(k) => "*/" + Decimal(k)
  }

  function Texts(items: seq<Item>): (r: seq<string>)
    ensures |r| == |items| && forall i :: 0 <= i < |items| ==> r[i] == ItemText(items[i])
  {
    seq(|items|, i requires 0 <= i < |items| => ItemText(items[i]))
  }

  function FieldText(f: Field): string {
    if f.Any? then "*" else Join(Texts(f.items), ',')
  }

  /** Every 0-th value is none. */
  predicate ItemMeans(i: Item, value: nat, min: nat) {
    match i
    case At(n) => value == n
    case Span(lo, hi) => lo <= value <= hi
    case Every(k) => k > 0 && (value - min) % k == 0
  }

  predicate FieldMeans(f: Field, value: nat, min: nat) {
    f.Any? || exists i :: 0 <= i < |f.items| && ItemMeans(f.items[i], value, min)
  }

  lemma ItemPart(i: Item, value: nat, min: nat)
    requires min <= value
    ensures PartMatches(ItemText(i), value, min) <==> ItemMeans(i, value, min)
  {
    hide PartMatches, Decimal;
    match i
    case At(n) => LiteralPart(n, value, min);
    case Span(lo, hi) => RangePart(lo, hi, value, min);
    case Every(k) =>
      if k > 0 {
        StepPart(k, value, min);
      } else {
        ZeroStep(value, min);
      }
  }

  lemma ZeroStep(value: nat, min: nat)
    requires min <= value
    ensures !PartMatches("*/" + Decimal(0), value, min)
  {
    hide ScanInt, ScanRange, Trim;
    var p := "*/" + Decimal(0);
    assert p[2..] == Decimal(0) + "";
    ScanDecimal(0, "");
    DecimalPlain(value, '*');
    assert p[0] == '*' && '*' in p;
    DecimalPlain(0, '-');
    assert '-' !in p;
    TrimNothing(p, IsSpace);
  }

  lemma ItemProper(i: Item)
    ensures ',' !in ItemText(i) && ItemText(i) != "" && ItemText(i) != "*"
  {
    hide Decimal;
    match i
    case At(n) =>
      DecimalPlain(n, ',');
      DecimalPlain(n, '*');
      assert '*' in "*";
    case Span(lo, hi) =>
      DecimalPlain(lo, ',');
      DecimalPlain(hi, ',');
      assert ItemText(i)[|Decimal(lo)|] == '-' && '-' !in "*";
    case Every(k) =>
      DecimalPlain(k, ',');
  }

  /** The matcher gives every field its meaning. */
  lemma FieldMatches(f: Field, value: nat, min: nat)
    requires min <= value && (f.OneOf? ==> f.items != [])
    ensures MatchField(FieldText(f), value, min) <==> FieldMeans(f, value, min)
    ensures FieldText(f) == "*" <==> f.Any?
  {
    hide PartMatches, ItemText, ItemMeans, Split, Join;
    if f.OneOf? {
      var texts := Texts(f.items);
      forall i | 0 <= i < |texts| ensures ',' !in texts[i] && texts[i] != "*" {
        ItemProper(f.items[i]);
      }
      SplitJoin(texts, ',');
      SplitOne("*", ',');
      assert texts[0] != ["*"][0] && texts != ["*"];
      assert Split(FieldText(f), ',') == texts && FieldText(f) != "*";
      forall i | 0 <= i < |texts| ensures PartMatches(texts[i], value, min) <==> ItemMeans(f.items[i], value, min) {
        ItemPart(f.items[i], value, min);
      }
    }
  }

  datatype Expression = Expression(minute: Field, hour: Field, day: Field, month: Field, weekday: Field)

  function Fields(e: Expression): (r: seq<string>)
    ensures |r| == 5
  {
    [FieldText(e.minute), FieldText(e.hour), FieldText(e.day), FieldText(e.month), FieldText(e.weekday)]
  }

  ghost predicate Proper(f: Field) {
    f.OneOf? ==> f.items != []
  }

  ghost predicate AllProper(e: Expression) {
    Proper(e.minute) && Proper(e.hour) && Proper(e.day) && Proper(e.month) && Proper(e.weekday)
  }

  /** If both day fields are restricted one of them suffices. */
  predicate DayMeans(e: Expression, date: Date) {
    if e.day.OneOf? && e.weekday.OneOf?
    then FieldMeans(e.day, date.day, 1) || FieldMeans(e.weekday, date.weekday, 0)
    else FieldMeans(e.day, date.day, 1) && FieldMeans(e.weekday, date.weekday, 0)
  }

  /** For every expression, day, hour and minute: the expression matches if and only if the minute, the hour, the month
      and, by the day rule, the day are meant. */
  lemma ExpressionMatches(e: Expression, day: int, hour: nat, minute: nat, date: Date)
    requires AllProper(e) && hour < 24 && minute < 60 && ValidCalendar(date)
    ensures MatchCron(Fields(e), (day * 24 + hour) * 60 + minute, date) <==>
      && FieldMeans(e.minute, minute, 0) && FieldMeans(e.hour, hour, 0)
      && FieldMeans(e.month, date.month, 1) && DayMeans(e, date)
  {
    hide MatchField, FieldText, FieldMeans;
    TimeOfDay(day, hour, minute);
    FieldMatches(e.minute, minute, 0);
    FieldMatches(e.hour, hour, 0);
    FieldMatches(e.day, date.day, 1);
    FieldMatches(e.month, date.month, 1);
    FieldMatches(e.weekday, date.weekday, 0);
  }

  lemma TimeOfDay(day: int, hour: nat, minute: nat)
    requires hour < 24 && minute < 60
    ensures var k := (day * 24 + hour) * 60 + minute; k % 60 == minute && k / 60 % 24 == hour
  {
  }

  /** The clock and the horizon: a minute is 60 seconds, the search covers 365 days, and a failed one waits a day. */
  lemma ClockUnits()
    ensures MINUTE == 60 * 1_000_000_000 && HORIZON == 365 * 24 * 60 && DAY == 24 * 60 * MINUTE
  {
  }

  // ---------- what fmt.Sscanf makes of other items ----------

  /** A number as "%d" scans it: an optional sign and digits. */
  datatype Sign = Unsigned | Plus | Minus

  function Signed(sign: Sign, digits: string): string {
    match sign
    case Unsigned => digits
    case Plus => "+" + digits
    case Minus => "-" + digits
  }

  predicate Digits(s: string) {
    s != "" && forall i :: 0 <= i < |s| ==> IsDigit(s[i])
  }

  function SignedValue(sign: Sign, digits: string): int
    requires Digits(digits)
  {
    var n: int := Number(digits);
    if sign.Minus? then -n else n
  }

  /** "%d" takes the sign and all digits, and leaves the rest. */
  lemma ScanSigned(sign: Sign, digits: string, rest: string)
    requires Digits(digits) && (rest == "" || !IsDigit(rest[0]))
    ensures ScanInt(Signed(sign, digits) + rest) == Scanned(SignedValue(sign, digits), rest)
  {
    hide Number, LeadingDigits;
    LeadingOf(digits, rest);
    var s := Signed(sign, digits) + rest;
    assert (digits + rest)[..|digits|] == digits && (digits + rest)[|digits|..] == rest;
    assert !sign.Unsigned? ==> s[1..] == digits + rest;
    assert sign.Unsigned? ==> s == digits + rest && s[0] == digits[0] && IsDigit(digits[0]);
  }

  /** Nothing else: a text whose first character after an optional sign is no digit. */
  predicate NoNumberAt(s: string) {
    var body := if s != "" && (s[0] == '+' || s[0] == '-') then s[1..] else s;
    body == "" || !IsDigit(body[0])
  }

  lemma ScanNothing(s: string)
    requires NoNumberAt(s)
    ensures ScanInt(s) == NoNumber
  {
  }

  /** Leading zeros do not matter. */
  lemma {:induction false} LeadingZero(b: string)
    requires forall i :: 0 <= i < |b| ==> IsDigit(b[i])
    ensures Number("0" + b) == Number(b)
  {
    var c := "0" + b;
    if b == "" {
      assert c == "0" && "0"[..0] == "" && Number("") == 0;
    } else {
      assert c[..|c| - 1] == "0" + b[..|b| - 1] && c[|c| - 1] == b[|b| - 1];
      LeadingZero(b[..|b| - 1]);
    }
  }

  /** A range may have signs, and text after it does not matter. */
  lemma SignedRange(a: Sign, lo: string, b: Sign, hi: string, rest: string, value: nat, min: nat)
    requires Digits(lo) && Digits(hi) && (rest == "" || !IsDigit(rest[0])) && '/' !in rest && min <= value
    ensures var p := Signed(a, lo) + "-" + Signed(b, hi) + rest;
      ItemMatches(p, value, min) <==> SignedValue(a, lo) <= value <= SignedValue(b, hi)
  {
    hide ScanInt, Number, Decimal, Signed, SignedValue, ScanRange;
    var p := Signed(a, lo) + "-" + Signed(b, hi) + rest;
    ScanBoth(a, lo, b, hi, rest);
    HasDash(p, value, |Signed(a, lo)|);
    SignedNoSlash(a, lo);
    SignedNoSlash(b, hi);
    assert '/' !in p;
  }

  lemma ScanBoth(a: Sign, lo: string, b: Sign, hi: string, rest: string)
    requires Digits(lo) && Digits(hi) && (rest == "" || !IsDigit(rest[0]))
    ensures ScanRange(Signed(a, lo) + "-" + Signed(b, hi) + rest) == (SignedValue(a, lo), SignedValue(b, hi))
  {
    hide ScanInt, Number, Signed, SignedValue;
    var p := Signed(a, lo) + "-" + Signed(b, hi) + rest;
    var more := "-" + Signed(b, hi) + rest;
    assert p == Signed(a, lo) + more && more[1..] == Signed(b, hi) + rest;
    ScanSigned(a, lo, more);
    ScanSigned(b, hi, rest);
  }

  lemma HasDash(p: string, value: nat, i: nat)
    requires i < |p| && p[i] == '-'
    ensures '-' in p && p != Decimal(value)
  {
    DecimalPlain(value, '-');
  }

  lemma SignedNoSlash(sign: Sign, digits: string)
    requires Digits(digits)
    ensures '/' !in Signed(sign, digits)
  {
  }

  /** A range whose second number cannot be scanned ends at 0. */
  lemma HalfRange(a: Sign, lo: string, rest: string, value: nat, min: nat)
    requires Digits(lo) && '/' !in rest && min <= value && '-' in Signed(a, lo) + rest
    requires rest == "" || (!IsDigit(rest[0]) && (rest[0] == '-' ==> NoNumberAt(rest[1..])))
    ensures ItemMatches(Signed(a, lo) + rest, value, min) <==> SignedValue(a, lo) <= value <= 0
  {
    hide ScanInt, Number, Decimal;
    var p := Signed(a, lo) + rest;
    ScanSigned(a, lo, rest);
    if rest != "" && rest[0] == '-' {
      ScanNothing(rest[1..]);
    }
    var i :| 0 <= i < |p| && p[i] == '-';
    HasDash(p, value, i);
    SignedNoSlash(a, lo);
    assert '/' !in p;
  }

  /** An item with a dash that does not start with a number matches 0, and nothing else. */
  lemma NoRange(p: string, value: nat, min: nat)
    requires NoNumberAt(p) && '-' in p && '/' !in p && min <= value
    ensures ItemMatches(p, value, min) <==> value == 0
  {
    hide ScanInt, Decimal;
    ScanNothing(p);
    var i :| 0 <= i < |p| && p[i] == '-';
    HasDash(p, value, i);
  }

  /** A step may have a plus sign, and text after it does not matter. */
  lemma SignedStep(a: Sign, k: string, rest: string, value: nat, min: nat)
    requires !a.Minus? && Digits(k) && (rest == "" || !IsDigit(rest[0])) && '-' !in rest && min <= value
    ensures ItemMatches("*/" + Signed(a, k) + rest, value, min) <==>
      SignedValue(a, k) > 0 && (value - min) % SignedValue(a, k) == 0
  {
    hide ScanInt, ScanRange, Number, Decimal;
    var p := "*/" + Signed(a, k) + rest;
    assert p[2..] == Signed(a, k) + rest;
    ScanSigned(a, k, rest);
    HasStar(p, value);
    assert p[1] == '/' && '/' in p && '-' !in p;
  }

  lemma HasStar(p: string, value: nat)
    requires p != "" && p[0] == '*'
    ensures p != Decimal(value)
  {
    hide Decimal;
    DecimalPlain(value, '*');
    assert '*' in p;
  }

  /** Every other item with a slash and no dash matches nothing, such as 5/10, and so does every other item with
      neither, except a value's own decimal. */
  lemma NoStep(p: string, value: nat, min: nat)
    requires '-' !in p && min <= value && ("*/" <= p ==> NoNumberAt(p[2..]))
    ensures ItemMatches(p, value, min) <==> p == Decimal(value)
  {
    hide ScanInt, ScanRange, Decimal;
    if "*/" <= p {
      ScanNothing(p[2..]);
    }
  }

  /** Space around an item does not matter. */
  lemma SpacesIgnored(a: string, p: string, b: string, value: nat, min: nat)
    requires (forall i :: 0 <= i < |a| ==> IsSpace(a[i])) && (forall i :: 0 <= i < |b| ==> IsSpace(b[i]))
    requires p != "" && !IsSpace(p[0]) && !IsSpace(p[|p| - 1]) && min <= value
    ensures PartMatches(a + p + b, value, min) <==> ItemMatches(p, value, min)
  {
    hide ItemMatches;
    TrimAround(a, p, b, IsSpace);
  }
}
