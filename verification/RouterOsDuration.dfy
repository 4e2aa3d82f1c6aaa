/** The RouterOS timeout string of a ban and the value RouterOS reads from it. */
module RouterOsDuration {
  import opened Basics
  import opened Text

  const DAY := 86400
  const HOUR := 3600
  const MINUTE := 60

  /** Go's integer division and remainder, which truncate toward zero. */
  function Quot(a: int, b: int): int
    requires b > 0
  {
    if a >= 0 then a / b else -(-a / b)
  }

  function Rem(a: int, b: int): int
    requires b > 0
  {
    a - b * Quot(a, b)
  }

  function Digit(d: int): char
    requires 0 <= d < 10
  {
    ('0' as int + d) as char
  }

  /** The decimal digits of `n`. */
  function Decimal(n: nat): (s: string)
    ensures s != [] && forall i :: 0 <= i < |s| ==> IsDigit(s[i])
  {
    if n < 10 then [Digit(n)] else Decimal(n / 10) + [Digit(n % 10)]
  }

  lemma {:induction false} DecimalReadsBack(n: nat)
    ensures DecimalValue(Decimal(n)) == n
  {
    if n >= 10 {
      var s := Decimal(n);
      DecimalReadsBack(n / 10);
      assert s[..|s| - 1] == Decimal(n / 10);
    } else {
      assert Decimal(n)[..0] == [];
    }
  }

  method DurationToRouterOS(d: int) returns (buf: string)
    ensures d >= 1_000_000_000 ==> buf != "" && Seconds(buf) == d / 1_000_000_000
    ensures d < 1_000_000_000 ==> buf == ""
    ensures buf == Printed(Quot(d, NANOS_PER_SECOND))
  {
    EmptyIffBelowOneSecond(d);
    if d >= 0 {
      PrintedReadsBack(Quot(d, NANOS_PER_SECOND));
    }
    if d == 0 {
      return "";
    }
    var totalSec := Quot(d, NANOS_PER_SECOND);
    ghost var t := totalSec;
    var days := Quot(totalSec, DAY);
    totalSec := Rem(totalSec, DAY);
    ghost var r := totalSec;
    var hours := Quot(totalSec, HOUR);
    totalSec := Rem(totalSec, HOUR);
    var minutes := Quot(totalSec, MINUTE);
    var seconds := Rem(totalSec, MINUTE);
    PartsOf(t, days, r, hours, totalSec, minutes, seconds);
    PrintedFromParts(t, days, hours, minutes, seconds);
    buf := Render(days, hours, minutes, seconds);
  }

  method Render(days: int, hours: int, minutes: int, seconds: int) returns (buf: string)
    ensures buf == Component(days, 'd') + Component(hours, 'h') + Component(minutes, 'm') + Component(seconds, 's')
  {
    buf := "";
    if days > 0 {
      buf := buf + Decimal(days);
      buf := buf + "d";
    }
    assert buf == Component(days, 'd');
    if hours > 0 {
      buf := buf + Decimal(hours);
      buf := buf + "h";
    }
    assert buf == Component(days, 'd') + Component(hours, 'h');
    if minutes > 0 {
      buf := buf + Decimal(minutes);
      buf := buf + "m";
    }
    assert buf == Component(days, 'd') + Component(hours, 'h') + Component(minutes, 'm');
    if seconds > 0 {
      buf := buf + Decimal(seconds);
      buf := buf + "s";
    }
  }

  lemma PrintedFromParts(t: int, d: int, h: int, m: int, s: int)
    requires if t >= 0 then d == t / DAY && h == t % DAY / HOUR && m == t % HOUR / MINUTE && s == t % MINUTE
             else d <= 0 && h <= 0 && m <= 0 && s <= 0
    ensures Printed(t) == Component(d, 'd') + Component(h, 'h') + Component(m, 'm') + Component(s, 's')
  {
  }

  /** The printer's truncating arithmetic computes the mixed-radix digits; none of them is
      positive when the total is negative. */
  lemma PartsOf(t: int, d: int, r: int, h: int, q: int, m: int, s: int)
    requires d == Quot(t, DAY) && r == Rem(t, DAY) && h == Quot(r, HOUR) && q == Rem(r, HOUR)
    requires m == Quot(q, MINUTE) && s == Rem(q, MINUTE)
    ensures if t >= 0 then d == t / DAY && h == t % DAY / HOUR && m == t % HOUR / MINUTE && s == t % MINUTE
            else d <= 0 && h <= 0 && m <= 0 && s <= 0
  {
    if t >= 0 {
      Truncated(t, DAY);
      Truncated(r, HOUR);
      Truncated(q, MINUTE);
      HourOfDay(t);
      MinuteOfHour(t);
    } else {
      TruncatedNegative(t, DAY);
      TruncatedNegative(r, HOUR);
      TruncatedNegative(q, MINUTE);
    }
  }

  lemma HourOfDay(t: nat)
    ensures t % DAY % HOUR == t % HOUR
  {
  }

  lemma MinuteOfHour(t: nat)
    ensures t % HOUR % MINUTE == t % MINUTE
  {
  }

  lemma Truncated(a: nat, b: int)
    requires b > 0
    ensures Quot(a, b) == a / b && Rem(a, b) == a % b
  {
  }

  lemma TruncatedNegative(a: int, b: int)
    requires a <= 0 < b
    ensures Quot(a, b) <= 0 && -b < Rem(a, b) <= 0
  {
    var q := -a / b;
    assert q >= 0 && -a == b * q + -a % b;
  }

  /** One component of the string, absent when it is not positive. */
  function Component(n: int, unit: char): string {
    if n > 0 then Decimal(n) + [unit] else ""
  }

  /** Days, hours, minutes and seconds of `t`, most significant first. */
  function Printed(t: int): string {
    if t <= 0 then ""
    else
      Component(t / DAY, 'd') + Component(t % DAY / HOUR, 'h') +
      Component(t % HOUR / MINUTE, 'm') + Component(t % MINUTE, 's')
  }

  function UnitSeconds(c: char): nat {
    match c
    case 'd' => 24 * 60 * 60
    case 'h' => 60 * 60
    case 'm' => 60
    case 's' => 1
    case _ => 0
  }

  /** Reads a duration: numbers followed by units, in any order, added up. `pending` is the
      number read so far. */
  function ReadFrom(s: string, pending: nat): nat
    decreases |s|
  {
    if s == [] then 0
    else if IsDigit(s[0]) then ReadFrom(s[1..], 10 * pending + DigitValue(s[0]))
    else pending * UnitSeconds(s[0]) + ReadFrom(s[1..], 0)
  }

  function Seconds(s: string): nat {
    ReadFrom(s, 0)
  }

  lemma Shift(pending: nat, power: nat, value: nat)
    ensures 10 * (pending * power + value) == pending * (10 * power) + 10 * value
  {
  }

  lemma {:induction false} ReadDigits(digits: string, rest: string, pending: nat)
    requires forall i :: 0 <= i < |digits| ==> IsDigit(digits[i])
    ensures ReadFrom(digits + rest, pending) == ReadFrom(rest, pending * Pow10(|digits|) + DecimalValue(digits))
    decreases |digits|
  {
    if digits == [] {
      assert digits + rest == rest;
      assert pending * Pow10(0) == pending;
    } else {
      var n := |digits| - 1;
      var last := digits[n];
      ReadDigits(digits[..n], [last] + rest, pending);
      assert digits[..n] + ([last] + rest) == digits + rest;
      assert ([last] + rest)[1..] == rest;
      Shift(pending, Pow10(n), DecimalValue(digits[..n]));
    }
  }

  function Pow10(n: nat): nat {
    if n == 0 then 1 else 10 * Pow10(n - 1)
  }

  lemma ReadComponent(n: int, unit: char, rest: string)
    requires !IsDigit(unit)
    ensures Seconds(Component(n, unit) + rest) ==
      (if n > 0 then n * UnitSeconds(unit) else 0) + Seconds(rest)
  {
    if n > 0 {
      var digits := Decimal(n);
      assert Component(n, unit) + rest == digits + ([unit] + rest);
      ReadDigits(digits, [unit] + rest, 0);
      DecimalReadsBack(n);
      assert ([unit] + rest)[1..] == rest;
      assert 0 * Pow10(|digits|) == 0;
    } else {
      assert Component(n, unit) + rest == rest;
    }
  }

  lemma ReadComponents(d: nat, h: nat, m: nat, s: nat)
    ensures Seconds(Component(d, 'd') + Component(h, 'h') + Component(m, 'm') + Component(s, 's')) ==
      d * DAY + h * HOUR + m * MINUTE + s
  {
    var cd, ch, cm, cs := Component(d, 'd'), Component(h, 'h'), Component(m, 'm'), Component(s, 's');
    ReadComponent(d, 'd', ch + (cm + cs));
    ReadComponent(h, 'h', cm + cs);
    ReadComponent(m, 'm', cs);
    ReadComponent(s, 's', "");
    assert cs + "" == cs;
    assert cd + ch + cm + cs == cd + (ch + (cm + cs));
  }

  /** The string of `t` seconds reads back as exactly `t`. */
  lemma PrintedReadsBack(t: nat)
    ensures Seconds(Printed(t)) == t
  {
    if t > 0 {
      ReadComponents(t / DAY, t % DAY / HOUR, t % HOUR / MINUTE, t % MINUTE);
      Mixed(t);
    }
  }

  /** The mixed-radix digits of `t` add up to `t`. */
  lemma Mixed(t: nat)
    ensures t == t / DAY * DAY + t % DAY / HOUR * HOUR + t % HOUR / MINUTE * MINUTE + t % MINUTE
  {
    HourOfDay(t);
    MinuteOfHour(t);
  }

  /** The string is empty - RouterOS's "permanent" - if and only if the duration is shorter than
      one second; so the printer is injective on whole seconds. */
  lemma EmptyIffBelowOneSecond(d: int)
    ensures Printed(Quot(d, NANOS_PER_SECOND)) == "" <==> d < NANOS_PER_SECOND
  {
    if d >= NANOS_PER_SECOND {
      PrintedReadsBack(Quot(d, NANOS_PER_SECOND));
    }
  }

  lemma Injective(d: int, e: int)
    requires d >= NANOS_PER_SECOND && e >= NANOS_PER_SECOND
    requires Printed(Quot(d, NANOS_PER_SECOND)) == Printed(Quot(e, NANOS_PER_SECOND))
    ensures d / NANOS_PER_SECOND == e / NANOS_PER_SECOND
  {
    PrintedReadsBack(d / NANOS_PER_SECOND);
    PrintedReadsBack(e / NANOS_PER_SECOND);
  }
}
