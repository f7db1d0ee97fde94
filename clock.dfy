/** The countdown label: `updateCountDownText` splits the milliseconds left into
    hours, minutes and seconds with Java's truncating `/` and `%`, and renders
    `H:MM:SS` when there is at least one whole hour and `MM:SS` otherwise
    (`%d:%02d:%02d` and `%02d:%02d`, ASCII digits). */
module Clock {
  import opened JavaArith
  import opened Wrappers

  // ---------------------------------------------------------------------------
  // Decimal rendering, as `String.format` does for `%d` and `%02d`

  predicate IsDigit(c: char) { '0' <= c <= '9' }

  predicate AllDigits(s: string) { forall i :: 0 <= i < |s| ==> IsDigit(s[i]) }

  function DigitChar(d: int): (c: char)
    requires 0 <= d < 10
    ensures IsDigit(c)
  {
    ('0' as int + d) as char
  }

  /** The decimal digits of a natural number, without leading zeros. */
  function Digits(n: nat): (s: string)
    ensures 1 <= |s| && AllDigits(s)
    ensures n < 10 <==> |s| == 1
    ensures 10 <= n < 100 <==> |s| == 2
  {
    if n < 10 then [DigitChar(n)] else Digits(n / 10) + [DigitChar(n % 10)]
  }

  /** `%d`: a minus sign for a negative number, then its digits. */
  function Decimal(n: int): (r: string)
    ensures 1 <= |r| && (r[0] == '-' <==> n < 0)
    ensures 0 <= n ==> AllDigits(r) && ValueOf(r) == n
    ensures n < 0 ==> AllDigits(r[1..]) && ValueOf(r[1..]) == -n
  {
    if n < 0 then
      ValueOfDigits(-n);
      assert ("-" + Digits(-n))[1..] == Digits(-n);
      "-" + Digits(-n)
    else
      ValueOfDigits(n);
      Digits(n)
  }

  /** `%02d`: at least two characters, padded with zeros; a negative number is
      always two characters or more, so it is never padded. */
  function Pad2(n: int): (r: string)
    ensures 2 <= |r| && (r[0] == '-' <==> n < 0)
    ensures 0 <= n ==> AllDigits(r) && ValueOf(r) == n
    ensures 0 <= n < 100 <==> |r| == 2 && AllDigits(r)
  {
    if 0 <= n < 10 then
      var r := "0" + Digits(n);
      assert r[..1] == "0" && ValueOf("0") == 0;
      assert r[1] == DigitChar(n);
      r
    else
      Decimal(n)
  }

  function DigitValue(c: char): int
  {
    c as int - '0' as int
  }

  /** The number a string of decimal digits denotes. */
  function ValueOf(s: string): nat
    requires AllDigits(s)
  {
    if s == [] then 0 else ValueOf(s[..|s| - 1]) * 10 + DigitValue(s[|s| - 1])
  }

  /** Exactly two decimal digits, as `%02d` writes a minutes or seconds field. */
  predicate TwoDigits(p: string)
  {
    |p| == 2 && IsDigit(p[0]) && IsDigit(p[1])
  }

  function TwoValue(p: string): int
    requires TwoDigits(p)
  {
    DigitValue(p[0]) * 10 + DigitValue(p[1])
  }

  /** Reading the digits back gives the number. */
  lemma {:induction false} ValueOfDigits(n: nat)
    ensures ValueOf(Digits(n)) == n
  {
    if n >= 10 {
      var s := Digits(n);
      assert s[..|s| - 1] == Digits(n / 10);
      ValueOfDigits(n / 10);
    }
  }

  /** A minutes or seconds field below 100 is rendered as exactly two digits
      that read back as the field. */
  lemma Pad2Field(n: int)
    requires 0 <= n < 100
    ensures TwoDigits(Pad2(n)) && TwoValue(Pad2(n)) == n
  {
    if n >= 10 {
      assert Digits(n) == [DigitChar(n / 10), DigitChar(n % 10)];
    }
  }

  // ---------------------------------------------------------------------------
  // Splitting milliseconds into hours, minutes and seconds

  datatype Hms = Hms(hours: int, minutes: int, seconds: int)

  /** Java's quotient and remainder are the only ones with the remainder below the
      divisor and of the dividend's sign. */
  lemma QuotRemUnique(a: int, b: int, q: int, r: int)
    requires b > 0 && a == q * b + r
    requires 0 <= a ==> 0 <= r < b
    requires a <= 0 ==> -b < r <= 0
    ensures Quot(a, b) == q && Rem(a, b) == r
  {
    QuotRem(a, b);
    var d := q - Quot(a, b);
    assert d * b == Rem(a, b) - r;
    if d > 0 {
      MulAtLeast(d, b);
    } else if d < 0 {
      MulAtLeast(-d, b);
    }
  }

  /** The split `updateCountDownText` intends: whole seconds left, then whole hours,
      the minutes within the hour and the seconds within the minute, all in `long`
      arithmetic.  The parts add back up to the whole seconds and take their sign. */
  function Split(ms: int): (t: Hms)
    ensures t.hours * 3600 + t.minutes * 60 + t.seconds == Quot(ms, 1000)
    ensures -60 < t.minutes < 60 && -60 < t.seconds < 60
    ensures 0 <= ms ==> 0 <= t.hours && 0 <= t.minutes && 0 <= t.seconds
    ensures ms <= 0 ==> t.hours <= 0 && t.minutes <= 0 && t.seconds <= 0
    ensures t.hours > 0 <==> ms >= 3600000
  {
    var s := Quot(ms, 1000);
    QuotRem(ms, 1000);
    QuotRem(s, 3600);
    QuotRem(Rem(s, 3600), 60);
    var h, m := Quot(s, 3600), Quot(Rem(s, 3600), 60);
    var r := Rem(Rem(s, 3600), 60);
    assert s == (h * 60 + m) * 60 + r;
    QuotRemUnique(s, 60, h * 60 + m, r);
    Hms(h, m, Rem(s, 60))
  }

  /** The split as `updateCountDownText` writes it: `(int)` narrows the whole
      seconds before the hours and the seconds are taken. */
  function SplitAsWritten(ms: int): (t: Hms)
    ensures -60 < t.minutes < 60 && -60 < t.seconds < 60
    ensures IsInt(Quot(ms, 1000)) ==> t == Split(ms)
  {
    var s := Quot(ms, 1000);
    QuotRem(s, 3600);
    Hms(Quot(Int(s), 3600), Quot(Int(Rem(s, 3600)), 60), Rem(Int(s), 60))
  }

  /** The format choice: `%d:%02d:%02d` with a positive hour count, else `%02d:%02d`. */
  function Render(t: Hms): string
  {
    if t.hours > 0 then Decimal(t.hours) + ":" + Pad2(t.minutes) + ":" + Pad2(t.seconds)
    else Pad2(t.minutes) + ":" + Pad2(t.seconds)
  }

  /** The countdown label for `ms` milliseconds left, with the split intended:
      `MM:SS` below one hour and the longer `H:MM:SS` from one hour up. */
  function Text(ms: int): (r: string)
    ensures 0 <= ms ==> (|r| == 5 <==> ms < 3600000)
  {
    if 0 <= ms then
      ParseRender(Split(ms));
      Render(Split(ms))
    else
      Render(Split(ms))
  }

  /** The countdown label exactly as `updateCountDownText` computes it.  It is the
      intended label while the whole seconds fit in an `int`. */
  function TextAsWritten(ms: int): (r: string)
    ensures IsInt(Quot(ms, 1000)) ==> r == Text(ms)
  {
    Render(SplitAsWritten(ms))
  }

  /** 35791395 minutes (the first whole-minute duration whose seconds overflow an
      `int`) is shown as "15:-16" instead of "596523:15:00". */
  lemma TextAsWrittenOverflows()
    ensures TextAsWritten(35791395 * 60000) == "15:-16"
    ensures Text(35791395 * 60000) == "596523:15:00"
  {
    OverflowSplits();
    assert Digits(15) == "15" && Digits(16) == "16" && Digits(0) == "0";
    assert Digits(596523) == "596523" by {
      assert Digits(5) == "5";
      assert Digits(59) == "59";
      assert Digits(596) == "596";
      assert Digits(5965) == "5965";
      assert Digits(59652) == "59652";
    }
  }

  /** The two splits of 35791395 minutes: the narrowed one and the intended one. */
  lemma OverflowSplits()
    ensures SplitAsWritten(35791395 * 60000) == Hms(-596523, 15, -16)
    ensures Split(35791395 * 60000) == Hms(596523, 15, 0)
  {
    var ms := 35791395 * 60000;
    assert Quot(ms, 1000) == 2147483700;
    assert Int(2147483700) == -2147483596;
    assert Rem(2147483700, 3600) == 900;
    QuotRemUnique(2147483700, 3600, 596523, 900);
    QuotRemUnique(900, 60, 15, 0);
    QuotRemUnique(2147483700, 60, 35791395, 0);
  }

  // ---------------------------------------------------------------------------
  // Reading a label back

  /** Reads `H:MM:SS` or `MM:SS` (digits only) back as a number of whole seconds. */
  function ParseText(t: string): Option<int>
  {
    if |t| == 5 then ParseMinSec(t)
    else if |t| < 7 || t[|t| - 6] != ':' || !AllDigits(t[..|t| - 6]) then None
    else match ParseMinSec(t[|t| - 5..])
      case None => None
      case Some(v) => Some(ValueOf(t[..|t| - 6]) * 3600 + v)
  }

  /** Reads `MM:SS` back as a number of seconds. */
  function ParseMinSec(u: string): Option<int>
  {
    if |u| == 5 && u[2] == ':' && IsDigit(u[0]) && IsDigit(u[1]) && IsDigit(u[3]) && IsDigit(u[4])
    then Some((DigitValue(u[0]) * 10 + DigitValue(u[1])) * 60 + DigitValue(u[3]) * 10 + DigitValue(u[4]))
    else None
  }

  /** A rendered split of a non-negative time reads back as its whole seconds. */
  lemma ParseRender(t: Hms)
    requires 0 <= t.hours && 0 <= t.minutes < 60 && 0 <= t.seconds < 60
    ensures t.hours == 0 ==> |Render(t)| == 5
    ensures t.hours > 0 ==> |Render(t)| >= 7
    ensures ParseText(Render(t)) == Some(t.hours * 3600 + t.minutes * 60 + t.seconds)
  {
    Pad2Field(t.minutes);
    Pad2Field(t.seconds);
    var mm, ss := Pad2(t.minutes), Pad2(t.seconds);
    ParseShort(mm, ss);
    if t.hours > 0 {
      ValueOfDigits(t.hours);
      ParseLong(Digits(t.hours), mm, ss);
    } else {
      assert Render(t) == mm + ":" + ss;
    }
  }

  /** `MM:SS` read back. */
  lemma ParseShort(mm: string, ss: string)
    requires TwoDigits(mm) && TwoDigits(ss)
    ensures ParseMinSec(mm + ":" + ss) == Some(TwoValue(mm) * 60 + TwoValue(ss))
  {
    var u := mm + ":" + ss;
    assert u[0] == mm[0] && u[1] == mm[1] && u[2] == ':' && u[3] == ss[0] && u[4] == ss[1];
  }

  /** `H:MM:SS` read back. */
  lemma ParseLong(hh: string, mm: string, ss: string)
    requires AllDigits(hh) && hh != [] && TwoDigits(mm) && TwoDigits(ss)
    ensures ParseText(hh + ":" + mm + ":" + ss) == Some(ValueOf(hh) * 3600 + TwoValue(mm) * 60 + TwoValue(ss))
  {
    var rest := mm + ":" + ss;
    var txt := hh + ":" + rest;
    assert txt == hh + ":" + mm + ":" + ss;
    var n := |txt|;
    assert txt[..n - 6] == hh && txt[n - 6] == ':' && txt[n - 5..] == rest;
    ParseShort(mm, ss);
  }

  /** The label read back gives the whole seconds left. */
  lemma ParseText_Text(ms: int)
    requires 0 <= ms
    ensures ParseText(Text(ms)) == Some(ms / 1000)
  {
    ParseRender(Split(ms));
  }
}
