/**
 * java.time.LocalTime as a nano-of-day count: field access, comparison, the
 * ISO-8601 text written by toString and read by LocalTime.parse.
 */
module Times {
  import opened Wrappers
  import opened Text

  const NANOS_PER_SECOND := 1_000_000_000
  const NANOS_PER_MINUTE := 60 * NANOS_PER_SECOND
  const NANOS_PER_HOUR := 60 * NANOS_PER_MINUTE
  const NANOS_PER_DAY := 24 * NANOS_PER_HOUR

  /** A time of day, counted in nanoseconds from midnight. */
  type LocalTime = t: int | 0 <= t < NANOS_PER_DAY

  /** LocalTime.MIDNIGHT, LocalTime.NOON and LocalTime.MAX (23:59:59.999999999). */
  const MIDNIGHT: LocalTime := 0
  const NOON: LocalTime := 12 * NANOS_PER_HOUR
  const MAX_TIME: LocalTime := NANOS_PER_DAY - 1

  function Hour(t: LocalTime): (h: nat)
    ensures h < 24
  {
    t / NANOS_PER_HOUR
  }

  function Minute(t: LocalTime): (m: nat)
    ensures m < 60
  {
    (t / NANOS_PER_MINUTE) % 60
  }

  function Second(t: LocalTime): (s: nat)
    ensures s < 60
  {
    (t / NANOS_PER_SECOND) % 60
  }

  function Nano(t: LocalTime): (n: nat)
    ensures n < NANOS_PER_SECOND
  {
    t % NANOS_PER_SECOND
  }

  /** LocalTime.of(hour, minute, second, nano). */
  function OfParts(h: nat, m: nat, s: nat, n: nat): LocalTime
    requires h < 24 && m < 60 && s < 60 && n < NANOS_PER_SECOND
  {
    ((h * 60 + m) * 60 + s) * NANOS_PER_SECOND + n
  }

  /** A time is made of its fields. */
  lemma FieldsOfTime(t: LocalTime)
    ensures OfParts(Hour(t), Minute(t), Second(t), Nano(t)) == t
  {
    var secs := t / NANOS_PER_SECOND;
    var mins := secs / 60;
    assert t == secs * NANOS_PER_SECOND + Nano(t);
    assert secs == mins * 60 + Second(t);
    assert t / NANOS_PER_MINUTE == mins;
    assert mins == Hour(t) * 60 + Minute(t);
  }

  /** The fields of LocalTime.of(h, m, s, n) are h, m, s and n. */
  lemma TimeOfFields(h: nat, m: nat, s: nat, n: nat)
    requires h < 24 && m < 60 && s < 60 && n < NANOS_PER_SECOND
    ensures var t := OfParts(h, m, s, n);
      Hour(t) == h && Minute(t) == m && Second(t) == s && Nano(t) == n
  {
    var t := OfParts(h, m, s, n);
    var secs := (h * 60 + m) * 60 + s;
    assert t == secs * NANOS_PER_SECOND + n;
    assert t / NANOS_PER_SECOND == secs;
    assert t / NANOS_PER_MINUTE == h * 60 + m;
  }

  /** LocalTime.isAfter. */
  predicate TimeIsAfter(a: LocalTime, b: LocalTime) {
    a > b
  }

  /** The fraction LocalTime.toString writes: 3, 6 or 9 digits, as few as exact. */
  function FractionText(n: nat): string
    requires n < NANOS_PER_SECOND
  {
    if n % 1_000_000 == 0 then PadDigits(n / 1_000_000, 3)
    else if n % 1_000 == 0 then PadDigits(n / 1_000, 6)
    else PadDigits(n, 9)
  }

  /** LocalTime.toString: HH:mm, then :ss if not zero, then the fraction if not zero. */
  function TimeToString(t: LocalTime): string {
    PadDigits(Hour(t), 2) + ":" + PadDigits(Minute(t), 2)
      + (if Second(t) > 0 || Nano(t) > 0 then
           ":" + PadDigits(Second(t), 2) + (if Nano(t) > 0 then "." + FractionText(Nano(t)) else "")
         else "")
  }

  lemma {:induction false} Pow10Add(a: nat, b: nat)
    ensures Pow10(a) * Pow10(b) == Pow10(a + b)
  {
    if a > 0 {
      Pow10Add(a - 1, b);
    }
  }

  /** A fraction of k <= 9 digits, scaled to nanoseconds, is below one second. */
  lemma FractionBound(digits: string)
    requires |digits| <= 9 && AllDigits(digits)
    ensures DigitsValue(digits) * Pow10(9 - |digits|) < NANOS_PER_SECOND
  {
    DigitsValueBound(digits);
    Pow10Add(|digits|, 9 - |digits|);
    assert Pow10(9) == NANOS_PER_SECOND;
    ScaleBelow(DigitsValue(digits), Pow10(|digits|), Pow10(9 - |digits|));
  }

  lemma ScaleBelow(x: nat, p: nat, q: nat)
    requires x < p && 0 < q
    ensures x * q < p * q
  {
    assert p * q - x * q == (p - x) * q;
  }

  /** The optional ":ss[.fffffffff]" part: the seconds and the nano-of-second. */
  function ParseSeconds(r: string): (p: Option<(nat, nat)>)
    ensures p.Some? ==> p.value.1 < NANOS_PER_SECOND
  {
    if r == [] then Some((0, 0))
    else if |r| < 3 || r[0] != ':' || !AllDigits(r[1..3]) then None
    else
      var sec := DigitsValue(r[1..3]);
      var f := r[3..];
      if f == [] then Some((sec, 0))
      else if f[0] != '.' then None
      else
        var digits := f[1..];
        if |digits| > 9 || !AllDigits(digits) then None
        else
          FractionBound(digits);
          Some((sec, DigitsValue(digits) * Pow10(9 - |digits|)))
  }

  /**
   * LocalTime.parse with ISO_LOCAL_TIME (strict): HH:mm[:ss[.f]] with two
   * digits per field and 0 to 9 fraction digits; the hour must be at most 23
   * and minute and second at most 59. None where the library throws.
   */
  function ParseTime(s: string): (r: Option<LocalTime>)
    ensures r.Some? ==>
              |s| >= 5 && AllDigits(s[0..2]) && AllDigits(s[3..5])
              && Hour(r.value) == DigitsValue(s[0..2]) && Minute(r.value) == DigitsValue(s[3..5])
  {
    if |s| < 5 || !AllDigits(s[0..2]) || s[2] != ':' || !AllDigits(s[3..5]) then None
    else
      var h := DigitsValue(s[0..2]);
      var m := DigitsValue(s[3..5]);
      match ParseSeconds(s[5..])
      case None => None
      case Some((sec, nano)) =>
        if h > 23 || m > 59 || sec > 59 then None
        else
          TimeOfFields(h, m, sec, nano);
          Some(OfParts(h, m, sec, nano))
  }

  /** LocalTime.NOON.toString() is "12:00". */
  lemma NoonText()
    ensures TimeToString(NOON) == "12:00"
  {
    TimeOfFields(12, 0, 0, 0);
    assert PadDigits(12, 2) == "12";
    assert PadDigits(0, 2) == "00";
  }

  /** The fraction digits read back, scaled to nine places, give the nano-of-second. */
  lemma FractionRoundTrip(n: nat)
    requires 0 < n < NANOS_PER_SECOND
    ensures var f := FractionText(n);
      1 <= |f| <= 9 && AllDigits(f) && DigitsValue(f) * Pow10(9 - |f|) == n
  {
    if n % 1_000_000 == 0 {
      MillisFraction(n);
    } else if n % 1_000 == 0 {
      MicrosFraction(n);
    } else {
      assert DigitsValue(FractionText(n)) == n;
    }
  }

  /** Whole milliseconds: three digits. */
  lemma MillisFraction(n: nat)
    requires n < NANOS_PER_SECOND && n % 1_000_000 == 0
    ensures var f := FractionText(n);
      |f| == 3 && AllDigits(f) && DigitsValue(f) * Pow10(6) == n
  {
    var q := n / 1_000_000;
    assert FractionText(n) == PadDigits(q, 3);
    assert n == q * 1_000_000;
    assert Pow10(6) == 1_000_000;
  }

  /** Whole microseconds, not whole milliseconds: six digits. */
  lemma MicrosFraction(n: nat)
    requires n < NANOS_PER_SECOND && n % 1_000_000 != 0 && n % 1_000 == 0
    ensures var f := FractionText(n);
      |f| == 6 && AllDigits(f) && DigitsValue(f) * Pow10(3) == n
  {
    var q := n / 1_000;
    assert FractionText(n) == PadDigits(q, 6);
    assert n == q * 1_000;
    assert Pow10(3) == 1_000;
  }

  lemma ParseSecondsText(t: LocalTime)
    ensures var r := if Second(t) > 0 || Nano(t) > 0 then
           ":" + PadDigits(Second(t), 2) + (if Nano(t) > 0 then "." + FractionText(Nano(t)) else "")
         else "";
      ParseSeconds(r) == Some((Second(t), Nano(t)))
  {
    if Second(t) > 0 || Nano(t) > 0 {
      var ss := PadDigits(Second(t), 2);
      var f := if Nano(t) > 0 then "." + FractionText(Nano(t)) else "";
      var r := ":" + ss + f;
      assert r[1..3] == ss;
      assert r[3..] == f;
      if Nano(t) > 0 {
        FractionRoundTrip(Nano(t));
        assert f[1..] == FractionText(Nano(t));
      }
    }
  }

  /** toString then parse gives the time back, for every time of day. */
  lemma ParseTimeText(t: LocalTime)
    ensures ParseTime(TimeToString(t)) == Some(t)
  {
    var hh, mm := PadDigits(Hour(t), 2), PadDigits(Minute(t), 2);
    var r := if Second(t) > 0 || Nano(t) > 0 then
           ":" + PadDigits(Second(t), 2) + (if Nano(t) > 0 then "." + FractionText(Nano(t)) else "")
         else "";
    var s := TimeToString(t);
    assert s == hh + ":" + mm + r;
    assert s[0..2] == hh && s[2] == ':' && s[3..5] == mm && s[5..] == r;
    ParseSecondsText(t);
    FieldsOfTime(t);
  }
}
