/**
 * The countdown formatters of src/lib/format.ts. Both take a (possibly negative, possibly
 * fractional) millisecond amount, clamp it at zero after flooring to whole units, and
 * print the quotient/remainder decomposition.
 */
module Format {
  import opened Wrappers
  import opened Text

  /** `Math.max(0, Math.floor(ms / 1000))`. */
  function TotalSeconds(ms: real): (n: nat)
    ensures ms < 1000.0 ==> n == 0
    ensures ms >= 0.0 ==> (n as real) * 1000.0 <= ms < (n as real + 1.0) * 1000.0
  {
    var f := (ms / 1000.0).Floor;
    if f < 0 then 0 else f
  }

  /** `Math.max(0, Math.floor(ms / 3600000))`. */
  function TotalHours(ms: real): (n: nat)
    ensures ms < 3600000.0 ==> n == 0
    ensures ms >= 0.0 ==> (n as real) * 3600000.0 <= ms < (n as real + 1.0) * 3600000.0
  {
    var f := (ms / 3600000.0).Floor;
    if f < 0 then 0 else f
  }

  /** `Math.floor(n / d)` and `n % d` for a non-negative n: the unique quotient and remainder. */
  function QuotRem(n: nat, d: nat): (qr: (nat, nat))
    requires d > 0
    ensures qr.0 * d + qr.1 == n && qr.1 < d
    decreases n
  {
    if n < d then (0, n) else var p := QuotRem(n - d, d); (p.0 + 1, p.1)
  }

  /** Hours, minutes and seconds of a second count; hours are neither wrapped nor capped. */
  function SplitSeconds(total: nat): (hms: (nat, nat, nat))
    ensures hms.0 * 3600 + hms.1 * 60 + hms.2 == total
    ensures hms.1 < 60 && hms.2 < 60
  {
    var h := QuotRem(total, 3600);
    var ms := QuotRem(h.1, 60);
    (h.0, ms.0, ms.1)
  }

  /** Days and hours of an hour count. */
  function SplitHours(total: nat): (dh: (nat, nat))
    ensures dh.0 * 24 + dh.1 == total && dh.1 < 24
  {
    QuotRem(total, 24)
  }

  /** `n.toString().padStart(2, "0")`. */
  function Pad2(n: nat): string
  {
    PadStart(Decimal(n), 2, '0')
  }

  /** The "hh:mm:ss" text of a whole second count. */
  function HMSText(total: nat): string
  {
    var hms := SplitSeconds(total);
    Pad2(hms.0) + ":" + Pad2(hms.1) + ":" + Pad2(hms.2)
  }

  /** `formatHMS(ms)`: "hh:mm:ss". */
  function FormatHMS(ms: real): string
  {
    HMSText(TotalSeconds(ms))
  }

  /** The "<d> days <h> hours" text of a whole hour count. */
  function DaysHoursText(total: nat): string
  {
    var dh := SplitHours(total);
    Decimal(dh.0) + " days " + Decimal(dh.1) + " hours"
  }

  /** `formatDaysHours(ms)`: "<d> days <h> hours", without padding. */
  function FormatDaysHours(ms: real): string
  {
    DaysHoursText(TotalHours(ms))
  }

  /** Reads "hh:mm:ss" (hours at least two digits, minutes and seconds exactly two) as seconds. */
  function ParseHMS(text: string): Option<nat>
  {
    var n := |text|;
    if n >= 8 && text[n - 6] == ':' && text[n - 3] == ':'
       && AllDigits(text[..n - 6]) && AllDigits(text[n - 5..n - 3]) && AllDigits(text[n - 2..])
    then Some(ParseDecimal(text[..n - 6]) * 3600 + ParseDecimal(text[n - 5..n - 3]) * 60 + ParseDecimal(text[n - 2..]))
    else None
  }

  /** Reads "<d> days <h> hours" (h below 24) as hours: the days end at the first space. */
  function ParseDaysHours(text: string): Option<nat>
  {
    var k := FirstIndex(text, ' ', 0);
    var n := |text|;
    if k + 6 <= n - 6 && text[k..k + 6] == " days " && text[n - 6..] == " hours"
       && k >= 1 && n - 6 - (k + 6) >= 1
       && AllDigits(text[..k]) && AllDigits(text[k + 6..n - 6])
       && ParseDecimal(text[k + 6..n - 6]) < 24
    then Some(ParseDecimal(text[..k]) * 24 + ParseDecimal(text[k + 6..n - 6]))
    else None
  }

  lemma Pad2Digits(n: nat)
    ensures AllDigits(Pad2(n))
    ensures |Pad2(n)| == (if n < 100 then 2 else |Decimal(n)|) && |Pad2(n)| >= 2
    ensures ParseDecimal(Pad2(n)) == n
  {
    ParseDecimalZeroPadded(Decimal(n), 2);
    ParseDecimalOfDecimal(n);
    DecimalWidth(n);
  }

  /** Where the three fields of "a:b:c" sit, for two-character b and c. */
  lemma HMSTextSlices(a: string, b: string, c: string)
    requires |b| == 2 && |c| == 2
    ensures var t := a + ":" + b + ":" + c;
      && |t| == |a| + 6 && t[|t| - 6] == ':' && t[|t| - 3] == ':'
      && t[..|t| - 6] == a && t[|t| - 5..|t| - 3] == b && t[|t| - 2..] == c
  {
    var t := a + ":" + b + ":" + c;
    var n := |t|;
    assert t[n - 6] == ':' && t[n - 3] == ':';
    assert t[..n - 6] == a && t[n - 5..n - 3] == b && t[n - 2..] == c;
  }

  /** A text whose slices are three fields of digits reads back as hours, minutes and seconds. */
  lemma ParseHMSOfSlices(t: string, a: string, b: string, c: string)
    requires |t| >= 8 && t[|t| - 6] == ':' && t[|t| - 3] == ':'
    requires t[..|t| - 6] == a && t[|t| - 5..|t| - 3] == b && t[|t| - 2..] == c
    requires AllDigits(a) && AllDigits(b) && AllDigits(c)
    ensures ParseHMS(t) == Some(ParseDecimal(a) * 3600 + ParseDecimal(b) * 60 + ParseDecimal(c))
  {
  }

  /** Three fields of digits, the last two two wide, read back as hours, minutes and seconds. */
  lemma ParseHMSOfParts(a: string, b: string, c: string)
    requires AllDigits(a) && AllDigits(b) && AllDigits(c)
    requires |a| >= 2 && |b| == 2 && |c| == 2
    ensures ParseHMS(a + ":" + b + ":" + c) == Some(ParseDecimal(a) * 3600 + ParseDecimal(b) * 60 + ParseDecimal(c))
  {
    HMSTextSlices(a, b, c);
    ParseHMSOfSlices(a + ":" + b + ":" + c, a, b, c);
  }

  /** The same, for a text known to be those three fields and a count they denote. */
  lemma ParseHMSOfValues(t: string, a: string, b: string, c: string, total: nat)
    requires AllDigits(a) && AllDigits(b) && AllDigits(c)
    requires |a| >= 2 && |b| == 2 && |c| == 2
    requires t == a + ":" + b + ":" + c
    requires ParseDecimal(a) * 3600 + ParseDecimal(b) * 60 + ParseDecimal(c) == total
    ensures ParseHMS(t) == Some(total)
  {
    ParseHMSOfParts(a, b, c);
  }

  /** The printed text denotes exactly the clamped second count: parsing it back gives TotalSeconds. */
  lemma {:induction false} FormatHMSRoundTrip(ms: real)
    ensures ParseHMS(FormatHMS(ms)) == Some(TotalSeconds(ms))
  {
    HMSTextRoundTrip(TotalSeconds(ms));
  }

  /** The "hh:mm:ss" text of a second count reads back as that count. */
  lemma HMSTextRoundTrip(total: nat)
    ensures ParseHMS(HMSText(total)) == Some(total)
  {
    var hms := SplitSeconds(total);
    Pad2Digits(hms.0);
    Pad2Digits(hms.1);
    Pad2Digits(hms.2);
    ParseHMSOfValues(HMSText(total), Pad2(hms.0), Pad2(hms.1), Pad2(hms.2), total);
  }

  /** Two amounts print the same "hh:mm:ss" exactly when they have the same whole-second count. */
  lemma FormatHMSInjective(a: real, b: real)
    ensures FormatHMS(a) == FormatHMS(b) <==> TotalSeconds(a) == TotalSeconds(b)
  {
    FormatHMSRoundTrip(a);
    FormatHMSRoundTrip(b);
  }

  /** Anything below one second, negative amounts included, prints as "00:00:00". */
  lemma FormatHMSBelowOneSecond(ms: real)
    requires ms < 1000.0
    ensures FormatHMS(ms) == "00:00:00"
  {
    assert Decimal(0) == "0";
    assert Pad2(0) == "00";
  }

  /** From 100 hours on, the hour field takes three or more digits: the text grows past 8 characters. */
  lemma FormatHMSWideHours(ms: real)
    ensures |FormatHMS(ms)| >= 9 <==> TotalSeconds(ms) >= 360000
  {
    var n := TotalSeconds(ms);
    var hms := SplitSeconds(n);
    Pad2Digits(hms.0);
    Pad2Digits(hms.1);
    Pad2Digits(hms.2);
    DecimalWidth(hms.0);
    assert |HMSText(n)| == |Pad2(hms.0)| + 6;
    HoursFrom(n);
  }

  /** A second count has 100 or more whole hours exactly from 360000 seconds on. */
  lemma HoursFrom(n: nat)
    ensures SplitSeconds(n).0 >= 100 <==> n >= 360000
  {
    var hms := SplitSeconds(n);
    assert hms.0 * 3600 <= n < hms.0 * 3600 + 3600;
    if hms.0 >= 100 {
      assert hms.0 * 3600 >= 100 * 3600;
    } else {
      assert hms.0 * 3600 <= 99 * 3600;
    }
  }

  /** Two fields of digits, the second below 24, read back as days and hours. */
  lemma ParseDaysHoursOfValues(t: string, a: string, b: string, total: nat)
    requires |a| >= 1 && |b| >= 1 && AllDigits(a) && AllDigits(b)
    requires t == a + " days " + b + " hours"
    requires ParseDecimal(b) < 24 && ParseDecimal(a) * 24 + ParseDecimal(b) == total
    ensures ParseDaysHours(t) == Some(total)
  {
    DaysHoursSlices(t, a, b);
  }

  /** Where the fields of "<a> days <b> hours" sit, for a field `a` of digits. */
  lemma DaysHoursSlices(t: string, a: string, b: string)
    requires AllDigits(a) && t == a + " days " + b + " hours"
    ensures var k := FirstIndex(t, ' ', 0);
      var n := |t|;
      && k == |a| && n == |a| + |b| + 12
      && t[k..k + 6] == " days " && t[n - 6..] == " hours"
      && t[..k] == a && t[k + 6..n - 6] == b
  {
    AllDigitsIndex(a);
    forall i | 0 <= i < |a| ensures t[i] != ' ' {
      assert t[i] == a[i];
    }
    FirstIndexAt(t, ' ', 0, |a|);
    var n := |t|;
    assert t[|a|..|a| + 6] == " days ";
    assert t[n - 6..] == " hours";
    assert t[..|a|] == a;
    assert t[|a| + 6..n - 6] == b;
  }

  /** The printed text denotes exactly the clamped hour count: parsing it back gives TotalHours. */
  lemma {:induction false} FormatDaysHoursRoundTrip(ms: real)
    ensures ParseDaysHours(FormatDaysHours(ms)) == Some(TotalHours(ms))
  {
    DaysHoursTextRoundTrip(TotalHours(ms));
  }

  /** The "<d> days <h> hours" text of an hour count reads back as that count. */
  lemma DaysHoursTextRoundTrip(total: nat)
    ensures ParseDaysHours(DaysHoursText(total)) == Some(total)
  {
    var dh := SplitHours(total);
    ParseDecimalOfDecimal(dh.0);
    ParseDecimalOfDecimal(dh.1);
    ParseDaysHoursOfValues(DaysHoursText(total), Decimal(dh.0), Decimal(dh.1), total);
  }

  /** Anything below one hour, negative amounts included, prints as "0 days 0 hours". */
  lemma FormatDaysHoursBelowOneHour(ms: real)
    requires ms < 3600000.0
    ensures FormatDaysHours(ms) == "0 days 0 hours"
  {
    assert Decimal(0) == "0";
  }

  /** A larger amount never yields a smaller second or hour count. */
  lemma {:induction false} TotalsMonotone(a: real, b: real)
    requires a <= b
    ensures TotalSeconds(a) <= TotalSeconds(b)
    ensures TotalHours(a) <= TotalHours(b)
  {
    assert a / 1000.0 <= b / 1000.0;
    assert a / 3600000.0 <= b / 3600000.0;
  }
}
