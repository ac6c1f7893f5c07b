/** The Option type used for JavaScript's `null` / `undefined`. */
module Wrappers {
  datatype Option<+T> = None | Some(value: T)
}

/**
 * The JavaScript string built-ins the core relies on, on strings of characters:
 * `Number.prototype.toString` for non-negative integers, `String.prototype.padStart`,
 * `String.prototype.split` with a one-character separator and `String.prototype.trim`.
 */
module Text {

  predicate IsDigit(c: char) { '0' <= c <= '9' }

  /** The first `k` characters are decimal digits. */
  predicate DigitsUpTo(s: string, k: nat)
    requires k <= |s|
  {
    k == 0 || (DigitsUpTo(s, k - 1) && IsDigit(s[k - 1]))
  }

  predicate AllDigits(s: string)
  {
    DigitsUpTo(s, |s|)
  }

  lemma {:induction false} DigitsUpToIndex(s: string, k: nat)
    requires k <= |s| && DigitsUpTo(s, k)
    ensures forall i :: 0 <= i < k ==> IsDigit(s[i])
  {
    if k > 0 {
      DigitsUpToIndex(s, k - 1);
    }
  }

  lemma AllDigitsIndex(s: string)
    requires AllDigits(s)
    ensures forall i :: 0 <= i < |s| ==> IsDigit(s[i])
  {
    DigitsUpToIndex(s, |s|);
  }

  function DigitChar(d: nat): (c: char)
    requires d < 10
    ensures IsDigit(c) && (c as int) - ('0' as int) == d
  {
    ('0' as int + d) as char
  }

  function DigitValue(c: char): nat
    requires IsDigit(c)
  {
    (c as int) - ('0' as int)
  }

  /** The decimal numeral that `n.toString()` prints for a non-negative integer `n`. */
  function Decimal(n: nat): (s: string)
    ensures |s| >= 1 && AllDigits(s)
    ensures (|s| == 1) == (n < 10)
    ensures s[0] == '0' ==> n == 0
    decreases n
  {
    if n < 10 then [DigitChar(n)]
    else
      var p := Decimal(n / 10);
      var d := DigitChar(n % 10);
      SamePrefix(p, p + [d], |p|);
      p + [d]
  }

  /** The number the first `k` digits denote. */
  function ValueUpTo(s: string, k: nat): nat
    requires k <= |s| && DigitsUpTo(s, k)
  {
    if k == 0 then 0 else ValueUpTo(s, k - 1) * 10 + DigitValue(s[k - 1])
  }

  /** Reads a string of decimal digits back as a number (the empty string reads as 0). */
  function ParseDecimal(s: string): nat
    requires AllDigits(s)
  {
    ValueUpTo(s, |s|)
  }

  /** Digits and value up to `k` depend only on the first `k` characters. */
  lemma {:induction false} SamePrefix(s: string, t: string, k: nat)
    requires k <= |s| && k <= |t| && s[..k] == t[..k]
    ensures DigitsUpTo(s, k) == DigitsUpTo(t, k)
    ensures DigitsUpTo(s, k) ==> ValueUpTo(s, k) == ValueUpTo(t, k)
  {
    if k > 0 {
      assert s[k - 1] == s[..k][k - 1] == t[..k][k - 1] == t[k - 1];
      assert s[..k - 1] == s[..k][..k - 1] == t[..k][..k - 1] == t[..k - 1];
      SamePrefix(s, t, k - 1);
    }
  }

  lemma {:induction false} ParseDecimalOfDecimal(n: nat)
    ensures ParseDecimal(Decimal(n)) == n
    decreases n
  {
    if n >= 10 {
      var p := Decimal(n / 10);
      var d := DigitChar(n % 10);
      assert Decimal(n) == p + [d];
      ParseDecimalOfDecimal(n / 10);
      SamePrefix(p, p + [d], |p|);
      assert ValueUpTo(p + [d], |p| + 1) == ValueUpTo(p, |p|) * 10 + n % 10;
      assert ParseDecimal(p + [d]) == ValueUpTo(p + [d], |p| + 1);
    } else {
      assert ValueUpTo(Decimal(n), 1) == ValueUpTo(Decimal(n), 0) * 10 + n;
    }
  }

  /** A numeral has at least three digits exactly when the number is at least 100. */
  lemma {:induction false} DecimalWidth(n: nat)
    ensures |Decimal(n)| >= 3 <==> n >= 100
    ensures n < 100 ==> |Decimal(n)| <= 2
  {
    if n >= 10 {
      DecimalWidth(n / 10);
    }
  }

  /** `s.padStart(width, fill)` for a one-character fill: prepends fill until the width is reached. */
  function PadStart(s: string, width: nat, fill: char): (r: string)
    ensures |r| == if |s| >= width then |s| else width
    ensures r[|r| - |s|..] == s
    ensures forall i :: 0 <= i < |r| - |s| ==> r[i] == fill
    decreases width
  {
    if |s| >= width then s
    else
      var r' := PadStart(s, width - 1, fill);
      assert ([fill] + r')[|r'| + 1 - |s|..] == r'[|r'| - |s|..];
      [fill] + r'
  }

  /** A leading zero shifts the digits by one place and adds nothing to the value. */
  lemma {:induction false} LeadingZeroUpTo(s: string, k: nat)
    requires k <= |s|
    ensures DigitsUpTo("0" + s, k + 1) == DigitsUpTo(s, k)
    ensures DigitsUpTo(s, k) ==> ValueUpTo("0" + s, k + 1) == ValueUpTo(s, k)
  {
    if k > 0 {
      assert ("0" + s)[k] == s[k - 1];
      LeadingZeroUpTo(s, k - 1);
    }
  }

  lemma ParseDecimalLeadingZero(s: string)
    requires AllDigits(s)
    ensures AllDigits("0" + s) && ParseDecimal("0" + s) == ParseDecimal(s)
  {
    LeadingZeroUpTo(s, |s|);
  }

  /** Zero padding does not change the number a numeral denotes. */
  lemma {:induction false} ParseDecimalZeroPadded(s: string, width: nat)
    requires AllDigits(s)
    ensures AllDigits(PadStart(s, width, '0'))
    ensures ParseDecimal(PadStart(s, width, '0')) == ParseDecimal(s)
    decreases width
  {
    if |s| < width {
      ParseDecimalZeroPadded(s, width - 1);
      ZeroPadStep(s, width);
    }
  }

  /** One more leading zero keeps a padded numeral all digits and its value unchanged. */
  lemma ZeroPadStep(s: string, width: nat)
    requires |s| < width
    requires AllDigits(PadStart(s, width - 1, '0'))
    ensures PadStart(s, width, '0') == "0" + PadStart(s, width - 1, '0')
    ensures AllDigits(PadStart(s, width, '0'))
    ensures ParseDecimal(PadStart(s, width, '0')) == ParseDecimal(PadStart(s, width - 1, '0'))
  {
    var shorter := PadStart(s, width - 1, '0');
    assert PadStart(s, width, '0') == "0" + shorter;
    ParseDecimalLeadingZero(shorter);
  }

  /** `s.split(sep)` for a one-character separator: one more part than there are separators. */
  function Split(s: string, sep: char): (parts: seq<string>)
    ensures |parts| >= 1
    ensures forall i :: 0 <= i < |parts| ==> sep !in parts[i]
    decreases |s|
  {
    if |s| == 0 then [""]
    else
      var rest := Split(s[1..], sep);
      if s[0] == sep then [""] + rest else [[s[0]] + rest[0]] + rest[1..]
  }

  /** `parts.join(sep)`, the inverse of Split. */
  function Join(parts: seq<string>, sep: char): string
    requires |parts| >= 1
  {
    if |parts| == 1 then parts[0] else parts[0] + [sep] + Join(parts[1..], sep)
  }

  lemma {:induction false} JoinSplit(s: string, sep: char)
    ensures Join(Split(s, sep), sep) == s
    decreases |s|
  {
    if |s| > 0 {
      JoinSplit(s[1..], sep);
      var rest := Split(s[1..], sep);
      if s[0] != sep && |rest| > 1 {
        assert Join(rest, sep) == rest[0] + [sep] + Join(rest[1..], sep);
      }
    }
  }

  lemma {:induction false} SplitPrefix(a: string, rest: string, sep: char)
    requires sep !in a
    ensures Split(a, sep) == [a]
    ensures Split(a + [sep] + rest, sep) == [a] + Split(rest, sep)
    decreases |a|
  {
    if |a| > 0 {
      SplitPrefix(a[1..], rest, sep);
      assert (a + [sep] + rest)[1..] == a[1..] + [sep] + rest;
      assert [a[0]] + a[1..] == a;
    } else {
      assert ([sep] + rest)[1..] == rest;
    }
  }

  /** `s.indexOf(c, from)`, or `|s|` when `c` does not occur from `from` on. */
  function FirstIndex(s: string, c: char, from: nat): (k: nat)
    requires from <= |s|
    ensures from <= k <= |s|
    ensures k < |s| ==> s[k] == c
    decreases |s| - from
  {
    if from == |s| then |s| else if s[from] == c then from else FirstIndex(s, c, from + 1)
  }

  /** The first `c` from `from` on is at `k` when none comes before it. */
  lemma {:induction false} FirstIndexAt(s: string, c: char, from: nat, k: nat)
    requires from <= k < |s| && s[k] == c
    requires forall i :: from <= i < k ==> s[i] != c
    ensures FirstIndex(s, c, from) == k
    decreases k - from
  {
    if from < k {
      FirstIndexAt(s, c, from + 1, k);
    }
  }

  /** Splitting a join of separator-free parts gives the parts back. */
  lemma {:induction false} SplitJoin(parts: seq<string>, sep: char)
    requires |parts| >= 1
    requires forall i :: 0 <= i < |parts| ==> sep !in parts[i]
    ensures Split(Join(parts, sep), sep) == parts
    decreases |parts|
  {
    if |parts| == 1 {
      SplitPrefix(parts[0], "", sep);
    } else {
      SplitJoin(parts[1..], sep);
      SplitPrefix(parts[0], Join(parts[1..], sep), sep);
      assert [parts[0]] + parts[1..] == parts;
    }
  }

  /** The characters `String.prototype.trim` removes: WhiteSpace and LineTerminator of ECMAScript. */
  predicate IsJsWhitespace(c: char)
  {
    c == '\t' || c == '\n' || c == '\U{000B}' || c == '\U{000C}' || c == '\r' || c == ' ' ||
    c == '\U{00A0}' || c == '\U{1680}' || ('\U{2000}' <= c <= '\U{200A}') ||
    c == '\U{2028}' || c == '\U{2029}' || c == '\U{202F}' || c == '\U{205F}' ||
    c == '\U{3000}' || c == '\U{FEFF}'
  }

  /** The end of the whitespace run starting at `i`. */
  function WhitespaceRunEnd(s: string, i: nat): (j: nat)
    requires i <= |s|
    ensures i <= j <= |s|
    ensures forall k :: i <= k < j ==> IsJsWhitespace(s[k])
    ensures j < |s| ==> !IsJsWhitespace(s[j])
    decreases |s| - i
  {
    if i < |s| && IsJsWhitespace(s[i]) then WhitespaceRunEnd(s, i + 1) else i
  }

  /** The start of the whitespace run ending just before `j`. */
  function WhitespaceRunStart(s: string, j: nat): (i: nat)
    requires j <= |s|
    ensures i <= j
    ensures forall k :: i <= k < j ==> IsJsWhitespace(s[k])
    ensures i > 0 ==> !IsJsWhitespace(s[i - 1])
  {
    if j > 0 && IsJsWhitespace(s[j - 1]) then WhitespaceRunStart(s, j - 1) else j
  }

  /** Drops the leading whitespace: the longest suffix that does not start with whitespace. */
  function TrimStart(s: string): (r: string)
    ensures |r| <= |s| && r == s[|s| - |r|..]
    ensures forall i :: 0 <= i < |s| - |r| ==> IsJsWhitespace(s[i])
    ensures |r| > 0 ==> !IsJsWhitespace(r[0])
  {
    s[WhitespaceRunEnd(s, 0)..]
  }

  /** Drops the trailing whitespace: the longest prefix that does not end with whitespace. */
  function TrimEnd(s: string): (r: string)
    ensures |r| <= |s| && r == s[..|r|]
    ensures forall i :: |r| <= i < |s| ==> IsJsWhitespace(s[i])
    ensures |r| > 0 ==> !IsJsWhitespace(r[|r| - 1])
  {
    s[..WhitespaceRunStart(s, |s|)]
  }

  /** `s.trim()`. */
  function Trim(s: string): string
  {
    TrimEnd(TrimStart(s))
  }

  /** A text that neither starts nor ends with whitespace is its own trim. */
  lemma TrimOfUntrimmable(s: string)
    requires |s| > 0 && !IsJsWhitespace(s[0]) && !IsJsWhitespace(s[|s| - 1])
    ensures Trim(s) == s
  {
    assert WhitespaceRunEnd(s, 0) == 0;
    assert TrimStart(s) == s;
    assert WhitespaceRunStart(s, |s|) == |s|;
  }

  /** Trim leaves no whitespace at either end. */
  lemma TrimEndsNotWhitespace(s: string)
    ensures var r := Trim(s);
      |r| > 0 ==> !IsJsWhitespace(r[0]) && !IsJsWhitespace(r[|r| - 1])
  {
    var t := TrimStart(s);
    var r := TrimEnd(t);
    if |r| > 0 {
      assert r[0] == t[0];
    }
  }

  /** Trim removes only surrounding whitespace: it keeps a slice of `s` holding every other character. */
  lemma TrimKeepsContent(s: string)
    ensures var r := Trim(s);
      && (forall i :: 0 <= i < |r| ==> r[i] == s[|s| - |TrimStart(s)| + i])
      && (forall c :: c in s && !IsJsWhitespace(c) ==> c in r)
  {
    KeptSlice(s, TrimStart(s), Trim(s));
  }

  /**
   * A slice `r` of `s` kept between two runs of whitespace holds, in place, every character of
   * `s` that is not whitespace.
   */
  lemma KeptSlice(s: string, t: string, r: string)
    requires |t| <= |s| && t == s[|s| - |t|..]
    requires forall i :: 0 <= i < |s| - |t| ==> IsJsWhitespace(s[i])
    requires |r| <= |t| && r == t[..|r|]
    requires forall i :: |r| <= i < |t| ==> IsJsWhitespace(t[i])
    ensures forall i :: 0 <= i < |r| ==> r[i] == s[|s| - |t| + i]
    ensures forall c :: c in s && !IsJsWhitespace(c) ==> c in r
  {
    var k := |s| - |t|;
    forall i | 0 <= i < |r| ensures r[i] == s[k + i] {
      assert r[i] == t[i];
    }
    forall c | c in s && !IsJsWhitespace(c) ensures c in r {
      var i :| 0 <= i < |s| && s[i] == c;
      assert k <= i;
      assert t[i - k] == c;
      assert i - k < |r|;
      assert r[i - k] == c;
    }
  }
}
