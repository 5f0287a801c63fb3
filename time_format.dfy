/** The text and glyph the display is given: `"%02d:%02d"` of the remaining
    time into a 6-byte buffer, `"+%d min"` of the interval into an 8-byte
    buffer, and the circled-digit glyph of the selected preset. */
module TimeFormat {
  import opened Platform

  predicate IsDigit(c: char)
  {
    '0' <= c <= '9'
  }

  function DigitChar(d: int): (c: char)
    requires 0 <= d < 10
    ensures IsDigit(c)
  {
    ('0' as int + d) as char
  }

  function DigitValue(c: char): int
  {
    c as int - '0' as int
  }

  /** The decimal digits of `n`, most significant first, without leading
      zeros: `"%d"` of a non-negative number. */
  function Digits(n: nat): (s: string)
    ensures 1 <= |s|
    ensures forall k :: 0 <= k < |s| ==> IsDigit(s[k])
    ensures |s| == 1 <==> n < 10
    // no leading zero: the first digit is '0' only for zero itself
    ensures s[0] == '0' <==> n == 0
    decreases n
  {
    if n < 10 then [DigitChar(n)] else Digits(n / 10) + [DigitChar(n % 10)]
  }

  /** Reads a string of decimal digits back as a number. */
  function Value(s: string): int
    decreases |s|
  {
    if s == [] then 0 else Value(s[..|s| - 1]) * 10 + DigitValue(s[|s| - 1])
  }

  lemma {:induction false} DigitsRoundTrip(n: nat)
    ensures Value(Digits(n)) == n
    decreases n
  {
    if n >= 10 {
      DigitsRoundTrip(n / 10);
      var s := Digits(n);
      assert s[..|s| - 1] == Digits(n / 10);
    }
  }

  /** `"%d"`. */
  function Decimal(n: int): (s: string)
    ensures 0 <= n ==> s == Digits(n) && Value(s) == n
    ensures n < 0 ==> |s| >= 2 && s[0] == '-' && Value(s[1..]) == -n
    ensures n < 0 ==> s[1] != '0' && forall k :: 1 <= k < |s| ==> IsDigit(s[k])
  {
    if n < 0 then
      DigitsRoundTrip(-n);
      assert ("-" + Digits(-n))[1..] == Digits(-n);
      "-" + Digits(-n)
    else
      DigitsRoundTrip(n);
      Digits(n)
  }

  /** `"%02d"`: at least two characters, a non-negative number padded with
      a leading zero. */
  function Padded2(n: int): (s: string)
    ensures 2 <= |s|
    ensures 0 <= n ==> (forall k :: 0 <= k < |s| ==> IsDigit(s[k])) && Value(s) == n
    ensures n < 0 ==> s[0] == '-' && Value(s[1..]) == -n
    ensures n < 0 ==> s[1] != '0' && forall k :: 1 <= k < |s| ==> IsDigit(s[k])
    // the padding zero appears exactly for 0..9
    ensures 0 <= n ==> (s[0] == '0' <==> n < 10)
  {
    if n < 0 then
      DigitsRoundTrip(-n);
      assert ("-" + Digits(-n))[1..] == Digits(-n);
      "-" + Digits(-n)
    else if n < 10 then
      assert Value("0") == 0;
      assert ("0" + Digits(n))[..1] == "0";
      "0" + Digits(n)
    else
      DigitsRoundTrip(n);
      Digits(n)
  }

  lemma TwoDigits(n: int)
    requires 0 <= n < 100
    ensures Padded2(n) == [DigitChar(n / 10), DigitChar(n % 10)]
  {
    if n >= 10 {
      assert Digits(n / 10) == [DigitChar(n / 10)];
    }
  }

  /** C's `/` on `int`, which truncates toward zero. */
  function CDiv(a: int, b: int): (q: int)
    requires b > 0
    ensures 0 <= a ==> 0 <= q && q * b <= a < (q + 1) * b
    ensures a < 0 ==> q <= 0 && (q - 1) * b < a <= q * b
  {
    if a >= 0 then a / b else -((-a) / b)
  }

  /** C's `%` on `int`: the remainder takes the sign of the dividend. */
  function CMod(a: int, b: int): (r: int)
    requires b > 0
    ensures CDiv(a, b) * b + r == a
    ensures 0 <= a ==> 0 <= r < b
    ensures a < 0 ==> -b < r <= 0
  {
    if a >= 0 then a % b else -((-a) % b)
  }

  /** What `snprintf` leaves in a buffer of `size` bytes: the text, cut to
      `size - 1` characters to leave room for the terminating NUL. */
  function Fit(s: string, size: nat): (r: string)
    requires size >= 1
    ensures |r| < size && r <= s
    ensures |s| < size ==> r == s
    ensures size <= |s| ==> r == s[..size - 1]
  {
    if |s| < size then s else s[..size - 1]
  }

  /** The clock text of `printTimeScreen`: minutes and seconds of `time`. */
  function ClockText(time: Int16): (s: string)
    ensures |s| <= 5
  {
    Fit(Padded2(CDiv(time, 60)) + ":" + Padded2(CMod(time, 60)), 6)
  }

  /** Reads an `MM:SS` text back as seconds. */
  function ParseClock(s: string): int
    requires |s| == 5
  {
    (10 * DigitValue(s[0]) + DigitValue(s[1])) * 60 + 10 * DigitValue(s[3]) + DigitValue(s[4])
  }

  /** Below 100 minutes the clock text is exactly `MM:SS`, both fields
      zero-padded, the seconds field below 60, and it reads back as `time`. */
  lemma ClockTextRoundTrip(time: Int16)
    requires 0 <= time < 6000
    ensures var s := ClockText(time);
      |s| == 5 && s[2] == ':' &&
      IsDigit(s[0]) && IsDigit(s[1]) && IsDigit(s[3]) && IsDigit(s[4]) &&
      DigitValue(s[3]) < 6 &&
      10 * DigitValue(s[0]) + DigitValue(s[1]) == time / 60 &&
      10 * DigitValue(s[3]) + DigitValue(s[4]) == time % 60 &&
      ParseClock(s) == time
  {
    TwoDigits(time / 60);
    TwoDigits(time % 60);
  }

  /** From 100 minutes on the minutes take three characters and the
      6-byte buffer cuts the last seconds digit: 6000 s shows as "100:0". */
  lemma ClockTextCutAt100Minutes()
    ensures ClockText(6000) == "100:0"
  {
    assert Digits(100) == "100" by {
      assert Digits(10) == "10";
    }
    assert Padded2(CMod(6000, 60)) == "00";
  }

  /** The text of `printInterval`. */
  function IntervalText(interval: Int16): (s: string)
    ensures |s| <= 7
  {
    Fit("+" + Decimal(interval) + " min", 8)
  }

  /** Intervals of up to two digits fit the 8-byte buffer whole. */
  lemma IntervalTextFits(interval: Int16)
    requires 0 <= interval < 100
    ensures IntervalText(interval) == "+" + Digits(interval) + " min"
    ensures Value(IntervalText(interval)[1..|IntervalText(interval)| - 4]) == interval
  {
    DigitsRoundTrip(interval);
    var s := "+" + Digits(interval) + " min";
    assert s[1..|s| - 4] == Digits(interval);
  }

  /** Added to `index + 1` to give the glyph of `printTimeScreen`; the glyph
      of index 0 is U+2780, DINGBAT CIRCLED SANS-SERIF DIGIT ONE. */
  const GLYPH_BASE: int := 0x277F

  /** The glyph code: `static_cast<uint16_t>(index + 1) + 0x277F` stored in a
      `uint16_t`, so the sum wraps modulo 2^16. */
  function Glyph(index: Int16): (g: U16)
    ensures (g - index - 1 - GLYPH_BASE) % TWO_16 == 0
    ensures -1 <= index < TWO_16 - 1 - GLYPH_BASE ==> g == index + 1 + GLYPH_BASE
  {
    ((index + 1) % TWO_16 + GLYPH_BASE) % TWO_16
  }

  /** The presets' indices 0 to 9 show as the ten circled digits one to ten,
      U+2780 to U+2789, so distinct presets show distinct glyphs. */
  lemma GlyphCircledDigit(i: Int16, j: Int16)
    requires 0 <= i < 10 && 0 <= j < 10
    ensures 0x2780 <= Glyph(i) <= 0x2789
    ensures Glyph(i) == Glyph(j) <==> i == j
  {
  }
}
