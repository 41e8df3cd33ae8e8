// The "MM:SS" and "HH:MM:SS" renderings of a number of seconds, and their inverses.
module TimeFormat {
  import opened Domain

  /** Java's int division, which truncates toward zero. */
  function JavaDiv(a: int, b: int): int
    requires b > 0
  {
    if a >= 0 then a / b else -((-a) / b)
  }

  /** Java's int remainder, which takes the sign of the dividend. */
  function JavaRem(a: int, b: int): int
    requires b > 0
  {
    a - b * JavaDiv(a, b)
  }

  predicate IsDigit(c: char) {
    '0' <= c <= '9'
  }

  predicate AllDigits(s: string) {
    forall i :: 0 <= i < |s| ==> IsDigit(s[i])
  }

  function DigitChar(d: int): char
    requires 0 <= d < 10
  {
    (48 + d) as char
  }

  function DigitValue(c: char): int {
    c as int - 48
  }

  /** The decimal digits of n, most significant first, without leading zeros. */
  function Digits(n: nat): (s: string)
    ensures |s| >= 1 && AllDigits(s)
    ensures n < 10 <==> |s| == 1
  {
    if n < 10 then [DigitChar(n)] else Digits(n / 10) + [DigitChar(n % 10)]
  }

  /** The number a string of decimal digits denotes. */
  function ParseDigits(s: string): nat
    requires AllDigits(s)
  {
    if s == [] then 0 else ParseDigits(s[..|s| - 1]) * 10 + DigitValue(s[|s| - 1])
  }

  /**
   * Java's "%02d": the decimal rendering zero-padded to two characters; a negative value keeps its
   * sign. A non-negative value gives at least two digits that denote it, exactly two below 100.
   */
  function Pad2(v: int): (r: string)
    ensures v >= 0 ==> |r| >= 2 && AllDigits(r) && ParseDigits(r) == v
    ensures 0 <= v < 100 ==> |r| == 2
    ensures v < 0 ==> |r| >= 2 && r[0] == '-'
  {
    if v < 0 then "-" + Digits(-v)
    else if v < 10 then DigitsRoundTrip(v); LeadingZero(Digits(v)); "0" + Digits(v)
    else DigitsRoundTrip(v); Digits(v)
  }

  /** The remaining time of a phase as minutes and seconds; for a non-negative input "MM:SS" reads back. */
  function FormatTime(totalSeconds: int): (r: string)
    ensures totalSeconds >= 0 ==> |r| >= 5 && ParseTime(r) == Some(totalSeconds)
  {
    var mm, ss := Pad2(JavaDiv(totalSeconds, 60)), Pad2(JavaRem(totalSeconds, 60));
    if totalSeconds < 0 then mm + ":" + ss
    else
      MinutesSeconds(totalSeconds);
      ParseTimeOf(mm, ss);
      mm + ":" + ss
  }

  /** The elapsed time of a block as hours, minutes and seconds; for a non-negative input "HH:MM:SS" reads back. */
  function FormatElapsedTime(totalSeconds: int): (r: string)
    ensures totalSeconds >= 0 ==> |r| >= 8 && ParseElapsedTime(r) == Some(totalSeconds)
  {
    var hh := Pad2(JavaDiv(totalSeconds, 3600));
    var mm, ss := Pad2(JavaDiv(JavaRem(totalSeconds, 3600), 60)), Pad2(JavaRem(totalSeconds, 60));
    if totalSeconds < 0 then hh + ":" + mm + ":" + ss
    else
      ElapsedFieldsReadBack(totalSeconds);
      hh + ":" + mm + ":" + ss
  }

  /** Reads back "M:SS": a leading field of digits, a colon, and exactly two digits that stay below 60. */
  function ParseTime(t: string): Option<int> {
    if |t| >= 4 && t[|t| - 3] == ':' && AllDigits(t[..|t| - 3]) && AllDigits(t[|t| - 2..])
       && ParseDigits(t[|t| - 2..]) < 60
    then Some(ParseDigits(t[..|t| - 3]) * 60 + ParseDigits(t[|t| - 2..]))
    else None
  }

  /** Reads back "H:MM:SS": a leading field of digits, then two colon-separated two-digit fields below 60. */
  function ParseElapsedTime(t: string): Option<int> {
    if |t| >= 7 && t[|t| - 6] == ':' && AllDigits(t[..|t| - 6]) then
      match ParseTime(t[|t| - 5..])
      case Some(ms) => if ms < 3600 then Some(ParseDigits(t[..|t| - 6]) * 3600 + ms) else None
      case None => None
    else None
  }

  // ----- Properties -----

  lemma {:induction false} DigitsRoundTrip(n: nat)
    ensures ParseDigits(Digits(n)) == n
  {
    if n >= 10 {
      DigitsRoundTrip(n / 10);
      var s := Digits(n);
      assert s[..|s| - 1] == Digits(n / 10);
    }
  }

  lemma {:induction false} LeadingZero(s: string)
    requires AllDigits(s)
    ensures AllDigits("0" + s) && ParseDigits("0" + s) == ParseDigits(s)
  {
    if s != [] {
      LeadingZero(s[..|s| - 1]);
      assert ("0" + s)[..|s|] == "0" + s[..|s| - 1];
    }
  }

  /** A field of digits, a colon and two digits below 60 read back as minutes and seconds. */
  lemma ParseTimeOf(mm: string, ss: string)
    requires |mm| >= 2 && AllDigits(mm) && |ss| == 2 && AllDigits(ss) && ParseDigits(ss) < 60
    ensures |mm + ":" + ss| >= 5
    ensures ParseTime(mm + ":" + ss) == Some(ParseDigits(mm) * 60 + ParseDigits(ss))
  {
    var t := mm + ":" + ss;
    assert t[..|t| - 3] == mm;
    assert t[|t| - 2..] == ss;
  }

  /** The hours, minutes and seconds fields of a non-negative number of seconds read back to that number. */
  lemma ElapsedFieldsReadBack(s: int)
    requires s >= 0
    ensures var t := Pad2(JavaDiv(s, 3600)) + ":" + Pad2(JavaDiv(JavaRem(s, 3600), 60)) + ":" + Pad2(JavaRem(s, 60));
            |t| >= 8 && ParseElapsedTime(t) == Some(s)
  {
    HoursMinutesSeconds(s);
    var hh, mm, ss := Pad2(JavaDiv(s, 3600)), Pad2(JavaDiv(JavaRem(s, 3600), 60)), Pad2(JavaRem(s, 60));
    var t := hh + ":" + mm + ":" + ss;
    assert t == hh + ":" + (mm + ":" + ss);
    assert t[..|t| - 6] == hh;
    var tail := t[|t| - 5..];
    assert tail == mm + ":" + ss;
    assert tail[..|tail| - 3] == mm;
    assert tail[|tail| - 2..] == ss;
  }

  /** Whole minutes and leftover seconds, the seconds below 60, recombine to the input. */
  lemma MinutesSeconds(s: int)
    requires s >= 0
    ensures JavaDiv(s, 60) == s / 60 && JavaRem(s, 60) == s % 60 < 60
    ensures JavaDiv(s, 60) * 60 + JavaRem(s, 60) == s
  {
  }

  /** Hours, minutes below 60 and seconds below 60 recombine to the input. */
  lemma HoursMinutesSeconds(s: int)
    requires s >= 0
    ensures var h, m, sec := JavaDiv(s, 3600), JavaDiv(JavaRem(s, 3600), 60), JavaRem(s, 60);
            0 <= m < 60 && 0 <= sec < 60 && h >= 0 && h * 3600 + m * 60 + sec == s
  {
    var h, t := s / 3600, s % 3600;
    var m, sec := t / 60, t % 60;
    assert s == 3600 * h + 60 * m + sec;
    assert s == 60 * (60 * h + m) + sec;
    assert s % 60 == sec;
  }

  /** A negative input is rendered with Java's truncating arithmetic: -1 second shows as "00:-1". */
  lemma NegativeRemainingExample()
    ensures FormatTime(-1) == "00:-1"
  {
  }
}
