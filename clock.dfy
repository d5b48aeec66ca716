/** The timer text: a count of seconds rendered as minutes and seconds, each
    zero-padded to at least two digits, and the move counter rendered as a
    decimal number.

    `ParseClock` reads such a text back; `FormatRoundTrip` shows that it
    recovers the count from every text `Format` produces, so the text always
    shows the exact elapsed time and two different counts never show the same
    text. */
module Clock {

  datatype Option<T> = None | Some(value: T)

  predicate IsDigit(c: char)
  {
    '0' <= c <= '9'
  }

  predicate IsDigits(s: string)
  {
    forall k :: 0 <= k < |s| ==> IsDigit(s[k])
  }

  /** The character of a single decimal digit. */
  function DigitChar(d: nat): (c: char)
    requires d < 10
    ensures IsDigit(c)
  {
    "0123456789"[d]
  }

  /** The value of a digit character. */
  function DigitValue(c: char): (d: nat)
    requires IsDigit(c)
    ensures d < 10
  {
    (c - '0') as nat
  }

  /** The decimal text of `n`, without leading zeros: JavaScript's `String(n)`
      for a non-negative integer. */
  function Decimal(n: nat): (s: string)
    ensures |s| >= 1 && IsDigits(s)
  {
    if n < 10 then [DigitChar(n)] else Decimal(n / 10) + [DigitChar(n % 10)]
  }

  /** The number a text of digits denotes, most significant digit first. */
  function Value(s: string): nat
    requires IsDigits(s)
  {
    if s == [] then 0 else Value(s[..|s| - 1]) * 10 + DigitValue(s[|s| - 1])
  }

  /** `padStart(2, "0")`: zeros are put in front until the text is two
      characters long; a longer text is left as it is. */
  function PadStart2(s: string): (r: string)
    ensures |r| == if |s| < 2 then 2 else |s|
    decreases 2 - |s|
  {
    if |s| >= 2 then s else PadStart2(['0'] + s)
  }

  /** The `MM:SS` text of a count of seconds: whole minutes, a colon, and the
      seconds within the minute. */
  function Format(sec: nat): string
  {
    PadStart2(Decimal(sec / 60)) + ":" + PadStart2(Decimal(sec % 60))
  }

  /** Reads a timer text: at least two digits of minutes, a colon, exactly two
      digits of seconds below 60. Anything else is not a timer text. */
  function ParseClock(s: string): (r: Option<nat>)
    ensures r.Some? ==> |s| >= 5 && s[|s| - 3] == ':'
  {
    if |s| < 5 || s[|s| - 3] != ':' then None
    else
      var minutes := s[..|s| - 3];
      var seconds := s[|s| - 2..];
      if IsDigits(minutes) && IsDigits(seconds) && Value(seconds) < 60
      then Some(Value(minutes) * 60 + Value(seconds))
      else None
  }

  /** The decimal text of `n` denotes `n` and has no leading zero. */
  lemma {:induction false} DecimalValue(n: nat)
    ensures Value(Decimal(n)) == n
    ensures |Decimal(n)| == 1 || Decimal(n)[0] != '0'
  {
    var s := Decimal(n);
    if n < 10 {
      assert s[..0] == [];
    } else {
      DecimalValue(n / 10);
      assert s[..|s| - 1] == Decimal(n / 10);
      assert DigitValue(s[|s| - 1]) == n % 10;
    }
  }

  /** A leading zero does not change the number a text denotes. */
  lemma {:induction false} LeadingZero(s: string)
    requires IsDigits(s)
    ensures IsDigits(['0'] + s) && Value(['0'] + s) == Value(s)
    decreases |s|
  {
    var z := ['0'] + s;
    if s != [] {
      LeadingZero(s[..|s| - 1]);
      assert z[..|z| - 1] == ['0'] + s[..|s| - 1];
    } else {
      assert z[..|z| - 1] == [];
    }
  }

  /** Padding returns a text of two or more characters unchanged. */
  lemma PadKeepsLonger(s: string)
    requires |s| >= 2
    ensures PadStart2(s) == s
  {
  }

  /** Padding keeps the digits and the number they denote. */
  lemma {:induction false} PadKeepsValue(s: string)
    requires IsDigits(s)
    ensures IsDigits(PadStart2(s)) && Value(PadStart2(s)) == Value(s)
    decreases 2 - |s|
  {
    if |s| < 2 {
      LeadingZero(s);
      PadKeepsValue(['0'] + s);
    }
  }

  /** `Format` writes the minutes as at least two digits and the seconds as
      exactly two digits below 60, and the two fields add up to `sec`. */
  lemma FormatFields(sec: nat)
    ensures var f := Format(sec);
      |f| >= 5 && f[|f| - 3] == ':'
      && IsDigits(f[..|f| - 3]) && IsDigits(f[|f| - 2..])
      && Value(f[|f| - 2..]) == sec % 60 < 60
      && Value(f[..|f| - 3]) * 60 + Value(f[|f| - 2..]) == sec
  {
    var m := PadStart2(Decimal(sec / 60));
    var s := PadStart2(Decimal(sec % 60));
    var f := Format(sec);
    DecimalValue(sec / 60);
    DecimalValue(sec % 60);
    PadKeepsValue(Decimal(sec / 60));
    PadKeepsValue(Decimal(sec % 60));
    assert |Decimal(sec % 60)| <= 2 by {
      if sec % 60 >= 10 {
        assert Decimal(sec % 60) == Decimal(sec % 60 / 10) + [DigitChar(sec % 60 % 10)];
      }
    }
    assert f == m + ":" + s;
    assert f[..|f| - 3] == m;
    assert f[|f| - 2..] == s;
  }

  /** Reading back a timer text gives the count it was made from. */
  lemma FormatRoundTrip(sec: nat)
    ensures ParseClock(Format(sec)) == Some(sec)
  {
    FormatFields(sec);
  }

  /** Two different counts never show the same timer text. */
  lemma FormatInjective(a: nat, b: nat)
    ensures Format(a) == Format(b) <==> a == b
  {
    FormatRoundTrip(a);
    FormatRoundTrip(b);
  }

  /** The text shown when the timer is reset, and when a second count
      needs more than two minute digits. */
  lemma FormatExamples()
    ensures Format(0) == "00:00"
    ensures Format(59) == "00:59"
    ensures Format(61) == "01:01"
    ensures Format(6000) == "100:00"
  {
  }
}
