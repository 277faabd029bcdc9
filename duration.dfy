/** `HH:MM:SS` rendering of a duration in whole seconds, as both feed generators write it
    (`f"{hours:02d}:{minutes:02d}:{secs:02d}"` with floor division and modulo). */
module Duration {
  import opened Wrappers
  import opened Decimal

  /** `f"{n:02d}"`: zero-padded to two characters; a negative number keeps its sign and
      is never padded, since it is already at least two characters wide. */
  function Pad2(n: int): string {
    if n < 0 then IntToString(n)
    else if n < 10 then "0" + NatToString(n)
    else NatToString(n)
  }

  /** Hours, minutes and seconds of `s` by Python's `//` and `%` (which agree with Dafny's
      for a positive divisor), each padded by `Pad2`. */
  function FormatHms(s: int): string {
    var hours := s / 3600;
    var minutes := (s % 3600) / 60;
    var secs := s % 60;
    Pad2(hours) + ":" + Pad2(minutes) + ":" + Pad2(secs)
  }

  /** `format_duration(seconds)` of the scraper's feed: a falsy value (None or 0) gives
      "00:00:00", anything else its `HH:MM:SS` form. */
  function FormatDuration(seconds: Option<int>): (r: string)
    ensures seconds == None || seconds == Some(0) ==> r == "00:00:00"
    ensures seconds.Some? && seconds.value >= 0 ==> ParseHms(r) == Some(seconds.value)
  {
    match seconds
    case None => "00:00:00"
    case Some(s) =>
      if s == 0 then
        FormatHmsRoundTrip(0);
        "00:00:00"
      else
        if s > 0 then FormatHmsRoundTrip(s); FormatHms(s) else FormatHms(s)
  }

  /** Reads `H..H:MM:SS` (at least two hour digits, minutes and seconds below 60) back into
      seconds. It is the reference the formatter is checked against. */
  function ParseHms(t: string): Option<int> {
    if |t| < 8 || t[|t| - 6] != ':' || t[|t| - 3] != ':' then None
    else ParseClock(t[..|t| - 6], t[|t| - 5..|t| - 3], t[|t| - 2..])
  }

  /** The value of the three fields of a clock reading, if they are well formed. */
  function ParseClock(hh: string, mm: string, ss: string): Option<int> {
    if !AllDigits(hh) || !AllDigits(mm) || !AllDigits(ss) then None
    else if ParseDigits(mm) >= 60 || ParseDigits(ss) >= 60 then None
    else Some(ParseDigits(hh) * 3600 + ParseDigits(mm) * 60 + ParseDigits(ss))
  }

  lemma Pad2Digits(n: nat)
    ensures AllDigits(Pad2(n)) && |Pad2(n)| >= 2
    ensures n < 100 ==> |Pad2(n)| == 2
    ensures ParseDigits(Pad2(n)) == n
  {
    ParseNatToString(n);
    NatToStringDigits(n);
    if n < 10 {
      ParseLeadingZero(NatToString(n));
    } else if n < 100 {
      NatToStringDigits(n / 10);
      assert NatToString(n / 10) == [DigitChar(n / 10)];
    }
  }

  /** Every non-negative number of seconds is written so that reading it back gives the
      same number: minutes and seconds are two digits below 60, hours at least two digits. */
  lemma FormatHmsRoundTrip(s: nat)
    ensures ParseHms(FormatHms(s)) == Some(s)
    ensures s == 0 ==> FormatHms(s) == "00:00:00"
  {
    var h, m, sec := s / 3600, (s % 3600) / 60, s % 60;
    HmsSplit(s);
    Pad2Digits(h);
    Pad2Digits(m);
    Pad2Digits(sec);
    assert FormatHms(s) == Pad2(h) + ":" + Pad2(m) + ":" + Pad2(sec);
    ParseFields(Pad2(h), Pad2(m), Pad2(sec));
    assert ParseClock(Pad2(h), Pad2(m), Pad2(sec)) == Some(h * 3600 + m * 60 + sec);
    if s == 0 {
      FormatHmsZero();
    }
  }

  lemma FormatHmsZero()
    ensures FormatHms(0) == "00:00:00"
  {
    assert Pad2(0) == "00";
  }

  lemma HmsSplit(s: nat)
    ensures (s % 3600) / 60 < 60 && s % 60 < 60
    ensures (s / 3600) * 3600 + ((s % 3600) / 60) * 60 + s % 60 == s
  {
    var q, r := s / 3600, s % 3600;
    assert s == q * 3600 + r;
    assert r == (r / 60) * 60 + r % 60;
    assert r % 60 == s % 60 by {
      assert s == (q * 60) * 60 + r;
    }
  }

  /** A string assembled from three fields splits back into those fields. */
  lemma ParseFields(ph: string, pm: string, ps: string)
    requires |ph| >= 2 && |pm| == 2 && |ps| == 2
    ensures ParseHms(ph + ":" + pm + ":" + ps) == ParseClock(ph, pm, ps)
  {
    var t := ph + ":" + pm + ":" + ps;
    assert |t| == |ph| + 6;
    assert t[|ph|] == ':' && t[|ph| + 3] == ':';
    assert t[..|t| - 6] == ph;
    assert t[|t| - 5..|t| - 3] == pm;
    assert t[|t| - 2..] == ps;
  }

  /** The worked example: 3725 seconds is one hour, two minutes and five seconds. */
  lemma FormatExample()
    ensures FormatDuration(Some(3725)) == "01:02:05"
    ensures FormatDuration(None) == "00:00:00"
  {
    assert 3725 / 3600 == 1 && (3725 % 3600) / 60 == 2 && 3725 % 60 == 5;
    assert Pad2(1) == "01" && Pad2(2) == "02" && Pad2(5) == "05";
    assert FormatHms(3725) == "01" + ":" + "02" + ":" + "05";
  }
}
