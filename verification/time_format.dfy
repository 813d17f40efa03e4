/** The two free time formatters of src/services/timer.service.ts:
    `formatTime`, the zero-padded `MM:SS` clock, and `formatTimeHuman`,
    the "1min 5s" form. Each comes with the reader that inverts it, so the
    formatting is proved to lose nothing. Seconds are non-negative whole
    numbers here, as everywhere the formatters are called. */
module TimeFormat {
  import opened Options
  import opened Text

  /** The two-digit-or-more rendering of a clock field. */
  function Field(n: nat): (f: string)
    ensures AllDigits(f) && ParseDecimal(f) == n && |f| >= 2
    ensures |f| == 2 <==> n < 100
  {
    PadStart2Value(n);
    NatToStringRoundTrip(n);
    PadStart2(NatToString(n))
  }

  /** Shape of `m:s` for digit strings `m` and `s`. */
  lemma ClockShape(m: string, s: string)
    requires AllDigits(m) && |m| >= 2 && AllDigits(s) && |s| == 2
    ensures var r := m + ":" + s;
            && |r| >= 5 && r[|r| - 3] == ':'
            && r[..|r| - 3] == m && r[|r| - 2..] == s
  {
  }

  /** `formatTime(seconds)`: zero-padded minutes (at least two digits),
      ':', and the seconds as exactly two digits. */
  function FormatTime(seconds: nat): (r: string)
    ensures |r| >= 5 && r[|r| - 3] == ':'
    ensures AllDigits(r[..|r| - 3]) && ParseDecimal(r[..|r| - 3]) == seconds / 60
    ensures AllDigits(r[|r| - 2..]) && ParseDecimal(r[|r| - 2..]) == seconds % 60
    ensures |r| == 5 <==> seconds < 6000
  {
    var mins := seconds / 60;
    var secs := seconds % 60;
    ClockShape(Field(mins), Field(secs));
    assert mins < 100 <==> seconds < 6000;
    Field(mins) + ":" + Field(secs)
  }

  /** Reads an `M…M:SS` clock back into seconds; `None` for anything that
      is not one. */
  function ParseClock(s: string): (r: Option<nat>)
  {
    var p := SplitDigits(s);
    var rest := p.1;
    if |p.0| >= 1 && |rest| == 3 && rest[0] == ':' && AllDigits(rest[1..]) then
      var secs := ParseDecimal(rest[1..]);
      if secs < 60 then Some(ParseDecimal(p.0) * 60 + secs) else None
    else None
  }

  /** What the reader does once the digit prefix is split off and a ':'
      with two seconds digits is left. */
  lemma ParseClockSplit(x: string, m: string, s: string)
    requires SplitDigits(x) == (m, ":" + s)
    requires |m| >= 1 && AllDigits(s) && |s| == 2 && ParseDecimal(s) < 60
    ensures ParseClock(x) == Some(ParseDecimal(m) * 60 + ParseDecimal(s))
  {
    var rest := ":" + s;
    assert |rest| == 3 && rest[0] == ':' && rest[1..] == s;
    assert AllDigits(rest[1..]) && ParseDecimal(rest[1..]) == ParseDecimal(s);
  }

  /** Reading `m:s` gives back the two fields' values. */
  lemma ParseClockOf(m: string, s: string)
    requires AllDigits(m) && |m| >= 1 && AllDigits(s) && |s| == 2 && ParseDecimal(s) < 60
    ensures ParseClock(m + ":" + s) == Some(ParseDecimal(m) * 60 + ParseDecimal(s))
  {
    SplitClock(m, s);
    ParseClockSplit(m + ":" + s, m, s);
  }

  /** The digit prefix of `m:s` is `m`. */
  lemma SplitClock(m: string, s: string)
    requires AllDigits(m)
    ensures SplitDigits(m + ":" + s) == (m, ":" + s)
  {
    assert m + ":" + s == m + (":" + s);
    SplitDigitsOf(m, ":" + s);
  }

  /** The clock reads back as the number of seconds it shows. */
  lemma ClockRoundTrip(seconds: nat)
    ensures ParseClock(FormatTime(seconds)) == Some(seconds)
  {
    var mins := seconds / 60;
    var secs := seconds % 60;
    var m := Field(mins);
    var s := Field(secs);
    assert mins * 60 + secs == seconds;
    assert ParseClock(m + ":" + s) == Some(seconds) by {
      ParseClockOf(m, s);
    }
    assert FormatTime(seconds) == m + ":" + s;
  }

  /** Different numbers of seconds are shown differently. */
  lemma FormatTimeInjective(a: nat, b: nat)
    requires FormatTime(a) == FormatTime(b)
    ensures a == b
  {
    ClockRoundTrip(a);
    ClockRoundTrip(b);
  }

  /** `formatTimeHuman(seconds)`: "Ss" under a minute (so "0s" for zero),
      "Mmin" on a whole minute, "Mmin Ss" otherwise. */
  function FormatTimeHuman(seconds: nat): (r: string)
    ensures seconds < 60 ==> r == NatToString(seconds) + "s"
    ensures seconds >= 60 && seconds % 60 == 0 ==> r == NatToString(seconds / 60) + "min"
    ensures seconds >= 60 && seconds % 60 != 0 ==>
              r == NatToString(seconds / 60) + ("min " + (NatToString(seconds % 60) + "s"))
  {
    var mins := seconds / 60;
    var secs := seconds % 60;
    if mins == 0 then NatToString(secs) + "s"
    else if secs == 0 then NatToString(mins) + "min"
    else NatToString(mins) + ("min " + (NatToString(secs) + "s"))
  }

  /** Reads the human form back into seconds; `None` for anything else. */
  function ParseHuman(s: string): (r: Option<nat>)
  {
    var p := SplitDigits(s);
    if |p.0| == 0 then None else ParseHumanUnit(ParseDecimal(p.0), p.1)
  }

  /** The part of a human form after its first number. */
  function ParseHumanUnit(n: nat, rest: string): Option<nat> {
    if rest == "s" then Some(n)
    else if rest == "min" then Some(n * 60)
    else if |rest| > 4 && rest[..4] == "min " then
      match ParseSecondsSuffix(rest[4..])
      case None => None
      case Some(secs) => Some(n * 60 + secs)
    else None
  }

  /** "Ss" read as S. */
  function ParseSecondsSuffix(rest: string): Option<nat> {
    var q := SplitDigits(rest);
    if |q.0| > 0 && q.1 == "s" then Some(ParseDecimal(q.0)) else None
  }

  /** Reading "Ss" back, for a digit string `ds`. */
  lemma ParseSecondsOf(ds: string)
    requires AllDigits(ds) && |ds| >= 1
    ensures ParseHuman(ds + "s") == Some(ParseDecimal(ds))
  {
    var rest := "s";
    SplitDigitsOf(ds, rest);
  }

  /** Reading "Mmin" back, for a digit string `dm`. */
  lemma ParseMinutesOf(dm: string)
    requires AllDigits(dm) && |dm| >= 1
    ensures ParseHuman(dm + "min") == Some(ParseDecimal(dm) * 60)
  {
    var rest := "min";
    SplitDigitsOf(dm, rest);
  }

  /** A unit part that starts with "min " followed by "Ss" adds S seconds
      to the minutes. */
  lemma UnitOf(n: nat, tail: string, ds: string)
    requires |tail| > 4 && tail[..4] == "min " && tail[4..] == ds + "s"
    requires tail != "s" && tail != "min"
    requires AllDigits(ds) && ParseSecondsSuffix(ds + "s") == Some(ParseDecimal(ds))
    ensures ParseHumanUnit(n, tail) == Some(n * 60 + ParseDecimal(ds))
  {
  }

  /** What the reader does with a leading number followed by a unit part
      that starts with something other than a digit. */
  lemma ParseHumanSplit(d: string, tail: string, v: nat)
    requires AllDigits(d) && |d| >= 1
    requires |tail| > 0 && !IsDigit(tail[0])
    requires ParseHumanUnit(ParseDecimal(d), tail) == Some(v)
    ensures ParseHuman(d + tail) == Some(v)
  {
    SplitDigitsOf(d, tail);
  }

  /** The unit part "min Ss" of a human form, for a digit string `ds`. */
  lemma MinutesSecondsUnit(n: nat, ds: string, tail: string)
    requires AllDigits(ds) && |ds| >= 1 && tail == "min " + (ds + "s")
    ensures ParseHumanUnit(n, tail) == Some(n * 60 + ParseDecimal(ds))
    ensures |tail| > 0 && !IsDigit(tail[0])
  {
    SplitDigitsOf(ds, "s");
    var rest := ds + "s";
    ConcatParts("min ", rest);
    assert |tail| > 5;
    UnitOf(n, tail, ds);
  }

  lemma ConcatParts(a: string, b: string)
    ensures (a + b)[..|a|] == a && (a + b)[|a|..] == b
  {
  }

  /** The human form reads back as the number of seconds it shows. */
  lemma HumanRoundTrip(seconds: nat)
    ensures ParseHuman(FormatTimeHuman(seconds)) == Some(seconds)
  {
    if seconds < 60 {
      HumanSecondsRoundTrip(seconds);
    } else if seconds % 60 == 0 {
      HumanMinutesRoundTrip(seconds);
    } else {
      HumanMixedRoundTrip(seconds);
    }
  }

  lemma HumanSecondsRoundTrip(seconds: nat)
    requires seconds < 60
    ensures ParseHuman(FormatTimeHuman(seconds)) == Some(seconds)
  {
    NatToStringRoundTrip(seconds);
    ParseSecondsOf(NatToString(seconds));
  }

  lemma HumanMinutesRoundTrip(seconds: nat)
    requires seconds >= 60 && seconds % 60 == 0
    ensures ParseHuman(FormatTimeHuman(seconds)) == Some(seconds)
  {
    var mins := seconds / 60;
    NatToStringRoundTrip(mins);
    assert mins * 60 == seconds;
    ParseMinutesOf(NatToString(mins));
  }

  lemma HumanMixedRoundTrip(seconds: nat)
    requires seconds >= 60 && seconds % 60 != 0
    ensures ParseHuman(FormatTimeHuman(seconds)) == Some(seconds)
  {
    var mins := seconds / 60;
    var secs := seconds % 60;
    var dm := NatToString(mins);
    var ds := NatToString(secs);
    var tail := "min " + (ds + "s");
    assert FormatTimeHuman(seconds) == dm + tail;
    assert mins * 60 + secs == seconds;
    assert ParseDecimal(dm) == mins by { NatToStringRoundTrip(mins); }
    assert ParseDecimal(ds) == secs by { NatToStringRoundTrip(secs); }
    MinutesSecondsUnit(mins, ds, tail);
    ParseHumanSplit(dm, tail, seconds);
  }

  /** Different numbers of seconds get different human forms. */
  lemma FormatTimeHumanInjective(a: nat, b: nat)
    requires FormatTimeHuman(a) == FormatTimeHuman(b)
    ensures a == b
  {
    HumanRoundTrip(a);
    HumanRoundTrip(b);
  }
}
