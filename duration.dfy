/**
 * `milli_to_hhmmss`: a track length in milliseconds as a clock reading.
 * Whole seconds are split into hours, minutes and seconds; the hours wrap
 * at 24, so a duration of a day or more loses its whole days. The shape of
 * the text depends on which leading fields are zero: "SS", "MM:SS" or
 * "H:MM:SS" with the hour unpadded. `ParseClock` reads such a text back.
 */
module Duration {
  import opened Wrappers
  import opened Decimal
  import opened Strings

  const MillisPerSecond := 1000
  const SecondsPerDay := 86400

  /** The fields of the rendered clock. */
  datatype Clock = Clock(hh: nat, mm: nat, ss: nat)

  /** The three fields are those of the time of day, in whole seconds, that `millis` reaches. */
  function Components(millis: nat): (c: Clock)
    ensures c.hh < 24 && c.mm < 60 && c.ss < 60
    ensures (c.hh * 60 + c.mm) * 60 + c.ss == (millis / MillisPerSecond) % SecondsPerDay
  {
    var seconds := millis / MillisPerSecond;
    var c := Clock((seconds / (60 * 60)) % 24, (seconds / 60) % 60, seconds % 60);
    TimeOfDay(seconds);
    c
  }

  lemma TimeOfDay(seconds: nat)
    ensures ((seconds / 3600) % 24 * 60 + (seconds / 60) % 60) * 60 + seconds % 60 == seconds % 86400
  {
    var q1, ss := seconds / 60, seconds % 60;
    var q2, mm := q1 / 60, q1 % 60;
    var q3, hh := q2 / 24, q2 % 24;
    assert seconds == 60 * q1 + ss;
    assert q1 == 60 * q2 + mm;
    assert q2 == 24 * q3 + hh;
    assert seconds == 86400 * q3 + ((hh * 60 + mm) * 60 + ss);
    assert seconds / 3600 == q2;
    assert (hh * 60 + mm) * 60 + ss < 86400;
  }

  /**
   * `milli_to_hhmmss`, with the branches in the order the code tests them.
   * A colon appears exactly when the duration reaches a minute within its day.
   */
  function MilliToHhmmss(millis: nat): (r: string)
    ensures |r| >= 2
    ensures ':' in r <==> Components(millis).hh != 0 || Components(millis).mm != 0
  {
    var c := Components(millis);
    DigitsExclude(NatToString(c.hh), ':');
    DigitsExclude(Pad2(c.mm), ':');
    DigitsExclude(Pad2(c.ss), ':');
    if c.hh == 0 && c.mm != 0 then Pad2(c.mm) + ":" + Pad2(c.ss)
    else if c.hh == 0 && c.mm == 0 then Pad2(c.ss)
    else NatToString(c.hh) + ":" + Pad2(c.mm) + ":" + Pad2(c.ss)
  }

  /** Reads "SS", "MM:SS" or "H:MM:SS" back into its fields. */
  function ParseClock(text: string): (c: Option<Clock>)
  {
    var fields := Split(text, ':');
    if exists i :: 0 <= i < |fields| && !IsDecimal(fields[i]) then None
    else if |fields| == 1 then Some(Clock(0, 0, ParseNat(fields[0])))
    else if |fields| == 2 then Some(Clock(0, ParseNat(fields[0]), ParseNat(fields[1])))
    else if |fields| == 3 then Some(Clock(ParseNat(fields[0]), ParseNat(fields[1]), ParseNat(fields[2])))
    else None
  }

  /** Reading the text back recovers every field the formatter computed. */
  lemma ParseClockRoundTrip(millis: nat)
    ensures ParseClock(MilliToHhmmss(millis)) == Some(Components(millis))
  {
    var c := Components(millis);
    var text := MilliToHhmmss(millis);
    var h, m, s := NatToString(c.hh), Pad2(c.mm), Pad2(c.ss);
    DigitsExclude(h, ':');
    DigitsExclude(m, ':');
    DigitsExclude(s, ':');
    ParseNatToString(c.hh);
    var fields: seq<string>;
    if c.hh == 0 && c.mm != 0 {
      fields := [m, s];
    } else if c.hh == 0 && c.mm == 0 {
      fields := [s];
    } else {
      fields := [h, m, s];
      assert Join(fields[1..], ":") == m + ":" + s;
    }
    assert Join(fields, ":") == text;
    SplitJoin(fields, ':');
    assert Split(text, ':') == fields;
  }

  /** Under a minute: two zero-padded digits and no colon. */
  lemma SecondsOnlyShape(millis: nat)
    requires Components(millis).hh == 0 && Components(millis).mm == 0
    ensures |MilliToHhmmss(millis)| == 2 && IsDecimal(MilliToHhmmss(millis))
  {
  }

  /** Under an hour but at least a minute: "DD:DD". */
  lemma MinutesShape(millis: nat)
    requires Components(millis).hh == 0 && Components(millis).mm != 0
    ensures var r := MilliToHhmmss(millis);
      |r| == 5 && r[2] == ':' && IsDecimal(r[..2]) && IsDecimal(r[3..])
  {
    var c := Components(millis);
    var r := MilliToHhmmss(millis);
    assert r[..2] == Pad2(c.mm) && r[3..] == Pad2(c.ss);
  }

  /** An hour or more: an unpadded hour without leading zero, then ":DD:DD". */
  lemma HoursShape(millis: nat)
    requires Components(millis).hh != 0
    ensures var r := MilliToHhmmss(millis);
      && |r| >= 7 && r[0] != '0' && IsDecimal(r[..|r| - 6])
      && r[|r| - 6] == ':' && IsDecimal(r[|r| - 5..|r| - 3])
      && r[|r| - 3] == ':' && IsDecimal(r[|r| - 2..])
  {
    var c := Components(millis);
    var r := MilliToHhmmss(millis);
    var h := NatToString(c.hh);
    assert r == h + ":" + Pad2(c.mm) + ":" + Pad2(c.ss);
    assert r[..|r| - 6] == h;
    assert r[|r| - 5..|r| - 3] == Pad2(c.mm);
    assert r[|r| - 2..] == Pad2(c.ss);
  }

  /** Which shape a duration gets, by its length. */
  lemma ShapeByLength(millis: nat)
    ensures millis < 60_000 ==> Components(millis) == Clock(0, 0, millis / 1000)
    ensures 60_000 <= millis < 3_600_000 ==> Components(millis).hh == 0 && Components(millis).mm != 0
    ensures 3_600_000 <= millis < 86_400_000 ==> Components(millis).hh == millis / 3_600_000
  {
  }

  /** A clock within a day is determined by the second of the day it names. */
  lemma ClockBySecondOfDay(a: Clock, b: Clock)
    requires a.hh < 24 && a.mm < 60 && a.ss < 60
    requires b.hh < 24 && b.mm < 60 && b.ss < 60
    requires (a.hh * 60 + a.mm) * 60 + a.ss == (b.hh * 60 + b.mm) * 60 + b.ss
    ensures a == b
  {
    var ta, tb := a.hh * 60 + a.mm, b.hh * 60 + b.mm;
    assert ta * 60 + a.ss == tb * 60 + b.ss;
    assert a.ss == b.ss && ta == tb;
    assert a.mm == b.mm && a.hh == b.hh;
  }

  /** Hours wrap at 24: adding a whole day does not change the text. */
  lemma DayWraps(millis: nat)
    ensures MilliToHhmmss(millis + 86_400_000) == MilliToHhmmss(millis)
  {
    var s := millis / 1000;
    assert (millis + 86_400_000) / 1000 == s + 86400;
    assert (s + 86400) % 86400 == s % 86400;
    ClockBySecondOfDay(Components(millis + 86_400_000), Components(millis));
  }

  lemma Examples()
    ensures MilliToHhmmss(0) == "00"
    ensures MilliToHhmmss(59_000) == "59"
    ensures MilliToHhmmss(60_000) == "01:00"
    ensures MilliToHhmmss(3_599_000) == "59:59"
    ensures MilliToHhmmss(3_600_000) == "1:00:00"
    ensures MilliToHhmmss(3_661_000) == "1:01:01"
  {
    assert Pad2(0) == "00" && Pad2(1) == "01" && Pad2(59) == "59";
    assert NatToString(1) == "1";
    assert Components(0) == Clock(0, 0, 0);
    assert Components(59_000) == Clock(0, 0, 59);
    assert Components(60_000) == Clock(0, 1, 0);
    assert Components(3_599_000) == Clock(0, 59, 59);
    assert Components(3_600_000) == Clock(1, 0, 0);
    assert Components(3_661_000) == Clock(1, 1, 1);
  }
}
