/** The `CountdownTimer` component: the seconds it starts from, the
    one-second tick that counts down to zero and calls `onEnd` once, the
    text it shows for a number of seconds, and when it is shown as urgent.
    Rendering and React's scheduling are outside the model; the clock and
    the parsed target date (in milliseconds) are parameters. */
module CountdownTimer {
  import opened Wrappers


  /** JavaScript's `%`: the remainder takes the sign of the dividend. */
  function JsRem(a: int, b: int): (r: int)
    requires b > 0
    ensures a >= 0 ==> r == a % b
    ensures -b < r < b
  {
    if a >= 0 then a % b else -((-a) % b)
  }

  /** The four numbers `formatTime` computes, with JavaScript's `Math.floor`
      (Dafny's `/` by a positive divisor) and `%`. */
  datatype Parts = Parts(days: int, hours: int, minutes: int, secs: int)

  function TimeParts(seconds: int): Parts {
    Parts(seconds / 86400,
          JsRem(seconds, 86400) / 3600,
          JsRem(seconds, 3600) / 60,
          JsRem(seconds, 60))
  }

  /** For a non-negative count, the parts are a days / hours / minutes /
      seconds reading of it: each below its unit and adding back to it. */
  lemma TimePartsDecompose(seconds: int)
    requires seconds >= 0
    ensures var p := TimeParts(seconds);
            && 0 <= p.days && 0 <= p.hours < 24 && 0 <= p.minutes < 60 && 0 <= p.secs < 60
            && p.days * 86400 + p.hours * 3600 + p.minutes * 60 + p.secs == seconds
  {
    HoursOfDay(seconds);
    MinutesOfHour(seconds);
  }

  /** The seconds within the day, taken modulo an hour, are those within the hour. */
  lemma HoursOfDay(x: int)
    ensures (x % 86400) % 3600 == x % 3600
  {
    var d, r := x / 86400, x % 86400;
    var h, rest := r / 3600, r % 3600;
    assert x == 86400 * d + r;
    assert r == 3600 * h + rest && 0 <= rest < 3600;
    assert x == 3600 * (24 * d + h) + rest;
  }

  /** The seconds within the hour, taken modulo a minute, are those within the minute. */
  lemma MinutesOfHour(x: int)
    ensures (x % 3600) % 60 == x % 60
  {
    var h, r := x / 3600, x % 3600;
    var m, rest := r / 60, r % 60;
    assert x == 3600 * h + r;
    assert r == 60 * m + rest && 0 <= rest < 60;
    assert x == 60 * (60 * h + m) + rest;
  }

  /** The decimal digits of a natural number, most significant first. */
  function Digits(n: nat): (s: string)
    ensures |s| >= 1
    ensures forall i :: 0 <= i < |s| ==> '0' <= s[i] <= '9'
    ensures n < 10 <==> |s| == 1
    decreases n
  {
    if n < 10 then [Digit(n)] else Digits(n / 10) + [Digit(n % 10)]
  }

  function Digit(d: nat): (c: char)
    requires d < 10
    ensures '0' <= c <= '9' && c as int - '0' as int == d
  {
    ('0' as int + d) as char
  }

  /** The number a string of decimal digits denotes. */
  function DigitsValue(s: string): int {
    if s == [] then 0 else DigitsValue(s[..|s| - 1]) * 10 + (s[|s| - 1] as int - '0' as int)
  }

  /** Reading back the digits gives the number. */
  lemma {:induction false} DigitsRoundTrip(n: nat)
    ensures DigitsValue(Digits(n)) == n
    decreases n
  {
    if n >= 10 {
      DigitsRoundTrip(n / 10);
      var s := Digits(n);
      assert s[..|s| - 1] == Digits(n / 10);
    }
  }

  /** `Number.prototype.toString` of an integer. */
  function ToText(n: int): string {
    if n < 0 then "-" + Digits(-n) else Digits(n)
  }

  /** `padStart(2, '0')`. */
  function Pad2(s: string): (r: string)
    ensures |s| >= 2 ==> r == s
    ensures |s| < 2 ==> |r| == 2 && r[2 - |s|..] == s
  {
    if |s| >= 2 then s else seq(2 - |s|, _ => '0') + s
  }

  /** `formatTime`. */
  function FormatTime(seconds: int): string {
    FormatParts(TimeParts(seconds))
  }

  /** The text `formatTime` builds from the four parts. */
  function FormatParts(p: Parts): string {
    if p.days > 0 then
      ToText(p.days) + "d " + ToText(p.hours) + "h " + ToText(p.minutes) + "m"
    else if p.hours > 0 then
      ToText(p.hours) + ":" + Pad2(ToText(p.minutes)) + ":" + Pad2(ToText(p.secs))
    else
      ToText(p.minutes) + ":" + Pad2(ToText(p.secs))
  }

  /** A number below 60 padded to two digits reads back as itself. */
  lemma Pad2RoundTrip(n: nat)
    requires n < 60
    ensures |Pad2(ToText(n))| == 2 && DigitsValue(Pad2(ToText(n))) == n
  {
    DigitsRoundTrip(n);
    var d := Digits(n);
    if n < 10 {
      var padded := Pad2(d);
      assert padded == ['0', d[0]];
      assert padded[..1] == ['0'];
      assert DigitsValue(padded[..1]) == 0 by {
        assert padded[..1][..0] == [];
      }
      assert d[..0] == [];
    } else {
      assert n / 10 < 10;
    }
  }

  /** The clock text shown below one day, read back: "H:MM:SS" or "M:SS". */
  function ReadClock(t: string): int {
    if |t| < 3 || t[|t| - 3] != ':' then -1
    else
      var secs := DigitsValue(t[|t| - 2..]);
      var head := t[..|t| - 3];
      if |head| >= 4 && head[|head| - 3] == ':'
      then DigitsValue(head[..|head| - 3]) * 3600 + DigitsValue(head[|head| - 2..]) * 60 + secs
      else DigitsValue(head) * 60 + secs
  }

  /** The "H:MM:SS" text of some hours, minutes and seconds reads back. */
  lemma ReadHoursClock(h: nat, m: nat, sec: nat)
    requires m < 60 && sec < 60
    ensures ReadClock(ToText(h) + ":" + Pad2(ToText(m)) + ":" + Pad2(ToText(sec))) == h * 3600 + m * 60 + sec
  {
    Pad2RoundTrip(sec);
    Pad2RoundTrip(m);
    DigitsRoundTrip(h);
    ClockFields(ToText(h), Pad2(ToText(m)), Pad2(ToText(sec)));
  }

  /** Reading "H:MM:SS" takes its three fields apart. */
  lemma ClockFields(hh: string, mm: string, ss: string)
    requires |hh| >= 1 && |mm| == 2 && |ss| == 2
    ensures ReadClock(hh + ":" + mm + ":" + ss) ==
              DigitsValue(hh) * 3600 + DigitsValue(mm) * 60 + DigitsValue(ss)
  {
    var head := hh + ":" + mm;
    var t := head + ":" + ss;
    assert hh + ":" + mm + ":" + ss == t;
    assert t[|t| - 3] == ':' && t[|t| - 2..] == ss && t[..|t| - 3] == head;
    assert head[|head| - 3] == ':' && head[|head| - 2..] == mm && head[..|head| - 3] == hh;
  }

  /** The "M:SS" text of fewer than 100 minutes reads back. */
  lemma ReadMinutesClock(m: nat, sec: nat)
    requires m < 100 && sec < 60
    ensures ReadClock(ToText(m) + ":" + Pad2(ToText(sec))) == m * 60 + sec
  {
    Pad2RoundTrip(sec);
    DigitsRoundTrip(m);
    var ss, mt := Pad2(ToText(sec)), ToText(m);
    var t := mt + ":" + ss;
    assert t[|t| - 3] == ':' && t[|t| - 2..] == ss && t[..|t| - 3] == mt;
    assert |mt| <= 2 by {
      if m >= 10 {
        assert m / 10 < 10;
      }
    }
  }

  /** Below one day the text loses nothing: it reads back as the count. */
  lemma FormatClockRoundTrip(seconds: int)
    requires 0 <= seconds < 86400
    ensures ReadClock(FormatTime(seconds)) == seconds
  {
    TimePartsDecompose(seconds);
    var p := TimeParts(seconds);
    assert FormatTime(seconds) == FormatParts(p);
    assert p.days == 0;
    if p.hours > 0 {
      ReadHoursClock(p.hours, p.minutes, p.secs);
    } else {
      ReadMinutesClock(p.minutes, p.secs);
    }
  }

  /** Any days / hours / minutes / seconds reading of a count is the one
      `formatTime` computes. */
  lemma TimePartsUnique(seconds: int, p: Parts)
    requires 0 <= p.days && 0 <= p.hours < 24 && 0 <= p.minutes < 60 && 0 <= p.secs < 60
    requires p.days * 86400 + p.hours * 3600 + p.minutes * 60 + p.secs == seconds
    ensures TimeParts(seconds) == p
  {
    var inDay := 3600 * p.hours + 60 * p.minutes + p.secs;
    assert seconds == 86400 * p.days + inDay && 0 <= inDay < 86400;
    HoursOfDay(seconds);
    MinutesOfHour(seconds);
    assert inDay % 3600 == 60 * p.minutes + p.secs;
  }

  /** From one day on, seconds are not shown: the text is that of the
      count rounded down to a whole minute. */
  lemma FormatDaysHidesSeconds(seconds: int)
    requires seconds >= 86400
    ensures FormatTime(seconds) == FormatTime(seconds - seconds % 60)
  {
    TimePartsDecompose(seconds);
    var p := TimeParts(seconds);
    TimePartsUnique(seconds - seconds % 60, p.(secs := 0));
    assert FormatTime(seconds) == FormatParts(p);
    assert FormatTime(seconds - seconds % 60) == FormatParts(p.(secs := 0));
  }

  /** `calculateTimeLeft`: the given seconds, or 0 without a target, or the
      whole seconds until the target, never below 0. */
  function CalculateTimeLeft(initialSeconds: Option<int>, targetMs: Option<int>, nowMs: int): (r: int)
    ensures initialSeconds.Some? ==> r == initialSeconds.value
    ensures initialSeconds.None? ==> r >= 0
    ensures initialSeconds.None? && targetMs.None? ==> r == 0
    ensures initialSeconds.None? && targetMs.Some? && targetMs.value >= nowMs ==>
              r * 1000 <= targetMs.value - nowMs < (r + 1) * 1000
    ensures initialSeconds.None? && targetMs.Some? && targetMs.value < nowMs + 1000 ==> r == 0
  {
    if initialSeconds.Some? then initialSeconds.value
    else if targetMs.None? then 0
    else
      var difference := targetMs.value - nowMs;
      var whole := difference / 1000;
      if whole > 0 then whole else 0
  }

  /** `isUrgent`: under five minutes left, and not yet at zero. */
  predicate IsUrgent(timeLeft: int) {
    timeLeft < 300 && timeLeft > 0
  }

  /** An urgent count is shown as "M:SS" with fewer than five minutes. */
  lemma UrgentShowsMinutes(timeLeft: int)
    requires IsUrgent(timeLeft)
    ensures var p := TimeParts(timeLeft);
            && FormatTime(timeLeft) == ToText(p.minutes) + ":" + Pad2(ToText(p.secs))
            && 0 <= p.minutes < 5
  {
    TimePartsDecompose(timeLeft);
    assert FormatTime(timeLeft) == FormatParts(TimeParts(timeLeft));
  }

  /** The state the component keeps: the seconds shown, whether the
      interval is still running, and how often `onEnd` has been called. */
  class Countdown {
    var timeLeft: int
    var running: bool
    var endCalls: nat

    /** The effect that starts the interval. */
    constructor (initialSeconds: Option<int>, targetMs: Option<int>, nowMs: int)
      ensures timeLeft == CalculateTimeLeft(initialSeconds, targetMs, nowMs)
      ensures running && endCalls == 0
    {
      timeLeft := CalculateTimeLeft(initialSeconds, targetMs, nowMs);
      running := true;
      endCalls := 0;
    }

    /** One interval callback: count down by one, or at one or below stop
      at zero, clear the interval and call `onEnd`. */
    method Tick()
      requires running
      modifies this
      ensures old(timeLeft) <= 1 ==> timeLeft == 0 && !running && endCalls == old(endCalls) + 1
      ensures old(timeLeft) > 1 ==> timeLeft == old(timeLeft) - 1 && running && endCalls == old(endCalls)
    {
      if timeLeft <= 1 {
        running := false;
        endCalls := endCalls + 1;
        timeLeft := 0;
      } else {
        timeLeft := timeLeft - 1;
      }
    }

    /** Ticking until the interval is cleared: it takes as many ticks as
      there were seconds (one for a count of one or less), ends at zero and
      calls `onEnd` exactly once. */
    method RunToEnd() returns (ticks: nat)
      requires running
      modifies this
      ensures ticks == if old(timeLeft) <= 1 then 1 else old(timeLeft)
      ensures timeLeft == 0 && !running && endCalls == old(endCalls) + 1
    {
      ticks := 0;
      while running
        invariant running ==> timeLeft >= 1 || ticks == 0
        invariant running ==> endCalls == old(endCalls)
        invariant running && ticks > 0 ==> timeLeft == old(timeLeft) - ticks
        invariant running && ticks == 0 ==> timeLeft == old(timeLeft)
        invariant !running ==> timeLeft == 0 && endCalls == old(endCalls) + 1
                               && ticks == (if old(timeLeft) <= 1 then 1 else old(timeLeft))
        decreases running, if timeLeft > 0 then timeLeft else 0
      {
        Tick();
        ticks := ticks + 1;
      }
    }
  }

  /** A negative starting count is shown as is for its first second:
      -5 seconds reads "-1:-5". */
  lemma NegativeCountShown()
    ensures FormatTime(-5) == "-1:-5"
  {
    assert TimeParts(-5) == Parts(-1, -1, -1, -5);
    assert Digits(1) == "1" && Digits(5) == "5";
  }
}
