/**
 The `MM:SS` display of a timer: `formatTime` in the timer component, and
 the reading of such a display back into seconds.
 */
module Clock {
  import opened Decimal

  /** JavaScript's remainder by 60, which truncates: the result carries the sign of the dividend. */
  function JsRem60(a: int): (r: int)
    ensures a >= 0 ==> 0 <= r < 60 && r == a % 60
    ensures a < 0 ==> -60 < r <= 0 && (a - r) % 60 == 0
  {
    if a >= 0 then a % 60 else -((-a) % 60)
  }

  /** `n` zero characters. */
  function Zeros(n: nat): (z: string)
    ensures |z| == n
    ensures forall i :: 0 <= i < n ==> z[i] == '0'
  {
    seq(n, _ => '0')
  }

  /** Left padding with '0': zeros in front until `s` is `width` long; a longer `s` is kept as it is. */
  function PadStart(s: string, width: nat): (r: string)
    ensures |r| == if |s| >= width then |s| else width
    ensures r[|r| - |s|..] == s
    ensures forall i :: 0 <= i < |r| - |s| ==> r[i] == '0'
  {
    if |s| >= width then s else Zeros(width - |s|) + s
  }

  /** Leading zeros do not change the value of a digit string. */
  lemma {:induction false} ZerosValue(n: nat, s: string)
    requires AllDigits(s)
    ensures AllDigits(Zeros(n) + s)
    ensures DigitsValue(Zeros(n) + s) == DigitsValue(s)
    decreases n
  {
    if n > 0 {
      ZerosValue(n - 1, s);
      assert Zeros(n) + s == ['0'] + (Zeros(n - 1) + s);
      LeadingZeroValue(Zeros(n - 1) + s);
    } else {
      assert Zeros(n) + s == s;
    }
  }

  /** Zero padding keeps a digit string a digit string, with the same value. */
  lemma PadStartValue(s: string, width: nat)
    requires AllDigits(s)
    ensures AllDigits(PadStart(s, width))
    ensures DigitsValue(PadStart(s, width)) == DigitsValue(s)
  {
    if |s| < width {
      ZerosValue(width - |s|, s);
    }
  }

  /** The timer display: whole minutes, a colon, the remaining seconds, each padded to two digits. */
  function FormatTime(t: int): string {
    PadStart(IntToString(t / 60), 2) + ":" + PadStart(IntToString(JsRem60(t)), 2)
  }

  /** A display a reader can take apart: digits, a colon, exactly two digits. */
  predicate WellFormedClock(s: string) {
    |s| >= 5 && s[|s| - 3] == ':' && AllDigits(s[..|s| - 3]) && AllDigits(s[|s| - 2..])
  }

  function ClockMinutes(s: string): nat
    requires WellFormedClock(s)
  {
    DigitsValue(s[..|s| - 3])
  }

  function ClockSeconds(s: string): nat
    requires WellFormedClock(s)
  {
    DigitsValue(s[|s| - 2..])
  }

  /** The number of seconds a reader takes a display to show. */
  function ClockValue(s: string): nat
    requires WellFormedClock(s)
  {
    60 * ClockMinutes(s) + ClockSeconds(s)
  }

  /** A display built from a digit field of two or more, a colon and two digits reads back field by field. */
  lemma ClockOfParts(mm: string, ss: string)
    requires AllDigits(mm) && |mm| >= 2 && AllDigits(ss) && |ss| == 2
    ensures WellFormedClock(mm + ":" + ss)
    ensures ClockMinutes(mm + ":" + ss) == DigitsValue(mm)
    ensures ClockSeconds(mm + ":" + ss) == DigitsValue(ss)
  {
    var r := mm + ":" + ss;
    assert r[..|r| - 3] == mm;
    assert r[|r| - 2..] == ss;
  }

  /**
   For every non-negative time the display splits into minutes `t / 60` and
   seconds `t % 60 < 60`, and reading it back gives `t` again.
   */
  lemma FormatTimeReadsBack(t: int)
    requires t >= 0
    ensures WellFormedClock(FormatTime(t))
    ensures ClockMinutes(FormatTime(t)) == t / 60
    ensures ClockSeconds(FormatTime(t)) == t % 60 < 60
    ensures ClockValue(FormatTime(t)) == t
  {
    var m, sec := t / 60, t % 60;
    assert JsRem60(t) == sec;
    var mm := PadStart(NatToString(m), 2);
    var ss := PadStart(NatToString(sec), 2);
    assert FormatTime(t) == mm + ":" + ss;
    assert |NatToString(sec)| <= 2;
    PadStartValue(NatToString(m), 2);
    PadStartValue(NatToString(sec), 2);
    NatToStringRoundTrip(m);
    NatToStringRoundTrip(sec);
    ClockOfParts(mm, ss);
  }

  /** Below 100 minutes, which covers every duration the edit dialog accepts, the display is exactly `MM:SS`. */
  lemma FormatTimeIsFiveChars(t: int)
    requires 0 <= t < 6000
    ensures |FormatTime(t)| == 5
  {
    assert JsRem60(t) == t % 60;
    assert |NatToString(t / 60)| <= 2;
    assert |NatToString(t % 60)| <= 2;
  }
}
