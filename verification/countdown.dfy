/** The giveaway countdown of `src/app/page.tsx`: `updateCountdown` splits the
    milliseconds left into days, hours, minutes and seconds (lines 16-31), and
    each value is shown left-padded with zeros to two digits (lines 114, 119,
    124, 129). The clock reading is a parameter. */
module Countdown {
  import opened Text

  const MsPerSecond: nat := 1000
  const MsPerMinute: nat := 60000
  const MsPerHour: nat := 3600000
  const MsPerDay: nat := 86400000

  datatype Parts = Parts(days: nat, hours: nat, minutes: nat, seconds: nat)

  /** The milliseconds the parts stand for. */
  function Total(p: Parts): nat
  {
    p.days * MsPerDay + p.hours * MsPerHour + p.minutes * MsPerMinute + p.seconds * MsPerSecond
  }

  /** Parts within their ranges: hours below 24, minutes and seconds below 60. */
  predicate Normal(p: Parts)
  {
    p.hours < 24 && p.minutes < 60 && p.seconds < 60
  }

  /** `updateCountdown` for `diff = target - now`. For a positive `diff` the floors
      and remainders of JavaScript agree with Dafny's, both operands being positive. */
  function Decompose(diff: int): (p: Parts)
    ensures Normal(p)
    ensures diff <= 0 ==> p == Parts(0, 0, 0, 0)
    ensures diff > 0 ==> Total(p) <= diff < Total(p) + MsPerSecond
  {
    if diff <= 0 then Parts(0, 0, 0, 0)
    else
      var p := Parts(diff / MsPerDay, (diff % MsPerDay) / MsPerHour,
                     (diff % MsPerHour) / MsPerMinute, (diff % MsPerMinute) / MsPerSecond);
      DecomposeBounds(diff);
      p
  }

  lemma DecomposeBounds(diff: nat)
    ensures (diff % MsPerDay) / MsPerHour < 24
    ensures (diff % MsPerHour) / MsPerMinute < 60
    ensures (diff % MsPerMinute) / MsPerSecond < 60
    ensures var t := (diff / MsPerDay) * MsPerDay + ((diff % MsPerDay) / MsPerHour) * MsPerHour
                     + ((diff % MsPerHour) / MsPerMinute) * MsPerMinute + ((diff % MsPerMinute) / MsPerSecond) * MsPerSecond;
            t <= diff < t + MsPerSecond
  {
    var d := diff / MsPerDay;
    var rd := diff % MsPerDay;
    var h := rd / MsPerHour;
    var rh := rd % MsPerHour;
    assert diff == d * MsPerDay + rd;
    assert rd == h * MsPerHour + rh;
    assert diff % MsPerHour == rh by {
      assert diff == (d * 24 + h) * MsPerHour + rh;
    }
    var m := rh / MsPerMinute;
    var rm := rh % MsPerMinute;
    assert rh == m * MsPerMinute + rm;
    assert diff % MsPerMinute == rm by {
      assert diff == ((d * 24 + h) * 60 + m) * MsPerMinute + rm;
    }
    var s := rm / MsPerSecond;
    assert rm == s * MsPerSecond + rm % MsPerSecond;
  }

  /** The decomposition is the only one in range that reconstructs the gap to within
      a second. */
  lemma DecomposeUnique(diff: int, p: Parts)
    requires diff > 0 && Normal(p)
    requires Total(p) <= diff < Total(p) + MsPerSecond
    ensures Decompose(diff) == p
  {
    var q := Decompose(diff);
    NormalTotalUnique(p, q);
  }

  /** Two normal decompositions whose totals lie within the same second are equal. */
  lemma NormalTotalUnique(p: Parts, q: Parts)
    requires Normal(p) && Normal(q)
    requires Total(p) <= Total(q) + MsPerSecond - 1 && Total(q) <= Total(p) + MsPerSecond - 1
    ensures p == q
  {
    var sp := SecondsOf(p);
    var sq := SecondsOf(q);
    assert Total(p) == sp * 1000 && Total(q) == sq * 1000;
    assert sp == sq;
    DigitsUnique(p, q);
  }

  /** The whole seconds the parts stand for. */
  function SecondsOf(p: Parts): nat
  {
    ((p.days * 24 + p.hours) * 60 + p.minutes) * 60 + p.seconds
  }

  lemma DigitsUnique(p: Parts, q: Parts)
    requires Normal(p) && Normal(q) && SecondsOf(p) == SecondsOf(q)
    ensures p == q
  {
    var a := (p.days * 24 + p.hours) * 60 + p.minutes;
    var b := (q.days * 24 + q.hours) * 60 + q.minutes;
    MixedRadix(a, p.seconds, b, q.seconds, 60);
    MixedRadix(p.days * 24 + p.hours, p.minutes, q.days * 24 + q.hours, q.minutes, 60);
    MixedRadix(p.days, p.hours, q.days, q.hours, 24);
  }

  /** A number written with a last digit below `base` has one such writing. */
  lemma MixedRadix(a: nat, x: nat, b: nat, y: nat, base: nat)
    requires x < base && y < base && a * base + x == b * base + y
    ensures a == b && x == y
  {
    assert (a - b) * base == y - x;
    ProductBound(a - b, base);
  }

  lemma ProductBound(k: int, base: nat)
    ensures k >= 1 ==> k * base >= base
    ensures k <= -1 ==> k * base <= -(base as int)
  {
    if k >= 1 {
      assert k * base == (k - 1) * base + base;
    } else if k <= -1 {
      assert k * base == (k + 1) * base - base;
      assert (-(k + 1)) * base >= 0;
    }
  }

  /** `String(n).padStart(2, '0')`. */
  function Pad2(n: nat): (s: string)
    ensures |s| >= 2
    ensures forall i :: 0 <= i < |s| ==> IsDigit(s[i])
    ensures ParseDecimal(s) == n
    ensures n < 100 ==> |s| == 2
    ensures n >= 100 ==> s == Decimal(n)
  {
    var d := Decimal(n);
    DecimalFacts(n);
    if n < 10 then "0" + d else d
  }

  /** The length of a decimal rendering on each side of 10 and 100. */
  lemma DecimalFacts(n: nat)
    ensures n < 10 ==> |Decimal(n)| == 1 && ParseDecimal("0" + Decimal(n)) == n
    ensures 10 <= n < 100 ==> |Decimal(n)| == 2
    ensures n >= 10 ==> |Decimal(n)| >= 2
  {
    var d := Decimal(n);
    if n < 10 {
      ParseLeadingZero(d);
    } else {
      if n < 100 {
        DecimalLength(n, 1);
      }
    }
  }

  /** The four fields as shown, e.g. `02:05:09:30`. */
  function Display(p: Parts): (shown: seq<string>)
    ensures |shown| == 4
    ensures Normal(p) ==> forall i :: 1 <= i < 4 ==> |shown[i]| == 2
  {
    [Pad2(p.days), Pad2(p.hours), Pad2(p.minutes), Pad2(p.seconds)]
  }

  /** Reading the shown fields back gives the parts. */
  lemma DisplayReadsBack(p: Parts)
    ensures var shown := Display(p);
            ParseDecimal(shown[0]) == p.days && ParseDecimal(shown[1]) == p.hours
            && ParseDecimal(shown[2]) == p.minutes && ParseDecimal(shown[3]) == p.seconds
  {
  }

  /** Example: one day, one hour, one minute and a second and a half. */
  lemma DecomposeExample()
    ensures Decompose(90061500) == Parts(1, 1, 1, 1)
  {
    DecomposeUnique(90061500, Parts(1, 1, 1, 1));
  }
}
