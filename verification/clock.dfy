/**
 * "HH:MM" clock labels: the 15-minute slot grid that the schedule page and the week
 * calendar both draw, and the end-time arithmetic of the week calendar.
 */
module Clock {
  import opened Options
  import opened Text

  /** `${h.toString().padStart(2, '0')}:${m.toString().padStart(2, '0')}`. */
  function Label(h: nat, m: nat): string {
    PadStart2(NatToString(h)) + ":" + PadStart2(NatToString(m))
  }

  /** Index of the first ':' in `s`, if any. */
  function ColonIndex(s: string): (r: Option<nat>)
    ensures r.Some? ==> r.value < |s| && s[r.value] == ':'
  {
    if |s| == 0 then None
    else if s[0] == ':' then Some(0)
    else match ColonIndex(s[1..])
      case None => None
      case Some(k) => Some(k + 1)
  }

  /**
   * `start.split(':').map(Number)` for a label made of two non-empty digit runs around one
   * colon: the hour and minute numbers. Other shapes that `Number` still reads (an empty
   * part, surrounding spaces, a third part) are not read here.
   */
  function ParseClock(s: string): (r: Option<(nat, nat)>)
    ensures r.Some? ==> exists k :: (0 < k < |s| - 1 && s[k] == ':' && AllDigits(s[..k]) && AllDigits(s[k + 1..])
      && r.value == (DigitsValue(s[..k]), DigitsValue(s[k + 1..])))
  {
    match ColonIndex(s)
    case None => None
    case Some(k) =>
      var a := s[..k];
      var b := s[k + 1..];
      if |a| > 0 && |b| > 0 && AllDigits(a) && AllDigits(b) then Some((DigitsValue(a), DigitsValue(b)))
      else None
  }

  lemma ColonIndexOfLabel(a: string, b: string)
    requires AllDigits(a)
    ensures ColonIndex(a + ":" + b) == Some(|a|)
  {
    if |a| > 0 {
      assert (a + ":" + b)[1..] == a[1..] + ":" + b;
      ColonIndexOfLabel(a[1..], b);
    }
  }

  /** Reading a label back yields the hour and minute it was built from. */
  lemma LabelRoundTrip(h: nat, m: nat)
    ensures ParseClock(Label(h, m)) == Some((h, m))
  {
    var a := PadStart2(NatToString(h));
    var b := PadStart2(NatToString(m));
    PadNatValue(h);
    PadNatValue(m);
    ColonIndexOfLabel(a, b);
    var s := a + ":" + b;
    assert s[..|a|] == a;
    assert s[|a| + 1..] == b;
  }

  // ---- the slot grid ----------------------------------------------------------

  /** Grid slot `k`: hour `8 + k / 4`, minute `15 * (k % 4)`. */
  function GridLabel(k: nat): string {
    Label(8 + k / 4, (k % 4) * 15)
  }

  /** The reference grid: 40 quarter-hour labels, from 08:00 to 17:45. */
  function SlotGrid(): (r: seq<string>)
    ensures |r| == 40
    ensures forall i :: 0 <= i < 40 ==> r[i] == GridLabel(i)
  {
    seq(40, i requires 0 <= i < 40 => GridLabel(i))
  }

  /** Slot `4 * (hour - 8) + q` is the label of `hour` and minute `15 * q`. */
  lemma GridSlotOf(k: nat, hour: nat, q: nat, minute: nat)
    requires 8 <= hour && q < 4 && minute == q * 15
    requires k == (hour - 8) * 4 + q
    ensures GridLabel(k) == Label(hour, minute)
  {
    assert 8 + k / 4 == hour && (k % 4) * 15 == minute;
  }

  /** Appending grid slot `n` to the first `n` slots gives the first `n + 1`. */
  lemma GridPrefixStep(n: nat)
    requires n < 40
    ensures SlotGrid()[..n] + [GridLabel(n)] == SlotGrid()[..n + 1]
  {
    assert SlotGrid()[..n + 1] == SlotGrid()[..n] + [SlotGrid()[n]];
  }

  /**
   * `generateTimeSlots`: for hour 8..17, for minute 0, 15, 30, 45, push the padded label.
   */
  method GenerateTimeSlots() returns (slots: seq<string>)
    ensures slots == SlotGrid()
  {
    slots := [];
    var hour := 8;
    while hour < 18
      invariant 8 <= hour <= 18
      invariant |slots| == (hour - 8) * 4
      invariant slots == SlotGrid()[..|slots|]
    {
      var minute := 0;
      ghost var q := 0;
      while minute < 60
        invariant 0 <= q <= 4 && minute == q * 15
        invariant |slots| == (hour - 8) * 4 + q
        invariant slots == SlotGrid()[..|slots|]
      {
        GridSlotOf(|slots|, hour, q, minute);
        GridPrefixStep(|slots|);
        slots := slots + [Label(hour, minute)];
        minute := minute + 15;
        q := q + 1;
      }
      hour := hour + 1;
    }
    assert SlotGrid()[..40] == SlotGrid();
  }

  /** Minutes since midnight of grid slot `i`. */
  function SlotMinutes(i: nat): nat { 480 + 15 * i }

  /** Each grid label reads back as 08:00 plus 15 minutes per slot, with minutes below 60. */
  lemma SlotGridTimes()
    ensures forall i :: 0 <= i < 40 ==>
      ParseClock(SlotGrid()[i]).Some?
      && ParseClock(SlotGrid()[i]).value.0 * 60 + ParseClock(SlotGrid()[i]).value.1 == SlotMinutes(i)
      && ParseClock(SlotGrid()[i]).value.1 < 60
  {
    forall i | 0 <= i < 40
      ensures ParseClock(SlotGrid()[i]) == Some((8 + i / 4, (i % 4) * 15))
    {
      LabelRoundTrip(8 + i / 4, (i % 4) * 15);
    }
  }

  /** Grid labels are pairwise distinct, so an equality test against them matches at most one slot. */
  lemma SlotGridDistinct()
    ensures forall i, j :: 0 <= i < j < 40 ==> SlotGrid()[i] != SlotGrid()[j]
  {
    SlotGridTimes();
  }

  lemma SlotGridEnds()
    ensures SlotGrid()[0] == "08:00" && SlotGrid()[39] == "17:45"
  {
    assert NatToString(8) == "8";
    assert NatToString(0) == "0";
    assert NatToString(17) == "17" by {
      assert NatToString(1) == "1";
      assert NatToString(7) == "7";
    }
    assert NatToString(45) == "45" by {
      assert NatToString(4) == "4";
      assert NatToString(5) == "5";
    }
  }

  // ---- string order of the labels ---------------------------------------------

  /** JavaScript's `<` on strings (code-unit order; the labels are ASCII). */
  predicate StringLess(a: string, b: string)
    decreases |a|
  {
    (|a| == 0 && |b| > 0)
    || (|a| > 0 && |b| > 0 && (a[0] < b[0] || (a[0] == b[0] && StringLess(a[1..], b[1..]))))
  }

  lemma TwoDigits(n: nat)
    requires n < 100
    ensures PadStart2(NatToString(n)) == [DigitChar(n / 10), DigitChar(n % 10)]
  {
    if n >= 10 {
      assert NatToString(n / 10) == [DigitChar(n / 10)];
    }
  }

  lemma LabelChars(h: nat, m: nat)
    requires h < 100 && m < 100
    ensures Label(h, m) == [DigitChar(h / 10), DigitChar(h % 10), ':', DigitChar(m / 10), DigitChar(m % 10)]
  {
    TwoDigits(h);
    TwoDigits(m);
  }

  /** Two-digit labels compare as strings exactly as their times compare. */
  lemma {:induction false} LabelOrder(h1: nat, m1: nat, h2: nat, m2: nat)
    requires h1 < 100 && m1 < 100 && h2 < 100 && m2 < 100
    requires h1 < h2 || (h1 == h2 && m1 < m2)
    ensures StringLess(Label(h1, m1), Label(h2, m2))
  {
    LabelChars(h1, m1);
    LabelChars(h2, m2);
    var a := Label(h1, m1);
    var b := Label(h2, m2);
    assert a[1..][1..][1..][1..] == [DigitChar(m1 % 10)];
    assert b[1..][1..][1..][1..] == [DigitChar(m2 % 10)];
    if h1 / 10 < h2 / 10 {
      assert a[0] < b[0];
    } else if h1 / 10 == h2 / 10 && h1 % 10 < h2 % 10 {
      assert a[0] == b[0] && a[1] < b[1];
      assert StringLess(a[1..], b[1..]);
    } else {
      assert h1 == h2;
      assert a[..3] == b[..3];
      if m1 / 10 < m2 / 10 {
        assert StringLess(a[1..][1..][1..], b[1..][1..][1..]);
      } else {
        assert m1 / 10 == m2 / 10 && m1 % 10 < m2 % 10;
        assert StringLess(a[1..][1..][1..][1..], b[1..][1..][1..][1..]);
        assert StringLess(a[1..][1..][1..], b[1..][1..][1..]);
      }
      assert StringLess(a[1..][1..], b[1..][1..]);
      assert StringLess(a[1..], b[1..]);
    }
  }

  /** A later slot has a later hour, or the same hour and a later minute. */
  lemma GridOrder(i: nat, j: nat)
    requires i < j < 40
    ensures StringLess(GridLabel(i), GridLabel(j))
  {
    assert i / 4 < j / 4 || (i / 4 == j / 4 && i % 4 < j % 4);
    LabelOrder(8 + i / 4, (i % 4) * 15, 8 + j / 4, (j % 4) * 15);
  }

  /** The grid labels are strictly increasing as strings. */
  lemma SlotGridIncreasing()
    ensures forall i, j :: 0 <= i < j < 40 ==> StringLess(SlotGrid()[i], SlotGrid()[j])
  {
    forall i, j | 0 <= i < j < 40
      ensures StringLess(SlotGrid()[i], SlotGrid()[j])
    {
      GridOrder(i, j);
    }
  }

  // ---- end-time arithmetic ----------------------------------------------------

  /** JavaScript `a % b` for `b > 0`: the remainder takes the sign of `a`. */
  function JsRem(a: int, b: int): (r: int)
    requires b > 0
    ensures a >= 0 ==> r == a % b
    ensures a < 0 ==> r <= 0 && -r == (-a) % b
    ensures -b < r < b
  {
    if a >= 0 then a % b else -((-a) % b)
  }

  /** The label `calculateEndTime` renders for `total` minutes since midnight. */
  function EndLabel(total: int): string {
    PadStart2(IntToString(total / 60)) + ":" + PadStart2(IntToString(JsRem(total, 60)))
  }

  /** For a non-negative total the rendering is the ordinary label of its hours and minutes. */
  lemma EndLabelOfNat(total: int)
    requires total >= 0
    ensures EndLabel(total) == Label(total / 60, total % 60)
  {
    assert JsRem(total, 60) == total % 60;
    assert IntToString(total / 60) == NatToString(total / 60);
    assert IntToString(total % 60) == NatToString(total % 60);
  }

  /** `hours * 60 + minutes` of a well-formed start label. */
  function StartMinutes(start: string): nat
    requires ParseClock(start).Some?
  {
    ParseClock(start).value.0 * 60 + ParseClock(start).value.1
  }

  /**
   * `calculateEndTime(startTime, duration)`: hours are `Math.floor(total / 60)` and minutes
   * `total % 60`, each rendered with `toString().padStart(2, '0')`; hours are not wrapped at 24.
   * For a total that is not negative this is the ordinary label of the total's hours and
   * minutes, and it reads back as exactly those.
   */
  function CalculateEndTime(start: string, duration: int): (r: string)
    requires ParseClock(start).Some?
    ensures var total := StartMinutes(start) + duration;
      total >= 0 ==> r == Label(total / 60, total % 60)
    ensures var total := StartMinutes(start) + duration;
      total >= 0 ==> ParseClock(r) == Some((total / 60, total % 60))
  {
    EndTimeOfTotal(StartMinutes(start) + duration)
  }

  /** The end label of `total` minutes since midnight. */
  function EndTimeOfTotal(total: int): (r: string)
    ensures total >= 0 ==> r == Label(total / 60, total % 60)
    ensures total >= 0 ==> ParseClock(r) == Some((total / 60, total % 60))
  {
    if total >= 0 then
      EndLabelOfNat(total);
      LabelRoundTrip(total / 60, total % 60);
      EndLabel(total)
    else EndLabel(total)
  }

  /**
   * The end time may run past midnight: once the total reaches 24 hours the rendered hour
   * is 24 or more (23:45 plus 45 minutes is "24:30", not "00:30").
   */
  lemma EndTimeNotWrapped(start: string, duration: int)
    requires ParseClock(start).Some?
    requires StartMinutes(start) + duration >= 24 * 60
    ensures ParseClock(CalculateEndTime(start, duration)).Some?
    ensures ParseClock(CalculateEndTime(start, duration)).value.0 >= 24
  {
    var total := StartMinutes(start) + duration;
    assert ParseClock(CalculateEndTime(start, duration)) == Some((total / 60, total % 60));
  }
}
