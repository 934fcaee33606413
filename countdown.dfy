/**
 * The primary-election countdown of js/main.js (`updatePrimaryCountdown`): the milliseconds left
 * until the primary are split into whole days, hours and minutes, and every countdown element not
 * flagged `data-custom` shows the number of days.
 */
module Countdown {
  import opened JsText

  /** `1000 * 60`, `1000 * 60 * 60` and `1000 * 60 * 60 * 24` milliseconds. */
  const MsPerMinute: nat := 60000
  const MsPerHour: nat := 3600000
  const MsPerDay: nat := 86400000

  /** The three values the handler computes. */
  datatype Remaining = Remaining(days: nat, hours: nat, minutes: nat)

  /**
   * The arithmetic of the handler for `diff = primaryDate - now`, in whole milliseconds: None when
   * `diff <= 0`, where the handler updates nothing. For a positive `diff`, `Math.floor` of the
   * quotient and JavaScript's `%` agree with Dafny's `/` and `%`.
   */
  function CountdownOf(diff: int): Option<Remaining> {
    if diff <= 0 then None
    else Some(Remaining(diff / MsPerDay, (diff % MsPerDay) / MsPerHour, (diff % MsPerHour) / MsPerMinute))
  }

  /** The milliseconds a number of days, hours and minutes stand for. */
  function Total(r: Remaining): nat {
    r.days * MsPerDay + r.hours * MsPerHour + r.minutes * MsPerMinute
  }

  lemma HourOfDayRemainder(x: nat)
    ensures (x % MsPerDay) % MsPerHour == x % MsPerHour
  {
    var q := x / MsPerDay;
    var r := x % MsPerDay;
    var q2 := r / MsPerHour;
    var r2 := r % MsPerHour;
    assert x == MsPerHour * (24 * q + q2) + r2;
  }

  /**
   * For a positive difference the hours lie in [0, 24), the minutes in [0, 60), and days, hours and
   * minutes account for the difference up to less than one minute.
   */
  lemma CountdownBounds(diff: int)
    requires diff > 0
    ensures CountdownOf(diff).Some?
    ensures var r := CountdownOf(diff).value;
      r.hours < 24 && r.minutes < 60 && Total(r) <= diff < Total(r) + MsPerMinute
  {
    var r := CountdownOf(diff).value;
    HourOfDayRemainder(diff);
    var a := diff % MsPerDay;
    assert diff == r.days * MsPerDay + a;
    assert a == r.hours * MsPerHour + a % MsPerHour;
    var b := diff % MsPerHour;
    assert b == r.minutes * MsPerMinute + b % MsPerMinute;
  }

  /**
   * The bounds determine the values: any days, hours and minutes that account for a positive
   * difference up to less than one minute, with hours below 24 and minutes below 60, are the ones
   * the handler computes.
   */
  lemma CountdownUnique(diff: int, r: Remaining)
    requires diff > 0 && r.hours < 24 && r.minutes < 60
    requires Total(r) <= diff < Total(r) + MsPerMinute
    ensures CountdownOf(diff) == Some(r)
  {
    var rest := diff - r.days * MsPerDay;
    assert 0 <= rest < MsPerDay;
    assert diff / MsPerDay == r.days;
    assert diff % MsPerDay == rest;
    var rest2 := rest - r.hours * MsPerHour;
    assert 0 <= rest2 < MsPerHour;
    assert rest / MsPerHour == r.hours;
    HourOfDayRemainder(diff);
    assert diff % MsPerHour == rest2;
    assert rest2 / MsPerMinute == r.minutes;
  }

  /** A countdown element: whether it is flagged `data-custom`, and its text. */
  class CountdownElement {
    const custom: bool
    var textContent: string

    constructor (custom: bool, text: string)
      ensures this.custom == custom && textContent == text
    {
      this.custom := custom;
      textContent := text;
    }
  }

  /**
   * One run of the handler: for a positive difference every element not flagged custom shows the
   * number of days; otherwise nothing changes.
   */
  method UpdatePrimaryCountdown(els: seq<CountdownElement>, diff: int)
    modifies els
    ensures forall i :: 0 <= i < |els| ==>
      els[i].textContent == if diff > 0 && !els[i].custom then DecimalString(CountdownOf(diff).value.days)
        else old(els[i].textContent)
  {
    if diff > 0 {
      var days := diff / MsPerDay;
      var k := 0;
      while k < |els|
        invariant 0 <= k <= |els|
        invariant forall i :: 0 <= i < k ==>
          els[i].textContent == if !els[i].custom then DecimalString(days) else old(els[i].textContent)
        invariant forall i :: k <= i < |els| ==>
          els[i].textContent == if !els[i].custom && els[i] in els[..k] then DecimalString(days) else old(els[i].textContent)
      {
        if !els[k].custom {
          els[k].textContent := DecimalString(days);
        }
        k := k + 1;
      }
    }
  }
}
