/**
 * The statistics counters of js/main.js (`animateCounters`): a counter's text is split around its
 * first run of digits into a prefix, the number and a suffix, the counter is flagged so that it runs
 * only once, and its text ends as prefix + number + suffix.
 */
module Counters {
  import opened JsText

  /** `/\\d/.test(text)`. */
  predicate HasDigit(text: string) {
    exists j :: 0 <= j < |text| && IsDigit(text[j])
  }

  /** The index of the first digit at or after `from`. */
  function FirstDigitFrom(text: string, from: nat): (r: Option<nat>)
    requires from <= |text|
    ensures r.Some? ==> from <= r.value < |text| && IsDigit(text[r.value])
    ensures r.Some? ==> forall j :: from <= j < r.value ==> !IsDigit(text[j])
    ensures r.None? ==> forall j :: from <= j < |text| ==> !IsDigit(text[j])
    decreases |text| - from
  {
    if from == |text| then None
    else if IsDigit(text[from]) then Some(from)
    else FirstDigitFrom(text, from + 1)
  }

  /** The maximal run of digits starting at `m`. */
  function DigitRun(text: string, m: nat): (d: string)
    requires m < |text| && IsDigit(text[m])
    ensures 0 < |d| && m + |d| <= |text| && AllDigits(d)
    ensures text[m..m + |d|] == d
    ensures m + |d| < |text| ==> !IsDigit(text[m + |d|])
  {
    var rest := text[m..];
    var k := LeadingDigits(rest);
    assert rest[0] == text[m];
    assert rest[..k] == text[m..m + k];
    rest[..k]
  }

  /** A run of digits starting at the first digit of the text occurs nowhere before it. */
  lemma FirstOccurrenceOfRun(text: string, m: nat)
    requires m < |text| && IsDigit(text[m])
    requires forall j :: 0 <= j < m ==> !IsDigit(text[j])
    ensures IndexOf(text, DigitRun(text, m), 0) == Some(m)
  {
    var d := DigitRun(text, m);
    forall j | 0 <= j < m
      ensures !OccursAt(text, d, j)
    {
      if j + |d| <= |text| {
        assert text[j..j + |d|][0] == text[j];
      }
    }
    IndexOfFirst(text, d, m);
  }

  /** The pieces the counter code computes from its text. */
  datatype CounterParts = CounterParts(target: nat, prefix: string, digits: string, suffix: string)

  /**
   * `match = text.match(/(\d+)/)` gives `digits`, the first maximal run of digits;
   * `target = parseInt(match[0])`; `prefix = text.split(match[0])[0]`;
   * `suffix = text.split(match[0])[1] || ''`. None when the text has no digit.
   */
  function ParseCounter(text: string): Option<CounterParts> {
    match FirstDigitFrom(text, 0)
    case None => None
    case Some(m) =>
      var digits := DigitRun(text, m);
      var suffix := match SplitSecond(text, digits)
        case None => ""
        case Some(x) => x;
      Some(CounterParts(DigitsValue(digits), SplitHead(text, digits), digits, suffix))
  }

  /** The text the counter shows once its animation is over: `prefix + target + suffix`. */
  function FinalText(text: string): string {
    match ParseCounter(text)
    case None => text
    case Some(p) => p.prefix + DecimalString(p.target) + p.suffix
  }

  /** The counter code takes its branch exactly when the text has a digit. */
  lemma ParseCounterDefinedIff(text: string)
    ensures ParseCounter(text).Some? <==> HasDigit(text)
  {
  }

  /** Unfolds `ParseCounter` once the first digit is known to be at `m`. */
  lemma ParseCounterAt(text: string, m: nat)
    requires FirstDigitFrom(text, 0) == Some(m)
    ensures ParseCounter(text).Some?
    ensures var p := ParseCounter(text).value;
      p.digits == DigitRun(text, m) && p.prefix == text[..m] && p.target == DigitsValue(p.digits)
  {
    var d := DigitRun(text, m);
    FirstOccurrenceOfRun(text, m);
    assert SplitHead(text, d) == text[..m];
  }

  /**
   * When `text` has a digit, its first one is at `m`, and `digits` is the maximal run starting
   * there: the prefix is the text before `m`, free of digits, and the target is the run's value.
   */
  lemma ParseCounterParts(text: string) returns (m: nat, p: CounterParts)
    requires HasDigit(text)
    ensures ParseCounter(text) == Some(p)
    ensures m + |p.digits| <= |text| && |p.digits| > 0
    ensures p.prefix == text[..m]
    ensures forall j :: 0 <= j < m ==> !IsDigit(text[j])
    ensures text[m..m + |p.digits|] == p.digits && AllDigits(p.digits)
    ensures m + |p.digits| < |text| ==> !IsDigit(text[m + |p.digits|])
    ensures p.target == DigitsValue(p.digits)
    ensures IndexOf(text, p.digits, 0) == Some(m)
  {
    assert FirstDigitFrom(text, 0).Some? by {
      var w :| 0 <= w < |text| && IsDigit(text[w]);
    }
    m := FirstDigitFrom(text, 0).value;
    ParseCounterAt(text, m);
    p := ParseCounter(text).value;
    assert IndexOf(text, p.digits, 0) == Some(m) by {
      FirstOccurrenceOfRun(text, m);
    }
  }

  /** The counter's target is what `parseInt` makes of its run of digits. */
  lemma CounterTargetIsParseInt(text: string)
    requires HasDigit(text)
    ensures var p := ParseCounter(text).value;
      ParseInt(p.digits) == Some(p.target)
  {
    var m, p := ParseCounterParts(text);
    ParseIntOfDigits(p.digits);
  }

  /**
   * Prefix, digits and suffix put back together give the text exactly when the run of digits does
   * not occur again after its first occurrence.
   */
  lemma RebuildIffSingleOccurrence(text: string)
    requires HasDigit(text)
    ensures var p := ParseCounter(text).value;
      |p.prefix| + |p.digits| <= |text| && |p.digits| > 0
      && (p.prefix + p.digits + p.suffix == text
        <==> forall j :: |p.prefix| + |p.digits| <= j ==> !OccursAt(text, p.digits, j))
  {
    var m, p := ParseCounterParts(text);
    SplitRebuildIff(text, p.digits, m);
  }

  lemma RebuildOfSingleOccurrence(text: string)
    requires HasDigit(text)
    requires var p := ParseCounter(text).value;
      forall j :: |p.prefix| < j ==> !OccursAt(text, p.digits, j)
    ensures var p := ParseCounter(text).value;
      p.prefix + p.digits + p.suffix == text
  {
    RebuildIffSingleOccurrence(text);
  }

  /** When the pieces rebuild the text and the number has no leading zero, the final text is the text. */
  lemma FinalTextOfRebuilt(text: string)
    requires HasDigit(text)
    requires var p := ParseCounter(text).value;
      p.prefix + p.digits + p.suffix == text && Canonical(p.digits)
    ensures FinalText(text) == text
  {
    DecimalOfDigitsValue(ParseCounter(text).value.digits);
  }

  /**
   * A counter whose number occurs once, written without leading zeros, ends showing its own text
   * again.
   */
  lemma FinalTextOfSingleCanonical(text: string)
    requires HasDigit(text)
    requires var p := ParseCounter(text).value;
      Canonical(p.digits) && forall j :: |p.prefix| < j ==> !OccursAt(text, p.digits, j)
    ensures FinalText(text) == text
  {
    RebuildOfSingleOccurrence(text);
    FinalTextOfRebuilt(text);
  }

  /** The counter's text and its `data-animated` flag. */
  datatype CounterState = CounterState(text: string, animated: bool)

  /** One pass of `animateCounters` over a counter, up to the final frame of its timer. */
  function AnimateStep(s: CounterState): CounterState {
    if HasDigit(s.text) && !s.animated then
      match ParseCounter(s.text)
      case None => s
      case Some(_) => CounterState(FinalText(s.text), true)
    else s
  }

  /**
   * The run-once guard: a counter with a digit is flagged on its first pass, and a flagged counter
   * is left alone, so a second pass changes nothing whatever the final text is.
   */
  lemma AnimateRunsOnce(s: CounterState)
    ensures AnimateStep(s).animated <==> s.animated || HasDigit(s.text)
    ensures s.animated ==> AnimateStep(s) == s
    ensures AnimateStep(AnimateStep(s)) == AnimateStep(s)
  {
    ParseCounterDefinedIff(s.text);
  }

  /** A counter element of the page. */
  class Counter {
    var textContent: string
    var animated: bool

    constructor (text: string)
      ensures textContent == text && !animated
    {
      textContent := text;
      animated := false;
    }

    function State(): CounterState
      reads this
    {
      CounterState(textContent, animated)
    }

    /** The `counters.forEach` callback for this counter, with its interval run to the final frame. */
    method Animate()
      modifies this
      ensures State() == AnimateStep(old(State()))
    {
      if HasDigit(textContent) && !animated {
        var parsed := ParseCounter(textContent);
        if parsed.Some? {
          var p := parsed.value;
          animated := true;
          textContent := p.prefix + DecimalString(p.target) + p.suffix;
        }
      }
    }
  }
}
