/**
 * The small pieces of JavaScript's string semantics that the site's scripts rely on:
 * the white-space class shared by `\s` and `String.prototype.trim`, decimal digits,
 * `parseInt` on decimal text, `Number`-to-string for integers, `includes` and the
 * occurrence search behind `split`.
 */
module JsText {

  datatype Option<T> = None | Some(value: T)

  /** ECMAScript WhiteSpace and LineTerminator code points: what `\s` matches and what `trim` strips. */
  predicate IsSpace(c: char) {
    || c == '\t' || c == '\n' || c == '\U{B}' || c == '\U{C}' || c == '\r' || c == ' '
    || c == '\U{A0}' || c == '\U{1680}' || ('\U{2000}' <= c <= '\U{200A}')
    || c == '\U{2028}' || c == '\U{2029}' || c == '\U{202F}' || c == '\U{205F}'
    || c == '\U{3000}' || c == '\U{FEFF}'
  }

  /** The regular-expression class `\d` without the `u` flag: ASCII digits only. */
  predicate IsDigit(c: char) {
    '0' <= c <= '9'
  }

  predicate AllDigits(s: string) {
    forall i :: 0 <= i < |s| ==> IsDigit(s[i])
  }

  predicate AllSpace(s: string) {
    forall i :: 0 <= i < |s| ==> IsSpace(s[i])
  }

  function DigitValue(c: char): (d: nat)
    requires IsDigit(c)
    ensures d < 10
  {
    (c as int) - ('0' as int)
  }

  function DigitChar(d: nat): (c: char)
    requires d < 10
    ensures IsDigit(c) && DigitValue(c) == d
  {
    (('0' as int) + d) as char
  }

  /** The number a string of decimal digits denotes, most significant digit first. */
  function DigitsValue(s: string): nat
    requires AllDigits(s)
  {
    if s == [] then 0 else DigitsValue(s[..|s| - 1]) * 10 + DigitValue(s[|s| - 1])
  }

  /** What `String(n)` gives for a non-negative integer (below 10^21, where JavaScript switches to exponents). */
  function DecimalString(n: nat): (s: string)
    ensures |s| > 0 && AllDigits(s)
    ensures |s| > 1 ==> s[0] != '0'
  {
    if n < 10 then [DigitChar(n)] else DecimalString(n / 10) + [DigitChar(n % 10)]
  }

  /** A digit string in the form `String` produces: no leading zero unless it is "0" itself. */
  predicate Canonical(s: string) {
    |s| > 0 && AllDigits(s) && (|s| > 1 ==> s[0] != '0')
  }

  lemma {:induction false} DigitsValueOfDecimal(n: nat)
    ensures DigitsValue(DecimalString(n)) == n
  {
    if n >= 10 {
      var s := DecimalString(n);
      DigitsValueOfDecimal(n / 10);
      assert s[..|s| - 1] == DecimalString(n / 10);
    }
  }

  /** Distinct numbers print differently. */
  lemma DecimalStringInjective(m: nat, n: nat)
    ensures DecimalString(m) == DecimalString(n) <==> m == n
  {
    DigitsValueOfDecimal(m);
    DigitsValueOfDecimal(n);
  }

  lemma {:induction false} DigitsValuePositive(s: string)
    requires Canonical(s) && s[0] != '0'
    ensures DigitsValue(s) >= 1
    ensures |s| > 1 ==> DigitsValue(s) >= 10
    decreases |s|
  {
    if |s| > 1 {
      var p := s[..|s| - 1];
      assert p[0] == s[0];
      DigitsValuePositive(p);
    }
  }

  /** Printing the value of a canonical digit string gives the same string back. */
  lemma {:induction false} DecimalOfDigitsValue(s: string)
    requires Canonical(s)
    ensures DecimalString(DigitsValue(s)) == s
    decreases |s|
  {
    if |s| > 1 {
      var p := s[..|s| - 1];
      assert p[0] == s[0];
      DigitsValuePositive(s);
      DecimalOfDigitsValue(p);
      var v := DigitsValue(s);
      assert v / 10 == DigitsValue(p) && v % 10 == DigitValue(s[|s| - 1]);
      assert s == p + [s[|s| - 1]];
    } else {
      assert |s| == 1;
    }
  }

  /** Length of the maximal run of digits at the start of `s`. */
  function LeadingDigits(s: string): (k: nat)
    ensures k <= |s| && AllDigits(s[..k])
    ensures k < |s| ==> !IsDigit(s[k])
  {
    if s == [] || !IsDigit(s[0]) then 0
    else
      var k := 1 + LeadingDigits(s[1..]);
      assert s[..k] == [s[0]] + s[1..][..k - 1];
      k
  }

  /** Length of the maximal run of white space at the start of `s`. */
  function LeadingSpace(s: string): (k: nat)
    ensures k <= |s| && AllSpace(s[..k])
    ensures k < |s| ==> !IsSpace(s[k])
  {
    if s == [] || !IsSpace(s[0]) then 0
    else
      var k := 1 + LeadingSpace(s[1..]);
      assert s[..k] == [s[0]] + s[1..][..k - 1];
      k
  }

  /** Length of the maximal run of white space at the end of `s`. */
  function TrailingSpace(s: string): (k: nat)
    ensures k <= |s| && AllSpace(s[|s| - k..])
    ensures k < |s| ==> !IsSpace(s[|s| - k - 1])
  {
    if s == [] || !IsSpace(s[|s| - 1]) then 0
    else
      var p := s[..|s| - 1];
      var j := TrailingSpace(p);
      var tail := p[|p| - j..];
      var run := tail + [s[|s| - 1]];
      assert s[|s| - 1 - j..] == run;
      assert AllSpace(run) by {
        forall i | 0 <= i < j + 1
          ensures IsSpace(run[i])
        {
          if i < j { assert run[i] == tail[i]; }
        }
      }
      assert j + 1 < |s| ==> s[|s| - j - 2] == p[|p| - j - 1];
      1 + j
  }

  /** `String.prototype.trim`. */
  function Trim(s: string): string {
    var t := s[LeadingSpace(s)..];
    t[..|t| - TrailingSpace(t)]
  }

  /** A value trims to the empty string exactly when it is made of white space only. */
  lemma TrimEmptyIffBlank(s: string)
    ensures Trim(s) == [] <==> AllSpace(s)
  {
    if AllSpace(s) {
      BlankTrimsToEmpty(s);
    }
    if Trim(s) == [] {
      EmptyTrimIsBlank(s);
    }
  }

  lemma BlankTrimsToEmpty(s: string)
    requires AllSpace(s)
    ensures Trim(s) == []
  {
    var k := LeadingSpace(s);
    assert k == |s|;
    assert s[k..] == [];
  }

  lemma EmptyTrimIsBlank(s: string)
    requires Trim(s) == []
    ensures AllSpace(s)
  {
    var k := LeadingSpace(s);
    var t := s[k..];
    var j := TrailingSpace(t);
    assert |t| == j;
    assert t[|t| - j..] == t;
    assert k == |s|;
    assert s[..k] == s;
  }

  /**
   * `parseInt(s)` for decimal text: leading white space, an optional sign, then the longest run of digits.
   * None stands for NaN, which `parseInt` returns when no digit follows.
   */
  function ParseInt(s: string): Option<int> {
    var t := s[LeadingSpace(s)..];
    var negative := |t| > 0 && t[0] == '-';
    var body := if |t| > 0 && (t[0] == '-' || t[0] == '+') then t[1..] else t;
    var k := LeadingDigits(body);
    if k == 0 then None
    else
      var v: int := DigitsValue(body[..k]);
      Some(if negative then -v else v)
  }

  lemma LeadingDigitsOfDigits(s: string)
    requires AllDigits(s)
    ensures LeadingDigits(s) == |s|
  {
    if s != [] {
      LeadingDigitsOfDigits(s[1..]);
    }
  }

  /** `parseInt` of a non-empty digit string is the number it denotes. */
  lemma ParseIntOfDigits(s: string)
    requires |s| > 0 && AllDigits(s)
    ensures ParseInt(s) == Some(DigitsValue(s))
  {
    assert LeadingSpace(s) == 0;
    assert s[0..] == s;
    LeadingDigitsOfDigits(s);
    assert s[..|s|] == s;
  }

  /** `parseInt` reads back every number the way `String` prints it. */
  lemma ParseIntOfDecimal(n: nat)
    ensures ParseInt(DecimalString(n)) == Some(n)
  {
    ParseIntOfDigits(DecimalString(n));
    DigitsValueOfDecimal(n);
  }

  /** `sub` occurs in `s` starting at index `i`. */
  predicate OccursAt(s: string, sub: string, i: nat) {
    i + |sub| <= |s| && s[i..i + |sub|] == sub
  }

  lemma OccursAtShift(s: string, sub: string, i: nat)
    requires s != [] && i > 0
    ensures OccursAt(s, sub, i) <==> OccursAt(s[1..], sub, i - 1)
  {
    if i + |sub| <= |s| {
      assert s[1..][i - 1..i - 1 + |sub|] == s[i..i + |sub|];
    }
  }

  /** `String.prototype.includes`: true iff `sub` occurs somewhere in `s`. */
  function Includes(s: string, sub: string): (r: bool)
    ensures r <==> exists i: nat :: OccursAt(s, sub, i)
    decreases |s|
  {
    if |sub| > |s| then false
    else if s[..|sub|] == sub then
      assert OccursAt(s, sub, 0);
      true
    else
      var r := Includes(s[1..], sub);
      if r then
        var j: nat :| OccursAt(s[1..], sub, j);
        OccursAtShift(s, sub, j + 1);
        r
      else
        forall i: nat ensures !OccursAt(s, sub, i) {
          if i > 0 {
            OccursAtShift(s, sub, i);
          }
        }
        r
  }

  /**
   * `s.indexOf(sub, from)` for `from <= |s|`: the first index at or after `from` where `sub` occurs,
   * None for -1.
   */
  function IndexOf(s: string, sub: string, from: nat): (r: Option<nat>)
    requires from <= |s|
    ensures r.Some? ==> from <= r.value && OccursAt(s, sub, r.value)
    ensures r.Some? ==> forall j :: from <= j < r.value ==> !OccursAt(s, sub, j)
    ensures r.None? ==> forall j :: from <= j ==> !OccursAt(s, sub, j)
    decreases |s| - from
  {
    if from + |sub| > |s| then None
    else if s[from..from + |sub|] == sub then Some(from)
    else IndexOf(s, sub, from + 1)
  }

  /** The search from the start finds an occurrence exactly when no earlier one exists. */
  lemma IndexOfFirst(s: string, sub: string, m: nat)
    requires OccursAt(s, sub, m)
    requires forall j :: 0 <= j < m ==> !OccursAt(s, sub, j)
    ensures IndexOf(s, sub, 0) == Some(m)
  {
    var r := IndexOf(s, sub, 0);
  }

  /** `s.split(sep)[0]` for a non-empty separator: the text before the first occurrence, or all of it. */
  function SplitHead(s: string, sep: string): (r: string)
    requires |sep| > 0
    ensures |r| <= |s| && r == s[..|r|]
    ensures forall j :: 0 <= j < |r| ==> !OccursAt(s, sep, j)
    ensures |r| < |s| <==> OccursAt(s, sep, |r|)
  {
    match IndexOf(s, sep, 0)
    case None => s
    case Some(i) => s[..i]
  }

  /**
   * `s.split(sep)[1]` for a non-empty separator: the text between the first and the second
   * occurrence, or after the first when there is no second; None is `undefined`, when `sep` does
   * not occur at all.
   */
  function SplitSecond(s: string, sep: string): Option<string>
    requires |sep| > 0
  {
    match IndexOf(s, sep, 0)
    case None => None
    case Some(i) =>
      match IndexOf(s, sep, i + |sep|)
      case None => Some(s[i + |sep|..])
      case Some(j) => Some(s[i + |sep|..j])
  }

  /** Cutting a string around an occurrence of `sub` and joining the pieces gives the string back. */
  lemma RebuildAround(s: string, sub: string, i: nat)
    requires OccursAt(s, sub, i)
    ensures s[..i] + sub + s[i + |sub|..] == s
  {
    assert s == s[..i] + s[i..i + |sub|] + s[i + |sub|..];
  }

  /** With no second occurrence, the second piece is the rest of the string and the pieces rebuild it. */
  lemma SplitWithoutSecond(s: string, sep: string, i: nat)
    requires |sep| > 0 && IndexOf(s, sep, 0) == Some(i) && IndexOf(s, sep, i + |sep|).None?
    ensures SplitHead(s, sep) == s[..i] && SplitSecond(s, sep) == Some(s[i + |sep|..])
    ensures SplitHead(s, sep) + sep + SplitSecond(s, sep).value == s
  {
    RebuildAround(s, sep, i);
  }

  /** With a second occurrence at `k`, the second piece stops there and the pieces fall short of the string. */
  lemma SplitWithSecond(s: string, sep: string, i: nat, k: nat)
    requires |sep| > 0 && IndexOf(s, sep, 0) == Some(i) && IndexOf(s, sep, i + |sep|) == Some(k)
    ensures SplitHead(s, sep) == s[..i] && SplitSecond(s, sep) == Some(s[i + |sep|..k])
    ensures |SplitHead(s, sep) + sep + SplitSecond(s, sep).value| == k < |s|
  {
    var e := i + |sep|;
    assert e <= k && OccursAt(s, sep, k);
    var second := s[e..k];
    assert SplitSecond(s, sep) == Some(second);
    assert |s[..i] + sep + second| == i + |sep| + (k - e);
  }

  /**
   * The head, the separator and the second piece of a split rebuild the string exactly when the
   * separator does not occur again after its first occurrence.
   */
  lemma SplitRebuildIff(s: string, sep: string, i: nat)
    requires |sep| > 0 && IndexOf(s, sep, 0) == Some(i)
    ensures SplitHead(s, sep) == s[..i]
    ensures SplitSecond(s, sep).Some?
    ensures SplitHead(s, sep) + sep + SplitSecond(s, sep).value == s
      <==> forall j :: i + |sep| <= j ==> !OccursAt(s, sep, j)
  {
    match IndexOf(s, sep, i + |sep|)
    case None =>
      SplitWithoutSecond(s, sep, i);
    case Some(k) =>
      SplitWithSecond(s, sep, i, k);
      assert OccursAt(s, sep, k);
  }
}
