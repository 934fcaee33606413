/**
 * The submit handler of `form[data-validate]` in js/main.js: every required field is checked for
 * a value, email fields against the address pattern and telephone fields against the phone pattern;
 * each failure marks the field and shows one error message under it, and only a form whose every
 * field passes is replaced by the success message.
 */
module FormValidation {
  import opened JsText

  const RequiredMessage: string := "This field is required"
  const EmailMessage: string := "Please enter a valid email address"
  const PhoneMessage: string := "Please enter a valid phone number"

  /**
   * `!field.value.trim()`: the value is empty once white space is trimmed, which is the case exactly
   * when it is made of white space only (`TrimEmptyIffBlank`).
   */
  predicate IsBlank(value: string) {
    AllSpace(value)
  }

  /** Every character is matched by the class `[^\s@]`. */
  predicate NoSpaceOrAt(s: string) {
    forall i :: 0 <= i < |s| ==> !IsSpace(s[i]) && s[i] != '@'
  }

  /**
   * The regular expression `^[^\s@]+@[^\s@]+\.[^\s@]+$` read directly: three non-empty runs of
   * characters other than white space and '@', joined by an '@' and a '.'.
   */
  ghost predicate MatchesEmailPattern(v: string) {
    exists i, j :: 0 < i && i + 1 < j && j + 1 < |v| && v[i] == '@' && v[j] == '.'
      && NoSpaceOrAt(v[..i]) && NoSpaceOrAt(v[i + 1..j]) && NoSpaceOrAt(v[j + 1..])
  }

  /** A '.' that is neither the first nor the last character. */
  predicate HasInnerDot(d: string) {
    exists p :: 0 < p < |d| - 1 && d[p] == '.'
  }

  /**
   * The email test as a scan: a non-empty local part up to the first '@', then a domain free of
   * white space and '@' with a '.' strictly inside it.
   */
  predicate IsValidEmail(v: string) {
    match IndexOf(v, "@", 0)
    case None => false
    case Some(i) =>
      0 < i && i < |v| && NoSpaceOrAt(v[..i]) && NoSpaceOrAt(v[i + 1..]) && HasInnerDot(v[i + 1..])
  }

  lemma OccursAtChar(s: string, c: char, k: nat)
    ensures OccursAt(s, [c], k) <==> k < |s| && s[k] == c
  {
    if k < |s| {
      assert s[k..k + 1] == [s[k]];
    }
  }

  lemma NoSpaceOrAtSlice(s: string, a: int, b: int)
    requires NoSpaceOrAt(s) && 0 <= a <= b <= |s|
    ensures NoSpaceOrAt(s[a..b])
  {
    forall k | 0 <= k < b - a
      ensures !IsSpace(s[a..b][k]) && s[a..b][k] != '@'
    {
      assert s[a..b][k] == s[a + k];
    }
  }

  lemma EmailToPattern(v: string)
    requires IsValidEmail(v)
    ensures MatchesEmailPattern(v)
  {
    var i := IndexOf(v, "@", 0).value;
    OccursAtChar(v, '@', i);
    var d := v[i + 1..];
    var p :| 0 < p < |d| - 1 && d[p] == '.';
    var j := i + 1 + p;
    assert v[j] == '.';
    assert v[i + 1..j] == d[..p];
    assert v[j + 1..] == d[p + 1..];
    NoSpaceOrAtSlice(d, 0, p);
    NoSpaceOrAtSlice(d, p + 1, |d|);
  }

  /** An '@' with none before it is the one the search finds. */
  lemma FirstAt(v: string, i: nat)
    requires i < |v| && v[i] == '@' && NoSpaceOrAt(v[..i])
    ensures IndexOf(v, "@", 0) == Some(i)
  {
    OccursAtChar(v, '@', i);
    forall k | 0 <= k < i
      ensures !OccursAt(v, "@", k)
    {
      OccursAtChar(v, '@', k);
      assert v[..i][k] == v[k];
    }
    IndexOfFirst(v, "@", i);
  }

  /** The two runs around the '.' make a domain free of white space and '@' with an inner dot. */
  lemma DomainOfPattern(v: string, i: nat, j: nat)
    requires i + 1 < j && j + 1 < |v| && v[j] == '.'
    requires NoSpaceOrAt(v[i + 1..j]) && NoSpaceOrAt(v[j + 1..])
    ensures NoSpaceOrAt(v[i + 1..]) && HasInnerDot(v[i + 1..])
  {
    var d := v[i + 1..];
    forall k | 0 <= k < |d|
      ensures !IsSpace(d[k]) && d[k] != '@'
    {
      if i + 1 + k < j {
        assert d[k] == v[i + 1..j][k];
      } else if i + 1 + k > j {
        assert d[k] == v[j + 1..][k - (j - i)];
      }
    }
    assert d[j - i - 1] == '.';
  }

  lemma PatternToEmail(v: string)
    requires MatchesEmailPattern(v)
    ensures IsValidEmail(v)
  {
    var i, j :| 0 < i && i + 1 < j && j + 1 < |v| && v[i] == '@' && v[j] == '.'
      && NoSpaceOrAt(v[..i]) && NoSpaceOrAt(v[i + 1..j]) && NoSpaceOrAt(v[j + 1..]);
    FirstAt(v, i);
    DomainOfPattern(v, i, j);
  }

  /** The scan accepts exactly the values the regular expression matches. */
  lemma EmailPatternIff(v: string)
    ensures IsValidEmail(v) <==> MatchesEmailPattern(v)
  {
    if IsValidEmail(v) {
      EmailToPattern(v);
    }
    if MatchesEmailPattern(v) {
      PatternToEmail(v);
    }
  }

  /** The class `[\d\s\-\(\)\+]`. */
  predicate IsPhoneChar(c: char) {
    IsDigit(c) || IsSpace(c) || c == '-' || c == '(' || c == ')' || c == '+'
  }

  /** `/^[\d\s\-\(\)\+]+$/.test(value)`. */
  predicate IsValidPhone(v: string) {
    |v| > 0 && forall i :: 0 <= i < |v| ==> IsPhoneChar(v[i])
  }

  /** A value with a character outside the phone class fails, whatever else it holds. */
  lemma PhoneRejectsOtherChars(v: string, k: nat)
    requires k < |v| && !IsPhoneChar(v[k])
    ensures !IsValidPhone(v)
  {
  }

  /** A field passes when it is not blank and, for the email and tel types, its value matches. */
  predicate FieldPasses(inputType: string, value: string) {
    !IsBlank(value)
      && (inputType == "email" ==> IsValidEmail(value))
      && (inputType == "tel" ==> IsValidPhone(value))
  }

  /** The outcome of the handler's three checks on one field: which of them fail. */
  datatype Checks = Checks(blank: bool, emailFails: bool, telFails: bool)

  /** The three checks of the handler, run on a field's type and value. */
  function RunChecks(inputType: string, value: string): (c: Checks)
    ensures c.emailFails ==> inputType == "email" && !IsValidEmail(value)
    ensures c.telFails ==> inputType == "tel" && !IsValidPhone(value)
  {
    Checks(IsBlank(value),
           inputType == "email" && value != [] && !IsValidEmail(value),
           inputType == "tel" && value != [] && !IsValidPhone(value))
  }

  /** The messages of the failed checks, in the handler's order: required, then email, then telephone. */
  function Messages(c: Checks): seq<string> {
    (if c.blank then [RequiredMessage] else [])
      + (if c.emailFails then [EmailMessage] else [])
      + (if c.telFails then [PhoneMessage] else [])
  }

  /** The checks a field fails, in the handler's order. */
  function FieldMessages(inputType: string, value: string): seq<string> {
    Messages(RunChecks(inputType, value))
  }

  /** A field passes exactly when none of the handler's three checks fails. */
  lemma FieldPassesIffChecks(inputType: string, value: string)
    ensures FieldPasses(inputType, value) <==>
      && !IsBlank(value)
      && !(inputType == "email" && value != [] && !IsValidEmail(value))
      && !(inputType == "tel" && value != [] && !IsValidPhone(value))
  {
    if value == [] {
      assert AllSpace(value);
    }
  }

  /** A field fails no check exactly when it passes. */
  lemma FieldMessagesEmptyIff(inputType: string, value: string)
    ensures FieldMessages(inputType, value) == [] <==> FieldPasses(inputType, value)
  {
    if value == [] {
      assert AllSpace(value);
    }
  }

  /**
   * A white-space-only value fails as blank; as an email it also fails the pattern, so the email
   * message is the one shown last, while as a telephone number it matches the phone pattern.
   */
  lemma WhiteSpaceValues(v: string)
    requires |v| > 0 && AllSpace(v)
    ensures FieldMessages("email", v) == [RequiredMessage, EmailMessage]
    ensures FieldMessages("tel", v) == [RequiredMessage]
    ensures FieldMessages("text", v) == [RequiredMessage]
  {
    SpaceFirstNotEmail(v);
    SpacesArePhone(v);
    assert IsBlank(v) && !IsValidEmail(v) && IsValidPhone(v);
    assert RunChecks("email", v) == Checks(true, true, false);
    assert RunChecks("tel", v) == Checks(true, false, false);
    assert RunChecks("text", v) == Checks(true, false, false);
    assert Messages(Checks(true, true, false)) == [RequiredMessage] + [EmailMessage] + [];
  }

  lemma SpacesArePhone(v: string)
    requires |v| > 0 && AllSpace(v)
    ensures IsValidPhone(v)
  {
    forall i | 0 <= i < |v|
      ensures IsPhoneChar(v[i])
    {
      assert IsSpace(v[i]);
    }
  }

  lemma SpaceFirstNotEmail(v: string)
    requires |v| > 0 && IsSpace(v[0])
    ensures !IsValidEmail(v)
  {
    match IndexOf(v, "@", 0)
    case None =>
    case Some(i) =>
      if 0 < i <= |v| {
        assert v[..i][0] == v[0];
      }
  }

  /** A child node of a field's parent: an error element (`span.field-error`) or any other node. */
  datatype Child = FieldError(message: string) | OtherNode(name: string)

  /**
   * `parent.querySelector('.field-error')?.remove()`, searching the parent's direct children only;
   * the source also finds error elements nested deeper below the parent.
   */
  function RemoveFirstError(cs: seq<Child>): seq<Child> {
    if cs == [] then []
    else if cs[0].FieldError? then cs[1..]
    else [cs[0]] + RemoveFirstError(cs[1..])
  }

  /** `showFieldError` on the parent's children: the first error removed, a new one appended. */
  function ShowError(cs: seq<Child>, message: string): seq<Child> {
    RemoveFirstError(cs) + [FieldError(message)]
  }

  /** The messages of the error elements, in document order. */
  function ErrorMessages(cs: seq<Child>): seq<string> {
    if cs == [] then []
    else (if cs[0].FieldError? then [cs[0].message] else []) + ErrorMessages(cs[1..])
  }

  /** The children that are not error elements, in document order. */
  function OtherNodes(cs: seq<Child>): seq<Child> {
    if cs == [] then []
    else (if cs[0].FieldError? then [] else [cs[0]]) + OtherNodes(cs[1..])
  }

  lemma {:induction false} ErrorMessagesConcat(a: seq<Child>, b: seq<Child>)
    ensures ErrorMessages(a + b) == ErrorMessages(a) + ErrorMessages(b)
  {
    if a == [] {
      assert a + b == b;
    } else {
      var rest := a[1..];
      assert (a + b)[0] == a[0] && (a + b)[1..] == rest + b;
      ErrorMessagesConcat(rest, b);
      var e: seq<string> := if a[0].FieldError? then [a[0].message] else [];
      assert ErrorMessages(a + b) == e + (ErrorMessages(rest) + ErrorMessages(b));
    }
  }

  lemma {:induction false} OtherNodesConcat(a: seq<Child>, b: seq<Child>)
    ensures OtherNodes(a + b) == OtherNodes(a) + OtherNodes(b)
  {
    if a == [] {
      assert a + b == b;
    } else {
      var rest := a[1..];
      assert (a + b)[0] == a[0] && (a + b)[1..] == rest + b;
      OtherNodesConcat(rest, b);
      var o: seq<Child> := if a[0].FieldError? then [] else [a[0]];
      assert OtherNodes(a + b) == o + (OtherNodes(rest) + OtherNodes(b));
    }
  }

  lemma ChildrenConcat(a: seq<Child>, b: seq<Child>)
    ensures ErrorMessages(a + b) == ErrorMessages(a) + ErrorMessages(b)
    ensures OtherNodes(a + b) == OtherNodes(a) + OtherNodes(b)
  {
    ErrorMessagesConcat(a, b);
    OtherNodesConcat(a, b);
  }

  /** Removing drops the first error element and nothing else. */
  lemma {:induction false} RemoveFirstErrorEffect(cs: seq<Child>)
    ensures ErrorMessages(RemoveFirstError(cs)) == if ErrorMessages(cs) == [] then [] else ErrorMessages(cs)[1..]
    ensures OtherNodes(RemoveFirstError(cs)) == OtherNodes(cs)
  {
    if cs != [] && !cs[0].FieldError? {
      RemoveFirstErrorEffect(cs[1..]);
      ChildrenConcat([cs[0]], RemoveFirstError(cs[1..]));
    }
  }

  /** Showing an error drops the oldest one, appends the new one and keeps every other node. */
  lemma ShowErrorEffect(cs: seq<Child>, message: string)
    ensures ErrorMessages(ShowError(cs, message))
      == (if ErrorMessages(cs) == [] then [] else ErrorMessages(cs)[1..]) + [message]
    ensures OtherNodes(ShowError(cs, message)) == OtherNodes(cs)
  {
    RemoveFirstErrorEffect(cs);
    ChildrenConcat(RemoveFirstError(cs), [FieldError(message)]);
  }

  /** A parent holding at most one error element holds exactly one, the latest, after `showFieldError`. */
  lemma AtMostOneErrorKept(cs: seq<Child>, message: string)
    requires |ErrorMessages(cs)| <= 1
    ensures ErrorMessages(ShowError(cs, message)) == [message]
    ensures ErrorMessages(RemoveFirstError(cs)) == []
  {
    ShowErrorEffect(cs, message);
    RemoveFirstErrorEffect(cs);
  }

  /** The parent's children after checks with outcome `c`: one `showFieldError` per failed check, else a removal. */
  function AfterChecks(cs: seq<Child>, c: Checks): seq<Child> {
    var c1 := if c.blank then ShowError(cs, RequiredMessage) else RemoveFirstError(cs);
    var c2 := if c.emailFails then ShowError(c1, EmailMessage) else c1;
    if c.telFails then ShowError(c2, PhoneMessage) else c2
  }

  /** The parent's children after one field has been validated. */
  function AfterValidation(cs: seq<Child>, inputType: string, value: string): seq<Child> {
    AfterChecks(cs, RunChecks(inputType, value))
  }

  /** The last message of `ms`, as a list of at most one. */
  function LastOf(ms: seq<string>): (r: seq<string>)
    ensures |r| <= 1 && (r == [] <==> ms == [])
  {
    if ms == [] then [] else [ms[|ms| - 1]]
  }

  /** One conditional `showFieldError` keeps the parent's only error element on the last message shown. */
  lemma StageErrors(cs: seq<Child>, ms: seq<string>, fails: bool, message: string)
    requires ErrorMessages(cs) == LastOf(ms)
    ensures ErrorMessages(if fails then ShowError(cs, message) else cs)
      == LastOf(ms + if fails then [message] else [])
    ensures OtherNodes(if fails then ShowError(cs, message) else cs) == OtherNodes(cs)
  {
    if fails {
      AtMostOneErrorKept(cs, message);
      ShowErrorEffect(cs, message);
      assert (ms + [message])[|ms|] == message;
    } else {
      assert ms + [] == ms;
    }
  }

  /** The required check leaves exactly its own message when it fails, and no error element otherwise. */
  lemma RequiredStageErrors(cs: seq<Child>, blank: bool)
    requires |ErrorMessages(cs)| <= 1
    ensures ErrorMessages(if blank then ShowError(cs, RequiredMessage) else RemoveFirstError(cs))
      == LastOf(if blank then [RequiredMessage] else [])
    ensures OtherNodes(if blank then ShowError(cs, RequiredMessage) else RemoveFirstError(cs)) == OtherNodes(cs)
  {
    AtMostOneErrorKept(cs, RequiredMessage);
    if blank {
      ShowErrorEffect(cs, RequiredMessage);
    } else {
      RemoveFirstErrorEffect(cs);
    }
  }

  /**
   * Starting from at most one error element, the checks leave none when no check failed and
   * exactly one, carrying the last failed check's message, otherwise; other children are untouched.
   */
  lemma AfterChecksErrors(cs: seq<Child>, c: Checks)
    requires |ErrorMessages(cs)| <= 1
    ensures ErrorMessages(AfterChecks(cs, c)) == LastOf(Messages(c))
    ensures OtherNodes(AfterChecks(cs, c)) == OtherNodes(cs)
  {
    RequiredStageErrors(cs, c.blank);
    var c1 := if c.blank then ShowError(cs, RequiredMessage) else RemoveFirstError(cs);
    var m1: seq<string> := if c.blank then [RequiredMessage] else [];
    StageErrors(c1, m1, c.emailFails, EmailMessage);
    var c2 := if c.emailFails then ShowError(c1, EmailMessage) else c1;
    var m2 := m1 + if c.emailFails then [EmailMessage] else [];
    StageErrors(c2, m2, c.telFails, PhoneMessage);
  }

  /**
   * Validating a field whose parent holds at most one error element leaves no error element when
   * the field passes and exactly one, carrying the message of the last failed check, when it does
   * not; the other children are untouched.
   */
  lemma AfterValidationErrors(cs: seq<Child>, inputType: string, value: string)
    requires |ErrorMessages(cs)| <= 1
    ensures var ms := FieldMessages(inputType, value);
      ErrorMessages(AfterValidation(cs, inputType, value)) == if ms == [] then [] else [ms[|ms| - 1]]
    ensures FieldPasses(inputType, value) <==> ErrorMessages(AfterValidation(cs, inputType, value)) == []
    ensures OtherNodes(AfterValidation(cs, inputType, value)) == OtherNodes(cs)
  {
    FieldMessagesEmptyIff(inputType, value);
    AfterChecksErrors(cs, RunChecks(inputType, value));
  }

  /** The element whose children the error messages are added to and removed from. */
  class Container {
    var children: seq<Child>

    constructor (children: seq<Child>)
      ensures this.children == children
    {
      this.children := children;
    }
  }

  /** A required form field: its `type`, its `value`, its `error` class and its parent node. */
  class InputField {
    const inputType: string
    const value: string
    const parent: Container
    var hasError: bool

    constructor (inputType: string, value: string, parent: Container)
      ensures this.inputType == inputType && this.value == value && this.parent == parent
      ensures !hasError
    {
      this.inputType := inputType;
      this.value := value;
      this.parent := parent;
      hasError := false;
    }
  }

  /** `removeFieldError(field)`. */
  method RemoveFieldError(field: InputField)
    modifies field.parent
    ensures field.parent.children == RemoveFirstError(old(field.parent.children))
  {
    field.parent.children := RemoveFirstError(field.parent.children);
  }

  /** `showFieldError(field, message)`. */
  method ShowFieldError(field: InputField, message: string)
    modifies field.parent
    ensures field.parent.children == ShowError(old(field.parent.children), message)
  {
    RemoveFieldError(field);
    field.parent.children := field.parent.children + [FieldError(message)];
  }

  /**
   * The body of the `requiredFields.forEach` callback for one field. Returns whether the field
   * passed; the field keeps its `error` class exactly when it failed.
   */
  method ValidateField(field: InputField) returns (ok: bool)
    modifies field, field.parent
    ensures ok <==> FieldPasses(field.inputType, field.value)
    ensures field.hasError <==> !ok
    ensures field.parent.children == AfterValidation(old(field.parent.children), field.inputType, field.value)
  {
    var value := field.value;
    var blank := Trim(value) == [];
    TrimEmptyIffBlank(value);
    var emailFails := field.inputType == "email" && value != [] && !IsValidEmail(value);
    var telFails := field.inputType == "tel" && value != [] && !IsValidPhone(value);
    FieldPassesIffChecks(field.inputType, value);
    ok := true;
    if blank {
      ok := false;
      field.hasError := true;
      ShowFieldError(field, RequiredMessage);
    } else {
      field.hasError := false;
      RemoveFieldError(field);
    }
    if emailFails {
      ok := false;
      field.hasError := true;
      ShowFieldError(field, EmailMessage);
    }
    if telFails {
      ok := false;
      field.hasError := true;
      ShowFieldError(field, PhoneMessage);
    }
  }

  /** No two fields share a parent node. */
  predicate DistinctParents(fields: seq<InputField>) {
    forall i, j :: 0 <= i < j < |fields| ==> fields[i].parent != fields[j].parent
  }

  /** Whether each field passes, in order. */
  ghost function Verdicts(fields: seq<InputField>): (r: seq<bool>)
    ensures |r| == |fields|
  {
    if fields == [] then []
    else Verdicts(fields[..|fields| - 1]) + [FieldPasses(fields[|fields| - 1].inputType, fields[|fields| - 1].value)]
  }

  lemma {:induction false} VerdictAt(fields: seq<InputField>, i: nat)
    requires i < |fields|
    ensures Verdicts(fields)[i] == FieldPasses(fields[i].inputType, fields[i].value)
    decreases |fields|
  {
    var n := |fields| - 1;
    if i < n {
      VerdictAt(fields[..n], i);
      assert fields[..n][i] == fields[i];
    }
  }

  /** The children of each field's parent, in field order. */
  ghost function ParentChildren(fields: seq<InputField>): (r: seq<seq<Child>>)
    reads set f | f in fields :: f.parent
    ensures |r| == |fields|
  {
    if fields == [] then []
    else ParentChildren(fields[..|fields| - 1]) + [fields[|fields| - 1].parent.children]
  }

  lemma {:induction false} ParentChildrenAt(fields: seq<InputField>, i: nat)
    requires i < |fields|
    ensures ParentChildren(fields)[i] == fields[i].parent.children
    decreases |fields|
  {
    var n := |fields| - 1;
    if i < n {
      ParentChildrenAt(fields[..n], i);
      assert fields[..n][i] == fields[i];
    }
  }

  /** `AfterValidation` for one field, as a function value over the field itself. */
  function AfterField(cs: seq<Child>, f: InputField): seq<Child> {
    AfterValidation(cs, f.inputType, f.value)
  }

  /** The children each parent ends with when it starts from `initial` and only its own field goes through `step`. */
  ghost function Targets(fields: seq<InputField>, initial: seq<seq<Child>>,
                         step: (seq<Child>, InputField) -> seq<Child>): (r: seq<seq<Child>>)
    requires |initial| == |fields|
    ensures |r| == |fields|
  {
    if fields == [] then []
    else
      var n := |fields| - 1;
      Targets(fields[..n], initial[..n], step) + [step(initial[n], fields[n])]
  }

  lemma {:induction false} TargetAt(fields: seq<InputField>, initial: seq<seq<Child>>,
                                    step: (seq<Child>, InputField) -> seq<Child>, i: nat)
    requires |initial| == |fields| && i < |fields|
    ensures Targets(fields, initial, step)[i] == step(initial[i], fields[i])
    decreases |fields|
  {
    var n := |fields| - 1;
    if i < n {
      TargetAt(fields[..n], initial[..n], step, i);
      assert fields[..n][i] == fields[i] && initial[..n][i] == initial[i];
    }
  }

  /**
   * How far the validation loop has got after `k` fields: those fields carry their verdicts, and with
   * distinct parents the first `k` parents hold their targets while the rest are still as they were.
   */
  ghost predicate Progress(fields: seq<InputField>, k: nat, passes: seq<bool>, distinct: bool,
                           initial: seq<seq<Child>>, targets: seq<seq<Child>>)
    reads fields, set f | f in fields :: f.parent
    requires k <= |fields| && |passes| == |initial| == |targets| == |fields|
  {
    (forall i :: 0 <= i < k ==> fields[i].hasError == !passes[i])
    && (distinct ==> forall i :: 0 <= i < k ==> fields[i].parent.children == targets[i])
    && (distinct ==> forall i :: k <= i < |fields| ==> fields[i].parent.children == initial[i])
  }

  /** One turn of the validation loop: validates field `k` and reports its verdict. */
  method ValidateNext(fields: seq<InputField>, k: nat, ghost passes: seq<bool>, ghost distinct: bool,
                      ghost initial: seq<seq<Child>>, ghost targets: seq<seq<Child>>) returns (ok: bool)
    requires k < |fields| && |initial| == |fields|
    requires passes == Verdicts(fields) && distinct == DistinctParents(fields)
    requires targets == Targets(fields, initial, AfterField)
    requires Progress(fields, k, passes, distinct, initial, targets)
    modifies fields[k], fields[k].parent
    ensures ok == passes[k]
    ensures Progress(fields, k + 1, passes, distinct, initial, targets)
  {
    var f := fields[k];
    ok := ValidateField(f);
    VerdictAt(fields, k);
    forall i | 0 <= i <= k
      ensures fields[i].hasError == !passes[i]
    {
      if fields[i] == f {
        VerdictAt(fields, i);
      }
    }
    if distinct {
      TargetAt(fields, initial, AfterField, k);
      forall i | 0 <= i < |fields| && i != k
        ensures fields[i].parent.children == old(fields[i].parent.children)
      {
        assert fields[i].parent != f.parent by {
          if i < k {
            assert fields[i].parent != fields[k].parent;
          } else {
            assert fields[k].parent != fields[i].parent;
          }
        }
      }
    }
  }

  /**
   * The validation loop: `isValid` ends true exactly when every required field passes. Each field's
   * `error` class then records its own result; when no two fields share a parent, each parent's
   * children are those left by validating its field.
   */
  method ValidateForm(fields: seq<InputField>) returns (isValid: bool)
    modifies fields, set f | f in fields :: f.parent
    ensures isValid <==> forall i :: 0 <= i < |fields| ==> FieldPasses(fields[i].inputType, fields[i].value)
    ensures forall i :: 0 <= i < |fields| ==> (fields[i].hasError <==> !FieldPasses(fields[i].inputType, fields[i].value))
    ensures DistinctParents(fields) ==> forall i :: 0 <= i < |fields| ==>
      fields[i].parent.children == AfterValidation(old(fields[i].parent.children), fields[i].inputType, fields[i].value)
  {
    ghost var passes := Verdicts(fields);
    ghost var distinct := DistinctParents(fields);
    ghost var initial := ParentChildren(fields);
    ghost var targets := Targets(fields, initial, AfterField);
    forall i | 0 <= i < |fields|
      ensures initial[i] == fields[i].parent.children
    {
      ParentChildrenAt(fields, i);
    }
    isValid := true;
    var k := 0;
    while k < |fields|
      invariant 0 <= k <= |fields|
      invariant isValid <==> forall i :: 0 <= i < k ==> passes[i]
      invariant Progress(fields, k, passes, distinct, initial, targets)
    {
      var ok := ValidateNext(fields, k, passes, distinct, initial, targets);
      if !ok {
        isValid := false;
      }
      k := k + 1;
    }
    forall i | 0 <= i < |fields|
      ensures passes[i] == FieldPasses(fields[i].inputType, fields[i].value)
      ensures targets[i] == AfterValidation(initial[i], fields[i].inputType, fields[i].value)
    {
      VerdictAt(fields, i);
      TargetAt(fields, initial, AfterField, i);
    }
  }

  /** A form with `data-validate`: the required fields it currently holds and whether it shows the success message. */
  class Form {
    var requiredFields: seq<InputField>
    var showsSuccess: bool

    constructor (requiredFields: seq<InputField>)
      ensures this.requiredFields == requiredFields && !showsSuccess
    {
      this.requiredFields := requiredFields;
      showsSuccess := false;
    }

    /**
     * The submit handler: validates every required field, which leaves each field's `error` class and
     * its parent's error element as `ValidateForm` states, and, only when all pass, empties the form
     * and shows the success message; otherwise the form keeps its fields.
     */
    method Submit() returns (isValid: bool)
      modifies this, requiredFields, set f | f in requiredFields :: f.parent
      ensures isValid <==> forall i :: 0 <= i < |old(requiredFields)| ==>
        FieldPasses(old(requiredFields)[i].inputType, old(requiredFields)[i].value)
      ensures forall i :: 0 <= i < |old(requiredFields)| ==>
        (old(requiredFields)[i].hasError <==> !FieldPasses(old(requiredFields)[i].inputType, old(requiredFields)[i].value))
      ensures DistinctParents(old(requiredFields)) ==> forall i :: 0 <= i < |old(requiredFields)| ==>
        old(requiredFields)[i].parent.children
          == AfterValidation(old(requiredFields[i].parent.children), old(requiredFields)[i].inputType, old(requiredFields)[i].value)
      ensures isValid ==> requiredFields == [] && showsSuccess
      ensures !isValid ==> requiredFields == old(requiredFields) && showsSuccess == old(showsSuccess)
    {
      isValid := ValidateForm(requiredFields);
      if isValid {
        requiredFields := [];
        showsSuccess := true;
      }
    }
  }
}
