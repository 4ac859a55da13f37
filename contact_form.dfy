/**
 * Client-side validation of the contact form (js/main.js): one field is checked
 * by an else-if chain over its trimmed value (required, e-mail pattern, minimum
 * length); the form is valid when every required field is.
 */
module ContactForm {
  import opened Maybe
  import opened JsText

  const RequiredMessage := "This field is required."
  const EmailMessage := "Please enter a valid email address."

  function MinLengthMessage(n: nat): string {
    "Minimum " + NatToDecimal(n) + " characters required."
  }

  // ---------------------------------------------------------------------------
  // The e-mail pattern  ^[^\s@]+@[^\s@]+\.[^\s@]+$
  // ---------------------------------------------------------------------------

  /** A character of the class `[^\s@]`. */
  predicate PlainChar(c: char) {
    !IsWhiteSpace(c) && c != '@'
  }

  predicate AllPlain(s: string) {
    forall i :: 0 <= i < |s| ==> PlainChar(s[i])
  }

  /**
   * The pattern read as a language: `v` is three non-empty runs of `[^\s@]`,
   * the first two separated by the `@` at `at`, the last two by the `.` at `dot`.
   */
  ghost predicate EmailSplit(v: string, at: int, dot: int) {
    0 < at && at + 1 < dot && dot + 1 < |v| && v[at] == '@' && v[dot] == '.' &&
    forall p :: 0 <= p < |v| && p != at ==> PlainChar(v[p])
  }

  ghost predicate MatchesEmailPattern(v: string) {
    exists at, dot :: EmailSplit(v, at, dot)
  }

  /** `s.indexOf(c)`, with `|s|` standing for "not found". */
  function IndexOf(s: string, c: char): (i: nat)
    ensures i <= |s|
    ensures forall k :: 0 <= k < i ==> s[k] != c
    ensures i < |s| ==> s[i] == c
  {
    if s == [] then 0
    else if s[0] == c then 0
    else 1 + IndexOf(s[1..], c)
  }

  /** A `.` that is neither the first nor the last character. */
  predicate HasInnerDot(d: string) {
    exists k :: 0 < k < |d| - 1 && d[k] == '.'
  }

  /** `emailRegex.test(v)`, decided by locating the first `@`. */
  predicate IsEmail(v: string) {
    var at := IndexOf(v, '@');
    0 < at < |v| && AllPlain(v[..at]) && AllPlain(v[at + 1..]) && HasInnerDot(v[at + 1..])
  }

  /** The decision procedure accepts exactly the strings the pattern matches. */
  lemma EmailMatchesPattern(v: string)
    ensures IsEmail(v) <==> MatchesEmailPattern(v)
  {
    var at := IndexOf(v, '@');
    if IsEmail(v) {
      var d := v[at + 1..];
      var k :| 0 < k < |d| - 1 && d[k] == '.';
      forall p | 0 <= p < |v| && p != at ensures PlainChar(v[p]) {
        if p < at { assert v[p] == v[..at][p]; } else { assert v[p] == d[p - at - 1]; }
      }
      assert EmailSplit(v, at, at + 1 + k);
    }
    if MatchesEmailPattern(v) {
      var a, dot :| EmailSplit(v, a, dot);
      assert a == at by {
        assert !PlainChar(v[a]);
        assert forall p :: 0 <= p < a ==> v[p] != '@' by {
          forall p | 0 <= p < a ensures v[p] != '@' { assert PlainChar(v[p]); }
        }
      }
      var d := v[at + 1..];
      assert d[dot - at - 1] == '.';
      assert AllPlain(v[..at]) by {
        forall p | 0 <= p < at ensures PlainChar(v[..at][p]) { assert v[..at][p] == v[p]; }
      }
      assert AllPlain(d) by {
        forall p | 0 <= p < |d| ensures PlainChar(d[p]) { assert d[p] == v[at + 1 + p]; }
      }
    }
  }

  /** An accepted address has exactly one `@`, with a non-empty local part before it. */
  lemma EmailHasOneAt(v: string)
    requires IsEmail(v)
    ensures exists at :: (0 < at < |v| && v[at] == '@' &&
      forall p :: 0 <= p < |v| && v[p] == '@' ==> p == at)
  {
    var at := IndexOf(v, '@');
    var d := v[at + 1..];
    forall q | at < q < |v| ensures PlainChar(v[q]) {
      assert v[q] == d[q - at - 1];
    }
  }

  // ---------------------------------------------------------------------------
  // validateField
  // ---------------------------------------------------------------------------

  /**
   * The `minlength` attribute as `parseInt` sees it: absent, not a number
   * (`NaN`, for which every `<` comparison is false), or an integer.
   */
  datatype MinLength = NoAttribute | NotANumber | Parsed(n: int)

  /** What the validator reads from a field: raw value, `type`, `required`, `minlength`. */
  datatype FieldInput = FieldInput(value: string, inputType: string, required: bool, minLength: MinLength)

  datatype Verdict = Accepted | Rejected(message: string)

  /** The else-if chain of `validateField`, applied to the already trimmed value. */
  function Judge(value: string, inputType: string, required: bool, minLength: MinLength): Verdict {
    if required && value == [] then
      Rejected(RequiredMessage)
    else if inputType == "email" && value != [] then
      if IsEmail(value) then Accepted else Rejected(EmailMessage)
    else
      match minLength
      case NoAttribute => Accepted
      case NotANumber => Accepted
      case Parsed(n) =>
        if Utf16Length(value) < n then Rejected(MinLengthMessage(n)) else Accepted
  }

  /** The decision of `validateField`: the value is trimmed before every check. */
  function CheckField(f: FieldInput): Verdict {
    Judge(Trim(f.value), f.inputType, f.required, f.minLength)
  }

  /** A required field holding only whitespace fails with the "required" message. */
  lemma BlankRequiredRejected(f: FieldInput)
    requires f.required && AllWhiteSpace(f.value)
    ensures CheckField(f) == Rejected(RequiredMessage)
  {
    TrimEmptyIffBlank(f.value);
  }

  /**
   * A non-blank e-mail field is judged by the pattern alone, with the e-mail
   * message, whatever its `required` and `minlength` are.
   */
  lemma NonBlankEmailJudgedByPattern(f: FieldInput, required: bool, m: MinLength)
    requires f.inputType == "email" && !AllWhiteSpace(f.value)
    ensures CheckField(f) == (if MatchesEmailPattern(Trim(f.value)) then Accepted else Rejected(EmailMessage))
    ensures CheckField(f) == CheckField(f.(required := required, minLength := m))
  {
    TrimEmptyIffBlank(f.value);
    EmailMatchesPattern(Trim(f.value));
  }

  /**
   * An optional field left blank is still rejected when it carries a positive
   * `minlength`, because the length rule is reached for the empty value too.
   */
  lemma BlankOptionalWithMinLengthRejected(f: FieldInput, n: int)
    requires !f.required && AllWhiteSpace(f.value) && f.minLength == Parsed(n) && n > 0
    ensures CheckField(f) == Rejected(MinLengthMessage(n))
  {
    TrimEmptyIffBlank(f.value);
  }

  /**
   * Outside the e-mail rule, a field that passes the "required" rule is
   * rejected exactly when its trimmed UTF-16 length is below a parsed
   * `minlength`, and then the message names that bound.
   */
  lemma LengthRule(f: FieldInput)
    requires f.inputType != "email" || Trim(f.value) == []
    requires !(f.required && Trim(f.value) == [])
    ensures CheckField(f).Rejected? <==>
      f.minLength.Parsed? && Utf16Length(Trim(f.value)) < f.minLength.n
    ensures CheckField(f).Rejected? ==>
      f.minLength.n >= 1 && CheckField(f).message == MinLengthMessage(f.minLength.n)
  {
  }

  /** Whitespace around the value never changes the outcome. */
  lemma VerdictIgnoresSurroundingSpace(f: FieldInput, pre: string, post: string)
    requires AllWhiteSpace(pre) && AllWhiteSpace(post)
    ensures CheckField(f.(value := pre + f.value + post)) == CheckField(f)
  {
    TrimSurrounded(pre, f.value, post);
    assert Trim((pre + f.value) + post) == Trim(f.value);
  }

  // ---------------------------------------------------------------------------
  // The form's fields and their visible error state
  // ---------------------------------------------------------------------------

  /** The message the page shows under a field for a verdict, if any. */
  function ErrorShown(v: Verdict): (e: Option<string>)
    ensures e.None? <==> v.Accepted?
  {
    match v
    case Accepted => None
    case Rejected(m) => Some(m)
  }

  /**
   * One `input` or `textarea` of a contact form. `error` stands for the field's
   * `error` class together with the `.field-error` element after it: `Some(m)`
   * when both are shown with text `m`, `None` when neither is.
   */
  class Field {
    var value: string
    const inputType: string
    const required: bool
    const minLength: MinLength
    var error: Option<string>

    constructor (value: string, inputType: string, required: bool, minLength: MinLength)
      ensures this.value == value && this.inputType == inputType
      ensures this.required == required && this.minLength == minLength
      ensures error == None
    {
      this.value := value;
      this.inputType := inputType;
      this.required := required;
      this.minLength := minLength;
      error := None;
    }

    function Input(): FieldInput
      reads this
    {
      FieldInput(value, inputType, required, minLength)
    }

    /** `validateField(field)`: decide, then show or clear the error. */
    method Validate() returns (ok: bool)
      modifies this`error
      ensures ok <==> CheckField(Input()).Accepted?
      ensures error == ErrorShown(CheckField(Input()))
    {
      var v := CheckField(Input());
      if v.Accepted? {
        ok := true;
        error := None;
      } else {
        ok := false;
        error := Some(v.message);
      }
    }

    /** The `input` listener: typing replaces the value and clears any error shown. */
    method OnInput(newValue: string)
      modifies this`value, this`error
      ensures value == newValue && error == None
    {
      value := newValue;
      error := None;
    }
  }

  /**
   * `validateForm(form)`: every required field is validated (no short
   * circuit, so each shows its own error); the result is the conjunction.
   * Fields without `required` are neither checked nor touched.
   */
  method ValidateForm(fields: seq<Field>) returns (ok: bool)
    modifies set f | f in fields
    ensures ok <==> forall f :: f in fields && f.required ==> CheckField(f.Input()).Accepted?
    ensures forall f :: f in fields ==> f.value == old(f.value)
    ensures forall f :: f in fields ==>
      f.error == if f.required then ErrorShown(CheckField(f.Input())) else old(f.error)
  {
    ok := true;
    ghost var seen: set<Field> := {};
    var i := 0;
    while i < |fields|
      invariant 0 <= i <= |fields|
      invariant seen == set k | 0 <= k < i :: fields[k]
      invariant forall f :: f in fields ==> f.value == old(f.value)
      invariant forall f :: f in fields ==>
        f.error == if f.required && f in seen then ErrorShown(CheckField(f.Input())) else old(f.error)
      invariant ok <==> forall f :: f in seen && f.required ==> CheckField(f.Input()).Accepted?
    {
      var f := fields[i];
      if f.required {
        var valid := f.Validate();
        if !valid {
          ok := false;
        }
      }
      seen := seen + {f};
      i := i + 1;
    }
    assert forall f :: f in fields ==> f in seen;
  }
}
