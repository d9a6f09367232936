/** `ValidatedState` (`ValidatedState.kt`): a text field's value together
    with its rules and the error message of the last validation. The Compose
    mutable state becomes an immutable record; each mutator returns the
    updated record. */
module ValidatedState {
  import opened Wrappers
  import opened Rules

  datatype Field = Field(
    initialValue: string,
    rules: seq<Rule>,
    text: string,
    errorMessage: Option<string>)
  {
    /** `isError`: the field shows an error exactly when it has a message. */
    function IsError(): (b: bool)
      ensures b <==> errorMessage != None
    {
      errorMessage.Some?
    }
  }

  /** `ValidatedState(initialValue, rules)`: the text starts at the initial
      value and no error is shown, even when the initial value breaks a rule. */
  function Create(initialValue: string, rules: seq<Rule>): (f: Field)
    ensures f.text == initialValue && f.initialValue == initialValue && f.rules == rules
    ensures !f.IsError()
  {
    Field(initialValue, rules, initialValue, None)
  }

  /** `validate()`: the error becomes the message of the first rule that
      rejects the current text, or none; nothing else changes. */
  function Validate(isEmail: EmailMatcher, f: Field): (g: Field)
    ensures g.text == f.text && g.rules == f.rules && g.initialValue == f.initialValue
    ensures !g.IsError() <==> forall i :: 0 <= i < |f.rules| ==> Accepts(isEmail, f.rules[i], f.text)
    ensures g.IsError() ==> exists i :: IsFirstRejection(isEmail, f.rules, f.text, i) && g.errorMessage.value == f.rules[i].message
  {
    f.(errorMessage := FirstFailure(isEmail, f.rules, f.text))
  }

  /** `onValueChanged(newText)`: stores the text, then validates it. */
  function OnValueChanged(isEmail: EmailMatcher, f: Field, newText: string): (g: Field)
    ensures g.text == newText && g.rules == f.rules && g.initialValue == f.initialValue
    ensures g.errorMessage == Validate(isEmail, g).errorMessage
  {
    Validate(isEmail, f.(text := newText))
  }

  /** The error shown after validation depends only on the text, not on what
      was shown before. */
  lemma ValidateIdempotent(isEmail: EmailMatcher, f: Field)
    ensures Validate(isEmail, Validate(isEmail, f)) == Validate(isEmail, f)
  {
  }

  /** A field without rules never shows an error once it has been validated
      or edited. */
  lemma NoRulesNoError(isEmail: EmailMatcher, f: Field, newText: string)
    requires f.rules == []
    ensures !Validate(isEmail, f).IsError()
    ensures !OnValueChanged(isEmail, f, newText).IsError()
  {
  }

  /** Editing makes the displayed error agree with the new text: it is the
      message of the first rejecting rule, or none when every rule accepts. */
  lemma OnValueChangedReportsFirstRejection(isEmail: EmailMatcher, f: Field, newText: string, i: int)
    requires IsFirstRejection(isEmail, f.rules, newText, i)
    ensures OnValueChanged(isEmail, f, newText).errorMessage == Some(f.rules[i].message)
  {
    FirstFailureAt(isEmail, f.rules, newText, i);
  }
}
