/** Validation rules (`Rules.kt`, `ValidationRule.kt`) and the first-failure
    selection that every validator of the login feature performs with
    `rules.firstOrNull { !it.validate(input) }?.errorMessage`. */
module Rules {
  import opened Wrappers
  import opened KotlinText

  /** `PatternsCompat.EMAIL_ADDRESS.matcher(s).matches()`. The pattern
      belongs to a library outside this model, so it is a parameter; being
      a Dafny function it is deterministic by construction. */
  type EmailMatcher = string -> bool

  /** A rule is a predicate over the input plus the message it reports,
      fixed when the rule is constructed. */
  datatype Rule =
    | NotEmpty(message: string)
    | MinLength(minLength: Int32, message: string)
    | Email(message: string)

  /** `NotEmptyRule()` with its default message. */
  function NotEmptyRule(): (r: Rule)
    ensures r.NotEmpty? && r.message == "Este campo não pode ser vazio."
  {
    NotEmpty("Este campo não pode ser vazio.")
  }

  /** `MinLengthRule(n)` with its default message, which spells `n` out in
      canonical decimal; by `CanonicalDecimalUnique` there is exactly one
      such text. */
  function MinLengthRule(n: Int32): (r: Rule)
    ensures r.MinLength? && r.minLength == n
    ensures r.message == "Deve ter no mínimo " + IntToString(n) + " caracteres."
    ensures exists digits :: && r.message == "Deve ter no mínimo " + digits + " caracteres."
                             && IsCanonicalDecimal(digits) && IsDecimalOf(digits, n)
  {
    var digits := IntToString(n);
    IntToStringRoundTrip(n);
    MinLength(n, "Deve ter no mínimo " + digits + " caracteres.")
  }

  /** `EmailRule()` with its default message. */
  function EmailRule(): (r: Rule)
    ensures r.Email? && r.message == "Formato de e-mail inválido."
  {
    Email("Formato de e-mail inválido.")
  }

  /** `ValidationRule.validate(input)`: `isNotBlank()` for the not-empty
      rule, Kotlin's `length >= minLength` for the min-length rule, and the
      pattern's verdict for the email rule. The message never takes part. */
  function Accepts(isEmail: EmailMatcher, r: Rule, s: string): (b: bool)
    ensures r.NotEmpty? ==> (b <==> exists i :: 0 <= i < |s| && s[i] !in JvmWhitespace)
    ensures r.MinLength? ==> (b <==> Utf16Length(s) >= r.minLength)
    ensures r.MinLength? && r.minLength <= |s| ==> b
    ensures r.MinLength? && 2 * |s| < r.minLength ==> !b
    ensures r.Email? ==> (b <==> isEmail(s))
  {
    match r
    case NotEmpty(_) => !IsBlank(s)
    case MinLength(n, _) => Utf16Length(s) >= n
    case Email(_) => isEmail(s)
  }

  /** Index `i` holds the first rule of `rules` that rejects `s`. */
  ghost predicate IsFirstRejection(isEmail: EmailMatcher, rules: seq<Rule>, s: string, i: int) {
    && 0 <= i < |rules|
    && !Accepts(isEmail, rules[i], s)
    && forall j :: 0 <= j < i ==> Accepts(isEmail, rules[j], s)
  }

  /** `rules.firstOrNull { !it.validate(s) }?.errorMessage`: the message of
      the first rule, in list order, that rejects `s`; `None` when every
      rule accepts. */
  function FirstFailure(isEmail: EmailMatcher, rules: seq<Rule>, s: string): (r: Option<string>)
    ensures r.None? <==> forall i :: 0 <= i < |rules| ==> Accepts(isEmail, rules[i], s)
    ensures r.Some? ==> exists i :: IsFirstRejection(isEmail, rules, s, i) && r.value == rules[i].message
  {
    if rules == [] then None
    else if !Accepts(isEmail, rules[0], s) then
      assert IsFirstRejection(isEmail, rules, s, 0);
      Some(rules[0].message)
    else
      var rest := FirstFailure(isEmail, rules[1..], s);
      assert forall i :: 1 <= i < |rules| ==> rules[i] == rules[1..][i - 1];
      assert rest.Some? ==> exists i :: IsFirstRejection(isEmail, rules, s, i) && rest.value == rules[i].message by {
        if rest.Some? {
          var k :| IsFirstRejection(isEmail, rules[1..], s, k) && rest.value == rules[1..][k].message;
          assert IsFirstRejection(isEmail, rules, s, k + 1);
        }
      }
      rest
  }

  /** There is only one first rejection, so `FirstFailure` reports exactly
      the message of the rule at that index. */
  lemma FirstFailureAt(isEmail: EmailMatcher, rules: seq<Rule>, s: string, i: int)
    requires IsFirstRejection(isEmail, rules, s, i)
    ensures FirstFailure(isEmail, rules, s) == Some(rules[i].message)
  {
    var r := FirstFailure(isEmail, rules, s);
    var k :| IsFirstRejection(isEmail, rules, s, k) && r.value == rules[k].message;
  }

  /** Messages are fixed at construction: two inputs first rejected by the
      same rule get the same message, whatever else differs between them. */
  lemma FirstFailureMessageIsFixed(isEmail: EmailMatcher, rules: seq<Rule>, s: string, t: string, i: int)
    requires IsFirstRejection(isEmail, rules, s, i)
    requires IsFirstRejection(isEmail, rules, t, i)
    ensures FirstFailure(isEmail, rules, s) == FirstFailure(isEmail, rules, t) == Some(rules[i].message)
  {
    FirstFailureAt(isEmail, rules, s, i);
    FirstFailureAt(isEmail, rules, t, i);
  }

  /** First-failure selection over a two-rule list, the shape of every
      validator in the login feature. */
  lemma FirstFailureOfPair(isEmail: EmailMatcher, first: Rule, second: Rule, s: string)
    ensures FirstFailure(isEmail, [first, second], s) ==
      if !Accepts(isEmail, first, s) then Some(first.message)
      else if !Accepts(isEmail, second, s) then Some(second.message)
      else None
  {
    assert [first, second][1..] == [second];
    assert [second][1..] == [];
  }

  /** Failures are found by list order: a list that starts with `prefix`,
      all of which accept `s`, reports what the rest of the list reports. */
  lemma {:induction false} FirstFailureSkipsAccepting(isEmail: EmailMatcher, prefix: seq<Rule>, rest: seq<Rule>, s: string)
    requires forall i :: 0 <= i < |prefix| ==> Accepts(isEmail, prefix[i], s)
    ensures FirstFailure(isEmail, prefix + rest, s) == FirstFailure(isEmail, rest, s)
  {
    if prefix != [] {
      assert (prefix + rest)[0] == prefix[0];
      assert Accepts(isEmail, prefix[0], s);
      assert (prefix + rest)[1..] == prefix[1..] + rest;
      assert forall i :: 0 <= i < |prefix[1..]| ==> prefix[1..][i] == prefix[i + 1];
      FirstFailureSkipsAccepting(isEmail, prefix[1..], rest, s);
    } else {
      assert prefix + rest == rest;
    }
  }

  /** `NotEmptyRule` rejects exactly the empty and whitespace-only strings. */
  lemma NotEmptyAccepts(isEmail: EmailMatcher, msg: string, s: string)
    ensures Accepts(isEmail, NotEmpty(msg), s) <==> exists i :: 0 <= i < |s| && !IsWhitespace(s[i])
    ensures !Accepts(isEmail, NotEmpty(msg), "")
    ensures !Accepts(isEmail, NotEmpty(msg), "   ")
  {
  }

  /** On Basic Multilingual Plane text `MinLengthRule(n)` accepts exactly
      the strings of at least `n` characters. */
  lemma MinLengthAccepts(isEmail: EmailMatcher, n: Int32, msg: string, s: string)
    requires IsBmp(s)
    ensures Accepts(isEmail, MinLength(n, msg), s) <==> |s| >= n
  {
    Utf16LengthOfBmp(s);
  }

  /** Kotlin counts UTF-16 code units, so three characters outside the Basic
      Multilingual Plane already satisfy a minimum length of 6. */
  lemma MinLengthCountsCodeUnits(isEmail: EmailMatcher, msg: string)
    ensures Accepts(isEmail, MinLength(6, msg), "\U{1F600}\U{1F600}\U{1F600}")
    ensures !Accepts(isEmail, MinLength(6, msg), "abc")
  {
    var emoji := "\U{1F600}\U{1F600}\U{1F600}";
    assert emoji[1..][1..][1..] == [];
    Utf16LengthOfBmp("abc");
  }

  /** Appending text never makes a `MinLengthRule` reject. */
  lemma MinLengthMonotone(isEmail: EmailMatcher, n: Int32, msg: string, s: string, t: string)
    requires Accepts(isEmail, MinLength(n, msg), s)
    ensures Accepts(isEmail, MinLength(n, msg), s + t)
  {
    Utf16LengthAppend(s, t);
  }

  /** `MinLengthRule(n)` with `n <= 0` accepts every string. */
  lemma MinLengthNonPositiveAcceptsAll(isEmail: EmailMatcher, n: Int32, msg: string, s: string)
    requires n <= 0
    ensures Accepts(isEmail, MinLength(n, msg), s)
  {
  }

  /** `EmailRule` decides by the pattern alone: its message plays no part
      and equal inputs get equal verdicts. */
  lemma EmailAcceptsByPatternOnly(isEmail: EmailMatcher, m1: string, m2: string, s: string)
    ensures Accepts(isEmail, Email(m1), s) == Accepts(isEmail, Email(m2), s) == isEmail(s)
  {
  }
}
