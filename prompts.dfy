/**
  The three prompt recipes (free text, yes/no, one value out of a list) and
  the validation and conversion closures they attach to a prompt.
 */
module Prompts {
  import opened Strings
  import opened PromptTypes

  datatype Option<T> = None | Some(value: T)

  // ---------------------------------------------------------------------------
  // Recipes
  // ---------------------------------------------------------------------------

  /** A free-text question: no validator, no converter, a string default. */
  function SimplePrompt(message: string, required: Optionality, defaultValue: string): (p: Prompt)
    ensures p.ValidationFunc.NoValidator? && p.ValueConverter.NoConverter?
    ensures p.Message == message && p.Required == required && p.DefaultValue == Text(defaultValue)
  {
    Prompt(
      Message := message, ValueHint := "", SecureEntry := false,
      DefaultValue := Text(defaultValue), Required := required,
      RetryIfNoMatch := true, FailIfNoMatch := false, CaseSensitiveMatch := false,
      ValueConverter := NoConverter, ValidationFunc := NoValidator)
  }

  /** A yes/no question whose answer is converted to a boolean. */
  function YesNoPrompt(message: string, hint: string, required: Optionality, defaultValue: bool): (p: Prompt)
    ensures p.ValidationFunc.YesNoValidator? && p.ValueConverter.YesNoConverter?
    ensures p.Message == message && p.ValueHint == hint && p.Required == required
    ensures p.DefaultValue == Bool(defaultValue)
  {
    Prompt(
      Message := message, ValueHint := hint, SecureEntry := false,
      DefaultValue := Bool(defaultValue), Required := required,
      RetryIfNoMatch := true, FailIfNoMatch := true, CaseSensitiveMatch := false,
      ValueConverter := YesNoConverter, ValidationFunc := YesNoValidator)
  }

  /** A question whose answer must be one of `values`, compared without regard to case. */
  function SingleValuePrompt(message: string, hint: string, values: seq<string>,
                             required: Optionality, defaultValue: string): (p: Prompt)
    ensures p.ValidationFunc == ChoiceValidator(values, defaultValue) && p.ValueConverter.NoConverter?
    ensures p.Message == message && p.ValueHint == hint && p.Required == required
    ensures p.DefaultValue == Text(defaultValue)
  {
    Prompt(
      Message := message, ValueHint := hint, SecureEntry := false,
      DefaultValue := Text(defaultValue), Required := required,
      RetryIfNoMatch := true, FailIfNoMatch := false, CaseSensitiveMatch := false,
      ValueConverter := NoConverter, ValidationFunc := ChoiceValidator(values, defaultValue))
  }

  /** What the three recipes have in common and where they differ. */
  lemma RecipeSettings(message: string, hint: string, values: seq<string>,
                       required: Optionality, text: string, flag: bool)
    ensures var s, y, c := SimplePrompt(message, required, text),
                           YesNoPrompt(message, hint, required, flag),
                           SingleValuePrompt(message, hint, values, required, text);
      (s.RetryIfNoMatch && y.RetryIfNoMatch && c.RetryIfNoMatch) &&
      (!s.CaseSensitiveMatch && !y.CaseSensitiveMatch && !c.CaseSensitiveMatch) &&
      y.FailIfNoMatch && !c.FailIfNoMatch &&
      (s.Message == y.Message == c.Message == message) &&
      (y.ValueHint == c.ValueHint == hint) &&
      (s.Required == y.Required == c.Required == required) &&
      s.DefaultValue == c.DefaultValue == Text(text) && y.DefaultValue == Bool(flag)
  {
  }

  // ---------------------------------------------------------------------------
  // Yes/no vocabulary
  // ---------------------------------------------------------------------------

  const Affirmative: set<string> := {"yes", "y", "yo", "si", "yup", "ya", "yep"}
  const Negative: set<string> := {"no", "n", "nope", "no way", "nuh uh", "nah"}

  /** No token is both an affirmative and a negative answer. */
  lemma VocabularyDisjoint()
    ensures Affirmative * Negative == {}
  {
  }

  /**
    Recognises a yes/no token after lower-casing, whatever the prompt's
    case-sensitivity flag says; the boolean is the token's meaning.
   */
  function IsValidYesOrNoValue(value: string): (r: (bool, Validity))
    ensures r.1 == IsValid <==> ToLower(value) in Affirmative + Negative
    ensures r.0 <==> ToLower(value) in Affirmative
    ensures r.0 ==> r.1 == IsValid
  {
    var folded := ToLower(value);
    if folded in Affirmative then (true, IsValid)
    else if folded in Negative then (false, IsValid)
    else (false, IsNotValid)
  }

  /** Two spellings that differ only in ASCII case are recognised alike. */
  lemma YesNoIgnoresCase(s: string, t: string)
    requires |s| == |t|
    requires forall i :: 0 <= i < |s| ==> LowerChar(s[i]) == LowerChar(t[i])
    ensures IsValidYesOrNoValue(s) == IsValidYesOrNoValue(t)
  {
    assert ToLower(s) == ToLower(t);
  }

  /**
    The boolean meaning of a yes/no answer; an empty or unrecognised answer
    yields `noMatchValue`.
   */
  function IsPositiveStringValue(value: string, noMatchValue: bool): (r: bool)
    ensures ToLower(value) in Affirmative ==> r
    ensures ToLower(value) in Negative ==> !r
    ensures ToLower(value) !in Affirmative + Negative ==> r == noMatchValue
  {
    if value == "" then noMatchValue
    else
      var (flag, validity) := IsValidYesOrNoValue(value);
      if validity == IsValid then flag else noMatchValue
  }

  // ---------------------------------------------------------------------------
  // Choice matching
  // ---------------------------------------------------------------------------

  /** The first index at which `x` occurs in `xs`, if any. */
  function FirstIndexOf(x: string, xs: seq<string>): (r: Option<nat>)
    ensures r.Some? ==> r.value < |xs| && xs[r.value] == x && x !in xs[..r.value]
    ensures r.None? ==> x !in xs
  {
    if xs == [] then None
    else if xs[0] == x then Some(0)
    else
      match FirstIndexOf(x, xs[1..])
      case None => None
      case Some(i) =>
        assert xs[..i + 1] == [xs[0]] + xs[1..][..i];
        Some(i + 1)
  }

  /** The form in which strings are compared by the choice validator. */
  function Folded(caseSensitive: bool, s: string): string {
    if caseSensitive then s else ToLower(s)
  }

  /** `values[k]` is the first entry that matches `value` once both are folded. */
  predicate FirstMatchAt(caseSensitive: bool, values: seq<string>, value: string, k: int) {
    0 <= k < |values| &&
    Folded(caseSensitive, values[k]) == Folded(caseSensitive, value) &&
    forall j :: 0 <= j < k ==> Folded(caseSensitive, values[j]) != Folded(caseSensitive, value)
  }

  predicate NoMatch(caseSensitive: bool, values: seq<string>, value: string) {
    forall j :: 0 <= j < |values| ==> Folded(caseSensitive, values[j]) != Folded(caseSensitive, value)
  }

  /**
    The choice validator: on a match it returns the entry as written in
    `values` (not as typed), valid; otherwise it returns `defaultValue`,
    invalid exactly when the prompt asks to fail on no match.
   */
  function ChoiceValidation(p: Prompt, values: seq<string>, defaultValue: string, value: string)
    : (r: (string, Validity))
    ensures forall k :: FirstMatchAt(p.CaseSensitiveMatch, values, value, k) ==> r == (values[k], IsValid)
    ensures NoMatch(p.CaseSensitiveMatch, values, value) ==>
              r == (defaultValue, if p.FailIfNoMatch then IsNotValid else IsValid)
  {
    var useValue := if !p.CaseSensitiveMatch then ToLower(value) else value;
    var checkStrings := if !p.CaseSensitiveMatch
                        then seq(|values|, i requires 0 <= i < |values| => ToLower(values[i]))
                        else values;
    assert forall j :: 0 <= j < |values| ==>
             checkStrings[j] == Folded(p.CaseSensitiveMatch, values[j]);
    assert useValue == Folded(p.CaseSensitiveMatch, value);
    match FirstIndexOf(useValue, checkStrings)
    case Some(idx) =>
      assert forall k :: 0 <= k < idx ==> checkStrings[..idx][k] == checkStrings[k];
      (values[idx], IsValid)
    case None =>
      (defaultValue, if p.FailIfNoMatch then IsNotValid else IsValid)
  }

  // ---------------------------------------------------------------------------
  // The closures, applied
  // ---------------------------------------------------------------------------

  /** Runs a prompt's (present) validator on a candidate answer. */
  function RunValidator(p: Prompt, value: string): (r: (string, Validity))
    requires !p.ValidationFunc.NoValidator?
    ensures p.ValidationFunc.YesNoValidator? ==> r == (value, IsValidYesOrNoValue(value).1)
    ensures p.ValidationFunc.ChoiceValidator? ==>
              r == ChoiceValidation(p, p.ValidationFunc.accepted, p.ValidationFunc.fallback, value)
  {
    match p.ValidationFunc
    case YesNoValidator =>
      var (_, validity) := IsValidYesOrNoValue(value);
      (value, validity)
    case ChoiceValidator(values, defaultValue) =>
      ChoiceValidation(p, values, defaultValue, value)
  }

  /** Runs a prompt's (present) converter on a validated answer. */
  function RunConverter(p: Prompt, value: string): (r: Value)
    requires !p.ValueConverter.NoConverter?
    ensures r.Bool?
  {
    match p.ValueConverter
    case YesNoConverter => Bool(IsPositiveStringValue(value, false))
  }

  /**
    A yes/no answer that passes the yes/no validator is kept as typed and
    converts to `true` exactly when it is affirmative.
   */
  lemma YesNoValidatedConversion(p: Prompt, value: string)
    requires p.ValidationFunc == YesNoValidator && p.ValueConverter == YesNoConverter
    requires RunValidator(p, value).1 == IsValid
    ensures RunValidator(p, value).0 == value
    ensures RunConverter(p, value) == Bool(ToLower(value) in Affirmative)
  {
  }
}
