/**
  The vocabulary shared by the engine and the recipes: validity and
  optionality flags, the dynamically typed result value, the description of
  one question (`Prompt`) and what one read of the input yields.
 */
module PromptTypes {

  /** Whether a value matched the prompt's criteria. */
  datatype Validity = IsNotValid | IsValid

  /** Whether an empty answer is rejected (`Required`) or replaced by the default. */
  datatype Optionality = Required | NotRequired

  /**
    The untyped result slot. The recipes only ever produce strings and
    booleans, so those are the two shapes a value can take.
   */
  datatype Value = Text(text: string) | Bool(flag: bool)

  /**
    The validation function attached to a prompt. The two closures the
    recipes build are named by what they capture: the yes/no validator
    captures nothing, the choice validator captures the accepted values and
    the recipe's default string.
   */
  datatype Validator =
    | NoValidator
    | YesNoValidator
    | ChoiceValidator(accepted: seq<string>, fallback: string)

  /** The conversion function attached to a prompt. */
  datatype Converter = NoConverter | YesNoConverter

  /** One question: its text, its default and the policy for evaluating an answer. */
  datatype Prompt = Prompt(
    Message: string,
    ValueHint: string,
    SecureEntry: bool,
    DefaultValue: Value,
    Required: Optionality,
    RetryIfNoMatch: bool,
    FailIfNoMatch: bool,
    CaseSensitiveMatch: bool,
    ValueConverter: Converter,
    ValidationFunc: Validator)

  /** What one call of the line reader yields: a line (with its newline) or an error. */
  datatype ReadResult = Line(text: string) | ReadError
}
