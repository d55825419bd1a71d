# tardy prompt engine, modelled in Dafny

tardy is a Go library that asks the user a sequence of questions on a
terminal. It reads the typed answers, then validates, converts and stores
them. This project models its core:

- the prompt controller `Prompter` (prompter.go), with its two result
  stores, its single-prompt pipeline, its batch runner and its prompt renderer;
- the three prompt recipes (prompts.go): free text, yes/no, and one value out
  of a list.

The model is in six modules:

- `Strings` (strings.dfy): `strings.TrimSpace`, with Go's `unicode.IsSpace`
  set of white space; `strings.TrimRight(s, "\n")`; and `strings.ToLower`.
- `PromptTypes` (types.dfy): the `Validity` and `Optionality` enums, the
  dynamically typed result value, the `Prompt` record, and what one read
  yields.
- `Prompts` (prompts.go's recipes): the recipes, the yes/no vocabulary, and the
  two validation closures and the converter, as data.
- `Pipeline` (pure): the evaluation of one prompt as a function of the input
  still to be read (`Attempt`, `Evaluate`), the batch runner (`RunAll`), the
  effect of a batch on the keyed store (`StoreAll`), and the properties of all
  of these.
- `Engine` (prompter.dfy): the imperative controller.
  - `Prompter` is a class whose fields are the Go struct's fields.
  - `Prompt` is a `while` loop in place of Go's recursive re-invocation.
  - `Do` is a `for` loop that appends one record per prompt.
  - `MapStrings` fills a pre-sized array.

  `Prompt` is proved against `Pipeline.Evaluate`, `Do` against
  `Pipeline.RunAll`, `Pipeline.StoreAll` and `Pipeline.ValuesOf`, and
  `LineReader.ReadLine` against `Pipeline.Next`. `ClearValues`,
  `StoreValuesAndReturn` and `MapStrings` have no counterpart function: their
  contracts state the new store or the output directly. Every method states
  its whole new state.
- `Scenarios`: what each recipe does with an arbitrary line, and the answers
  of the repository's test suite as concrete lemmas.

The line reader is a collaborator. It is modelled as a finite script of read
results (`Line(text)` or `ReadError`). A read takes the head of the script.
A read from an empty script fails and consumes nothing, as reading an
exhausted stream does. Each attempt consumes one read, so the retry loop
terminates because the script gets shorter.

The model follows the code as written. Three points are worth knowing:

- A retry after an invalid answer happens only when the prompt's
  `RetryIfNoMatch` is set (prompter.go:178, as the field comment at
  prompter.go:113 says). Without it, the answer goes on to the converter and
  is returned as valid (`Pipeline.InvalidAnswerPolicy`).
- The yes/no validator always lower-cases the answer, whatever the prompt's
  `CaseSensitiveMatch` says (prompts.go:36, prompts.go:82). The field comment
  at prompter.go:119-120 suggests the flag governs every check of acceptable
  values; in the code only the choice validator reads it.
- Only the exact line `"\n"` gives an optional prompt its default. A line of
  blanks is trimmed to `""` and goes on to validation
  (`Pipeline.BlankLineIsNotEmptyLine`). The same applies to any reader that
  returns an empty line without its newline. The field comment at
  prompter.go:106-107 promises the default whenever no value is entered and
  the entry is not required.
- The test at prompter_test.go:128 expects `"red"` for the answer `"blue"`,
  but it does not assert it. The code returns the recipe's default, and so
  does the model (`Scenarios.ChoiceNoMatchGivesDefault`).

## Model

| member | source | states |
|---|---|---|
| Strings.TrimSpace | prompter.go:163-164 | the trimmed answer is no longer than the line, starts and ends with no white space, and is empty exactly when the line is all white space |
| Strings.TrimSpaceIsFactor | prompter.go:163-164 | any split of a line into white space, a factor whose ends are not white space, and white space makes that factor the trimmed answer |
| Strings.TrimSpaceIdempotent | prompter.go:163-164 | trimming an already trimmed answer changes nothing |
| Strings.TrimRightNewlines | prompter.go:165-166 | without trimming, the answer is the line minus its whole run of trailing newlines: a prefix, followed only by newlines, that does not itself end in a newline |
| Strings.ToLower | prompts.go:82 | `strings.ToLower` as an ASCII case mapping: same length, each character lower-cased where it stands; its partners are `Strings.ToLowerIdempotent` and `Prompts.YesNoIgnoresCase` |
| Strings.ToLowerIdempotent | prompts.go:82 | lower-casing twice is lower-casing once, and no upper-case ASCII letter survives it |
| Prompts.SimplePrompt | prompts.go:15-23 | a free-text prompt has no validator and no converter, and copies message, required-ness and the text default; its behaviour is `Scenarios.SimplePromptAnswer` |
| Prompts.YesNoPrompt | prompts.go:26-43 | a yes/no prompt carries the yes/no validator and converter, and copies message, hint, required-ness and the boolean default; its behaviour is `Scenarios.YesNoPromptAnswer` |
| Prompts.SingleValuePrompt | prompts.go:46-77 | a choice prompt carries the choice validator capturing the listed values and the default, no converter, and copies message, hint and required-ness; its behaviour is `Scenarios.SingleValuePromptAnswer` |
| Prompts.RecipeSettings | prompts.go:15-77 | all three recipes retry on no match and match without regard to case; only yes/no fails on no match; message, hint, required-ness and default are copied from the arguments |
| Prompts.VocabularyDisjoint | prompts.go:83-85 | no token is both affirmative and negative |
| Prompts.IsValidYesOrNoValue | prompts.go:81-89 | an answer is valid exactly when its lower-cased form is in the vocabulary, and means yes exactly when that form is affirmative |
| Prompts.YesNoIgnoresCase | prompts.go:82 | two answers that differ only in ASCII case are recognised alike |
| Prompts.IsPositiveStringValue | prompts.go:94-102 | affirmative tokens give true, negative tokens give false, and anything else (the empty answer included) gives the no-match value |
| Prompts.FirstIndexOf | prompts.go:65-69 | a found index holds the value and no earlier index does; not found means the value is absent |
| Prompts.ChoiceValidation | prompts.go:55-75 | on a match, the first matching entry is returned as listed (not as typed) and valid; with no match, the default is returned, invalid exactly when the prompt fails on no match |
| Prompts.RunValidator | prompts.go:35-75 | the yes/no validator returns the answer unchanged with the vocabulary's verdict; the choice validator is `ChoiceValidation` over the captured values and default |
| Prompts.RunConverter | prompts.go:39-41 | the yes/no converter produces a boolean |
| Prompts.YesNoValidatedConversion | prompts.go:35-41 | an answer that passes the yes/no validator is kept as typed, and converts to true exactly when it is affirmative |
| Pipeline.Candidate | prompter.go:162-167 | with trimming, the answer is `TrimSpace` of the line, so it has no white space at either end and is empty exactly when the line is all white space (fixed by `Strings.TrimSpaceIsFactor`); without, it is a prefix of the line that does not end in a newline, `TrimRightNewlines` |
| Pipeline.Validate | prompter.go:174-177 | a prompt without a validator accepts the answer unchanged as valid; the yes/no validator keeps the answer with the vocabulary's verdict; the choice validator returns what `ChoiceValidation` returns |
| Pipeline.Convert | prompter.go:183-185 | a prompt without a converter returns the answer as text; the yes/no converter returns `IsPositiveStringValue` of the answer with false for no match |
| Pipeline.Attempt | prompter.go:156-186 | one attempt finishes invalid exactly when the read fails, and then finishes with the default; a failed read and an optional prompt's bare newline are never retried |
| Pipeline.AttemptRetryReasons | prompter.go:169-181 | a retry happens only after an empty answer to a required prompt, or an invalid answer to a prompt that retries on no match |
| Pipeline.EmptyLineGivesDefault | prompter.go:159-160 | an optional prompt given the bare newline finishes with its default, valid, with no validation or conversion |
| Pipeline.BlankLineIsNotEmptyLine | prompter.go:159-172 | an optional prompt given a line of white space other than the bare newline validates the empty answer instead of taking the default |
| Pipeline.EmptyRequiredRetries | prompter.go:169-172 | an empty answer to a required prompt is always asked again |
| Pipeline.ValidAnswerIsConverted | prompter.go:174-186 | past the empty-line checks, a valid answer finishes the attempt with the validator's string run through the converter, valid |
| Pipeline.InvalidAnswerPolicy | prompter.go:174-186 | an invalid answer is asked again when the prompt retries on no match, and is otherwise converted and returned as valid |
| Pipeline.Evaluate | prompter.go:145-187 | each evaluation consumes at least one read when there is input, and an invalid result always carries the prompt's default |
| Pipeline.EvaluateLeavesSuffix | prompter.go:145-187 | what evaluation leaves unread is a suffix of the input |
| Pipeline.EvaluateFirstDone | prompter.go:145-187 | evaluation returns the result of the first attempt that finishes, and leaves the reads after it unread |
| Pipeline.EvaluateHasFirstDone | prompter.go:145-187 | some attempt at or before the end of the script always finishes |
| Pipeline.AllRetriedEndsInDefault | prompter.go:156-180 | if every line is retried, the exhausted input ends the evaluation with the default, invalid, with nothing left to read |
| Pipeline.RunAll | prompter.go:192-202 | a batch yields exactly one record per prompt |
| Pipeline.RunAllFirstReadsFirst | prompter.go:194-199 | the first prompt of a batch is evaluated first on the whole input, and the rest of the batch runs on what it leaves |
| Pipeline.RunAllPrefixStep | prompter.go:194-200 | the next prompt of a batch is evaluated on the input the earlier ones left, and its record is appended |
| Pipeline.RunAllInvalidIsDefault | prompter.go:192-202 | in a batch, an invalid record always carries its own prompt's default |
| Pipeline.StoreAll | prompter.go:215 | storing a batch of values never removes a key |
| Pipeline.StoreAllPrefixStep | prompter.go:213-217 | storing one more record updates the keyed store at that prompt's message, and appends its value to the ordered values |
| Pipeline.StoreAllLastWriteWins | prompter.go:215 | after a batch, a message's key holds the value of the last prompt with that message |
| Pipeline.StoreAllUntouched | prompter.go:215 | a key that no prompt of the batch uses keeps its previous value |
| Engine.LineReader.ReadLine | prompter.go:150-154 | a read delivers the head of the script and drops it, or fails on an exhausted script |
| Engine.Prompter.constructor | prompter.go:131-141 | a new controller has empty stores, trims white space, and uses the suffix ":  " |
| Engine.Prompter.Prompt | prompter.go:145-187 | the returned value and validity and the unread input are those of `Evaluate`; exactly one value is appended to the ordered store and written under the prompt's message, and retried attempts store nothing |
| Engine.Prompter.Do | prompter.go:192-202 | the records and the unread input are those of `RunAll`, one record per prompt in order; the stores grow by exactly the batch's values, keyed by message |
| Engine.Prompter.ClearValues | prompter.go:205-208 | both stores are empty afterwards |
| Engine.Prompter.StoreValuesAndReturn | prompter.go:213-217 | the value and validity come back unchanged; the value is appended to the ordered store and written under the prompt's message |
| Engine.Prompter.FormattedPromptMessage | prompter.go:219-229 | the rendering is the message, then a space and the hint when there is a hint, then the suffix, then two spaces |
| Engine.MapStrings | prompter.go:231-237 | the output has the source's length, and each entry is `f` of the source entry at the same index |
| Scenarios.SimplePromptAnswer | prompts.go:15-23 | a free-text prompt returns the trimmed answer as text, valid; only an empty answer to a required prompt is asked again |
| Scenarios.YesNoPromptAnswer | prompts.go:26-43 | a yes/no prompt finishes with true on an affirmative token and false on a negative one; any other answer is asked again |
| Scenarios.SingleValuePromptAnswer | prompts.go:46-77 | a choice prompt returns the first matching entry as listed, and returns the default, valid, when nothing matches; this includes the empty answer of an optional prompt, and only a required prompt's empty answer is asked again |
| Scenarios.SimpleOneLine | prompts.go:15-23 | on a one-line script, a free-text answer typed without surrounding blanks comes back as typed, valid |
| Scenarios.YesNoOneLine | prompts.go:26-43 | on a one-line script, a yes/no answer gives its meaning, and an unrecognised one gives the default, invalid, once the input runs out |
| Scenarios.ChoiceOneLine | prompts.go:46-77 | on a one-line script, a choice answer gives the matching entry, or the default when nothing matches |
| Scenarios.SimpleTypedAnswer | prompter_test.go:116 | "test 1234\n" gives "test 1234", valid |
| Scenarios.SimpleEmptyAnswerTakesDefault | prompter_test.go:118 | the bare newline gives the default "test 1234" for an optional prompt |
| Scenarios.ChoiceExactMatch | prompter_test.go:126 | "red" gives "red" |
| Scenarios.ChoiceMatchIgnoresCase | prompter_test.go:127 | "purple" gives "puRple", spelt as listed |
| Scenarios.ChoiceNoMatchGivesDefault | prompter_test.go:128 | "blue" gives the recipe's default "", valid |
| Scenarios.ChoiceEmptyAnswerTakesDefault | prompter_test.go:129 | the bare newline gives the default "puRple" for an optional choice prompt |
| Scenarios.YesNoAffirmative | prompter_test.go:132 | "yes" gives true |
| Scenarios.YesNoUnrecognised | prompter_test.go:133 | "turnip" is asked again, and the exhausted input then gives the default false, invalid |
| Scenarios.YesNoNegative | prompter_test.go:134 | "nope" gives false |
| Scenarios.YesNoMixedCase | prompter_test.go:135 | "YeP" gives true |
| Scenarios.YesNoShortAffirmative | prompter_test.go:136 | "y" gives true |
| Scenarios.YesNoShortNegative | prompter_test.go:137 | "N" gives false |

## Left out

- The standard reader `StandardPromptReader` (prompter.go:58-75) reads the
  terminal through `bufio` and `term.ReadPassword`. That is I/O, and the
  script of read results stands in for it.
  - A script entry is whatever the reader returns.
  - The real secure reader drops the newline, so an empty masked answer
    arrives as `Line("")`. By `Pipeline.BlankLineIsNotEmptyLine`, that answer
    does not take the default.
- `SecureEntry` only chooses which reader method is called (prompter.go:150-154).
  Both methods take the next script entry, so the flag has no effect in the
  model.
- Console output is left out: the rendered prompt is printed, and so are the
  error messages before a retry (prompter.go:146, prompter.go:170,
  prompter.go:179). Only the rendered text itself, `FormattedPromptMessage`,
  is modelled.
- `strings.ToLower` is modelled for ASCII letters only, since full Unicode
  case mapping is a table outside the engine. White space for
  `strings.TrimSpace` follows `unicode.IsSpace` in full.
- The dynamically typed value (`interface{}`) takes only the two shapes the
  recipes produce, text and boolean. A prompt literal with any other default
  type is not modelled.
- The validator and converter are function-typed fields in Go. They are
  modelled as the closed set of closures the recipes build: none, yes/no, or
  choice with its captured values and default. A caller-supplied closure is
  not modelled.
- The zero value of `Optionality` (a `Prompt` literal with no `Required`
  field) is left out. The datatype has only the two named constants.
- `SimpleSecurePrompt` is not part of this model. It is called by the test
  file but is not defined in prompts.go. The secure-entry tests
  (prompter_test.go:121-124) therefore have no lemma.
- A `Prompter` built without `NewPrompter` is not modelled. Its nil `Values`
  map would make `storeValuesAndReturn` panic.
- `Do` returns Go maps with the keys "value" and "validity". They are
  modelled as the record `PromptResult(value, validity)`.
- There is no concurrency in the source, so none is modelled.
- Prompts.RunConverter: its contract states only that the value is a boolean.
  What the boolean means is stated by `Prompts.YesNoValidatedConversion`.
