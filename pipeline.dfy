/**
  The evaluation of a prompt as a function of the input still to be read.

  One attempt reads one line and either finishes with a value and a validity
  or asks for the prompt to be re-issued. Evaluating a prompt repeats attempts
  until one finishes; the input is a finite script of read results, and once
  it is used up every further read fails (as an exhausted input stream does).
 */
module Pipeline {
  import opened Strings
  import opened PromptTypes
  import opened Prompts

  /** The outcome of one attempt. */
  datatype Step = Retry | Done(value: Value, validity: Validity)

  /** The outcome of evaluating a prompt, with the input left unread. */
  datatype Outcome = Outcome(value: Value, validity: Validity, rest: seq<ReadResult>)

  /** One record of the batch runner: the value and validity of one prompt. */
  datatype PromptResult = PromptResult(value: Value, validity: Validity)

  /** One read from the script: its head, or an error once it is used up. */
  function Next(input: seq<ReadResult>): (r: (ReadResult, seq<ReadResult>))
    ensures input == [] ==> r == (ReadError, [])
    ensures input != [] ==> r == (input[0], input[1..])
  {
    if input == [] then (ReadError, []) else (input[0], input[1..])
  }

  /** The `k`-th read from the script (an error past its end). */
  function ReadAt(input: seq<ReadResult>, k: nat): ReadResult {
    if k < |input| then input[k] else ReadError
  }

  /** The answer left after the whitespace policy is applied to a raw line. */
  function Candidate(trimSpace: bool, line: string): (c: string)
    ensures trimSpace ==> c == TrimSpace(line)
    ensures !trimSpace ==> c == TrimRightNewlines(line)
    ensures trimSpace ==> Trimmed(c) && (c == [] <==> AllSpace(line))
    ensures !trimSpace ==> c == line[..|c|] && (c == [] || c[|c| - 1] != '\n')
  {
    if trimSpace then TrimSpace(line) else TrimRightNewlines(line)
  }

  /** Validation step: a prompt without a validator accepts its answer unchanged. */
  function Validate(p: Prompt, candidate: string): (r: (string, Validity))
    ensures p.ValidationFunc.NoValidator? ==> r == (candidate, IsValid)
    ensures p.ValidationFunc.YesNoValidator? ==> r == (candidate, IsValidYesOrNoValue(candidate).1)
    ensures p.ValidationFunc.ChoiceValidator? ==>
              r == ChoiceValidation(p, p.ValidationFunc.accepted, p.ValidationFunc.fallback, candidate)
  {
    if p.ValidationFunc.NoValidator? then (candidate, IsValid) else RunValidator(p, candidate)
  }

  /** Conversion step: a prompt without a converter keeps the string. */
  function Convert(p: Prompt, validated: string): (v: Value)
    ensures p.ValueConverter.NoConverter? ==> v == Text(validated)
    ensures p.ValueConverter.YesNoConverter? ==> v == Bool(IsPositiveStringValue(validated, false))
  {
    if p.ValueConverter.NoConverter? then Text(validated) else RunConverter(p, validated)
  }

  /**
    One pass of the evaluation pipeline over one read. A failed read is the
    only way to finish invalid, it finishes with the default, and it is never
    retried; neither is the bare newline of an optional prompt.
   */
  function Attempt(trimSpace: bool, p: Prompt, read: ReadResult): (r: Step)
    ensures (r.Done? && r.validity == IsNotValid) <==> read.ReadError?
    ensures read.ReadError? ==> r == Done(p.DefaultValue, IsNotValid)
    ensures r.Retry? ==> !(read == Line("\n") && p.Required == NotRequired)
  {
    match read
    case ReadError => Done(p.DefaultValue, IsNotValid)
    case Line(text) =>
      if text == "\n" && p.Required == NotRequired then Done(p.DefaultValue, IsValid)
      else
        var candidate := Candidate(trimSpace, text);
        if candidate == "" && p.Required == Required then Retry
        else
          var (validated, validity) := Validate(p, candidate);
          if p.RetryIfNoMatch && validity == IsNotValid then Retry
          else Done(Convert(p, validated), IsValid)
  }

  /**
    The two reasons for a retry: an empty answer to a required prompt, or an
    invalid answer to a prompt that asks to retry.
   */
  lemma AttemptRetryReasons(trimSpace: bool, p: Prompt, read: ReadResult)
    requires Attempt(trimSpace, p, read).Retry?
    ensures read.Line?
    ensures var candidate := Candidate(trimSpace, read.text);
            (candidate == "" && p.Required == Required) ||
            (p.RetryIfNoMatch && Validate(p, candidate).1 == IsNotValid)
  {
  }

  /** An empty line for an optional prompt yields the default, bypassing validator and converter. */
  lemma EmptyLineGivesDefault(trimSpace: bool, p: Prompt)
    requires p.Required == NotRequired
    ensures Attempt(trimSpace, p, Line("\n")) == Done(p.DefaultValue, IsValid)
  {
  }

  /**
    For an optional prompt, a line of blanks is not the bare newline: it
    goes on to validation as the empty answer instead of yielding the default.
   */
  lemma BlankLineIsNotEmptyLine(p: Prompt, line: string)
    requires p.Required == NotRequired
    requires line != "\n" && AllSpace(line)
    ensures Attempt(true, p, Line(line)) ==
            var (validated, validity) := Validate(p, "");
            if p.RetryIfNoMatch && validity == IsNotValid then Retry
            else Done(Convert(p, validated), IsValid)
  {
  }

  /** An empty answer to a required prompt is always asked again. */
  lemma EmptyRequiredRetries(trimSpace: bool, p: Prompt, line: string)
    requires p.Required == Required && Candidate(trimSpace, line) == ""
    ensures Attempt(trimSpace, p, Line(line)) == Retry
  {
  }

  /**
    Past the empty-line checks, the retry flag alone decides what an invalid
    answer does: with it the prompt is asked again, without it the answer is
    converted and returned as valid.
   */
  lemma InvalidAnswerPolicy(trimSpace: bool, p: Prompt, line: string)
    requires !(line == "\n" && p.Required == NotRequired)
    requires !(Candidate(trimSpace, line) == "" && p.Required == Required)
    requires Validate(p, Candidate(trimSpace, line)).1 == IsNotValid
    ensures p.RetryIfNoMatch ==> Attempt(trimSpace, p, Line(line)) == Retry
    ensures !p.RetryIfNoMatch ==>
              Attempt(trimSpace, p, Line(line)) ==
              Done(Convert(p, Validate(p, Candidate(trimSpace, line)).0), IsValid)
  {
  }

  /**
    Past the empty-line checks, a valid answer is the validator's string run
    through the converter, and the attempt finishes valid.
   */
  lemma ValidAnswerIsConverted(trimSpace: bool, p: Prompt, line: string)
    requires !(line == "\n" && p.Required == NotRequired)
    requires !(Candidate(trimSpace, line) == "" && p.Required == Required)
    requires Validate(p, Candidate(trimSpace, line)).1 == IsValid
    ensures Attempt(trimSpace, p, Line(line)) ==
            Done(Convert(p, Validate(p, Candidate(trimSpace, line)).0), IsValid)
  {
  }

  /**
    The evaluation of one prompt: attempts are repeated until one finishes.
    Each attempt consumes one line, so the unread input is strictly shorter
    whenever there was input at all.
   */
  function Evaluate(trimSpace: bool, p: Prompt, input: seq<ReadResult>): (o: Outcome)
    ensures |o.rest| <= |input|
    ensures input != [] ==> |o.rest| < |input|
    ensures o.validity == IsNotValid ==> o.value == p.DefaultValue
    decreases |input|
  {
    var (read, rest) := Next(input);
    match Attempt(trimSpace, p, read)
    case Done(value, validity) => Outcome(value, validity, rest)
    case Retry =>
      Evaluate(trimSpace, p, rest)
  }

  /** What evaluation leaves unread is what follows the lines it consumed. */
  lemma {:induction false} EvaluateLeavesSuffix(trimSpace: bool, p: Prompt, input: seq<ReadResult>)
    ensures var rest := Evaluate(trimSpace, p, input).rest;
            rest == input[|input| - |rest|..]
    decreases |input|
  {
    if input != [] && Attempt(trimSpace, p, input[0]).Retry? {
      EvaluateLeavesSuffix(trimSpace, p, input[1..]);
      var rest := Evaluate(trimSpace, p, input[1..]).rest;
      assert input[1..][|input| - 1 - |rest|..] == input[|input| - |rest|..];
    }
  }

  /**
    Evaluation is determined by the first attempt that finishes: if the
    first `k` reads are all retried and read `k` finishes, that read's
    result is returned and the input after it is left unread.
   */
  lemma {:induction false} EvaluateFirstDone(trimSpace: bool, p: Prompt, input: seq<ReadResult>, k: nat)
    requires k <= |input|
    requires forall j :: 0 <= j < k ==> Attempt(trimSpace, p, input[j]).Retry?
    requires Attempt(trimSpace, p, ReadAt(input, k)).Done?
    ensures var step := Attempt(trimSpace, p, ReadAt(input, k));
            Evaluate(trimSpace, p, input) ==
            Outcome(step.value, step.validity, if k < |input| then input[k + 1..] else [])
    decreases k
  {
    if k > 0 {
      assert Attempt(trimSpace, p, input[0]).Retry?;
      forall j | 0 <= j < k - 1 ensures Attempt(trimSpace, p, input[1..][j]).Retry? {
        assert input[1..][j] == input[j + 1];
      }
      assert ReadAt(input[1..], k - 1) == ReadAt(input, k);
      EvaluateFirstDone(trimSpace, p, input[1..], k - 1);
      if k < |input| { assert input[1..][k..] == input[k + 1..]; }
    }
  }

  /**
    Such a first finishing attempt always exists: evaluation never runs past
    the end of the script.
   */
  lemma {:induction false} EvaluateHasFirstDone(trimSpace: bool, p: Prompt, input: seq<ReadResult>)
    returns (k: nat)
    ensures k <= |input|
    ensures forall j :: 0 <= j < k ==> Attempt(trimSpace, p, input[j]).Retry?
    ensures Attempt(trimSpace, p, ReadAt(input, k)).Done?
    decreases |input|
  {
    if input == [] || Attempt(trimSpace, p, input[0]).Done? {
      k := 0;
    } else {
      var k' := EvaluateHasFirstDone(trimSpace, p, input[1..]);
      k := k' + 1;
      forall j | 0 <= j < k ensures Attempt(trimSpace, p, input[j]).Retry? {
        if j > 0 { assert input[j] == input[1..][j - 1]; }
      }
      assert ReadAt(input, k) == ReadAt(input[1..], k');
    }
  }

  /**
    An input that is retried line after line ends, once exhausted, in the
    default value reported as invalid, with nothing left to read.
   */
  lemma {:induction false} AllRetriedEndsInDefault(trimSpace: bool, p: Prompt, input: seq<ReadResult>)
    requires forall j :: 0 <= j < |input| ==> Attempt(trimSpace, p, input[j]).Retry?
    ensures Evaluate(trimSpace, p, input) == Outcome(p.DefaultValue, IsNotValid, [])
  {
    EvaluateFirstDone(trimSpace, p, input, |input|);
  }

  /**
    The batch runner: each prompt is evaluated in turn on the input the
    previous one left, with no early exit; one record per prompt, in order.
   */
  function RunAll(trimSpace: bool, prompts: seq<Prompt>, input: seq<ReadResult>)
    : (r: (seq<PromptResult>, seq<ReadResult>))
    ensures |r.0| == |prompts|
    decreases |prompts|
  {
    if prompts == [] then ([], input)
    else
      var n := |prompts| - 1;
      var before := RunAll(trimSpace, prompts[..n], input);
      var o := Evaluate(trimSpace, prompts[n], before.1);
      (before.0 + [PromptResult(o.value, o.validity)], o.rest)
  }

  /** The first prompt of a batch is evaluated first, on the whole input. */
  lemma {:induction false} RunAllFirstReadsFirst(trimSpace: bool, p: Prompt, prompts: seq<Prompt>,
                                                 input: seq<ReadResult>)
    ensures var o := Evaluate(trimSpace, p, input);
            var after := RunAll(trimSpace, prompts, o.rest);
            RunAll(trimSpace, [p] + prompts, input) == ([PromptResult(o.value, o.validity)] + after.0, after.1)
    decreases |prompts|
  {
    var o := Evaluate(trimSpace, p, input);
    var x := PromptResult(o.value, o.validity);
    if prompts == [] {
      assert [p] + prompts == [p] && [p][..0] == [];
      assert RunAll(trimSpace, [p], input) == ([] + [x], o.rest);
      assert [x] + [] == [] + [x];
    } else {
      var n := |prompts| - 1;
      var all := [p] + prompts;
      assert all[..n + 1] == [p] + prompts[..n];
      assert all[n + 1] == prompts[n];
      RunAllFirstReadsFirst(trimSpace, p, prompts[..n], input);
      var mid := RunAll(trimSpace, prompts[..n], o.rest);
      var last := Evaluate(trimSpace, prompts[n], mid.1);
      var y := PromptResult(last.value, last.validity);
      assert RunAll(trimSpace, all, input) == (([x] + mid.0) + [y], last.rest);
      assert RunAll(trimSpace, prompts, o.rest) == (mid.0 + [y], last.rest);
      assert ([x] + mid.0) + [y] == [x] + (mid.0 + [y]);
    }
  }

  /** One more prompt of a batch, evaluated on what the earlier ones left unread. */
  lemma RunAllPrefixStep(trimSpace: bool, prompts: seq<Prompt>, i: nat, input: seq<ReadResult>,
                         results: seq<PromptResult>, o: Outcome)
    requires i < |prompts|
    requires RunAll(trimSpace, prompts[..i], input).0 == results
    requires o == Evaluate(trimSpace, prompts[i], RunAll(trimSpace, prompts[..i], input).1)
    ensures RunAll(trimSpace, prompts[..i + 1], input) == (results + [PromptResult(o.value, o.validity)], o.rest)
  {
    assert prompts[..i + 1][..i] == prompts[..i];
  }

  /** In a batch, a record is invalid only if it carries its own prompt's default. */
  lemma {:induction false} RunAllInvalidIsDefault(trimSpace: bool, prompts: seq<Prompt>,
                                                  input: seq<ReadResult>, i: nat)
    requires i < |prompts|
    requires RunAll(trimSpace, prompts, input).0[i].validity == IsNotValid
    ensures RunAll(trimSpace, prompts, input).0[i].value == prompts[i].DefaultValue
    decreases |prompts|
  {
    var n := |prompts| - 1;
    var before := RunAll(trimSpace, prompts[..n], input);
    if i < n {
      assert RunAll(trimSpace, prompts, input).0[i] == before.0[i];
      RunAllInvalidIsDefault(trimSpace, prompts[..n], input, i);
    }
  }

  /** The values of a batch of records, in order. */
  function ValuesOf(results: seq<PromptResult>): (vs: seq<Value>)
    ensures |vs| == |results|
    ensures forall i :: 0 <= i < |results| ==> vs[i] == results[i].value
  {
    if results == [] then [] else ValuesOf(results[..|results| - 1]) + [results[|results| - 1].value]
  }

  /**
    The keyed store after the `i`-th prompt's value has been stored under its
    message, for each `i` in order.
   */
  function StoreAll(m: map<string, Value>, prompts: seq<Prompt>, values: seq<Value>): (r: map<string, Value>)
    requires |prompts| == |values|
    ensures m.Keys <= r.Keys
    decreases |prompts|
  {
    if prompts == [] then m
    else
      var n := |prompts| - 1;
      StoreAll(m, prompts[..n], values[..n])[prompts[n].Message := values[n]]
  }

  /** Storing the record of one more prompt of a batch updates the store at that prompt's message. */
  lemma StoreAllPrefixStep(m: map<string, Value>, prompts: seq<Prompt>, i: nat,
                           results: seq<PromptResult>, r: PromptResult)
    requires i < |prompts| && |results| == i
    ensures ValuesOf(results + [r]) == ValuesOf(results) + [r.value]
    ensures StoreAll(m, prompts[..i + 1], ValuesOf(results + [r])) ==
            StoreAll(m, prompts[..i], ValuesOf(results))[prompts[i].Message := r.value]
  {
    assert (results + [r])[..i] == results;
    assert prompts[..i + 1][..i] == prompts[..i];
  }

  /** Last write wins: a message holds the value of the last prompt that carried it. */
  lemma {:induction false} StoreAllLastWriteWins(m: map<string, Value>, prompts: seq<Prompt>,
                                                 values: seq<Value>, i: nat)
    requires |prompts| == |values| && i < |prompts|
    requires forall j :: i < j < |prompts| ==> prompts[j].Message != prompts[i].Message
    ensures prompts[i].Message in StoreAll(m, prompts, values)
    ensures StoreAll(m, prompts, values)[prompts[i].Message] == values[i]
    decreases |prompts|
  {
    var n := |prompts| - 1;
    if i < n {
      StoreAllLastWriteWins(m, prompts[..n], values[..n], i);
    }
  }

  /** A message that no prompt of the batch carries keeps its earlier value. */
  lemma {:induction false} StoreAllUntouched(m: map<string, Value>, prompts: seq<Prompt>,
                                             values: seq<Value>, key: string)
    requires |prompts| == |values|
    requires forall j :: 0 <= j < |prompts| ==> prompts[j].Message != key
    ensures key in StoreAll(m, prompts, values) <==> key in m
    ensures key in m ==> StoreAll(m, prompts, values)[key] == m[key]
    decreases |prompts|
  {
    if prompts != [] {
      var n := |prompts| - 1;
      StoreAllUntouched(m, prompts[..n], values[..n], key);
    }
  }
}
