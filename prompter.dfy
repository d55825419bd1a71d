/**
  The prompt controller: it owns a line reader and the store of completed
  values, evaluates one prompt at a time, runs batches of prompts and renders
  the text shown before each read.
 */
module Engine {
  import opened Strings
  import opened PromptTypes
  import opened Prompts
  import opened Pipeline

  /**
    The line-reading collaborator, as a script of the results its reads will
    deliver. Once the script is used up every read fails, as reading an
    exhausted stream does.
   */
  class LineReader {
    var script: seq<ReadResult>

    constructor (script: seq<ReadResult>)
      ensures this.script == script
    {
      this.script := script;
    }

    /** Delivers the next read result. */
    method ReadLine() returns (r: ReadResult)
      modifies this
      ensures (r, script) == Next(old(script))
    {
      if script == [] {
        r := ReadError;
      } else {
        r := script[0];
        script := script[1..];
      }
    }
  }

  class Prompter {
    var reader: LineReader
    /** The completed values keyed on the prompt's message. */
    var values: map<string, Value>
    /** The completed values in the order they were entered. */
    var indexedValues: seq<Value>
    /** Whether leading and trailing white space is trimmed from answers. */
    var trimSpace: bool
    /** Text appended to every rendered prompt message. */
    var promptSuffix: string

    /** A fresh controller with empty stores, trimming on and the suffix ":  ". */
    constructor (reader: LineReader)
      ensures this.reader == reader
      ensures values == map[] && indexedValues == []
      ensures trimSpace && promptSuffix == ":  "
    {
      this.reader := reader;
      values := map[];
      indexedValues := [];
      trimSpace := true;
      promptSuffix := ":  ";
    }

    /**
      Asks one question and returns the final value and its validity. Each
      retry reads a fresh line; only the finishing attempt is stored.
     */
    method Prompt(prompt: Prompt) returns (value: Value, validity: Validity)
      modifies this`values, this`indexedValues, reader
      ensures var o := Evaluate(trimSpace, prompt, old(reader.script));
              value == o.value && validity == o.validity && reader.script == o.rest
      ensures indexedValues == old(indexedValues) + [value]
      ensures values == old(values)[prompt.Message := value]
    {
      while true
        invariant Evaluate(trimSpace, prompt, reader.script) == Evaluate(trimSpace, prompt, old(reader.script))
        invariant values == old(values) && indexedValues == old(indexedValues)
        decreases |reader.script|
      {
        var read := reader.ReadLine();
        if read.ReadError? {
          value, validity := StoreValuesAndReturn(prompt, prompt.DefaultValue, IsNotValid);
          return;
        }
        var readString := read.text;
        if readString == "\n" && prompt.Required == NotRequired {
          value, validity := StoreValuesAndReturn(prompt, prompt.DefaultValue, IsValid);
          return;
        }
        var finalValue: string;
        if trimSpace {
          finalValue := TrimSpace(readString);
        } else {
          finalValue := TrimRightNewlines(readString);
        }
        if finalValue == "" && prompt.Required == Required {
          continue;
        }
        var outcome := IsValid;
        if !prompt.ValidationFunc.NoValidator? {
          finalValue, outcome := RunValidator(prompt, finalValue).0, RunValidator(prompt, finalValue).1;
        }
        if prompt.RetryIfNoMatch && outcome == IsNotValid {
          continue;
        }
        var converted := Text(finalValue);
        if !prompt.ValueConverter.NoConverter? {
          converted := RunConverter(prompt, finalValue);
        }
        value, validity := StoreValuesAndReturn(prompt, converted, IsValid);
        return;
      }
    }

    /**
      Asks each question in turn, with no early exit, and returns one record
      per question in the order given.
     */
    method Do(prompts: seq<Prompt>) returns (results: seq<PromptResult>)
      modifies this`values, this`indexedValues, reader
      ensures (results, reader.script) == RunAll(trimSpace, prompts, old(reader.script))
      ensures |results| == |prompts|
      ensures indexedValues == old(indexedValues) + ValuesOf(results)
      ensures values == StoreAll(old(values), prompts, ValuesOf(results))
    {
      results := [];
      for i := 0 to |prompts|
        invariant (results, reader.script) == RunAll(trimSpace, prompts[..i], old(reader.script))
        invariant |results| == i
        invariant indexedValues == old(indexedValues) + ValuesOf(results)
        invariant values == StoreAll(old(values), prompts[..i], ValuesOf(results))
      {
        ghost var o := Evaluate(trimSpace, prompts[i], reader.script);
        var value, validity := Prompt(prompts[i]);
        RunAllPrefixStep(trimSpace, prompts, i, old(reader.script), results, o);
        StoreAllPrefixStep(old(values), prompts, i, results, PromptResult(value, validity));
        results := results + [PromptResult(value, validity)];
      }
      assert prompts[..|prompts|] == prompts;
    }

    /** Empties both stores. */
    method ClearValues()
      modifies this`values, this`indexedValues
      ensures values == map[] && indexedValues == []
    {
      values := map[];
      indexedValues := [];
    }

    /** Records a completed value in both stores and hands it back unchanged. */
    method StoreValuesAndReturn(prompt: Prompt, value: Value, validity: Validity)
      returns (v: Value, vl: Validity)
      modifies this`values, this`indexedValues
      ensures v == value && vl == validity
      ensures indexedValues == old(indexedValues) + [value]
      ensures values == old(values)[prompt.Message := value]
    {
      indexedValues := indexedValues + [value];
      values := values[prompt.Message := value];
      v, vl := value, validity;
    }

    /**
      The text shown before a read: the message, then the hint after one
      space when there is a hint, then the suffix, then two spaces.
     */
    function FormattedPromptMessage(prompt: Prompt): (r: string)
      reads this
      ensures |r| == |prompt.Message| + (if prompt.ValueHint == "" then 0 else |prompt.ValueHint| + 1)
                     + |promptSuffix| + 2
      ensures r[..|prompt.Message|] == prompt.Message
      ensures prompt.ValueHint != "" ==>
                r[|prompt.Message|] == ' ' &&
                r[|prompt.Message| + 1..|prompt.Message| + 1 + |prompt.ValueHint|] == prompt.ValueHint
      ensures r[|r| - 2 - |promptSuffix|..] == promptSuffix + "  "
    {
      var suffix := if promptSuffix != "" then promptSuffix else "";
      var hint := if prompt.ValueHint != "" then " " + prompt.ValueHint else "";
      prompt.Message + hint + suffix + "  "
    }
  }

  /** Applies `f` to every string of `source`, filling a result array of the same length. */
  method MapStrings(source: seq<string>, f: string -> string) returns (out: seq<string>)
    ensures |out| == |source|
    ensures forall i :: 0 <= i < |source| ==> out[i] == f(source[i])
  {
    var a := new string[|source|];
    for idx := 0 to |source|
      invariant forall j :: 0 <= j < idx ==> a[j] == f(source[j])
    {
      a[idx] := f(source[idx]);
    }
    out := a[..];
  }
}
