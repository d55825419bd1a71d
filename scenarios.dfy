/**
  How the three recipes behave once they are evaluated by the engine, first
  for an arbitrary line and then on the concrete answers of the repository's
  own test suite.
 */
module Scenarios {
  import opened Strings
  import opened PromptTypes
  import opened Prompts
  import opened Pipeline

  // ---------------------------------------------------------------------------
  // The recipes on an arbitrary line
  // ---------------------------------------------------------------------------

  /**
    A free-text prompt returns the trimmed answer as typed; only an empty
    answer to a required prompt is asked again.
   */
  lemma SimplePromptAnswer(trimSpace: bool, message: string, required: Optionality,
                           defaultValue: string, line: string)
    requires !(line == "\n" && required == NotRequired)
    ensures var c := Candidate(trimSpace, line);
            Attempt(trimSpace, SimplePrompt(message, required, defaultValue), Line(line)) ==
            if c == "" && required == Required then Retry else Done(Text(c), IsValid)
  {
  }

  /**
    A yes/no prompt finishes only on a recognised token, with the token's
    meaning; anything else, the empty answer included, is asked again.
   */
  lemma YesNoPromptAnswer(trimSpace: bool, message: string, hint: string, required: Optionality,
                          defaultValue: bool, line: string)
    requires !(line == "\n" && required == NotRequired)
    ensures var c, a := ToLower(Candidate(trimSpace, line)),
                        Attempt(trimSpace, YesNoPrompt(message, hint, required, defaultValue), Line(line));
            (c in Affirmative ==> a == Done(Bool(true), IsValid)) &&
            (c in Negative ==> a == Done(Bool(false), IsValid)) &&
            (c !in Affirmative + Negative ==> a == Retry)
  {
    var c := Candidate(trimSpace, line);
    var p := YesNoPrompt(message, hint, required, defaultValue);
    var a := Attempt(trimSpace, p, Line(line));
    VocabularyDisjoint();
    if c == "" && required == Required {
      assert a == Retry;
      assert ToLower(c) == [];
    } else {
      var v := IsValidYesOrNoValue(c);
      assert Validate(p, c) == (c, v.1);
      if v.1 == IsValid {
        assert a == Done(Bool(IsPositiveStringValue(c, false)), IsValid);
      } else {
        assert a == Retry;
      }
    }
  }

  /**
    A choice prompt returns the first listed value its answer matches,
    spelt as listed; an answer matching nothing is not asked again but yields
    the recipe's default, reported as valid. Only an empty answer to a
    required prompt is excluded: that one is asked again.
   */
  lemma SingleValuePromptAnswer(trimSpace: bool, message: string, hint: string, values: seq<string>,
                                required: Optionality, defaultValue: string, line: string, k: nat)
    requires !(line == "\n" && required == NotRequired)
    requires !(Candidate(trimSpace, line) == "" && required == Required)
    ensures var c, a := Candidate(trimSpace, line),
                        Attempt(trimSpace, SingleValuePrompt(message, hint, values, required, defaultValue),
                                Line(line));
            (FirstMatchAt(false, values, c, k) ==> a == Done(Text(values[k]), IsValid)) &&
            (NoMatch(false, values, c) ==> a == Done(Text(defaultValue), IsValid))
  {
  }

  // ---------------------------------------------------------------------------
  // The test suite's answers
  // ---------------------------------------------------------------------------

  /** A typed line is its text followed by the newline the reader keeps. */
  lemma TypedLine(text: string)
    requires Trimmed(text)
    ensures TrimSpace(text + "\n") == text
  {
    var s := text + "\n";
    assert s[..0] == [] && s[|text|..] == "\n" && s[0..|text|] == text;
    TrimSpaceIsFactor(s, 0, |text|);
  }

  /** A script of one line is settled by that line's attempt. */
  lemma OneLine(trimSpace: bool, p: Prompt, line: string)
    ensures var a := Attempt(trimSpace, p, Line(line));
            Evaluate(trimSpace, p, [Line(line)]) ==
            if a.Done? then Outcome(a.value, a.validity, [])
            else Outcome(p.DefaultValue, IsNotValid, [])
  {
    assert [Line(line)][1..] == [];
  }

  const Colours: seq<string> := ["red", "Green", "YELLOW", "puRple"]

  /** A one-line answer to a free-text prompt, typed with no surrounding blanks. */
  lemma SimpleOneLine(message: string, required: Optionality, defaultValue: string, text: string)
    requires Trimmed(text) && text != ""
    ensures Evaluate(true, SimplePrompt(message, required, defaultValue), [Line(text + "\n")]) ==
            Outcome(Text(text), IsValid, [])
  {
    TypedLine(text);
    assert text + "\n" != "\n";
    SimplePromptAnswer(true, message, required, defaultValue, text + "\n");
    OneLine(true, SimplePrompt(message, required, defaultValue), text + "\n");
  }

  lemma SimpleTypedAnswer()
    ensures Evaluate(true, SimplePrompt("Enter a value", Required, ""), [Line("test 1234\n")]) ==
            Outcome(Text("test 1234"), IsValid, [])
  {
    assert "test 1234" + "\n" == "test 1234\n";
    SimpleOneLine("Enter a value", Required, "", "test 1234");
  }

  lemma SimpleEmptyAnswerTakesDefault()
    ensures Evaluate(true, SimplePrompt("Enter a value", NotRequired, "test 1234"), [Line("\n")]) ==
            Outcome(Text("test 1234"), IsValid, [])
  {
    OneLine(true, SimplePrompt("Enter a value", NotRequired, "test 1234"), "\n");
  }

  /** A one-line answer to a yes/no prompt, typed with no surrounding blanks. */
  lemma YesNoOneLine(message: string, hint: string, required: Optionality, defaultValue: bool, text: string)
    requires Trimmed(text) && text != ""
    ensures var o := Evaluate(true, YesNoPrompt(message, hint, required, defaultValue), [Line(text + "\n")]);
            var c := ToLower(text);
            (c in Affirmative ==> o == Outcome(Bool(true), IsValid, [])) &&
            (c in Negative ==> o == Outcome(Bool(false), IsValid, [])) &&
            (c !in Affirmative + Negative ==> o == Outcome(Bool(defaultValue), IsNotValid, []))
  {
    TypedLine(text);
    assert text + "\n" != "\n";
    YesNoPromptAnswer(true, message, hint, required, defaultValue, text + "\n");
    OneLine(true, YesNoPrompt(message, hint, required, defaultValue), text + "\n");
  }

  lemma YesNoAffirmative()
    ensures Evaluate(true, YesNoPrompt("Enter a value", "", Required, false), [Line("yes\n")]) ==
            Outcome(Bool(true), IsValid, [])
  {
    assert "yes" + "\n" == "yes\n";
    assert ToLower("yes") == "yes";
    assert ToLower("yes") in Affirmative;
    YesNoOneLine("Enter a value", "", Required, false, "yes");
  }

  lemma YesNoUnrecognised()
    ensures Evaluate(true, YesNoPrompt("Enter a value", "", Required, false), [Line("turnip\n")]) ==
            Outcome(Bool(false), IsNotValid, [])
  {
    assert "turnip" + "\n" == "turnip\n";
    assert ToLower("turnip") == "turnip";
    assert ToLower("turnip") !in Affirmative + Negative;
    YesNoOneLine("Enter a value", "", Required, false, "turnip");
  }

  lemma YesNoNegative()
    ensures Evaluate(true, YesNoPrompt("Enter a value", "", Required, true), [Line("nope\n")]) ==
            Outcome(Bool(false), IsValid, [])
  {
    assert "nope" + "\n" == "nope\n";
    assert ToLower("nope") == "nope";
    assert ToLower("nope") in Negative;
    YesNoOneLine("Enter a value", "", Required, true, "nope");
  }

  lemma YesNoMixedCase()
    ensures Evaluate(true, YesNoPrompt("Enter a value", "", Required, true), [Line("YeP\n")]) ==
            Outcome(Bool(true), IsValid, [])
  {
    assert "YeP" + "\n" == "YeP\n";
    assert ToLower("YeP") == "yep";
    assert ToLower("YeP") in Affirmative;
    YesNoOneLine("Enter a value", "", Required, true, "YeP");
  }

  lemma YesNoShortAffirmative()
    ensures Evaluate(true, YesNoPrompt("Enter a value", "", Required, true), [Line("y\n")]) ==
            Outcome(Bool(true), IsValid, [])
  {
    assert "y" + "\n" == "y\n";
    assert ToLower("y") == "y";
    assert ToLower("y") in Affirmative;
    YesNoOneLine("Enter a value", "", Required, true, "y");
  }

  lemma YesNoShortNegative()
    ensures Evaluate(true, YesNoPrompt("Enter a value", "", Required, true), [Line("N\n")]) ==
            Outcome(Bool(false), IsValid, [])
  {
    assert "N" + "\n" == "N\n";
    assert ToLower("N") == "n";
    assert ToLower("N") in Negative;
    YesNoOneLine("Enter a value", "", Required, true, "N");
  }

  /** A one-line answer to a choice prompt, typed with no surrounding blanks. */
  lemma ChoiceOneLine(message: string, hint: string, values: seq<string>, required: Optionality,
                      defaultValue: string, text: string, k: nat)
    requires Trimmed(text) && text != ""
    ensures var o := Evaluate(true, SingleValuePrompt(message, hint, values, required, defaultValue),
                              [Line(text + "\n")]);
            (FirstMatchAt(false, values, text, k) ==> o == Outcome(Text(values[k]), IsValid, [])) &&
            (NoMatch(false, values, text) ==> o == Outcome(Text(defaultValue), IsValid, []))
  {
    TypedLine(text);
    assert text + "\n" != "\n";
    SingleValuePromptAnswer(true, message, hint, values, required, defaultValue, text + "\n", k);
    OneLine(true, SingleValuePrompt(message, hint, values, required, defaultValue), text + "\n");
  }

  /** Lower-casing character by character. */
  lemma Lowered(s: string, t: string)
    requires |s| == |t| && forall i :: 0 <= i < |s| ==> LowerChar(s[i]) == t[i]
    ensures ToLower(s) == t
  {
  }

  /** How the test suite's answers match the offered colours once case is ignored. */
  lemma RedMatchesFirst()
    ensures FirstMatchAt(false, Colours, "red", 0)
  {
    Lowered("red", "red");
  }

  lemma PurpleMatchesFourth()
    ensures FirstMatchAt(false, Colours, "purple", 3)
  {
    Lowered("puRple", "purple");
    Lowered("purple", "purple");
    assert |ToLower("red")| == 3 && |ToLower("Green")| == 5;
    assert ToLower("YELLOW")[0] == 'y';
  }

  /** "blue" has a length none of the colours has. */
  lemma BlueMatchesNothing()
    ensures NoMatch(false, Colours, "blue")
  {
    assert |ToLower("blue")| == 4;
    assert |ToLower("red")| == 3 && |ToLower("Green")| == 5;
    assert |ToLower("YELLOW")| == 6 && |ToLower("puRple")| == 6;
  }

  lemma ChoiceExactMatch()
    ensures Evaluate(true, SingleValuePrompt("Enter a value", "", Colours, Required, ""), [Line("red\n")]) ==
            Outcome(Text("red"), IsValid, [])
  {
    assert "red" + "\n" == "red\n";
    RedMatchesFirst();
    ChoiceOneLine("Enter a value", "", Colours, Required, "", "red", 0);
  }

  /** The value comes back spelt as listed, not as typed. */
  lemma ChoiceMatchIgnoresCase()
    ensures Evaluate(true, SingleValuePrompt("Enter a value", "", Colours, Required, ""), [Line("purple\n")]) ==
            Outcome(Text("puRple"), IsValid, [])
  {
    assert "purple" + "\n" == "purple\n";
    PurpleMatchesFourth();
    ChoiceOneLine("Enter a value", "", Colours, Required, "", "purple", 3);
  }

  /** An unlisted colour yields the recipe's default (here empty), reported as valid. */
  lemma ChoiceNoMatchGivesDefault()
    ensures Evaluate(true, SingleValuePrompt("Enter a value", "", Colours, Required, ""), [Line("blue\n")]) ==
            Outcome(Text(""), IsValid, [])
  {
    assert "blue" + "\n" == "blue\n";
    BlueMatchesNothing();
    ChoiceOneLine("Enter a value", "", Colours, Required, "", "blue", 0);
  }

  lemma ChoiceEmptyAnswerTakesDefault()
    ensures Evaluate(true, SingleValuePrompt("Enter a value", "", Colours, NotRequired, "puRple"), [Line("\n")]) ==
            Outcome(Text("puRple"), IsValid, [])
  {
    OneLine(true, SingleValuePrompt("Enter a value", "", Colours, NotRequired, "puRple"), "\n");
  }
}
