/**
 * The CodeEvaluator object: its output buffer, the driver that runs a
 * program line by line, the comparison of printed output with the expected
 * output, the verdict of a challenge, the test-case runs and the rule check.
 *
 * The statements themselves are the functions of the Statement module; the
 * driver here is the loop of executePythonLikeCode, proved to compute
 * Statement.Execute and to leave in the buffer exactly the lines printed.
 */
module Evaluator {
  import opened Wrappers
  import opened JsText
  import opened JsValue
  import opened Expression
  import opened Statement
  import opened GameTypes
  import opened RuleLinter

  // ---------------------------------------------------------------------------
  // compareOutput

  predicate Bracketed(expected: string) {
    StartsWith(expected, "[") && EndsWith(expected, "]")
  }

  /** Every ' replaced by ". */
  function DoubleQuotes(s: string): string {
    ReplaceAllChar(s, '\'', '"')
  }

  /** compareOutput(actual, expected): a bracketed expected value is compared
      with single quotes read as double quotes, a multi-line one line by line
      after trimming each line, anything else exactly. */
  predicate CompareOutput(actual: string, expected: string) {
    if Bracketed(expected) then DoubleQuotes(actual) == DoubleQuotes(expected)
    else if Contains(expected, "\n") then TrimAll(Split(actual, "\n")) == TrimAll(Split(expected, "\n"))
    else actual == expected
  }

  /** Output always matches itself. */
  lemma CompareReflexive(x: string)
    ensures CompareOutput(x, x)
  {
  }

  /** The bracketed path: the texts have the same length and agree at every
      position, except that a quote may stand for either kind of quote. */
  lemma CompareBracketed(actual: string, expected: string)
    requires Bracketed(expected)
    ensures CompareOutput(actual, expected) <==>
      |actual| == |expected|
      && forall i :: 0 <= i < |actual| ==> actual[i] == expected[i] || (IsQuote(actual[i]) && IsQuote(expected[i]))
  {
    var a, e := DoubleQuotes(actual), DoubleQuotes(expected);
    if a == e {
      forall i | 0 <= i < |actual|
        ensures actual[i] == expected[i] || (IsQuote(actual[i]) && IsQuote(expected[i]))
      {
        assert a[i] == e[i];
      }
    }
    if |actual| == |expected|
       && forall i :: 0 <= i < |actual| ==> actual[i] == expected[i] || (IsQuote(actual[i]) && IsQuote(expected[i]))
    {
      assert forall i :: 0 <= i < |a| ==> a[i] == e[i];
    }
  }

  /** The multi-line path: equally many lines, pairwise equal after
      trimming; blank lines count as lines. */
  lemma CompareMultiline(actual: string, expected: string)
    requires !Bracketed(expected) && Contains(expected, "\n")
    ensures CompareOutput(actual, expected) <==>
      |Split(actual, "\n")| == |Split(expected, "\n")|
      && forall i :: 0 <= i < |Split(actual, "\n")| ==> Trim(Split(actual, "\n")[i]) == Trim(Split(expected, "\n")[i])
  {
    var a, e := TrimAll(Split(actual, "\n")), TrimAll(Split(expected, "\n"));
    if |Split(actual, "\n")| == |Split(expected, "\n")|
       && forall i :: 0 <= i < |Split(actual, "\n")| ==> Trim(Split(actual, "\n")[i]) == Trim(Split(expected, "\n")[i])
    {
      assert forall i :: 0 <= i < |a| ==> a[i] == e[i];
    }
  }

  /** The single-line path: no whitespace normalisation at all. */
  lemma CompareSingleLine(actual: string, expected: string)
    requires !Bracketed(expected) && !Contains(expected, "\n")
    ensures CompareOutput(actual, expected) <==> actual == expected
  {
  }

  // ---------------------------------------------------------------------------
  // the verdict

  /** What evaluateCode returns. */
  datatype Verdict = Verdict(success: bool, output: string, error: Option<string>, passed: nat, total: nat)

  /** Whether evaluateCode returns, and with what: the source never returns
      when the program does not terminate, and the model does not follow the
      operations it leaves out. */
  datatype Evaluation = Returns(verdict: Verdict) | NeverReturns | NotModelled

  /** An expected output that JavaScript treats as present: defined and not empty. */
  predicate HasExpectedOutput(c: Challenge) {
    c.expectedOutput.Some? && c.expectedOutput.value != ""
  }

  /** Whether printed output passes a test case: trimmed, then compared. */
  predicate Passes(output: string, t: TestCase) {
    CompareOutput(Trim(output), Trim(t.expectedOutput))
  }

  /** How many test cases the printed output passes. */
  function CountPassing(output: string, tests: seq<TestCase>): (n: nat)
    ensures n <= |tests|
  {
    if tests == [] then 0
    else CountPassing(output, tests[..|tests| - 1]) + (if Passes(output, tests[|tests| - 1]) then 1 else 0)
  }

  /** The count grows by one exactly at each passing test case. */
  lemma CountPassingSnoc(output: string, tests: seq<TestCase>, k: nat)
    requires k < |tests|
    ensures CountPassing(output, tests[..k + 1])
            == CountPassing(output, tests[..k]) + (if Passes(output, tests[k]) then 1 else 0)
  {
    assert tests[..k + 1][..k] == tests[..k];
  }

  /** The verdict for a program that ran to completion printing `output`. */
  function Judge(output: string, c: Challenge): Verdict {
    if HasExpectedOutput(c) then
      var success := CompareOutput(Trim(output), Trim(c.expectedOutput.value));
      Verdict(success, output, None, if success then 1 else 0, 1)
    else if c.testCases.Some? then
      var passed := CountPassing(output, c.testCases.value);
      Verdict(passed == |c.testCases.value|, output, None, passed, |c.testCases.value|)
    else Verdict(true, output, None, 1, 1)
  }

  /** What evaluateCode returns once the outcome of running the program is
      known: a verdict on what it printed, or a failure carrying the message
      of what it threw. */
  function EvaluationOf(o: Outcome<State, ()>, c: Challenge): Evaluation {
    match o
    case Ok(_, st) => Returns(Judge(Join(st.out, "\n"), c))
    case Raise(err, st) => Returns(Verdict(false, Join(st.out, "\n"), Some(ErrorMessage(err)), 0, 1))
    case Hangs => NeverReturns
    case Unmodelled => NotModelled
  }

  /** The verdict on a completed run, case by case: the expected output
      when there is one, else the test cases, else an unconditional pass. */
  lemma JudgeCases(output: string, c: Challenge)
    ensures HasExpectedOutput(c) ==>
      var success := CompareOutput(Trim(output), Trim(c.expectedOutput.value));
      Judge(output, c) == Verdict(success, output, None, if success then 1 else 0, 1)
    ensures !HasExpectedOutput(c) && c.testCases.Some? ==>
      Judge(output, c) == Verdict(CountPassing(output, c.testCases.value) == |c.testCases.value|, output, None,
                                  CountPassing(output, c.testCases.value), |c.testCases.value|)
    ensures !HasExpectedOutput(c) && c.testCases.None? ==> Judge(output, c) == Verdict(true, output, None, 1, 1)
  {
  }

  /** What evaluateCode returns, case by case on the outcome of the run. */
  lemma EvaluationCases(o: Outcome<State, ()>, c: Challenge)
    ensures o.Ok? ==> EvaluationOf(o, c) == Returns(Judge(Join(o.st.out, "\n"), c))
    ensures o.Raise? ==> EvaluationOf(o, c) == Returns(Verdict(false, Join(o.st.out, "\n"), Some(ErrorMessage(o.err)), 0, 1))
    ensures o.Hangs? ==> EvaluationOf(o, c) == NeverReturns
    ensures o.Unmodelled? ==> EvaluationOf(o, c) == NotModelled
  {
  }

  /** evaluateCode(code, challenge) as a function of its arguments. */
  function Evaluate(code: string, c: Challenge): Evaluation {
    EvaluationOf(Execute(code), c)
  }

  /** Every verdict, whatever the program did, is consistent: success exactly
      when every check passed, never more passes than checks, and an error
      only on failure. */
  lemma VerdictConsistent(o: Outcome<State, ()>, c: Challenge)
    requires EvaluationOf(o, c).Returns?
    ensures var v := EvaluationOf(o, c).verdict;
      (v.success <==> v.passed == v.total) && v.passed <= v.total
      && (v.error.Some? ==> !v.success && v.total == 1)
  {
  }

  /** A program that throws fails with the error's message, no passes, one
      check, and the lines printed before the throw. */
  lemma ThrowFails(o: Outcome<State, ()>, c: Challenge)
    requires o.Raise?
    ensures EvaluationOf(o, c).Returns?
    ensures var v := EvaluationOf(o, c).verdict;
      !v.success && v.passed == 0 && v.total == 1
      && v.error == Some(ErrorMessage(o.err)) && v.output == Join(o.st.out, "\n")
  {
  }

  /** The input of a test case is never read. */
  lemma {:induction false} CountIgnoresInputs(output: string, a: seq<TestCase>, b: seq<TestCase>)
    requires |a| == |b| && forall i :: 0 <= i < |a| ==> a[i].expectedOutput == b[i].expectedOutput
    ensures CountPassing(output, a) == CountPassing(output, b)
  {
    if a != [] {
      CountIgnoresInputs(output, a[..|a| - 1], b[..|b| - 1]);
    }
  }

  /** An empty list of test cases is a success with nothing passed out of
      nothing. */
  lemma NoTestCasesSucceed(o: Outcome<State, ()>, c: Challenge)
    requires o.Ok? && !HasExpectedOutput(c) && c.testCases == Some([])
    ensures EvaluationOf(o, c) == Returns(Verdict(true, Join(o.st.out, "\n"), None, 0, 0))
  {
  }

  /** The program print("s") on a challenge with an expected output: the
      output is s, and the verdict is the comparison of s with the expected
      output, both trimmed. */
  lemma PrintStringVerdict(s: string, c: Challenge)
    requires PlainText(s) && HasExpectedOutput(c)
    ensures var success := CompareOutput(Trim(s), Trim(c.expectedOutput.value));
      Evaluate(PrintStringLine(s), c) == Returns(Verdict(success, s, None, if success then 1 else 0, 1))
  {
    PrintStringProgram(s);
    assert Join([s], "\n") == s;
  }

  // ---------------------------------------------------------------------------
  // the evaluator object

  class CodeEvaluator {
    /** The lines printed so far. */
    var outputBuffer: seq<string>

    constructor()
      ensures outputBuffer == []
    {
      outputBuffer := [];
    }

    /** findBlockEnd: the scan written as the source's loop. */
    static method FindBlockEnd(lines: seq<string>, start: nat) returns (endIndex: nat)
      ensures endIndex == BlockEnd(lines, start)
    {
      endIndex := start + 1;
      var indent: nat := 0;
      while endIndex < |lines|
        invariant BlockScan(lines, endIndex, indent) == BlockEnd(lines, start)
        decreases |lines| - endIndex
      {
        var currentLine := lines[endIndex];
        if Trim(currentLine) == "" {
          endIndex := endIndex + 1;
          continue;
        }
        var currentIndent: nat := |currentLine| - |TrimStart(currentLine)|;
        if indent == 0 {
          indent := currentIndent;
        }
        if currentIndent < indent && Trim(currentLine) != "" {
          break;
        }
        endIndex := endIndex + 1;
      }
    }

    /** executePythonLikeCode: run the kept lines from the initial
        environment; the lines the program printed, up to its end or its
        throw, end up pushed onto the buffer. */
    method ExecutePythonLikeCode(code: string) returns (r: Outcome<State, ()>)
      modifies this
      ensures r == Execute(code)
      ensures (r.Ok? || r.Raise?) ==> outputBuffer == old(outputBuffer) + r.st.out
    {
      var lines := ProgramLines(code);
      r := RunLines(lines, InitialState);
      if r.Ok? || r.Raise? {
        outputBuffer := outputBuffer + r.st.out;
      }
    }

    /** The loop of executePythonLikeCode: dispatch the trimmed line at i and
        advance by the count it returns, until the lines run out or a turn
        ends the run. */
    static method RunLines(lines: seq<string>, start: State) returns (r: Outcome<State, ()>)
      ensures r == Run(lines, 0, start)
    {
      var st := start;
      var i := 0;
      while i < |lines|
        invariant Run(lines, i, st) == Run(lines, 0, start)
        decreases |lines| - i
      {
        var stop, res, st1, i1 := Turn(lines, i, st);
        if stop {
          return res;
        }
        st, i := st1, i1;
      }
      return Ok((), st);
    }

    /** One turn of the driver loop: a line that consumed n > 0 lines moves
        the index on by n; a count of 0 never advances, so the run hangs; a
        throw ends the run. */
    static method Turn(lines: seq<string>, i: nat, st: State) returns (stop: bool, r: Outcome<State, ()>, st1: State, i1: nat)
      requires i < |lines|
      ensures stop ==> r == Run(lines, i, st)
      ensures !stop ==> i < i1 && Run(lines, i1, st1) == Run(lines, i, st)
    {
      var step := Dispatch(Trim(lines[i]), lines, i, st);
      stop, r, st1, i1 := true, Hangs, st, i;
      if step.Ok? && step.val != 0 {
        stop, st1, i1 := false, step.st, i + step.val;
        DriverAdvances(lines, i, st, step.val, step.st);
      } else if step.Raise? {
        r := Raise(step.err, step.st);
        assert r == Run(lines, i, st) by { DriverStep(lines, i, st); }
      } else if step.Unmodelled? {
        r := Unmodelled;
        assert r == Run(lines, i, st) by { DriverStep(lines, i, st); }
      } else {
        assert r == Run(lines, i, st) by { DriverStep(lines, i, st); }
      }
    }

    /** runTestCase: run the program again and compare everything the buffer
        then holds with the test's expected output; a throw fails the test.
        The test's input is not used. */
    method RunTestCase(code: string, testCase: TestCase) returns (b: bool)
      requires Execute(code).Ok? || Execute(code).Raise?
      modifies this
      ensures outputBuffer == old(outputBuffer) + Execute(code).st.out
      ensures b == (Execute(code).Ok? && Passes(Join(outputBuffer, "\n"), testCase))
    {
      var r := ExecutePythonLikeCode(code);
      if r.Raise? {
        return false;
      }
      var output := Join(outputBuffer, "\n");
      b := CompareOutput(Trim(output), Trim(testCase.expectedOutput));
    }

    /** The test-case loop of evaluateCode: each test case reruns the program
        on a fresh buffer and counts when the buffer then matches. */
    method RunTestCases(code: string, printed: seq<string>, output: string, tests: seq<TestCase>) returns (passed: nat)
      requires Execute(code).Ok? && printed == Execute(code).st.out
      requires outputBuffer == printed && output == Join(printed, "\n")
      modifies this
      ensures passed == CountPassing(output, tests)
      ensures outputBuffer == printed
    {
      passed := 0;
      var k := 0;
      while k < |tests|
        invariant k <= |tests|
        invariant passed == CountPassing(output, tests[..k])
        invariant outputBuffer == printed
      {
        outputBuffer := [];
        var testResult := RunTestCase(code, tests[k]);
        CountPassingSnoc(output, tests, k);
        if testResult {
          passed := passed + 1;
        }
        k := k + 1;
      }
      assert tests[..k] == tests;
    }

    /** evaluateCode: reset the buffer, run the program, and judge what it
        printed; with test cases, rerun it once per test case on a fresh
        buffer. */
    method EvaluateCode(code: string, challenge: Challenge) returns (e: Evaluation)
      modifies this
      ensures e == Evaluate(code, challenge)
      ensures (Execute(code).Ok? || Execute(code).Raise?) ==> outputBuffer == Execute(code).st.out
    {
      outputBuffer := [];
      var result := ExecutePythonLikeCode(code);
      assert Evaluate(code, challenge) == EvaluationOf(result, challenge);
      EvaluationCases(result, challenge);
      if result.Hangs? {
        return NeverReturns;
      } else if result.Unmodelled? {
        return NotModelled;
      } else if result.Raise? {
        assert outputBuffer == result.st.out;
        return Returns(Verdict(false, Join(outputBuffer, "\n"), Some(ErrorMessage(result.err)), 0, 1));
      }
      assert outputBuffer == result.st.out;
      var output := Join(outputBuffer, "\n");
      assert Evaluate(code, challenge) == Returns(Judge(output, challenge));
      JudgeCases(output, challenge);
      if HasExpectedOutput(challenge) {
        var success := CompareOutput(Trim(output), Trim(challenge.expectedOutput.value));
        return Returns(Verdict(success, output, None, if success then 1 else 0, 1));
      }
      if challenge.testCases.Some? {
        var tests := challenge.testCases.value;
        var passed := RunTestCases(code, result.st.out, output, tests);
        return Returns(Verdict(passed == |tests|, output, None, passed, |tests|));
      }
      return Returns(Verdict(true, output, None, 1, 1));
    }

    /** validateRules: for each active rule in turn, each of the ten checks
        in order pushes its message when it fires; valid when none did. */
    method ValidateRules(code: string, activeRules: seq<string>) returns (valid: bool, violations: seq<string>)
      ensures violations == Violations(activeRules, code)
      ensures valid <==> violations == []
    {
      violations := [];
      var i := 0;
      while i < |activeRules|
        invariant i <= |activeRules|
        invariant violations == Violations(activeRules[..i], code)
      {
        var rule := activeRules[i];
        ghost var before := violations;
        var k := 0;
        while k < |Messages|
          invariant k <= |Messages|
          invariant violations == before + MessagesWhere(Messages, FiresFor(rule, code), k)
        {
          if Fires(k, rule, code) {
            violations := violations + [Messages[k]];
          }
          k := k + 1;
        }
        RuleViolationsWhere(rule, code);
        ViolationsPrefix(activeRules, i, code);
        i := i + 1;
      }
      assert activeRules[..i] == activeRules;
      valid := |violations| == 0;
    }
  }
}
