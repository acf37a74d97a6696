/**
 Whole tables from the package's own tests, run through the specifications of
 the runners: which callbacks fire, with what, and where a runner's own panic
 cuts the table short.
 */
module LoopScenarios {
  import opened Payloads
  import opened Text
  import opened Panic
  import opened PanicLoops
  import Regexp

  /** "p, ncm; np" of the `PanicsStrLoop` tests: the first test panics with a
      string that does not contain its `WantStr`, the second does not panic. */
  lemma {:induction false} StrLoopPanickedThenReturned()
    ensures RunSteps(StrSteps([WantTest("p, ncm; np: 1", Panicked(Str("ppp230")), "ccc"),
                               WantTest("p, ncm; np: 2", Returned, "ppp")], None))
            == Run([NotContainsCall("p, ncm; np: 1", "ccc", Str("ppp230")), NotPanicCall("p, ncm; np: 2")], None)
  {
    assert !Contains("ppp230", "ccc") by {
      forall i | 0 <= i <= 3 ensures !OccursAt("ppp230", "ccc", i) {
        assert "ppp230"[i..i + 3][0] == "ppp230"[i];
      }
    }
    var tests := [WantTest("p, ncm; np: 1", Panicked(Str("ppp230")), "ccc"),
                  WantTest("p, ncm; np: 2", Returned, "ppp")];
    var steps := StrSteps(tests, None);
    RunTwoRows(steps);
    assert steps[0] == StrStep(tests[0], None) == Continue([NotContainsCall("p, ncm; np: 1", "ccc", Str("ppp230"))]);
    assert steps[1] == StrStep(tests[1], None) == Continue([NotPanicCall("p, ncm; np: 2")]);
  }

  /** "ok, not ok" of the `PanicsRELoop` tests: the first row's pattern
      compiles and does not match, so `notMatchesFunc` fires for it; the
      second row's pattern does not compile, so the runner panics there. */
  lemma {:induction false} RELoopBadPatternSecond(e: Regexp.Engine, goodRE: string, badRE: string)
    requires e.compiles(goodRE) && !e.matchString(goodRE, "ppp111")
    requires !e.compiles(badRE)
    ensures RunSteps(RESteps(e, [WantTest("ok, not ok: 1", Panicked(Str("ppp111")), goodRE),
                                 WantTest("ok, not ok: 2", Panicked(Str("ppp112")), badRE)], None))
            == Run([NotMatchesCall("ok, not ok: 1", goodRE, Str("ppp111"))],
                   Some(Str(CompileFailurePrefix + e.compileError(badRE))))
  {
    var tests := [WantTest("ok, not ok: 1", Panicked(Str("ppp111")), goodRE),
                  WantTest("ok, not ok: 2", Panicked(Str("ppp112")), badRE)];
    var steps := RESteps(e, tests, None);
    RunTwoRows(steps);
    assert steps[0] == REStep(e, tests[0], None) == Continue([NotMatchesCall("ok, not ok: 1", goodRE, Str("ppp111"))]);
    assert steps[1] == REStep(e, tests[1], None) == Stop(Str(CompileFailurePrefix + e.compileError(badRE)));
  }

  /** "not ok, ok" of the `PanicsRELoop` tests: a bad pattern in the first row
      stops the runner before any callback, and the second row never runs. */
  lemma {:induction false} RELoopBadPatternFirst(e: Regexp.Engine, badRE: string, second: PanicRETest)
    requires !e.compiles(badRE)
    ensures RunSteps(RESteps(e, [WantTest("not ok, ok: 1", Panicked(Str("ppp221")), badRE), second], None))
            == Run([], Some(Str(CompileFailurePrefix + e.compileError(badRE))))
  {
    var tests := [WantTest("not ok, ok: 1", Panicked(Str("ppp221")), badRE), second];
    var steps := RESteps(e, tests, None);
    RunTwoRows(steps);
    assert steps[0] == REStep(e, tests[0], None) == Stop(Str(CompileFailurePrefix + e.compileError(badRE)));
  }

  /** "ok, not ok" of the `PanicsValLoop` tests: a string panic value that
      differs from its `WantVal` fires `notEqualsFunc`; then two equal string
      slices, which Go cannot compare, make the runner panic. */
  lemma {:induction false} ValLoopUncomparableSecond()
    ensures RunSteps(ValSteps([WantTest("ok, not ok: 1", Panicked(Str("ppp111")), Str("zzz111")),
                               WantTest("ok, not ok: 2", Panicked(Uncomparable("[]string", ["a", "b"])),
                                        Uncomparable("[]string", ["a", "b"]))], None))
            == Run([NotEqualsCall("ok, not ok: 1", Str("zzz111"), Str("ppp111"))], Some(UncomparableError("[]string")))
  {
    var steps := ValSteps([WantTest("ok, not ok: 1", Panicked(Str("ppp111")), Str("zzz111")),
                           WantTest("ok, not ok: 2", Panicked(Uncomparable("[]string", ["a", "b"])),
                                    Uncomparable("[]string", ["a", "b"]))], None);
    RunTwoRows(steps);
  }

  /** "not ok, ok" and "not ok, not ok" of the `PanicsValLoop` tests: two
      string slices in the first row, whatever its name, panic the runner
      before any callback, whether their elements agree or not. */
  lemma {:induction false} ValLoopUncomparableFirst(name: string, got: seq<string>, want: seq<string>, second: PanicValTest)
    ensures RunSteps(ValSteps([WantTest(name, Panicked(Uncomparable("[]string", got)),
                                        Uncomparable("[]string", want)), second], None))
            == Run([], Some(UncomparableError("[]string")))
  {
    var tests := [WantTest(name, Panicked(Uncomparable("[]string", got)), Uncomparable("[]string", want)), second];
    var steps := ValSteps(tests, None);
    RunTwoRows(steps);
    assert steps[0] == ValStep(tests[0], None) == Stop(UncomparableError("[]string"));
  }

  /** A two-row run: the first row, then the second unless the first stopped. */
  lemma RunTwoRows(steps: seq<Step>)
    requires |steps| == 2
    ensures RunSteps(steps) ==
              match steps[0]
              case Stop(p) => Run([], Some(p))
              case Continue(first) =>
                match steps[1]
                case Stop(p) => Run(first, Some(p))
                case Continue(second) => Run(first + second, None)
  {
    RunStepsSnoc([], steps[0]);
    RunStepsSnoc([steps[0]], steps[1]);
    assert [] + [steps[0]] == [steps[0]] && [steps[0]] + [steps[1]] == steps;
  }
}
