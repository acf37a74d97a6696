/**
 What the table runners promise: table order, which callback fires for which
 test, the shared-expectation override, and the runner's own panic cutting a
 table short.
 */
module LoopProperties {
  import opened Payloads
  import opened Panic
  import opened PanicLoops
  import Regexp

  // ----- projections of a trace -----

  /** The names passed to `notPanicFunc`, in call order. */
  function NotPanicNames(trace: seq<Event>): seq<string>
    decreases |trace|
  {
    if trace == [] then []
    else
      var ev := trace[|trace| - 1];
      NotPanicNames(trace[..|trace| - 1]) + (if ev.NotPanicCall? then [ev.testName] else [])
  }

  /** The names passed to `elseFunc(testName)`, in call order. */
  function ElseNames(trace: seq<Event>): seq<string>
    decreases |trace|
  {
    if trace == [] then []
    else
      var ev := trace[|trace| - 1];
      ElseNames(trace[..|trace| - 1]) + (if ev.ElseCall? then [ev.testName] else [])
  }

  /** The calls of the mismatch callback (`notContainsFunc`, `notMatchesFunc`
      or `notEqualsFunc`), in call order. */
  function MismatchCalls(trace: seq<Event>): seq<Event>
    decreases |trace|
  {
    if trace == [] then []
    else
      var ev := trace[|trace| - 1];
      MismatchCalls(trace[..|trace| - 1]) +
        (if ev.NotContainsCall? || ev.NotMatchesCall? || ev.NotEqualsCall? then [ev] else [])
  }

  lemma {:induction false} MismatchCallsAppend(a: seq<Event>, b: seq<Event>)
    ensures MismatchCalls(a + b) == MismatchCalls(a) + MismatchCalls(b)
    decreases |b|
  {
    if b == [] {
      assert a + b == a;
    } else {
      var n := |b| - 1;
      assert (a + b)[..|a + b| - 1] == a + b[..n];
      MismatchCallsAppend(a, b[..n]);
    }
  }

  lemma {:induction false} NotPanicNamesAppend(a: seq<Event>, b: seq<Event>)
    ensures NotPanicNames(a + b) == NotPanicNames(a) + NotPanicNames(b)
    decreases |b|
  {
    if b == [] {
      assert a + b == a;
    } else {
      var n := |b| - 1;
      assert (a + b)[..|a + b| - 1] == a + b[..n];
      NotPanicNamesAppend(a, b[..n]);
    }
  }

  // ----- the plain runners -----

  /** `PanicsLoop` and `NotPanicsLoop` report complementary sets of tests:
      together, every test name exactly once. */
  lemma {:induction false} PanicsAndNotPanicsComplement(tests: seq<PanicTest>)
    ensures multiset(NamesWhere(tests, false)) + multiset(NamesWhere(tests, true)) == multiset(Names(tests))
    ensures |NamesWhere(tests, false)| + |NamesWhere(tests, true)| == |tests|
    decreases |tests|
  {
    if tests != [] {
      var n := |tests| - 1;
      PanicsAndNotPanicsComplement(tests[..n]);
      NamesSnoc(tests);
      Regroup(multiset(NamesWhere(tests[..n], false)), multiset(NamesWhere(tests[..n], true)), multiset(Names(tests[..n])),
              multiset(NamesWhere(tests, false)), multiset(NamesWhere(tests, true)), multiset(Names(tests)),
              multiset{tests[n].name}, Panics(tests[n].f));
    }
    NamesWhereLengths(tests);
  }

  /** Every test is counted on exactly one side. */
  lemma {:induction false} NamesWhereLengths(tests: seq<PanicTest>)
    ensures |NamesWhere(tests, false)| + |NamesWhere(tests, true)| == |tests|
    decreases |tests|
  {
    if tests != [] {
      NamesWhereLengths(tests[..|tests| - 1]);
    }
  }

  /** What the last test adds to each list of names. */
  lemma NamesSnoc(tests: seq<PanicTest>)
    requires tests != []
    ensures var n := |tests| - 1;
      && multiset(Names(tests)) == multiset(Names(tests[..n])) + multiset{tests[n].name}
      && multiset(NamesWhere(tests, false)) ==
           multiset(NamesWhere(tests[..n], false)) + (if Panics(tests[n].f) then multiset{} else multiset{tests[n].name})
      && multiset(NamesWhere(tests, true)) ==
           multiset(NamesWhere(tests[..n], true)) + (if Panics(tests[n].f) then multiset{tests[n].name} else multiset{})
  {
  }

  /** Adding one name to exactly one side of a split adds it to the whole. */
  lemma Regroup(returned0: multiset<string>, panicked0: multiset<string>, all0: multiset<string>,
                returned: multiset<string>, panicked: multiset<string>, all: multiset<string>,
                last: multiset<string>, lastPanicked: bool)
    requires returned0 + panicked0 == all0 && all == all0 + last
    requires returned == returned0 + (if lastPanicked then multiset{} else last)
    requires panicked == panicked0 + (if lastPanicked then last else multiset{})
    ensures returned + panicked == all
  {
  }

  /** The `elseFunc` calls of `PanicsGetLoop` name exactly the tests
      `PanicsLoop` reports. */
  lemma {:induction false} GetLoopElseNames(tests: seq<PanicTest>)
    ensures ElseNames(GetTrace(tests)) == NamesWhere(tests, false)
    decreases |tests|
  {
    if tests != [] {
      var n := |tests| - 1;
      GetLoopElseNames(tests[..n]);
      assert GetTrace(tests)[..n] == GetTrace(tests[..n]);
    }
  }

  /** `NotPanicsGetLoop` calls `elseFunc` for exactly the tests `NotPanicsLoop`
      reports, each time with a non-nil panic value. */
  lemma {:induction false} NotPanicsGetLoopCalls(tests: seq<PanicTest>)
    ensures |PanickedCalls(tests)| == |NamesWhere(tests, true)|
    ensures forall j :: 0 <= j < |PanickedCalls(tests)| ==>
              PanickedCalls(tests)[j].ElseValCall? &&
              PanickedCalls(tests)[j].testName == NamesWhere(tests, true)[j] &&
              PanickedCalls(tests)[j].pVal != Nil
    decreases |tests|
  {
    if tests != [] {
      NotPanicsGetLoopCalls(tests[..|tests| - 1]);
    }
  }

  // ----- running the steps of a checking table -----

  /** The number of rows of a run that complete: the index of the first row
      that stops, or all of them. */
  function Completed(steps: seq<Step>): (k: nat)
    ensures k <= |steps|
    ensures forall j :: 0 <= j < k ==> steps[j].Continue?
    ensures k < |steps| ==> steps[k].Stop?
    decreases |steps|
  {
    if steps == [] then 0
    else
      var n := |steps| - 1;
      var k := Completed(steps[..n]);
      if k < n then k
      else if steps[n].Stop? then n
      else |steps|
  }

  /** A run stops exactly when some row stops; it then stops at the first such
      row, with that row's panic value, after the callbacks of the rows before
      it and of no row after it. */
  lemma {:induction false} RunStepsStops(steps: seq<Step>)
    ensures RunSteps(steps[..Completed(steps)]) == Run(RunSteps(steps).trace, None)
    ensures RunSteps(steps).abort ==
              if Completed(steps) < |steps| then Some(steps[Completed(steps)].p) else None
    decreases |steps|
  {
    if steps == [] {
      assert steps[..0] == steps;
    } else {
      var n := |steps| - 1;
      RunStepsStops(steps[..n]);
      var k := Completed(steps[..n]);
      assert steps[..n][..k] == steps[..k];
      if k == n && steps[n].Continue? {
        assert steps[..|steps|] == steps;
      }
    }
  }

  /** Every callback in a run's trace was made by one of the rows. */
  lemma {:induction false} RunStepsEvents(steps: seq<Step>)
    ensures forall ev :: ev in RunSteps(steps).trace ==>
              exists j :: 0 <= j < |steps| && steps[j].Continue? && ev in steps[j].events
    decreases |steps|
  {
    if steps != [] {
      var n := |steps| - 1;
      RunStepsEvents(steps[..n]);
      forall ev | ev in RunSteps(steps).trace
        ensures exists j :: 0 <= j < |steps| && steps[j].Continue? && ev in steps[j].events
      {
        if ev in RunSteps(steps[..n]).trace {
          var j :| 0 <= j < n && steps[..n][j].Continue? && ev in steps[..n][j].events;
          assert steps[j] == steps[..n][j];
        } else {
          assert steps[n].Continue? && ev in steps[n].events;
        }
      }
    }
  }

  /** Each row reports `notPanicFunc` exactly when its test does not panic. */
  ghost predicate ReportsNotPanicking(steps: seq<Step>, plain: seq<PanicTest>)
  {
    && |steps| == |plain|
    && forall j :: 0 <= j < |steps| && steps[j].Continue? ==>
         NotPanicNames(steps[j].events) == (if Panics(plain[j].f) then [] else [plain[j].name])
  }

  /** In a run that does not stop, `notPanicFunc` is called with the names of
      the tests that do not panic, in table order. */
  lemma {:induction false} NotPanicNamesOfRun(steps: seq<Step>, plain: seq<PanicTest>)
    requires ReportsNotPanicking(steps, plain)
    requires RunSteps(steps).abort.None?
    ensures NotPanicNames(RunSteps(steps).trace) == NamesWhere(plain, false)
    decreases |steps|
  {
    if steps != [] {
      var n := |steps| - 1;
      var r := RunSteps(steps[..n]);
      assert r.abort.None?;
      assert steps[..n][..] == steps[..n];
      NotPanicNamesOfRun(steps[..n], plain[..n]);
      NotPanicNamesAppend(r.trace, steps[n].events);
    }
  }

  /** The callbacks a checking row makes, by what its helper returned. */
  lemma CheckEventsNotPanicNames(name: string, c: Checked, mismatch: Event)
    requires !mismatch.NotPanicCall?
    ensures NotPanicNames(CheckEvents(name, c, mismatch)) == if c.didPanic then [] else [name]
  {
    assert NotPanicNames([mismatch]) == [];
    assert NotPanicNames([NotPanicCall(name)]) == [name];
  }

  /** A checking row calls its mismatch callback exactly when its test
      panicked and failed the check. */
  lemma CheckEventsMismatchCalls(name: string, c: Checked, mismatch: Event)
    requires mismatch.NotContainsCall? || mismatch.NotMatchesCall? || mismatch.NotEqualsCall?
    ensures MismatchCalls(CheckEvents(name, c, mismatch)) == if c.didPanic && !c.ok then [mismatch] else []
  {
    assert MismatchCalls([mismatch]) == [mismatch];
    assert MismatchCalls([NotPanicCall(name)]) == [];
  }

  /** The rows' call lists, joined in table order. */
  function Concat(rows: seq<seq<Event>>): seq<Event>
    decreases |rows|
  {
    if rows == [] then [] else Concat(rows[..|rows| - 1]) + rows[|rows| - 1]
  }

  /** In a run that does not stop, the mismatch calls are those of its rows,
      in table order. */
  lemma {:induction false} MismatchCallsOfRun(steps: seq<Step>, rows: seq<seq<Event>>)
    requires |rows| == |steps| && RunSteps(steps).abort.None?
    requires forall j :: 0 <= j < |steps| && steps[j].Continue? ==> MismatchCalls(steps[j].events) == rows[j]
    ensures MismatchCalls(RunSteps(steps).trace) == Concat(rows)
    decreases |steps|
  {
    if steps != [] {
      var n := |steps| - 1;
      assert steps[..n] + [steps[n]] == steps;
      RunStepsSnoc(steps[..n], steps[n]);
      MismatchCallsOfRun(steps[..n], rows[..n]);
      MismatchCallsAppend(RunSteps(steps[..n]).trace, steps[n].events);
    }
  }

  // ----- PanicsStrLoop -----

  /** `PanicsStrLoop` never panics itself, and calls `notPanicFunc` with the
      names of the tests that do not panic, in table order: the same names
      `PanicsLoop` reports, whatever the expectations. */
  lemma StrLoopNotPanicNames(tests: seq<PanicStrTest>, wantStrAll: Option<string>)
    ensures RunSteps(StrSteps(tests, wantStrAll)).abort == None
    ensures NotPanicNames(RunSteps(StrSteps(tests, wantStrAll)).trace) == NamesWhere(Plain(tests), false)
  {
    var steps := StrSteps(tests, wantStrAll);
    RunStepsStops(steps);
    forall j | 0 <= j < |steps|
      ensures NotPanicNames(steps[j].events) == if Panics(Plain(tests)[j].f) then [] else [Plain(tests)[j].name]
    {
      var w := EffectiveWant(tests[j], wantStrAll);
      CheckEventsNotPanicNames(tests[j].name, PanicsStr(tests[j].f, w), NotContainsCall(tests[j].name, w, Recover(tests[j].f)));
    }
    NotPanicNamesOfRun(steps, Plain(tests));
  }

  /** Every `notContainsFunc` call names a test that panicked with a value that
      failed the check against the expectation in force, and passes that
      expectation and the value. This is the membership view of
      `StrLoopMismatchCalls`, which also gives the converse and the order. */
  lemma StrLoopMismatches(tests: seq<PanicStrTest>, wantStrAll: Option<string>)
    ensures forall ev :: ev in RunSteps(StrSteps(tests, wantStrAll)).trace && ev.NotContainsCall? ==>
              exists j :: 0 <= j < |tests| && Panics(tests[j].f) &&
                !PanicsStr(tests[j].f, EffectiveWant(tests[j], wantStrAll)).ok &&
                ev == NotContainsCall(tests[j].name, EffectiveWant(tests[j], wantStrAll), Recover(tests[j].f))
  {
    RunStepsEvents(StrSteps(tests, wantStrAll));
  }

  /** The `notContainsFunc` calls `PanicsStrLoop` owes a table: for each test
      in table order, one call if it panics with a value failing the check
      against the expectation in force, carrying that expectation and the
      value, and none otherwise. */
  function StrMismatches(tests: seq<PanicStrTest>, wantStrAll: Option<string>): seq<Event>
  {
    Concat(seq(|tests|, j requires 0 <= j < |tests| => StrMismatch(tests[j], wantStrAll)))
  }

  function StrMismatch(t: PanicStrTest, wantStrAll: Option<string>): seq<Event>
  {
    var w := EffectiveWant(t, wantStrAll);
    if Panics(t.f) && !PanicsStr(t.f, w).ok then [NotContainsCall(t.name, w, Recover(t.f))] else []
  }

  /** `PanicsStrLoop` calls `notContainsFunc` for exactly the tests that panic
      and fail their check, in table order. */
  lemma StrLoopMismatchCalls(tests: seq<PanicStrTest>, wantStrAll: Option<string>)
    ensures MismatchCalls(RunSteps(StrSteps(tests, wantStrAll)).trace) == StrMismatches(tests, wantStrAll)
  {
    var steps := StrSteps(tests, wantStrAll);
    forall j | 0 <= j < |steps| && steps[j].Continue?
      ensures MismatchCalls(steps[j].events) == StrMismatch(tests[j], wantStrAll)
    {
      StrRowMismatchCalls(tests[j], wantStrAll);
    }
    StrLoopNotPanicNames(tests, wantStrAll);
    MismatchCallsOfRun(steps, seq(|tests|, j requires 0 <= j < |tests| => StrMismatch(tests[j], wantStrAll)));
  }

  /** The `notContainsFunc` call one row of `PanicsStrLoop` makes. */
  lemma StrRowMismatchCalls(t: PanicStrTest, wantStrAll: Option<string>)
    ensures MismatchCalls(StrStep(t, wantStrAll).events) == StrMismatch(t, wantStrAll)
  {
    var w := EffectiveWant(t, wantStrAll);
    CheckEventsMismatchCalls(t.name, PanicsStr(t.f, w), NotContainsCall(t.name, w, Recover(t.f)));
  }

  /** A shared `wantStrAll` acts as every row's `WantStr`: it is what each
      content check uses and what `notContainsFunc` receives, and the
      `notPanicFunc` calls are the same as without it. */
  lemma StrLoopOverride(tests: seq<PanicStrTest>, w: string)
    ensures StrSteps(tests, Some(w)) == StrSteps(WithWant(tests, w), None)
    ensures forall ev :: ev in RunSteps(StrSteps(tests, Some(w))).trace && ev.NotContainsCall? ==> ev.wantStr == w
    ensures NotPanicNames(RunSteps(StrSteps(tests, Some(w))).trace)
            == NotPanicNames(RunSteps(StrSteps(tests, None)).trace)
  {
    StrLoopMismatches(tests, Some(w));
    StrLoopNotPanicNames(tests, Some(w));
    StrLoopNotPanicNames(tests, None);
  }

  // ----- PanicsRELoop -----

  /** `PanicsRELoop` runs its rows up to the first whose pattern in force does
      not compile, and then panics with the compile-error message; the
      callbacks of the rows before it have been made, and no later row runs. */
  lemma REAbortAt(e: Regexp.Engine, tests: seq<PanicRETest>, wantREAll: Option<string>)
    ensures var k := Completed(RESteps(e, tests, wantREAll));
      && (forall j :: 0 <= j < k ==> e.compiles(EffectiveWant(tests[j], wantREAll)))
      && (k < |tests| ==> !e.compiles(EffectiveWant(tests[k], wantREAll)))
      && RunSteps(RESteps(e, tests[..k], wantREAll)).abort == None
      && RunSteps(RESteps(e, tests, wantREAll)) ==
           Run(RunSteps(RESteps(e, tests[..k], wantREAll)).trace,
               if k < |tests| then Some(Str(CompileFailurePrefix + e.compileError(EffectiveWant(tests[k], wantREAll))))
               else None)
  {
    var steps := RESteps(e, tests, wantREAll);
    RunStepsStops(steps);
    forall j | 0 <= j < Completed(steps) ensures e.compiles(EffectiveWant(tests[j], wantREAll)) {
      assert steps[j] == REStep(e, tests[j], wantREAll);
    }
    assert steps[..Completed(steps)] == RESteps(e, tests[..Completed(steps)], wantREAll);
  }

  /** Rows after the one that makes `PanicsRELoop` panic are never run. */
  lemma RELaterRowsNeverRun(e: Regexp.Engine, tests: seq<PanicRETest>, later: seq<PanicRETest>, wantREAll: Option<string>)
    requires RunSteps(RESteps(e, tests, wantREAll)).abort.Some?
    ensures RunSteps(RESteps(e, tests + later, wantREAll)) == RunSteps(RESteps(e, tests, wantREAll))
  {
    assert RESteps(e, tests + later, wantREAll) == RESteps(e, tests, wantREAll) + RESteps(e, later, wantREAll);
    RunStepsIgnoresLater(RESteps(e, tests, wantREAll), RESteps(e, later, wantREAll));
  }

  /** When `PanicsRELoop` runs to the end, `notPanicFunc` is called with the
      names of the tests that do not panic, in table order. */
  lemma RELoopNotPanicNames(e: Regexp.Engine, tests: seq<PanicRETest>, wantREAll: Option<string>)
    requires RunSteps(RESteps(e, tests, wantREAll)).abort.None?
    ensures NotPanicNames(RunSteps(RESteps(e, tests, wantREAll)).trace) == NamesWhere(Plain(tests), false)
  {
    var steps := RESteps(e, tests, wantREAll);
    forall j | 0 <= j < |steps| && steps[j].Continue?
      ensures NotPanicNames(steps[j].events) == if Panics(Plain(tests)[j].f) then [] else [Plain(tests)[j].name]
    {
      var w := EffectiveWant(tests[j], wantREAll);
      CheckEventsNotPanicNames(tests[j].name, PanicsRE(e, tests[j].f, w).c, NotMatchesCall(tests[j].name, w, Recover(tests[j].f)));
    }
    NotPanicNamesOfRun(steps, Plain(tests));
  }

  /** The `notMatchesFunc` calls `PanicsRELoop` owes the rows it runs: for
      each test in table order, one call if its pattern compiles and it panics
      with a value the pattern does not match, and none otherwise. */
  function REMismatches(e: Regexp.Engine, tests: seq<PanicRETest>, wantREAll: Option<string>): seq<Event>
  {
    Concat(seq(|tests|, j requires 0 <= j < |tests| => REMismatch(e, tests[j], wantREAll)))
  }

  function REMismatch(e: Regexp.Engine, t: PanicRETest, wantREAll: Option<string>): seq<Event>
  {
    var w := EffectiveWant(t, wantREAll);
    if e.compiles(w) && Panics(t.f) && !PanicsRE(e, t.f, w).c.ok then [NotMatchesCall(t.name, w, Recover(t.f))] else []
  }

  /** `PanicsRELoop` calls `notMatchesFunc` for exactly the tests that panic
      and fail their match among the rows it completes, in table order. */
  lemma RELoopMismatchCalls(e: Regexp.Engine, tests: seq<PanicRETest>, wantREAll: Option<string>)
    ensures MismatchCalls(RunSteps(RESteps(e, tests, wantREAll)).trace)
            == REMismatches(e, tests[..Completed(RESteps(e, tests, wantREAll))], wantREAll)
  {
    REAbortAt(e, tests, wantREAll);
    var done := tests[..Completed(RESteps(e, tests, wantREAll))];
    var steps := RESteps(e, done, wantREAll);
    forall j | 0 <= j < |steps| && steps[j].Continue?
      ensures MismatchCalls(steps[j].events) == REMismatch(e, done[j], wantREAll)
    {
      RERowMismatchCalls(e, done[j], wantREAll);
    }
    MismatchCallsOfRun(steps, seq(|done|, j requires 0 <= j < |done| => REMismatch(e, done[j], wantREAll)));
  }

  /** The `notMatchesFunc` call one completed row of `PanicsRELoop` makes. */
  lemma RERowMismatchCalls(e: Regexp.Engine, t: PanicRETest, wantREAll: Option<string>)
    requires REStep(e, t, wantREAll).Continue?
    ensures MismatchCalls(REStep(e, t, wantREAll).events) == REMismatch(e, t, wantREAll)
  {
    var w := EffectiveWant(t, wantREAll);
    CheckEventsMismatchCalls(t.name, PanicsRE(e, t.f, w).c, NotMatchesCall(t.name, w, Recover(t.f)));
  }

  /** A shared `wantREAll` acts as every row's `WantRE`; one that does not
      compile stops the runner at its first row, before any callback. */
  lemma RELoopOverride(e: Regexp.Engine, tests: seq<PanicRETest>, w: string)
    ensures RESteps(e, tests, Some(w)) == RESteps(e, WithWant(tests, w), None)
    ensures forall ev :: ev in RunSteps(RESteps(e, tests, Some(w))).trace && ev.NotMatchesCall? ==> ev.wantRE == w
    ensures !e.compiles(w) && tests != [] ==>
              RunSteps(RESteps(e, tests, Some(w))) == Run([], Some(Str(CompileFailurePrefix + e.compileError(w))))
  {
    RunStepsEvents(RESteps(e, tests, Some(w)));
    if !e.compiles(w) && tests != [] {
      REAbortAt(e, tests, Some(w));
    }
  }

  // ----- PanicsValLoop -----

  /** `PanicsValLoop` runs its rows up to the first whose panic value and
      value in force share an uncomparable type, and then panics with Go's
      runtime error; the callbacks of the rows before it have been made, and no
      later row runs. */
  lemma ValAbortAt(tests: seq<PanicValTest>, wantValAll: Option<Payload>)
    ensures var k := Completed(ValSteps(tests, wantValAll));
      && (forall j :: 0 <= j < k ==> !ValAborts(tests[j], wantValAll))
      && (k < |tests| ==> ValAborts(tests[k], wantValAll))
      && RunSteps(ValSteps(tests[..k], wantValAll)).abort == None
      && RunSteps(ValSteps(tests, wantValAll)) ==
           Run(RunSteps(ValSteps(tests[..k], wantValAll)).trace,
               if k < |tests| then Some(UncomparableError(EffectiveWant(tests[k], wantValAll).tag)) else None)
  {
    var steps := ValSteps(tests, wantValAll);
    RunStepsStops(steps);
    forall j | 0 <= j < Completed(steps) ensures !ValAborts(tests[j], wantValAll) {
      assert steps[j] == ValStep(tests[j], wantValAll);
    }
    assert steps[..Completed(steps)] == ValSteps(tests[..Completed(steps)], wantValAll);
  }

  /** The row's comparison `pVal == wantVal` panics. */
  predicate ValAborts(t: PanicValTest, wantValAll: Option<Payload>)
  {
    var w := EffectiveWant(t, wantValAll);
    TypeOf(Recover(t.f)) == TypeOf(w) && !IsComparable(TypeOf(w))
  }

  /** Rows after the one that makes `PanicsValLoop` panic are never run. */
  lemma ValLaterRowsNeverRun(tests: seq<PanicValTest>, later: seq<PanicValTest>, wantValAll: Option<Payload>)
    requires RunSteps(ValSteps(tests, wantValAll)).abort.Some?
    ensures RunSteps(ValSteps(tests + later, wantValAll)) == RunSteps(ValSteps(tests, wantValAll))
  {
    assert ValSteps(tests + later, wantValAll) == ValSteps(tests, wantValAll) + ValSteps(later, wantValAll);
    RunStepsIgnoresLater(ValSteps(tests, wantValAll), ValSteps(later, wantValAll));
  }

  /** When `PanicsValLoop` runs to the end, `notPanicFunc` is called with the
      names of the tests that do not panic, in table order. */
  lemma ValLoopNotPanicNames(tests: seq<PanicValTest>, wantValAll: Option<Payload>)
    requires RunSteps(ValSteps(tests, wantValAll)).abort.None?
    ensures NotPanicNames(RunSteps(ValSteps(tests, wantValAll)).trace) == NamesWhere(Plain(tests), false)
  {
    var steps := ValSteps(tests, wantValAll);
    forall j | 0 <= j < |steps| && steps[j].Continue?
      ensures NotPanicNames(steps[j].events) == if Panics(Plain(tests)[j].f) then [] else [Plain(tests)[j].name]
    {
      var w := EffectiveWant(tests[j], wantValAll);
      CheckEventsNotPanicNames(tests[j].name, PanicsVal(tests[j].f, w).c, NotEqualsCall(tests[j].name, w, Recover(tests[j].f)));
    }
    NotPanicNamesOfRun(steps, Plain(tests));
  }

  /** The `notEqualsFunc` calls `PanicsValLoop` owes the rows it runs: for
      each test in table order, one call if its comparison does not panic and
      it panics with a value other than the one in force, and none
      otherwise. */
  function ValMismatches(tests: seq<PanicValTest>, wantValAll: Option<Payload>): seq<Event>
  {
    Concat(seq(|tests|, j requires 0 <= j < |tests| => ValMismatch(tests[j], wantValAll)))
  }

  function ValMismatch(t: PanicValTest, wantValAll: Option<Payload>): seq<Event>
  {
    var w := EffectiveWant(t, wantValAll);
    if !ValAborts(t, wantValAll) && Panics(t.f) && Recover(t.f) != w then [NotEqualsCall(t.name, w, Recover(t.f))] else []
  }

  /** `PanicsValLoop` calls `notEqualsFunc` for exactly the tests that panic
      with another value among the rows it completes, in table order. */
  lemma ValLoopMismatchCalls(tests: seq<PanicValTest>, wantValAll: Option<Payload>)
    ensures MismatchCalls(RunSteps(ValSteps(tests, wantValAll)).trace)
            == ValMismatches(tests[..Completed(ValSteps(tests, wantValAll))], wantValAll)
  {
    ValAbortAt(tests, wantValAll);
    var done := tests[..Completed(ValSteps(tests, wantValAll))];
    var steps := ValSteps(done, wantValAll);
    forall j | 0 <= j < |steps| && steps[j].Continue?
      ensures MismatchCalls(steps[j].events) == ValMismatch(done[j], wantValAll)
    {
      ValRowMismatchCalls(done[j], wantValAll);
    }
    MismatchCallsOfRun(steps, seq(|done|, j requires 0 <= j < |done| => ValMismatch(done[j], wantValAll)));
  }

  /** The `notEqualsFunc` call one completed row of `PanicsValLoop` makes. */
  lemma ValRowMismatchCalls(t: PanicValTest, wantValAll: Option<Payload>)
    requires ValStep(t, wantValAll).Continue?
    ensures MismatchCalls(ValStep(t, wantValAll).events) == ValMismatch(t, wantValAll)
  {
    var w := EffectiveWant(t, wantValAll);
    var v := PanicsVal(t.f, w);
    assert v.Done?;
    var c := v.c;
    assert c.pVal == Recover(t.f) && c.didPanic == Panics(t.f);
    assert ValStep(t, wantValAll).events == CheckEvents(t.name, c, NotEqualsCall(t.name, w, c.pVal));
    assert !ValAborts(t, wantValAll);
    CheckEventsMismatchCalls(t.name, c, NotEqualsCall(t.name, w, c.pVal));
  }

  /** A shared `wantValAll` acts as every row's `WantVal`, and is what
      `notEqualsFunc` receives. */
  lemma ValLoopOverride(tests: seq<PanicValTest>, w: Payload)
    ensures ValSteps(tests, Some(w)) == ValSteps(WithWant(tests, w), None)
    ensures forall ev :: ev in RunSteps(ValSteps(tests, Some(w))).trace && ev.NotEqualsCall? ==> ev.wantVal == w
  {
    RunStepsEvents(ValSteps(tests, Some(w)));
  }
}
