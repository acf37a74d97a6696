/**
 The table runners of package testhelp. Each runs the tests of a table in
 order through one single-case helper and calls the caller's callbacks for
 the tests that failed; a callback call is recorded as an `Event`, and what
 the callbacks see is the sequence of events (the trace) a runner produces.
 `PanicsRELoop` and `PanicsValLoop` can themselves panic part-way through a
 table; they return the trace up to that point and the panic value.
 */
module PanicLoops {
  import opened Payloads
  import opened Panic
  import Regexp

  /** A row of `PanicsLoop`, `PanicsGetLoop`, `NotPanicsLoop` and `NotPanicsGetLoop`. */
  datatype PanicTest = PanicTest(name: string, f: Outcome)

  /** A row of `PanicsStrLoop` (`want` is `WantStr`), `PanicsRELoop` (`WantRE`)
      or `PanicsValLoop` (`WantVal`). */
  datatype WantTest<W> = WantTest(name: string, f: Outcome, want: W)

  type PanicStrTest = WantTest<string>
  type PanicRETest = WantTest<string>
  type PanicValTest = WantTest<Payload>

  /** One call of a caller-supplied callback, with its arguments. */
  datatype Event =
      /** `elseFunc(testName)` */
    | ElseCall(testName: string)
      /** `valFunc(pVal)` */
    | ValCall(pVal: Payload)
      /** `elseFunc(testName, pVal)` of `NotPanicsGetLoop` */
    | ElseValCall(testName: string, pVal: Payload)
      /** `notPanicFunc(testName)` */
    | NotPanicCall(testName: string)
      /** `notContainsFunc(testName, wantStr, pVal)` */
    | NotContainsCall(testName: string, wantStr: string, pVal: Payload)
      /** `notMatchesFunc(testName, wantRE, pVal)` */
    | NotMatchesCall(testName: string, wantRE: string, pVal: Payload)
      /** `notEqualsFunc(testName, wantVal, pVal)` */
    | NotEqualsCall(testName: string, wantVal: Payload, pVal: Payload)

  /** What running one row of a checking table does: call some callbacks and
      go on, or panic and stop the whole runner. */
  datatype Step = Continue(events: seq<Event>) | Stop(p: Payload)

  /** What a checking runner leaves behind: the callbacks it made, and the
      value it panicked with if it did. */
  datatype Run = Run(trace: seq<Event>, abort: Option<Payload>)

  /** Running the steps of a table in order: the events of each step are
      appended, and the first `Stop` ends the run. */
  function RunSteps(steps: seq<Step>): Run
    decreases |steps|
  {
    if steps == [] then Run([], None)
    else
      var r := RunSteps(steps[..|steps| - 1]);
      if r.abort.Some? then r
      else
        match steps[|steps| - 1]
        case Stop(p) => Run(r.trace, Some(p))
        case Continue(events) => Run(r.trace + events, None)
  }

  // ----- reference views of a table -----

  /** The names of the tests whose function panicked (`panicked`) or did not,
      in table order. */
  function NamesWhere(tests: seq<PanicTest>, panicked: bool): seq<string>
    decreases |tests|
  {
    if tests == [] then []
    else
      var t := tests[|tests| - 1];
      NamesWhere(tests[..|tests| - 1], panicked) + (if Panics(t.f) == panicked then [t.name] else [])
  }

  /** The names of all the tests, in table order. */
  function Names(tests: seq<PanicTest>): seq<string>
    decreases |tests|
  {
    if tests == [] then [] else Names(tests[..|tests| - 1]) + [tests[|tests| - 1].name]
  }

  /** A checking table seen as a plain one. */
  function Plain<W>(tests: seq<WantTest<W>>): seq<PanicTest>
  {
    seq(|tests|, j requires 0 <= j < |tests| => PanicTest(tests[j].name, tests[j].f))
  }

  /** The table with every row's expectation replaced by `want`. */
  function WithWant<W>(tests: seq<WantTest<W>>, want: W): seq<WantTest<W>>
  {
    seq(|tests|, j requires 0 <= j < |tests| => tests[j].(want := want))
  }

  /** `realWantStr` / `realWantRE` / `realWantVal`: the shared expectation when
      one is given, the row's own otherwise. */
  function EffectiveWant<W>(t: WantTest<W>, wantAll: Option<W>): W
  {
    if wantAll.Some? then wantAll.value else t.want
  }

  function ElseCalls(names: seq<string>): seq<Event>
  {
    seq(|names|, j requires 0 <= j < |names| => ElseCall(names[j]))
  }

  // ----- the plain runners -----

  /** `PanicsLoop`: `elseFunc` is called, in table order, with the name of
      every test that does not panic. */
  method PanicsLoop(tests: seq<PanicTest>) returns (trace: seq<Event>)
    ensures trace == ElseCalls(NamesWhere(tests, false))
  {
    trace := [];
    for i := 0 to |tests|
      invariant trace == ElseCalls(NamesWhere(tests[..i], false))
    {
      assert tests[..i + 1][..i] == tests[..i];
      if !Panics(tests[i].f) {
        trace := trace + [ElseCall(tests[i].name)];
      }
    }
    assert tests[..|tests|] == tests;
  }

  /** `NotPanicsLoop`: `elseFunc` is called, in table order, with the name of
      every test that panics. */
  method NotPanicsLoop(tests: seq<PanicTest>) returns (trace: seq<Event>)
    ensures trace == ElseCalls(NamesWhere(tests, true))
  {
    trace := [];
    for i := 0 to |tests|
      invariant trace == ElseCalls(NamesWhere(tests[..i], true))
    {
      assert tests[..i + 1][..i] == tests[..i];
      if Panics(tests[i].f) {
        trace := trace + [ElseCall(tests[i].name)];
      }
    }
    assert tests[..|tests|] == tests;
  }

  /** The one callback `PanicsGetLoop` makes for a test. */
  function GetEvent(t: PanicTest): Event
  {
    var g := PanicsGet(t.f);
    if !g.flag then ElseCall(t.name) else ValCall(g.pVal)
  }

  /** What `PanicsGetLoop` does with a table: exactly one callback per test,
      in table order. */
  function GetTrace(tests: seq<PanicTest>): (trace: seq<Event>)
    ensures |trace| == |tests|
    ensures forall j :: 0 <= j < |tests| ==> trace[j] == GetEvent(tests[j])
    decreases |tests|
  {
    if tests == [] then []
    else GetTrace(tests[..|tests| - 1]) + [GetEvent(tests[|tests| - 1])]
  }

  /** `PanicsGetLoop`: `elseFunc(name)` for a test that does not panic,
      `valFunc(pVal)` for one that does. */
  method PanicsGetLoop(tests: seq<PanicTest>) returns (trace: seq<Event>)
    ensures |trace| == |tests|
    ensures forall j :: 0 <= j < |tests| ==>
              trace[j] == if Panics(tests[j].f) then ValCall(Recover(tests[j].f)) else ElseCall(tests[j].name)
  {
    trace := [];
    for i := 0 to |tests|
      invariant trace == GetTrace(tests[..i])
    {
      assert tests[..i + 1][..i] == tests[..i];
      var g := PanicsGet(tests[i].f);
      if !g.flag {
        trace := trace + [ElseCall(tests[i].name)];
      } else {
        trace := trace + [ValCall(g.pVal)];
      }
    }
    assert tests[..|tests|] == tests;
  }

  /** The callbacks `NotPanicsGetLoop` makes: one per panicking test, with its
      name and panic value, in table order. */
  function PanickedCalls(tests: seq<PanicTest>): seq<Event>
    decreases |tests|
  {
    if tests == [] then []
    else
      var t := tests[|tests| - 1];
      PanickedCalls(tests[..|tests| - 1]) + (if Panics(t.f) then [ElseValCall(t.name, Recover(t.f))] else [])
  }

  /** `NotPanicsGetLoop`. */
  method NotPanicsGetLoop(tests: seq<PanicTest>) returns (trace: seq<Event>)
    ensures trace == PanickedCalls(tests)
  {
    trace := [];
    for i := 0 to |tests|
      invariant trace == PanickedCalls(tests[..i])
    {
      assert tests[..i + 1][..i] == tests[..i];
      var g := PanicsGet(tests[i].f);
      if g.flag {
        trace := trace + [ElseValCall(tests[i].name, g.pVal)];
      }
    }
    assert tests[..|tests|] == tests;
  }

  // ----- the checking runners -----

  /** The loop body shared by the checking runners: `notPanicFunc` for a test
      that did not panic, else the mismatch callback when the check failed. */
  function CheckEvents(name: string, c: Checked, mismatch: Event): seq<Event>
  {
    if !c.didPanic then [NotPanicCall(name)]
    else if !c.ok then [mismatch]
    else []
  }

  /** One row of `PanicsStrLoop`: exactly one of no callback, `notPanicFunc`
      (the test did not panic) and `notContainsFunc` (it panicked with a value
      that fails the check against the expectation in force). */
  function StrStep(t: PanicStrTest, wantStrAll: Option<string>): (s: Step)
    ensures s.Continue?
    ensures s.events == [NotPanicCall(t.name)] <==> !Panics(t.f)
    ensures s.events == [NotContainsCall(t.name, EffectiveWant(t, wantStrAll), Recover(t.f))] <==>
              Panics(t.f) && !PanicsStr(t.f, EffectiveWant(t, wantStrAll)).ok
    ensures s.events == [] <==> Panics(t.f) && PanicsStr(t.f, EffectiveWant(t, wantStrAll)).ok
  {
    var w := EffectiveWant(t, wantStrAll);
    var c := PanicsStr(t.f, w);
    Continue(CheckEvents(t.name, c, NotContainsCall(t.name, w, c.pVal)))
  }

  /** One row of `PanicsRELoop`: the runner panics when the pattern in force
      does not compile; otherwise exactly one of no callback, `notPanicFunc`
      and `notMatchesFunc`. */
  function REStep(e: Regexp.Engine, t: PanicRETest, wantREAll: Option<string>): (s: Step)
    ensures s.Stop? <==> !e.compiles(EffectiveWant(t, wantREAll))
    ensures s.Stop? ==> s.p == Str(CompileFailurePrefix + e.compileError(EffectiveWant(t, wantREAll)))
    ensures s.Continue? ==> (s.events == [NotPanicCall(t.name)] <==> !Panics(t.f))
    ensures s.Continue? ==>
              (s.events == [NotMatchesCall(t.name, EffectiveWant(t, wantREAll), Recover(t.f))] <==>
                 Panics(t.f) && !PanicsRE(e, t.f, EffectiveWant(t, wantREAll)).c.ok)
    ensures s.Continue? ==>
              (s.events == [] <==> Panics(t.f) && PanicsRE(e, t.f, EffectiveWant(t, wantREAll)).c.ok)
  {
    var w := EffectiveWant(t, wantREAll);
    match PanicsRE(e, t.f, w)
    case Abort(p) => Stop(p)
    case Done(c) => Continue(CheckEvents(t.name, c, NotMatchesCall(t.name, w, c.pVal)))
  }

  /** One row of `PanicsValLoop`: the runner panics when `pVal == wantVal`
      panics; otherwise exactly one of no callback, `notPanicFunc` and
      `notEqualsFunc` (the test panicked with a value other than the one in
      force). */
  function ValStep(t: PanicValTest, wantValAll: Option<Payload>): (s: Step)
    ensures s.Stop? <==>
              TypeOf(Recover(t.f)) == TypeOf(EffectiveWant(t, wantValAll)) && !IsComparable(TypeOf(Recover(t.f)))
    ensures s.Stop? ==> s.p == UncomparableError(EffectiveWant(t, wantValAll).tag)
    ensures s.Continue? ==> (s.events == [NotPanicCall(t.name)] <==> !Panics(t.f))
    ensures s.Continue? ==>
              (s.events == [NotEqualsCall(t.name, EffectiveWant(t, wantValAll), Recover(t.f))] <==>
                 Panics(t.f) && Recover(t.f) != EffectiveWant(t, wantValAll))
    ensures s.Continue? ==>
              (s.events == [] <==> Panics(t.f) && Recover(t.f) == EffectiveWant(t, wantValAll))
  {
    var w := EffectiveWant(t, wantValAll);
    match PanicsVal(t.f, w)
    case Abort(p) => Stop(p)
    case Done(c) => Continue(CheckEvents(t.name, c, NotEqualsCall(t.name, w, c.pVal)))
  }

  function StrSteps(tests: seq<PanicStrTest>, wantStrAll: Option<string>): seq<Step>
  {
    seq(|tests|, j requires 0 <= j < |tests| => StrStep(tests[j], wantStrAll))
  }

  function RESteps(e: Regexp.Engine, tests: seq<PanicRETest>, wantREAll: Option<string>): seq<Step>
  {
    seq(|tests|, j requires 0 <= j < |tests| => REStep(e, tests[j], wantREAll))
  }

  function ValSteps(tests: seq<PanicValTest>, wantValAll: Option<Payload>): seq<Step>
  {
    seq(|tests|, j requires 0 <= j < |tests| => ValStep(tests[j], wantValAll))
  }

  /** `PanicsStrLoop(tests, wantStrAll, notPanicFunc, notContainsFunc)`. */
  method PanicsStrLoop(tests: seq<PanicStrTest>, wantStrAll: Option<string>) returns (trace: seq<Event>)
    ensures RunSteps(StrSteps(tests, wantStrAll)) == Run(trace, None)
  {
    ghost var steps := StrSteps(tests, wantStrAll);
    trace := [];
    for i := 0 to |tests|
      invariant RunSteps(steps[..i]) == Run(trace, None)
    {
      var test := tests[i];
      RunStepsExtend(steps, i);
      var realWantStr := if wantStrAll.Some? then wantStrAll.value else test.want;
      var c := PanicsStr(test.f, realWantStr);
      assert steps[i] == Continue(CheckEvents(test.name, c, NotContainsCall(test.name, realWantStr, c.pVal)));
      if !c.didPanic {
        trace := trace + [NotPanicCall(test.name)];
      } else if !c.ok {
        trace := trace + [NotContainsCall(test.name, realWantStr, c.pVal)];
      }
    }
    assert steps[..|tests|] == steps;
  }

  /** `PanicsRELoop(tests, wantREAll, notPanicFunc, notMatchesFunc)`; `abort`
      is the value the runner itself panics with, if any. */
  method PanicsRELoop(e: Regexp.Engine, tests: seq<PanicRETest>, wantREAll: Option<string>)
    returns (trace: seq<Event>, abort: Option<Payload>)
    ensures RunSteps(RESteps(e, tests, wantREAll)) == Run(trace, abort)
  {
    ghost var steps := RESteps(e, tests, wantREAll);
    trace, abort := [], None;
    for i := 0 to |tests|
      invariant RunSteps(steps[..i]) == Run(trace, None)
    {
      var test := tests[i];
      RunStepsExtend(steps, i);
      var realWantRE := if wantREAll.Some? then wantREAll.value else test.want;
      var v := PanicsRE(e, test.f, realWantRE);
      if v.Abort? {
        assert steps[i] == Stop(v.p);
        RunStepsStopAt(steps, i);
        abort := Some(v.p);
        return;
      }
      var c := v.c;
      assert steps[i] == Continue(CheckEvents(test.name, c, NotMatchesCall(test.name, realWantRE, c.pVal)));
      if !c.didPanic {
        trace := trace + [NotPanicCall(test.name)];
      } else if !c.ok {
        trace := trace + [NotMatchesCall(test.name, realWantRE, c.pVal)];
      }
    }
    assert steps[..|tests|] == steps;
  }

  /** `PanicsValLoop(tests, wantValAll, notPanicFunc, notEqualsFunc)`; `abort`
      is the value the runner itself panics with, if any. */
  method PanicsValLoop(tests: seq<PanicValTest>, wantValAll: Option<Payload>)
    returns (trace: seq<Event>, abort: Option<Payload>)
    ensures RunSteps(ValSteps(tests, wantValAll)) == Run(trace, abort)
  {
    ghost var steps := ValSteps(tests, wantValAll);
    trace, abort := [], None;
    for i := 0 to |tests|
      invariant RunSteps(steps[..i]) == Run(trace, None)
    {
      var test := tests[i];
      RunStepsExtend(steps, i);
      var realWantVal := if wantValAll.Some? then wantValAll.value else test.want;
      var v := PanicsVal(test.f, realWantVal);
      if v.Abort? {
        assert steps[i] == Stop(v.p);
        RunStepsStopAt(steps, i);
        abort := Some(v.p);
        return;
      }
      var c := v.c;
      assert steps[i] == Continue(CheckEvents(test.name, c, NotEqualsCall(test.name, realWantVal, c.pVal)));
      if !c.didPanic {
        trace := trace + [NotPanicCall(test.name)];
      } else if !c.ok {
        trace := trace + [NotEqualsCall(test.name, realWantVal, c.pVal)];
      }
    }
    assert steps[..|tests|] == steps;
  }

  /** Running one more row of a run that has not stopped appends its
      callbacks, or, if the row stops, ends the whole run there. */
  lemma RunStepsExtend(steps: seq<Step>, i: nat)
    requires i < |steps| && RunSteps(steps[..i]).abort == None
    ensures steps[i].Continue? ==>
              RunSteps(steps[..i + 1]) == Run(RunSteps(steps[..i]).trace + steps[i].events, None)
    ensures steps[i].Stop? ==> RunSteps(steps[..i + 1]) == Run(RunSteps(steps[..i]).trace, Some(steps[i].p))
  {
    var prefix, row := steps[..i], steps[i];
    assert steps[..i + 1] == prefix + [row];
    RunStepsSnoc(prefix, row);
  }

  /** A row that stops a run ends it: the rows after it are never run. */
  lemma RunStepsStopAt(steps: seq<Step>, i: nat)
    requires i < |steps| && RunSteps(steps[..i + 1]).abort.Some?
    ensures RunSteps(steps) == RunSteps(steps[..i + 1])
  {
    var done, later := steps[..i + 1], steps[i + 1..];
    RunStepsIgnoresLater(done, later);
    assert done + later == steps;
  }

  /** The last row of a run is run only if the rows before it did not stop. */
  lemma RunStepsSnoc(steps: seq<Step>, s: Step)
    ensures RunSteps(steps + [s]) ==
              if RunSteps(steps).abort.Some? then RunSteps(steps)
              else if s.Stop? then Run(RunSteps(steps).trace, Some(s.p))
              else Run(RunSteps(steps).trace + s.events, None)
  {
    assert (steps + [s])[..|steps|] == steps;
  }

  /** Once a run has stopped, the rows after it change nothing: they are
      never run. */
  lemma {:induction false} RunStepsIgnoresLater(steps: seq<Step>, later: seq<Step>)
    requires RunSteps(steps).abort.Some?
    ensures RunSteps(steps + later) == RunSteps(steps)
    decreases |later|
  {
    if later != [] {
      var n := |later| - 1;
      assert (steps + later)[..|steps + later| - 1] == steps + later[..n];
      RunStepsIgnoresLater(steps, later[..n]);
    } else {
      assert steps + later == steps;
    }
  }
}
