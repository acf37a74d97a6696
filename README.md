# testhelp panic helpers, modelled in Dafny

Package `testhelp` (`pkg/testhelp/panic.go`) helps Go tests check that code
panics, and with what. It has two layers:

* **Single-case helpers.** `Panics`, `NotPanics`, `PanicsGet`, `NotPanicsGet`,
  `PanicsStr`, `PanicsRE` and `PanicsVal` each run a test function once under
  `defer`/`recover`. They report whether it panicked and return the recovered
  value. The checking helpers also test that value. `PanicsStr` checks that
  the value's text contains a string. `PanicsRE` checks that it matches a
  regular expression. `PanicsVal` checks that it is `==` to a value.
* **Table runners.** `PanicsLoop`, `PanicsGetLoop`, `NotPanicsLoop`,
  `NotPanicsGetLoop`, `PanicsStrLoop`, `PanicsRELoop` and `PanicsValLoop` run
  a slice of tests in order. For each test that fails, they call the caller's
  callbacks. A shared `wantStrAll`/`wantREAll`/`wantValAll` can replace every
  row's own expectation.

How the model represents the Go code:

* A test function is its `Outcome`: `Returned` or `Panicked(p)`. `Recover`
  is what `recover()` returns: `nil` or the panic value.
* A panic value is a `Payload`: `Nil`, a string, an error, another
  comparable value, or a value of an uncomparable type such as `[]string`.
  An error has an identity, as `errors.New` pointers do, plus its
  `Error()` text. Each payload has a dynamic type (`TypeOf`). Go's `==` on
  interfaces is `InterfaceEquals`: values of different dynamic types are
  unequal, and comparing two values of one uncomparable type panics with a
  runtime error.
* A checking helper can panic itself, on a bad regexp or an uncomparable
  comparison. It therefore returns a `Verdict`: `Done` with its three
  results, or `Abort` with the value it panics with. `AsOutcome` turns that
  verdict back into an `Outcome`. The package's tests use this to feed one
  helper's panic to `PanicsStr`.
* The `regexp` package is a parameter of type `Regexp.Engine`. It says
  which patterns compile, the error text of those that do not, and what
  `MatchString` answers. The empty pattern matching every string is the
  hypothesis `Regexp.EmptyPatternMatchesAll`.
* The runners are methods with `for` loops, as in the source. They return
  the trace of callback calls (`Event`s) in call order. `PanicsRELoop` and
  `PanicsValLoop` also return the value they panic with, if any. Each
  runner's `ensures` ties that trace to a specification function of the
  table:
  * `ElseCalls(NamesWhere(...))`, `GetTrace` and `PanickedCalls` for the
    plain runners.
  * `RunSteps` over per-row `Step`s for the checking runners. A row either
    makes its callbacks and continues, or stops the whole run.
  * `RunSteps` folds the rows' steps in order, up to and including the first
    that stops. What that fold does is stated by `RunStepsStops`.
* `Payloads.TextOf` carries the type-assertion chain that `PanicsStr` and
  `PanicsRE` use: the string itself, an error's `Error()` text, or no text.
  Its behaviour is stated in the `PanicsStr` and `PanicsRE` contracts.
* The lemmas in `LoopProperties` and `LoopScenarios` state what the runners
  promise over those functions.

Callbacks take the arguments `panic.go` gives them: the test name, the
expectation in force and the panic value. Some callbacks in
`pkg/testhelp/panic_test.go` (for example lines 331-336) take
`(test, pVal)` instead, which no longer matches `panic.go`'s
`(testName, want, pVal)`. The model follows `panic.go`. The test file is
used only for the rows it checks.

## Model

| member | source | states |
|---|---|---|
| Payloads.InterfaceEquals | pkg/testhelp/panic.go:210 | Go's `pVal == wantVal` on interfaces: values of different dynamic types compare unequal; values of one comparable type compare by value; values of one uncomparable type make the comparison panic with "runtime error: comparing uncomparable type ..." |
| Text.Contains | pkg/testhelp/panic.go:151 | `strings.Contains(s, sub)` holds exactly when `sub` occurs in `s` at some index |
| Text.ContainsEmpty | pkg/testhelp/panic.go:133-135 | the empty string is contained in every string |
| Text.ContainsPrefix | pkg/testhelp/panic.go:151 | a string contains each of its prefixes |
| Panic.Panics | pkg/testhelp/panic.go:59-65 | reports a panic exactly when `f` panicked with a non-nil value |
| Panic.NotPanics | pkg/testhelp/panic.go:70-72 | true exactly when `f` returned or panicked with nil |
| Panic.PanicsGet | pkg/testhelp/panic.go:80-87 | `didPanic` holds exactly when the returned value is non-nil and agrees with `Panics`; the value is `f`'s panic value unchanged, or nil when `f` returned |
| Panic.NotPanicsGet | pkg/testhelp/panic.go:94-97 | returns `PanicsGet`'s flag negated and the same panic value, although it is computed through `PanicsStr(f, "")` |
| Panic.PanicsStr | pkg/testhelp/panic.go:136-156 | `didPanic` and `pVal` as `PanicsGet`; a string value is searched for `wantStr` directly, an error through its `Error()` text, and any other value (nil included) gives `pContainsStr == false`, so `pContainsStr` implies `didPanic` |
| Panic.PanicsRE | pkg/testhelp/panic.go:170-196 | panics exactly when `wantRE` does not compile, with "Regexp could not be compiled: " followed by the error text; otherwise as `PanicsStr`, with `MatchString` on the string or the error text in place of `Contains` |
| Panic.PanicsVal | pkg/testhelp/panic.go:206-214 | panics exactly when the panic value and `wantVal` have the same uncomparable type, with Go's runtime error; otherwise `didPanic`/`pVal` as `PanicsGet` and `pEquals` exactly when `pVal` equals `wantVal` |
| PanicProperties.GetAgreesWithPanics | pkg/testhelp/panic.go:59-97 | `PanicsGet`'s flag is `Panics`, `NotPanics` is its negation, and `NotPanicsGet` returns `NotPanics` with `PanicsGet`'s value, which is `recover()`'s value |
| PanicProperties.PanicsStrEmptyWant | pkg/testhelp/panic.go:133-135 | with `wantStr == ""` the check holds exactly for string and error panic values, and `didPanic` is unaffected |
| PanicProperties.PanicsREEmptyPattern | pkg/testhelp/panic.go:166-167 | with an engine whose empty pattern compiles and matches everything, `PanicsRE(f, "")` matches exactly the string and error panic values |
| PanicProperties.PanicsREBadPattern | pkg/testhelp/panic.go:169-175 | a pattern that does not compile makes `PanicsRE` panic identically whatever `f` does, so `f` is never consulted, and `PanicsStr` sees that panic as a string containing "Regexp could not be compiled" |
| PanicProperties.PanicsValDifferentTypes | pkg/testhelp/panic.go:205-211 | a panic value and a `wantVal` of different dynamic types never make `PanicsVal` panic, and give `pEquals == false` |
| PanicProperties.PanicsValUncomparable | pkg/testhelp/panic.go:205-211 | two string slices make `PanicsVal` panic whether or not their elements agree, and `PanicsStr` sees that panic as an error containing "runtime error: comparing uncomparable type" |
| PanicProperties.PanicsValNoPanic | pkg/testhelp/panic.go:206-211 | with no panic, `pEquals` is `nil == wantVal` and `pVal` is nil |
| PanicProperties.StrTableExamples | pkg/testhelp/panic_test.go:46-71 | rows of the `PanicsStr` table: "ppp123" contains "ppp" and "", and does not contain "1234"; an error is checked through its text; a float value fails even the empty `wantStr`; no panic gives all-false results and a nil value |
| PanicProperties.ValTableExamples | pkg/testhelp/panic_test.go:186-205 | rows of the `PanicsVal` table: equal strings and equal floats compare equal, different ones do not; the float 27.5 differs from the string "27.5" and the float 27.0 from the int 27; no panic gives all-false results and a nil value |
| PanicLoops.PanicsLoop | pkg/testhelp/panic.go:221-227 | `elseFunc` is called, in table order, with the name of each test that does not panic, and with no other name |
| PanicLoops.NotPanicsLoop | pkg/testhelp/panic.go:250-256 | `elseFunc` is called, in table order, with the name of each test that panics, and with no other name |
| PanicLoops.GetTrace | pkg/testhelp/panic.go:234-243 | what `PanicsGetLoop` does to a table: exactly one callback per test, the i-th for the i-th test |
| PanicLoops.PanicsGetLoop | pkg/testhelp/panic.go:234-243 | one callback per test in table order: `valFunc(pVal)` with the recovered value if the test panics, `elseFunc(name)` otherwise |
| PanicLoops.NotPanicsGetLoop | pkg/testhelp/panic.go:263-270 | `elseFunc(name, pVal)` is called, in table order, for each test that panics and for no other test |
| PanicLoops.StrStep | pkg/testhelp/panic.go:286-298 | one `PanicsStrLoop` row never stops the runner and makes exactly one of three choices: `notPanicFunc` iff the test does not panic; `notContainsFunc` with the expectation in force and the value iff it panics and fails the check; no callback iff it panics and passes |
| PanicLoops.REStep | pkg/testhelp/panic.go:318-330 | one `PanicsRELoop` row stops the runner iff the pattern in force does not compile, with the compile-failure message; otherwise exactly one of `notPanicFunc`, `notMatchesFunc` or no callback, by the same rule as `StrStep` |
| PanicLoops.ValStep | pkg/testhelp/panic.go:349-361 | one `PanicsValLoop` row stops the runner iff the panic value and the value in force share an uncomparable type; otherwise `notPanicFunc` iff no panic, `notEqualsFunc` iff it panicked with a different value, nothing iff equal |
| PanicLoops.PanicsStrLoop | pkg/testhelp/panic.go:279-299 | the callbacks made are those of the rows' steps, concatenated in table order; the runner never panics itself |
| PanicLoops.PanicsRELoop | pkg/testhelp/panic.go:311-331 | the callbacks made and the runner's own panic are those of running the rows' steps in table order up to the first that stops |
| PanicLoops.PanicsValLoop | pkg/testhelp/panic.go:342-362 | the callbacks made and the runner's own panic are those of running the rows' steps in table order up to the first that stops |
| PanicLoops.RunStepsIgnoresLater | pkg/testhelp/panic.go:309-310 | once a run has stopped, appending rows changes neither its callbacks nor its panic |
| LoopProperties.PanicsAndNotPanicsComplement | pkg/testhelp/panic.go:221-256 | the names `PanicsLoop` reports and the names `NotPanicsLoop` reports together make up every test name exactly once |
| LoopProperties.NamesWhereLengths | pkg/testhelp/panic.go:221-256 | `PanicsLoop` and `NotPanicsLoop` together report as many names as the table has tests |
| LoopProperties.GetLoopElseNames | pkg/testhelp/panic.go:234-243 | `PanicsGetLoop`'s `elseFunc` calls name exactly the tests `PanicsLoop` reports, in the same order |
| LoopProperties.NotPanicsGetLoopCalls | pkg/testhelp/panic.go:263-270 | `NotPanicsGetLoop` calls `elseFunc` for exactly the tests `NotPanicsLoop` reports, in order, each time with a non-nil panic value |
| LoopProperties.RunStepsStops | pkg/testhelp/panic.go:318-330 | a checking run panics exactly when some row stops, at the first such row and with its value; the callbacks made are those of the rows before it |
| LoopProperties.StrLoopNotPanicNames | pkg/testhelp/panic.go:286-298 | `PanicsStrLoop` never panics, and calls `notPanicFunc` with the names `PanicsLoop` reports, in order, whatever the expectations |
| LoopProperties.StrLoopMismatches | pkg/testhelp/panic.go:272-276 | every `notContainsFunc` call is for a test that panicked and failed the check against the expectation in force, and carries that expectation and the panic value |
| LoopProperties.StrLoopMismatchCalls | pkg/testhelp/panic.go:279-298 | the `notContainsFunc` calls of `PanicsStrLoop` are, in table order, exactly one per test that panics with a value failing the check against the expectation in force, carrying that expectation and the value, and none for any other test |
| LoopProperties.StrLoopOverride | pkg/testhelp/panic.go:287-296 | a shared `wantStrAll` acts as every row's `WantStr`, is what every `notContainsFunc` call receives, and leaves the `notPanicFunc` calls unchanged |
| LoopProperties.REAbortAt | pkg/testhelp/panic.go:309-310 | `PanicsRELoop` completes the rows before the first pattern in force that does not compile, then panics with that pattern's compile-failure message; every earlier pattern compiles |
| LoopProperties.RELaterRowsNeverRun | pkg/testhelp/panic.go:309-310 | rows after the one where `PanicsRELoop` panics change nothing |
| LoopProperties.RELoopNotPanicNames | pkg/testhelp/panic.go:318-330 | when `PanicsRELoop` does not panic, `notPanicFunc` gets the names `PanicsLoop` reports, in order |
| LoopProperties.RELoopMismatchCalls | pkg/testhelp/panic.go:311-330 | the `notMatchesFunc` calls of `PanicsRELoop` are, in table order over the rows before the one where it panics (all rows if none), exactly one per test whose pattern compiles and which panics with a value the pattern does not match, carrying the pattern and the value |
| LoopProperties.RELoopOverride | pkg/testhelp/panic.go:319-328 | a shared `wantREAll` acts as every row's `WantRE` and is what `notMatchesFunc` receives; if it does not compile, the runner panics at the first row before any callback |
| LoopProperties.ValAbortAt | pkg/testhelp/panic.go:340-341 | `PanicsValLoop` completes the rows before the first whose values share an uncomparable type, then panics with Go's runtime error; no earlier row has such values |
| LoopProperties.ValLaterRowsNeverRun | pkg/testhelp/panic.go:340-341 | rows after the one where `PanicsValLoop` panics change nothing |
| LoopProperties.ValLoopNotPanicNames | pkg/testhelp/panic.go:349-361 | when `PanicsValLoop` does not panic, `notPanicFunc` gets the names `PanicsLoop` reports, in order |
| LoopProperties.ValLoopMismatchCalls | pkg/testhelp/panic.go:342-361 | the `notEqualsFunc` calls of `PanicsValLoop` are, in table order over the rows before the one where it panics (all rows if none), exactly one per test that panics with a value other than the one in force, carrying that value in force and the panic value |
| LoopProperties.ValLoopOverride | pkg/testhelp/panic.go:350-359 | a shared `wantValAll` acts as every row's `WantVal` and is what every `notEqualsFunc` call receives |
| LoopScenarios.StrLoopPanickedThenReturned | pkg/testhelp/panic_test.go:392-400 | the "p, ncm; np" table: `notContainsFunc` for the first test, then `notPanicFunc` for the second |
| LoopScenarios.RELoopBadPatternSecond | pkg/testhelp/panic_test.go:693-702 | the "ok, not ok" table: `notMatchesFunc` for the first row, then the runner panics on the second row's bad pattern |
| LoopScenarios.RELoopBadPatternFirst | pkg/testhelp/panic_test.go:703-711 | the "not ok, ok" table: a bad first pattern panics the runner before any callback, whatever the second row is |
| LoopScenarios.ValLoopUncomparableSecond | pkg/testhelp/panic_test.go:1024-1033 | the "ok, not ok" table: `notEqualsFunc` for the first row, then the runner panics on two string slices |
| LoopScenarios.ValLoopUncomparableFirst | pkg/testhelp/panic_test.go:1034-1051 | the "not ok, ok" and "not ok, not ok" tables: string slices in the first row, whatever its name and whatever the second row, panic the runner before any callback, whether or not their elements agree |

## Left out

- Go's `defer`/`recover` machinery, and test functions that never return or that exit by other means (`runtime.Goexit`). A test function is modelled by its outcome alone.
- Panic.Panics: `panic(nil)` follows the code's `recover() != nil` test as it behaves before Go 1.21. There, `recover()` returns nil, so that panic counts as no panic. From Go 1.21 on, `recover()` returns a `*runtime.PanicNilError`, which would count as an error panic.
- Panic.PanicsRE: `regexp.Compile` and `MatchString` are foreign code. They enter as the `Regexp.Engine` parameter. What they accept and match is not modelled, apart from the documented empty-pattern guarantee, which lemmas take as a hypothesis.
- Panic.PanicsVal: Go's equality on interfaces is modelled only for the payload kinds above. An error is compared by identity. Other values are compared by type tag and an integer. A float appears as a tag and an integer code, without floating-point numerics. Comparable structs or arrays that contain uncomparable fields are not modelled.
- The `fmt` messages of the six callback factories (`NotContainsFuncErrorFactory` … `NotEqualsFuncFatalFactory`, pkg/testhelp/panic.go:373-423) and their `TestingT` sink are not modelled. The only behaviour in the factories is the choice between `Errorf` and `Fatalf`. `Fatalf` ends the test, and that effect belongs to Go's `testing` package, which is not part of this model.
- The runners' callbacks are recorded as a trace of calls. What a callback does with them, such as appending to the caller's slices, is the caller's code and not part of this model.
- The runners' traces assume that every callback returns and that no callback changes the table or the shared `wantStrAll`/`wantREAll`/`wantValAll`. Go reads those again on every iteration (pkg/testhelp/panic.go:287-291, 319-323, 350-354). A callback built by a `Fatalf` factory ends the test through `runtime.Goexit`, and a callback that panics ends the runner. In both cases the calls actually made are the trace up to and including the first callback that does not return.
- Text: strings are sequences of Unicode characters, and `Contains` compares characters. Go's `strings.Contains` compares bytes, and a Go string may hold invalid UTF-8. Such strings have no counterpart in the model.
- Payloads.Payload: some values of the datatype stand for no Go value. Examples are `Other("string", v)` beside `Str`, an `Other` and an `Uncomparable` with the same type tag, and two errors with one identity but different texts. For such values `TypeOf` and `InterfaceEquals` may answer differently from Go. The model does not exclude them with a well-formedness predicate.
- Payloads.Payload: an error's `Error()` method always returns its text. An error whose `Error()` panics or never returns is not represented. An example is a typed nil pointer whose pointer-receiver `Error()` dereferences it. For such a value Go's `PanicsStr` and `PanicsRE` panic inside their deferred function (pkg/testhelp/panic.go:143-147, 183-187), and so do `NotPanicsGet` (panic.go:95), `PanicsStrLoop` and `PanicsRELoop`. `NotPanicsGet` is then not the opposite of `PanicsGet`, which returns normally. `GetAgreesWithPanics` and the "never panics" part of `StrLoopNotPanicNames` hold only for the payloads the model represents.
