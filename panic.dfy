/**
 The single-case helpers of package testhelp: each one runs a test function
 once, recovers whatever it panicked with, and classifies that value. With
 `recover()` replaced by the `Outcome` of the call, each helper is a function
 of that outcome and of what the caller expects.
 */
module Panic {
  import opened Payloads
  import opened Text
  import Regexp

  /** `(didPanic, pVal)` from `PanicsGet`, or `(didNotPanic, pVal)` from `NotPanicsGet`. */
  datatype Got = Got(flag: bool, pVal: Payload)

  /** `(didPanic, pContainsStr / pMatchesRE / pEquals, pVal)` from the checking helpers. */
  datatype Checked = Checked(didPanic: bool, ok: bool, pVal: Payload)

  /** A checking helper either returns its results or itself panics with `p`
      (an invalid regexp, or `==` on an uncomparable type). */
  datatype Verdict = Done(c: Checked) | Abort(p: Payload)

  /** The start of the message `PanicsRE` panics with when `wantRE` does not compile. */
  const CompileFailurePrefix := "Regexp could not be compiled: "

  /** `Panics(f)`: whether `f` panicked, that is whether `recover()` saw a non-nil value. */
  function Panics(f: Outcome): (didPanic: bool)
    ensures didPanic <==> f.Panicked? && f.p != Nil
  {
    Recover(f) != Nil
  }

  /** `NotPanics(f)`: the negation of `Panics(f)`. */
  function NotPanics(f: Outcome): (didNotPanic: bool)
    ensures didNotPanic <==> f.Returned? || f.p == Nil
  {
    !Panics(f)
  }

  /** `PanicsGet(f)`: whether `f` panicked, and the recovered value unchanged. */
  function PanicsGet(f: Outcome): (r: Got)
    ensures r.flag <==> r.pVal != Nil
    ensures r.flag == Panics(f)
    ensures f.Panicked? ==> r.pVal == f.p
    ensures f.Returned? ==> r.pVal == Nil
  {
    var pVal := Recover(f);
    Got(pVal != Nil, pVal)
  }

  /** `NotPanicsGet(f)`, which the source computes through `PanicsStr(f, "")`. */
  function NotPanicsGet(f: Outcome): (r: Got)
    ensures r == Got(!PanicsGet(f).flag, PanicsGet(f).pVal)
  {
    var c := PanicsStr(f, "");
    Got(!c.didPanic, c.pVal)
  }

  /** `PanicsStr(f, wantStr)`: a string panic value is searched for `wantStr`
      directly, an error value through its `Error()` text, and any other value
      (nil included) never contains it. */
  function PanicsStr(f: Outcome, wantStr: string): (r: Checked)
    ensures r.didPanic == Panics(f) && r.pVal == PanicsGet(f).pVal
    ensures r.pVal.Str? ==> (r.ok <==> Contains(r.pVal.s, wantStr))
    ensures r.pVal.Err? ==> (r.ok <==> Contains(r.pVal.msg, wantStr))
    ensures !r.pVal.Str? && !r.pVal.Err? ==> !r.ok
    ensures r.ok ==> r.didPanic
  {
    var pVal := Recover(f);
    var pContainsStr :=
      match TextOf(pVal)
      case Some(pStr) => Contains(pStr, wantStr)
      case None => false;
    Checked(pVal != Nil, pContainsStr, pVal)
  }

  /** `PanicsRE(f, wantRE)`: the pattern is compiled before `f` runs, and a
      pattern that does not compile makes the helper panic with a string;
      otherwise as `PanicsStr`, with a regexp match instead of a substring test. */
  function PanicsRE(e: Regexp.Engine, f: Outcome, wantRE: string): (r: Verdict)
    ensures r.Abort? <==> !e.compiles(wantRE)
    ensures r.Abort? ==> r.p == Str(CompileFailurePrefix + e.compileError(wantRE))
    ensures r.Done? ==> r.c.didPanic == Panics(f) && r.c.pVal == PanicsGet(f).pVal
    ensures r.Done? && r.c.pVal.Str? ==> (r.c.ok <==> e.matchString(wantRE, r.c.pVal.s))
    ensures r.Done? && r.c.pVal.Err? ==> (r.c.ok <==> e.matchString(wantRE, r.c.pVal.msg))
    ensures r.Done? && !r.c.pVal.Str? && !r.c.pVal.Err? ==> !r.c.ok
    ensures r.Done? && r.c.ok ==> r.c.didPanic
  {
    if !e.compiles(wantRE) then
      Abort(Str(CompileFailurePrefix + e.compileError(wantRE)))
    else
      var pVal := Recover(f);
      var pMatchesRE :=
        match TextOf(pVal)
        case Some(pStr) => e.matchString(wantRE, pStr)
        case None => false;
      Done(Checked(pVal != Nil, pMatchesRE, pVal))
  }

  /** `PanicsVal(f, wantVal)`: `pEquals` is Go's `pVal == wantVal`, which
      itself panics when both have the same uncomparable dynamic type. */
  function PanicsVal(f: Outcome, wantVal: Payload): (r: Verdict)
    ensures r.Abort? <==> TypeOf(PanicsGet(f).pVal) == TypeOf(wantVal) && !IsComparable(TypeOf(wantVal))
    ensures r.Abort? ==> r.p == UncomparableError(wantVal.tag)
    ensures r.Done? ==> r.c.didPanic == Panics(f) && r.c.pVal == PanicsGet(f).pVal
    ensures r.Done? ==> (r.c.ok <==> r.c.pVal == wantVal)
  {
    var pVal := Recover(f);
    match InterfaceEquals(pVal, wantVal)
    case ComparePanic(p) => Abort(p)
    case Compared(pEquals) => Done(Checked(pVal != Nil, pEquals, pVal))
  }

  /** A call of a checking helper, seen as a test function in its own right:
      the helper's own panic is a panic like any other. */
  function AsOutcome(v: Verdict): Outcome
  {
    match v
    case Done(_) => Returned
    case Abort(p) => Panicked(p)
  }
}
