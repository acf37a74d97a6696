/**
 What the single-case helpers promise in their documentation and tests,
 stated over all test functions.
 */
module PanicProperties {
  import opened Payloads
  import opened Text
  import opened Panic
  import Regexp

  /** `PanicsGet` reports a panic exactly when `f` panics with a non-nil value,
      and `NotPanicsGet` negates that flag and passes the same value on. */
  lemma GetAgreesWithPanics(f: Outcome)
    ensures PanicsGet(f).flag == Panics(f) == !NotPanics(f)
    ensures NotPanicsGet(f).flag == NotPanics(f)
    ensures NotPanicsGet(f).pVal == PanicsGet(f).pVal == Recover(f)
  {
  }

  /** The empty `wantStr` is contained in every string or error panic value,
      and in nothing else; the contents check is then bypassed. */
  lemma {:induction false} PanicsStrEmptyWant(f: Outcome)
    ensures PanicsStr(f, "").ok <==> TextOf(Recover(f)).Some?
    ensures PanicsStr(f, "").didPanic == Panics(f)
  {
    match TextOf(Recover(f))
    case Some(text) => ContainsEmpty(text);
    case None =>
  }

  /** With an engine that keeps the documented promise, the empty pattern
      matches every string or error panic value. */
  lemma PanicsREEmptyPattern(e: Regexp.Engine, f: Outcome)
    requires Regexp.EmptyPatternMatchesAll(e)
    ensures PanicsRE(e, f, "") == Done(Checked(Panics(f), TextOf(Recover(f)).Some?, Recover(f)))
  {
  }

  /** A pattern that does not compile makes `PanicsRE` panic whatever `f`
      does, with a string that starts with "Regexp could not be compiled". */
  lemma {:induction false} PanicsREBadPattern(e: Regexp.Engine, f: Outcome, g: Outcome, wantRE: string)
    requires !e.compiles(wantRE)
    ensures PanicsRE(e, f, wantRE) == PanicsRE(e, g, wantRE)
    ensures PanicsRE(e, f, wantRE).Abort?
    ensures PanicsStr(AsOutcome(PanicsRE(e, f, wantRE)), "Regexp could not be compiled")
            == Checked(true, true, Str(CompileFailurePrefix + e.compileError(wantRE)))
  {
    var msg := CompileFailurePrefix + e.compileError(wantRE);
    assert msg[..|"Regexp could not be compiled"|] == "Regexp could not be compiled";
    ContainsPrefix(msg, "Regexp could not be compiled");
  }

  /** Values of different dynamic types are never equal, and never make
      `PanicsVal` panic. */
  lemma PanicsValDifferentTypes(f: Outcome, wantVal: Payload)
    requires TypeOf(Recover(f)) != TypeOf(wantVal)
    ensures PanicsVal(f, wantVal) == Done(Checked(Panics(f), false, Recover(f)))
  {
  }

  /** A panic value and `wantVal` of the same uncomparable type make
      `PanicsVal` panic with a runtime error, whether or not their elements
      agree; that panic is itself seen as an error panic by `PanicsStr`. */
  lemma {:induction false} PanicsValUncomparable(tag: string, got: seq<string>, want: seq<string>)
    ensures PanicsVal(Panicked(Uncomparable(tag, got)), Uncomparable(tag, want)) == Abort(UncomparableError(tag))
    ensures PanicsStr(Panicked(UncomparableError(tag)), "runtime error: comparing uncomparable type")
            == Checked(true, true, UncomparableError(tag))
  {
    var msg := "runtime error: comparing uncomparable type " + tag;
    assert msg[..|"runtime error: comparing uncomparable type"|] == "runtime error: comparing uncomparable type";
    ContainsPrefix(msg, "runtime error: comparing uncomparable type");
  }

  /** With no panic, `pEquals` is `nil == wantVal`. */
  lemma PanicsValNoPanic(f: Outcome, wantVal: Payload)
    requires !Panics(f)
    ensures PanicsVal(f, wantVal) == Done(Checked(false, wantVal == Nil, Nil))
  {
  }

  /** Rows of the `PanicsStr` table: an error value is checked through its
      text; "ppp123" does not contain "1234"; a float panic value has no text,
      even against the empty string. */
  lemma {:induction false} StrTableExamples()
    ensures PanicsStr(Panicked(Str("ppp123")), "ppp") == Checked(true, true, Str("ppp123"))
    ensures PanicsStr(Panicked(Str("ppp123")), "") == Checked(true, true, Str("ppp123"))
    ensures PanicsStr(Panicked(Str("ppp123")), "1234") == Checked(true, false, Str("ppp123"))
    ensures PanicsStr(Panicked(Err(1, "ppp123")), "ppp") == Checked(true, true, Err(1, "ppp123"))
    ensures PanicsStr(Panicked(Err(1, "ppp123")), "1234") == Checked(true, false, Err(1, "ppp123"))
    ensures PanicsStr(Panicked(Other("float64", 275)), "") == Checked(true, false, Other("float64", 275))
    ensures PanicsStr(Returned, "ppp") == Checked(false, false, Nil)
  {
    assert OccursAt("ppp123", "ppp", 0);
    ContainsEmpty("ppp123");
    forall i | 0 <= i <= 2 ensures !OccursAt("ppp123", "1234", i) {
      assert "ppp123"[i..i + 4][0] == 'p';
    }
  }

  /** Rows of the `PanicsVal` table: equal strings and equal floats compare
      equal; 27.0 does not equal the int 27, nor 27.5 the string "27.5". */
  lemma ValTableExamples()
    ensures PanicsVal(Panicked(Str("ppp123")), Str("ppp123")) == Done(Checked(true, true, Str("ppp123")))
    ensures PanicsVal(Panicked(Str("ppp123")), Str("ppp234")) == Done(Checked(true, false, Str("ppp123")))
    ensures PanicsVal(Panicked(Other("float64", 275)), Other("float64", 275)) == Done(Checked(true, true, Other("float64", 275)))
    ensures PanicsVal(Panicked(Other("float64", 275)), Other("float64", 421)) == Done(Checked(true, false, Other("float64", 275)))
    ensures PanicsVal(Panicked(Other("float64", 275)), Str("27.5")) == Done(Checked(true, false, Other("float64", 275)))
    ensures PanicsVal(Panicked(Other("float64", 270)), Other("int", 27)) == Done(Checked(true, false, Other("float64", 270)))
    ensures PanicsVal(Returned, Str("ppp")) == Done(Checked(false, false, Nil))
  {
  }
}
