/**
 The regular-expression library the helpers call (Go's `regexp.Compile` and
 `(*Regexp).MatchString`) is foreign code; it enters the model as a value
 that gives its behaviour, and what its documentation promises is a
 predicate that lemmas take as a hypothesis.
 */
module Regexp {

  datatype Engine = Engine(
    /** `regexp.Compile(re)` returns no error */
    compiles: string -> bool,
    /** the text of the error `regexp.Compile(re)` returns when it fails */
    compileError: string -> string,
    /** `MatchString(s)` on the compiled `re` (unanchored) */
    matchString: (string, string) -> bool
  )

  /** The guarantee the helpers rely on: the empty pattern compiles and
      matches every string. */
  ghost predicate EmptyPatternMatchesAll(e: Engine)
  {
    e.compiles("") && forall s: string :: e.matchString("", s)
  }
}
