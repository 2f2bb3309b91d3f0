/**
  The per-compilation diagnostic context (`Compiler` in compiler.h).

  `error`, `warn` and `note` each write one line to the error stream; `error`
  and `warn` also bump a counter. The stream is modelled as the sequence of
  diagnostics written so far (kind and location; the message text is left out).
 */
module Diagnostics {
  import opened Basics

  datatype Kind = Error | Warning | Note

  datatype Diag = Diag(kind: Kind, loc: Loc)

  /** The observable state of a `Compiler`: both counters and the diagnostics written. */
  datatype Report = Report(numErrors: nat, numWarnings: nat, output: seq<Diag>)

  /** A fresh compilation context: both counters are zero and nothing was written. */
  const Empty: Report := Report(0, 0, [])

  /** `error`: one more error, the warnings as they were, and exactly one error diagnostic written. */
  function AddError(r: Report, loc: Loc): Report {
    Report(r.numErrors + 1, r.numWarnings, r.output + [Diag(Error, loc)])
  }

  /** `warn`: one more warning, the errors as they were, and exactly one warning diagnostic written. */
  function AddWarning(r: Report, loc: Loc): Report {
    Report(r.numErrors, r.numWarnings + 1, r.output + [Diag(Warning, loc)])
  }

  /** `note`: neither counter moves; exactly one note is written. */
  function AddNote(r: Report, loc: Loc): Report {
    r.(output := r.output + [Diag(Note, loc)])
  }

  /**
    What each operation does to a report: `error` and `warn` add one to their own
    counter and leave the other alone, `note` leaves both alone, and each writes
    exactly one diagnostic of its kind, at the location, after what was written before.
   */
  lemma OperationEffects(r: Report, loc: Loc)
    ensures AddError(r, loc).numErrors == r.numErrors + 1 && AddError(r, loc).numWarnings == r.numWarnings
    ensures AddWarning(r, loc).numErrors == r.numErrors && AddWarning(r, loc).numWarnings == r.numWarnings + 1
    ensures AddNote(r, loc).numErrors == r.numErrors && AddNote(r, loc).numWarnings == r.numWarnings
    ensures AddError(r, loc).output == r.output + [Diag(Error, loc)]
    ensures AddWarning(r, loc).output == r.output + [Diag(Warning, loc)]
    ensures AddNote(r, loc).output == r.output + [Diag(Note, loc)]
  {
  }

  /** Number of diagnostics of kind `k` in `out`. */
  function CountKind(out: seq<Diag>, k: Kind): nat {
    if out == [] then 0
    else CountKind(out[..|out| - 1], k) + (if out[|out| - 1].kind == k then 1 else 0)
  }

  /** A report is consistent when its counters agree with what was written. */
  predicate Consistent(r: Report) {
    r.numErrors == CountKind(r.output, Error) && r.numWarnings == CountKind(r.output, Warning)
  }

  /** Each of the three operations keeps the counters in agreement with the output. */
  lemma {:induction false} OperationsKeepConsistent(r: Report, loc: Loc)
    requires Consistent(r)
    ensures Consistent(AddError(r, loc)) && Consistent(AddWarning(r, loc)) && Consistent(AddNote(r, loc))
  {
    var out := r.output;
    assert (out + [Diag(Error, loc)])[..|out|] == out;
    assert (out + [Diag(Warning, loc)])[..|out|] == out;
    assert (out + [Diag(Note, loc)])[..|out|] == out;
  }

  class Compiler {
    var numErrors: nat
    var numWarnings: nat
    var output: seq<Diag>

    function Value(): Report
      reads this
    {
      Report(numErrors, numWarnings, output)
    }

    /** Both counters start at 0. */
    constructor ()
      ensures Value() == Empty
      ensures Consistent(Value())
    {
      numErrors, numWarnings, output := 0, 0, [];
    }

    /** Increments the error counter by exactly one; the warning counter is unchanged. */
    method Error(loc: Loc)
      modifies this
      ensures numErrors == old(numErrors) + 1 && numWarnings == old(numWarnings)
      ensures output == old(output) + [Diag(Kind.Error, loc)]
      ensures Value() == AddError(old(Value()), loc)
    {
      numErrors := numErrors + 1;
      output := output + [Diag(Kind.Error, loc)];
    }

    /** Increments the warning counter by exactly one; the error counter is unchanged. */
    method Warn(loc: Loc)
      modifies this
      ensures numWarnings == old(numWarnings) + 1 && numErrors == old(numErrors)
      ensures output == old(output) + [Diag(Warning, loc)]
      ensures Value() == AddWarning(old(Value()), loc)
    {
      numWarnings := numWarnings + 1;
      output := output + [Diag(Warning, loc)];
    }

    /** Changes neither counter. */
    method Note(loc: Loc)
      modifies this
      ensures numErrors == old(numErrors) && numWarnings == old(numWarnings)
      ensures output == old(output) + [Diag(Kind.Note, loc)]
      ensures Value() == AddNote(old(Value()), loc)
    {
      output := output + [Diag(Kind.Note, loc)];
    }
  }
}
