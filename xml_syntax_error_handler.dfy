/**
 * The error handler the XML syntax check installs on the parser: every warning, error and fatal
 * error the parser reports is kept, in the order reported, instead of being thrown.
 */
module XmlSyntax {

  /** A problem the parser reports: where it is, and the parser's own words for it. */
  datatype Problem = Problem(line: int, column: int, message: string)

  /** One callback the parser makes on its error handler while parsing a document. */
  datatype Callback = Warning(problem: Problem) | Error(problem: Problem) | FatalError(problem: Problem)

  /** The problems the callbacks carry, in callback order; the severity is not kept. */
  function ProblemsOf(callbacks: seq<Callback>): seq<Problem>
  {
    if |callbacks| == 0 then []
    else ProblemsOf(callbacks[..|callbacks| - 1]) + [callbacks[|callbacks| - 1].problem]
  }

  /** One problem per callback, each at its callback's position. */
  lemma {:induction false} ProblemsOfInOrder(callbacks: seq<Callback>)
    ensures |ProblemsOf(callbacks)| == |callbacks|
    ensures forall i :: 0 <= i < |callbacks| ==> ProblemsOf(callbacks)[i] == callbacks[i].problem
  {
    if |callbacks| > 0 {
      ProblemsOfInOrder(callbacks[..|callbacks| - 1]);
    }
  }

  /** Callbacks that carry the same problems in the same order leave the same list, whatever their severities. */
  lemma SeverityIsNotRecorded(c: seq<Callback>, d: seq<Callback>)
    requires |c| == |d|
    requires forall i :: 0 <= i < |c| ==> c[i].problem == d[i].problem
    ensures ProblemsOf(c) == ProblemsOf(d)
  {
    ProblemsOfInOrder(c);
    ProblemsOfInOrder(d);
  }

  class XmlSyntaxErrorHandler {
    var syntaxErrorList: seq<Problem>

    constructor ()
      ensures syntaxErrorList == []
    {
      syntaxErrorList := [];
    }

    method Warning(e: Problem)
      modifies this
      ensures syntaxErrorList == old(syntaxErrorList) + [e]
    {
      syntaxErrorList := syntaxErrorList + [e];
    }

    method Error(e: Problem)
      modifies this
      ensures syntaxErrorList == old(syntaxErrorList) + [e]
    {
      syntaxErrorList := syntaxErrorList + [e];
    }

    /** A fatal error is recorded like the others; nothing is thrown. */
    method FatalError(e: Problem)
      modifies this
      ensures syntaxErrorList == old(syntaxErrorList) + [e]
    {
      syntaxErrorList := syntaxErrorList + [e];
    }

    /** Everything collected so far; the handler is left as it was. */
    method RetrieveErrorList() returns (errors: seq<Problem>)
      ensures errors == syntaxErrorList
    {
      errors := syntaxErrorList;
    }
  }

  /**
   * One parse of a document with a fresh handler installed: the parser delivers `callbacks`, one
   * at a time, and the handler's list is retrieved once the parse returns.
   */
  method Collect(callbacks: seq<Callback>) returns (problems: seq<Problem>)
    ensures problems == ProblemsOf(callbacks)
    ensures |problems| == |callbacks|
  {
    var handler := new XmlSyntaxErrorHandler();
    for i := 0 to |callbacks|
      invariant handler.syntaxErrorList == ProblemsOf(callbacks[..i])
    {
      assert callbacks[..i + 1][..i] == callbacks[..i];
      match callbacks[i]
      case Warning(p) => handler.Warning(p);
      case Error(p) => handler.Error(p);
      case FatalError(p) => handler.FatalError(p);
    }
    assert callbacks[..|callbacks|] == callbacks;
    problems := handler.RetrieveErrorList();
    ProblemsOfInOrder(callbacks);
  }
}
