/**
 * The ordered validation chain. Each middleware either passes the request on
 * or reports an error `{message, status}`; a thrown exception (a property read
 * on `undefined`, a failing query) reaches the error boundary instead. The
 * chain stops at the first check that does not pass.
 */
module Pipeline {

  datatype HttpError = HttpError(message: string, status: int)

  /** What one check does with the request. */
  datatype Outcome = Pass | Fail(error: HttpError) | Crash

  function BadRequest(message: string): Outcome
  {
    Fail(HttpError(message, 400))
  }

  function NotFound(message: string): Outcome
  {
    Fail(HttpError(message, 404))
  }

  /**
   * Runs the checks of `chain` in order and returns the outcome of the first
   * one that does not pass, or `Pass` when all of them pass.
   */
  function FirstFailure<C>(chain: seq<C>, run: C -> Outcome): (r: Outcome)
    ensures r.Pass? <==> forall i :: 0 <= i < |chain| ==> run(chain[i]).Pass?
    ensures !r.Pass? ==>
      exists i :: 0 <= i < |chain| && r == run(chain[i])
        && forall j :: 0 <= j < i ==> run(chain[j]).Pass?
  {
    if chain == [] then Pass
    else if !run(chain[0]).Pass? then run(chain[0])
    else
      var rest := FirstFailure(chain[1..], run);
      assert forall i :: 1 <= i < |chain| ==> chain[i] == chain[1..][i - 1];
      rest
  }

  /** Whatever the later checks would say, the first failing check decides. */
  lemma {:induction false} FirstFailureIs<C>(chain: seq<C>, run: C -> Outcome, i: nat)
    requires i < |chain| && !run(chain[i]).Pass?
    requires forall j :: 0 <= j < i ==> run(chain[j]).Pass?
    ensures FirstFailure(chain, run) == run(chain[i])
  {
    if i > 0 {
      assert run(chain[0]).Pass?;
      assert forall j :: 0 <= j < i - 1 ==> chain[1..][j] == chain[j + 1];
      FirstFailureIs(chain[1..], run, i - 1);
    }
  }

  /** A chain made of two parts runs the second part only when the first passes. */
  lemma {:induction false} FirstFailureAppend<C>(a: seq<C>, b: seq<C>, run: C -> Outcome)
    ensures FirstFailure(a + b, run) == if FirstFailure(a, run).Pass? then FirstFailure(b, run) else FirstFailure(a, run)
  {
    if a == [] {
      assert a + b == b;
    } else {
      assert (a + b)[0] == a[0];
      assert (a + b)[1..] == a[1..] + b;
      FirstFailureAppend(a[1..], b, run);
    }
  }
}
