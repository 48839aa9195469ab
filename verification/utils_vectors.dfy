/** The retry scenarios of mcstatus/tests/test_retry_decorator.py and sample deprecation
    warnings. */
module UtilsVectors {
  import opened Wrappers
  import opened Utils

  /** The counter function of `test_sync_success`: it bumps `x`, then returns `5 / x`, which
      raises ZeroDivisionError while `x` is 0. */
  function Counter(x: int): (Outcome<real>, int)
  {
    var x' := x + 1;
    (if x' == 0 then Failure(Raised("ZeroDivisionError")) else Success(5.0 / x' as real), x')
  }

  /** From `x = -1` with two tries: the first call divides by zero, the second returns 5, and
      `x` ends at 1. */
  lemma SucceedsOnSecondTry()
    ensures Retry(2, CatchAll, Counter, -1) == Retried(Success(5.0), 1, 2)
  {
    assert After(Counter, -1, 1) == 0;
    assert After(Counter, -1, 2) == 1;
    RetryStopsAt(2, CatchAll, Counter, -1, 1);
  }

  /** The always-failing function of `test_sync_fail`. */
  function AlwaysFails(u: ()): (Outcome<real>, ())
  {
    (Failure(Raised("RuntimeError")), u)
  }

  /** Two tries of a function that always raises RuntimeError raise RuntimeError. */
  lemma FailsAfterTwoTries()
    ensures Retry(2, CatchAll, AlwaysFails, ()) == Retried(Failure(Raised("RuntimeError")), (), 2)
  {
    RetryExhausted(2, CatchAll, AlwaysFails, ());
  }

  /** An exception outside the caught classes ends the call after one attempt. */
  lemma UncaughtStopsAtOnce()
    ensures Retry(3, e => e != Raised("RuntimeError"), AlwaysFails, ()) == Retried(Failure(Raised("RuntimeError")), (), 1)
  {
    RetryStopsAt(3, e => e != Raised("RuntimeError"), AlwaysFails, (), 0);
  }

  /** The warning for a deprecated `f` with replacement `g`, version 2.0 and message "soon". */
  lemma FullWarning()
    ensures DeprecationMessage("f", Some("g"), Some("2.0"), Some("soon"))
         == "'f'" + " is deprecated and will be removed" + " in 2.0" + ", use 'g' instead" + ". (soon)"
  {
    assert "'" + "f" + "'" == "'f'";
    assert " in " + "2.0" == " in 2.0";
    assert ", use '" + "g" + "' instead" == ", use 'g' instead";
    assert ". (" + "soon" + ")" == ". (soon)";
  }

  /** With nothing but the name, the warning ends at the full stop. */
  lemma PlainWarning()
    ensures DeprecationMessage("f", None, None, None) == "'f'" + " is deprecated and will be removed" + "."
  {
    assert "'" + "f" + "'" == "'f'";
  }
}
