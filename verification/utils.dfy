/** The two decorators of the client library: `retry`, which re-runs a call until it
    succeeds or its attempts run out, and `deprecated`, which warns before each call. */
module Utils {
  import opened Wrappers

  // ---------------------------------------------------------------- retry

  /** The exception classes of `retry`'s default, `Exception`: every modelled error. */
  function CatchAll(e: Error): bool { true }

  /** What a retried call ends with: its outcome, the state the attempts left behind (the
      connection a retried ping keeps using, say) and how many attempts were made. */
  datatype Retried<S, T> = Retried(result: Outcome<T>, state: S, calls: nat)

  /** An outcome that makes `retry` try again: an exception of a caught class. */
  predicate Retryable<T>(caught: Error -> bool, o: Outcome<T>) { o.Failure? && caught(o.error) }

  /** The state after `k` attempts, each starting where the previous one stopped. */
  function After<S, T>(attempt: S -> (Outcome<T>, S), s: S, k: nat): S
  {
    if k == 0 then s else attempt(After(attempt, s, k - 1)).1
  }

  /** The outcome of attempt number `k`, counting from 0. */
  function OutcomeAt<S, T>(attempt: S -> (Outcome<T>, S), s: S, k: nat): Outcome<T>
  {
    attempt(After(attempt, s, k)).0
  }

  /** Starting one attempt later is starting from the state the first attempt left. */
  lemma {:induction false} AfterShift<S, T>(attempt: S -> (Outcome<T>, S), s: S, k: nat)
    ensures After(attempt, attempt(s).1, k) == After(attempt, s, k + 1)
  {
    if k > 0 {
      AfterShift(attempt, s, k - 1);
    }
  }

  /** A retryable first attempt followed by `c - 1` retryable attempts from the state it left
      makes `c` retryable attempts. */
  lemma RetryablePrefix<S, T>(caught: Error -> bool, attempt: S -> (Outcome<T>, S), s: S, c: nat)
    requires Retryable(caught, attempt(s).0)
    requires forall k :: 0 <= k < c - 1 ==> Retryable(caught, OutcomeAt(attempt, attempt(s).1, k))
    ensures forall k :: 0 <= k < c ==> Retryable(caught, OutcomeAt(attempt, s, k))
  {
    forall k | 0 <= k < c
      ensures Retryable(caught, OutcomeAt(attempt, s, k))
    {
      if k > 0 {
        AfterShift(attempt, s, k - 1);
        assert OutcomeAt(attempt, attempt(s).1, k - 1) == OutcomeAt(attempt, s, k);
      }
    }
  }

  /** The loop of `retry` with `n` attempts left and `last` the most recent caught exception:
      return on the first success, let an uncaught exception through at once, and when the
      attempts run out raise the last caught one, or UnboundLocalError if there was none. */
  function RetryFrom<S, T>(n: nat, caught: Error -> bool, attempt: S -> (Outcome<T>, S), s: S, last: Option<Error>)
    : (r: Retried<S, T>)
    ensures r.calls <= n
    ensures r.calls == 0 <==> n == 0
    ensures n == 0 ==> r == Retried(Failure(if last.Some? then last.value else Unbound), s, 0)
    ensures 0 < r.calls < n ==> !Retryable(caught, r.result)
    decreases n
  {
    if n == 0 then Retried(Failure(if last.Some? then last.value else Unbound), s, 0)
    else
      var (o, s') := attempt(s);
      if !Retryable(caught, o) then Retried(o, s', 1)
      else
        var r := RetryFrom(n - 1, caught, attempt, s', Some(o.error));
        Retried(r.result, r.state, r.calls + 1)
  }

  /** What the loop did: the result is the outcome of its last attempt, the state is the one
      that attempt left, and every attempt before the last was retryable. */
  lemma {:induction false} RetryFromTrace<S, T>(n: nat, caught: Error -> bool, attempt: S -> (Outcome<T>, S), s: S,
                                                last: Option<Error>)
    ensures var r := RetryFrom(n, caught, attempt, s, last);
            && (r.calls > 0 ==> r.result == OutcomeAt(attempt, s, r.calls - 1) && r.state == After(attempt, s, r.calls))
            && (forall k :: 0 <= k < r.calls - 1 ==> Retryable(caught, OutcomeAt(attempt, s, k)))
    decreases n
  {
    if n > 0 {
      var (o, s') := attempt(s);
      if Retryable(caught, o) {
        var r := RetryFrom(n - 1, caught, attempt, s', Some(o.error));
        RetryFromTrace(n - 1, caught, attempt, s', Some(o.error));
        AfterShift(attempt, s, r.calls);
        RetryablePrefix(caught, attempt, s, r.calls);
        if r.calls > 0 {
          AfterShift(attempt, s, r.calls - 1);
        }
      }
    }
  }

  /** One step of `retry`'s loop around attempts that are all caught, with `loop` for the
      rest of it. */
  function CatchAllStep<S, T>(loop: (nat, S, Option<Error>) -> Retried<S, T>, attempt: S -> (Outcome<T>, S), n: nat, s: S,
                              last: Option<Error>): Retried<S, T>
  {
    if n == 0 then Retried(Failure(if last.Some? then last.value else Unbound), s, 0)
    else
      var (o, s') := attempt(s);
      if o.Success? then Retried(o, s', 1)
      else var r := loop(n - 1, s', Some(o.error)); Retried(r.result, r.state, r.calls + 1)
  }

  /** A loop that takes that step everywhere is `retry`'s loop with every exception caught. */
  lemma {:induction false} LoopIsRetry<S, T>(loop: (nat, S, Option<Error>) -> Retried<S, T>, attempt: S -> (Outcome<T>, S),
                                             n: nat, s: S, last: Option<Error>)
    requires forall m: nat, s0: S, l: Option<Error> :: loop(m, s0, l) == CatchAllStep(loop, attempt, m, s0, l)
    ensures loop(n, s, last) == RetryFrom(n, CatchAll, attempt, s, last)
    decreases n
  {
    assert loop(n, s, last) == CatchAllStep(loop, attempt, n, s, last);
    if n > 0 {
      var (o, s') := attempt(s);
      if o.Failure? {
        LoopIsRetry(loop, attempt, n - 1, s', Some(o.error));
      }
    }
  }

  /** `@retry(tries)` applied to one call: at most `tries` attempts; `tries < 1` makes none
      and raises UnboundLocalError, since `last_exc` was never bound. */
  function Retry<S, T>(tries: int, caught: Error -> bool, attempt: S -> (Outcome<T>, S), s: S): (r: Retried<S, T>)
    ensures tries < 1 ==> r == Retried(Failure(Unbound), s, 0)
    ensures tries >= 1 ==> 1 <= r.calls <= tries
    ensures r.calls < tries ==> !Retryable(caught, r.result)
  {
    RetryFrom(if tries < 1 then 0 else tries, caught, attempt, s, None)
  }

  /** A retried call ends with the outcome of its last attempt, made from the state the earlier
      attempts left, and each earlier attempt raised a caught exception. */
  lemma RetryTrace<S, T>(tries: int, caught: Error -> bool, attempt: S -> (Outcome<T>, S), s: S)
    ensures var r := Retry(tries, caught, attempt, s);
            && (tries >= 1 ==> r.result == OutcomeAt(attempt, s, r.calls - 1) && r.state == After(attempt, s, r.calls))
            && (forall k :: 0 <= k < r.calls - 1 ==> Retryable(caught, OutcomeAt(attempt, s, k)))
  {
    RetryFromTrace(if tries < 1 then 0 else tries, caught, attempt, s, None);
  }

  /** The number of attempts: a `tries=` keyword given at the call overrides the decorator's. */
  function EffectiveTries(decorated: int, given: Option<int>): (t: int)
    ensures given.Some? ==> t == given.value
    ensures given.None? ==> t == decorated
  {
    if given.Some? then given.value else decorated
  }

  /** When every attempt fails with a caught exception, all `tries` attempts are made and the
      last exception is the one raised, whatever the earlier ones were. */
  lemma RetryExhausted<S, T>(tries: int, caught: Error -> bool, attempt: S -> (Outcome<T>, S), s: S)
    requires tries >= 1
    requires forall k :: 0 <= k < tries ==> Retryable(caught, OutcomeAt(attempt, s, k))
    ensures Retry(tries, caught, attempt, s).calls == tries
    ensures Retry(tries, caught, attempt, s).result == OutcomeAt(attempt, s, tries - 1)
  {
    var r := Retry(tries, caught, attempt, s);
    RetryTrace(tries, caught, attempt, s);
    assert Retryable(caught, OutcomeAt(attempt, s, r.calls - 1));
  }

  /** The first attempt that succeeds or raises an uncaught exception ends the call with
      that outcome, provided every attempt before it was retryable. */
  lemma RetryStopsAt<S, T>(tries: int, caught: Error -> bool, attempt: S -> (Outcome<T>, S), s: S, j: nat)
    requires j < tries
    requires forall k :: 0 <= k < j ==> Retryable(caught, OutcomeAt(attempt, s, k))
    requires !Retryable(caught, OutcomeAt(attempt, s, j))
    ensures Retry(tries, caught, attempt, s) == Retried(OutcomeAt(attempt, s, j), After(attempt, s, j + 1), j + 1)
  {
    var r := Retry(tries, caught, attempt, s);
    RetryTrace(tries, caught, attempt, s);
    var m: nat := r.calls - 1;
    assert m < j ==> Retryable(caught, OutcomeAt(attempt, s, m));
    assert r.calls > j + 1 ==> Retryable(caught, OutcomeAt(attempt, s, j));
  }

  /** The decorator's loop as written, one attempt per iteration. */
  method RetryLoop<S, T>(tries: int, caught: Error -> bool, attempt: S -> (Outcome<T>, S), s: S)
    returns (result: Outcome<T>, state: S, calls: nat)
    ensures Retried(result, state, calls) == Retry(tries, caught, attempt, s)
  {
    var n: nat := if tries < 1 then 0 else tries;
    var last: Option<Error> := None;
    state, calls := s, 0;
    while calls < n
      invariant calls <= n
      invariant calls == 0 ==> last == None
      invariant var rest := RetryFrom(n - calls, caught, attempt, state, last);
                Retry(tries, caught, attempt, s) == Retried(rest.result, rest.state, rest.calls + calls)
    {
      var (o, s') := attempt(state);
      if !Retryable(caught, o) {
        return o, s', calls + 1;
      }
      last, state, calls := Some(o.error), s', calls + 1;
    }
    result := Failure(if last.Some? then last.value else Unbound);
  }

  // ---------------------------------------------------------------- deprecated

  const Removal: string := " is deprecated and will be removed"

  /** The warning `@deprecated` issues: "'name' is deprecated and will be removed", then
      " in V" when a version is given, ", use 'R' instead" when a replacement is given, a
      full stop, and " (msg)" when a message is given. */
  function DeprecationMessage(name: string, replacement: Option<string>, version: Option<string>, msg: Option<string>)
    : (m: string)
    ensures |m| == |name| + 37 + (if version.Some? then 4 + |version.value| else 0)
                  + (if replacement.Some? then 16 + |replacement.value| else 0)
                  + (if msg.Some? then 3 + |msg.value| else 0)
    ensures m[..|name| + 36] == "'" + name + "'" + Removal
    ensures m[|name| + 36..] == Ending(replacement, version, msg)
  {
    var head := "'" + name + "'" + Removal;
    assert |head| == |name| + 36;
    Parts(head, Ending(replacement, version, msg));
    head + Ending(replacement, version, msg)
  }

  /** What follows the name in the warning: " in V" when a version is given, then the
      advice. */
  function Ending(replacement: Option<string>, version: Option<string>, msg: Option<string>): (e: string)
    ensures |e| == (if version.Some? then 4 + |version.value| else 0) + |Advice(replacement, msg)|
    ensures version.Some? ==> e[..4 + |version.value|] == " in " + version.value
    ensures version.Some? ==> e[4 + |version.value|..] == Advice(replacement, msg)
    ensures version.None? ==> e == Advice(replacement, msg)
  {
    if version.Some? then Parts(" in " + version.value, Advice(replacement, msg)); " in " + version.value + Advice(replacement, msg)
    else Advice(replacement, msg)
  }

  /** ", use 'R' instead" when a replacement is given, then a full stop, then " (msg)" when a
      message is given. */
  function Advice(replacement: Option<string>, msg: Option<string>): (e: string)
    ensures |e| == 1 + (if replacement.Some? then 16 + |replacement.value| else 0) + (if msg.Some? then 3 + |msg.value| else 0)
    ensures replacement.Some? ==> e[..16 + |replacement.value|] == ", use '" + replacement.value + "' instead"
    ensures replacement.None? ==> e[0] == '.'
    ensures msg.None? ==> e[|e| - 1] == '.'
    ensures msg.Some? ==> e[|e| - |msg.value| - 4..] == ". (" + msg.value + ")"
  {
    var use := if replacement.Some? then ", use '" + replacement.value + "' instead" else "";
    var note := if msg.Some? then ". (" + msg.value + ")" else ".";
    Parts(use, note);
    use + note
  }

  /** Where each of two consecutive parts sits in their concatenation. */
  lemma Parts<T>(a: seq<T>, b: seq<T>)
    ensures (a + b)[..|a|] == a && (a + b)[|a|..] == b
  {
  }

  /** A call through the decorated function: the warning it issues and the function's own
      result, unchanged. */
  function CallDeprecated<A, R>(f: A -> R, x: A, name: string, replacement: Option<string>, version: Option<string>,
                                msg: Option<string>): (r: (string, R))
    ensures r.1 == f(x)
    ensures r.0 == DeprecationMessage(name, replacement, version, msg)
  {
    (DeprecationMessage(name, replacement, version, msg), f(x))
  }
}
