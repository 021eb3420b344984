/** The attempt counting of `_run_task_with_retry`, shared by every task class of both
    generations: `for n in range(retry + 1)` calls the user function, counting each call
    in `_count_call`, and leaves the loop at the first call that does not raise. The user
    function is an oracle: `succeeds(n)` says whether attempt n (counted from 0) returns
    normally. */
module Retry {

  /** The value `_count_call` ends with: 0 when `range(retry + 1)` is empty, otherwise the
      number of the first successful attempt counted from 1, or `retry + 1` when all fail. */
  function Attempts(retry: int, succeeds: nat -> bool): nat
  {
    if retry < 0 then 0 else AttemptsFrom(retry, succeeds, 0)
  }

  /** The calls made from attempt n on, plus the n made before it. */
  function AttemptsFrom(last: nat, succeeds: nat -> bool, n: nat): nat
    requires n <= last
    decreases last - n
  {
    if succeeds(n) || n == last then n + 1 else AttemptsFrom(last, succeeds, n + 1)
  }

  /** Whether the loop ended on a successful call. */
  predicate Succeeded(retry: int, succeeds: nat -> bool) {
    Attempts(retry, succeeds) > 0 && succeeds(Attempts(retry, succeeds) - 1)
  }

  /** From attempt n on, the loop stops at the first success at or after n, or after
      attempt `last`. */
  lemma {:induction false} AttemptsFromSpec(last: nat, succeeds: nat -> bool, n: nat)
    requires n <= last
    ensures var c := AttemptsFrom(last, succeeds, n);
      && n + 1 <= c <= last + 1
      && (forall j :: n <= j < c - 1 ==> !succeeds(j))
      && (succeeds(c - 1) || c == last + 1)
    decreases last - n
  {
    if !succeeds(n) && n < last {
      AttemptsFromSpec(last, succeeds, n + 1);
    }
  }

  /** The loop makes at most `retry + 1` calls, never calls again after a success, and
      makes another call after every failure but the last: the count is 0 for a negative
      retry, else the 1-based number of the first success, or `retry + 1`. */
  lemma AttemptsSpec(retry: int, succeeds: nat -> bool)
    ensures retry < 0 ==> Attempts(retry, succeeds) == 0
    ensures retry >= 0 ==>
      var c := Attempts(retry, succeeds);
      && 1 <= c <= retry + 1
      && (forall j :: 0 <= j < c - 1 ==> !succeeds(j))
      && (succeeds(c - 1) || c == retry + 1)
  {
    if retry >= 0 {
      AttemptsFromSpec(retry, succeeds, 0);
    }
  }

  /** The loop ends on a success exactly when one of the attempts 0 .. retry succeeds; it
      fails after `retry + 1` calls exactly when all of them fail. */
  lemma SucceededIff(retry: int, succeeds: nat -> bool)
    ensures Succeeded(retry, succeeds) <==> exists j :: 0 <= j <= retry && succeeds(j)
    ensures !Succeeded(retry, succeeds) && retry >= 0 ==> Attempts(retry, succeeds) == retry + 1
  {
    AttemptsSpec(retry, succeeds);
    var c := Attempts(retry, succeeds);
    if j :| 0 <= j <= retry && succeeds(j) {
      assert j >= c - 1;
    }
  }

  /** The two outcomes promised for `retry = 2`: a function that always
      raises is called 3 times and the loop fails; one that fails twice and then returns
      is called 3 times and the loop succeeds. */
  lemma {:induction false} RetryTwice()
    ensures Attempts(2, n => false) == 3 && !Succeeded(2, n => false)
    ensures Attempts(2, n => n >= 2) == 3 && Succeeded(2, n => n >= 2)
  {
    AttemptsSpec(2, n => false);
    AttemptsSpec(2, n => n >= 2);
  }

  /** A function that returns on its first call is called once, whatever the retry. */
  lemma FirstCallSucceeds(retry: int, succeeds: nat -> bool)
    requires retry >= 0 && succeeds(0)
    ensures Attempts(retry, succeeds) == 1 && Succeeded(retry, succeeds)
  {
  }
}
