/**
 * The retry policy around the remote embedding call (`@retry(...,
 * stop=stop_after_attempt(6))`): call again after every failure, stop at the
 * first success or after the sixth attempt. The randomised waits between
 * attempts are not modelled.
 */
module Retry {
  import opened Wrappers

  const MaxAttempts: nat := 6

  /** What the remote service answers to its n-th call overall, for a text and a
      model: the embedding, or `None` when the call raises. */
  type Outcome<T> = (nat, string, string) -> Option<T>

  /** Calling from call number `start` on, at most `budget` times, stopping at the
      first success: how many calls were made, and the result (None when every
      attempt failed). */
  function Attempts<T>(outcome: Outcome<T>, text: string, model: string, start: nat, budget: nat): (r: (nat, Option<T>))
    decreases budget
  {
    if budget == 0 then (0, None)
    else if outcome(start, text, model).Some? then (1, outcome(start, text, model))
    else
      var rest := Attempts(outcome, text, model, start + 1, budget - 1);
      (1 + rest.0, rest.1)
  }

  /** At least one and at most `budget` calls are made; a success is the answer
      of the last call made, and every earlier call failed. */
  lemma {:induction false} AttemptsBounds<T>(outcome: Outcome<T>, text: string, model: string, start: nat, budget: nat)
    requires budget > 0
    ensures 1 <= Attempts(outcome, text, model, start, budget).0 <= budget
    ensures var out := Attempts(outcome, text, model, start, budget); var used, r := out.0, out.1;
      && (r.Some? ==> r == outcome(start + used - 1, text, model))
      && (forall i | start <= i < start + used - 1 :: outcome(i, text, model).None?)
      && (r.None? ==> used == budget)
    decreases budget
  {
    if budget > 1 && outcome(start, text, model).None? {
      AttemptsBounds(outcome, text, model, start + 1, budget - 1);
    }
  }

  /** Failing n - 1 times and then succeeding, with n within the budget, gives the
      n-th answer after exactly n calls. */
  lemma {:induction false} AttemptsSucceedAt<T>(outcome: Outcome<T>, text: string, model: string, start: nat, budget: nat, n: nat)
    requires 1 <= n <= budget
    requires forall i | start <= i < start + n - 1 :: outcome(i, text, model).None?
    requires outcome(start + n - 1, text, model).Some?
    ensures Attempts(outcome, text, model, start, budget) == (n, outcome(start + n - 1, text, model))
    decreases n
  {
    if n > 1 {
      AttemptsSucceedAt(outcome, text, model, start + 1, budget - 1, n - 1);
    }
  }

  /** Failing on every attempt gives a failure after exactly `budget` calls, and
      no call beyond the budget. */
  lemma {:induction false} AttemptsExhausted<T>(outcome: Outcome<T>, text: string, model: string, start: nat, budget: nat)
    requires forall i | start <= i < start + budget :: outcome(i, text, model).None?
    ensures Attempts(outcome, text, model, start, budget) == (budget, None)
    decreases budget
  {
    if budget > 0 {
      AttemptsExhausted(outcome, text, model, start + 1, budget - 1);
    }
  }
}
