// The maintenance banner of the web front end (front/stores/maintenance.store.ts): it is shown
// once the backend has failed three times in a row, or when forced, and cleared by a success.

module Maintenance {

  /** Consecutive failures after which the banner is shown. */
  const FailureThreshold: nat := 3

  /** The store's two fields, as a value. */
  datatype State = State(shown: bool, failures: nat)

  /** The store's four operations. */
  datatype Event = Set(value: bool) | Failure | Success | Force

  const Initial: State := State(false, 0)

  /** One operation on the state. */
  function Step(s: State, e: Event): State
  {
    match e
    case Set(value) => State(value, if value then s.failures else 0)
    case Failure =>
      var failures := s.failures + 1;
      State(s.shown || failures >= FailureThreshold, failures)
    case Success => State(false, 0)
    case Force => State(true, FailureThreshold)
  }

  /** Several operations in order. */
  function Run(s: State, es: seq<Event>): State
    decreases |es|
  {
    if es == [] then s else Run(Step(s, es[0]), es[1..])
  }

  /** n failures in a row. */
  function Failures(n: nat): (es: seq<Event>)
    ensures |es| == n && forall i :: 0 <= i < n ==> es[i] == Failure
  {
    if n == 0 then [] else [Failure] + Failures(n - 1)
  }

  /** What the store keeps true: a counter at the threshold means the banner is up. */
  predicate Consistent(s: State) {
    s.failures >= FailureThreshold ==> s.shown
  }

  /** Every operation keeps the state consistent. */
  lemma StepKeepsConsistent(s: State, e: Event)
    requires Consistent(s)
    ensures Consistent(Step(s, e))
  {
  }

  /** So does every sequence of operations, from any consistent state. */
  lemma {:induction false} RunKeepsConsistent(s: State, es: seq<Event>)
    requires Consistent(s)
    ensures Consistent(Run(s, es))
    decreases |es|
  {
    if es != [] {
      StepKeepsConsistent(s, es[0]);
      RunKeepsConsistent(Step(s, es[0]), es[1..]);
    }
  }

  /**
   * A run of failures adds to the counter, and the banner comes up exactly when it was already
   * up or the counter reaches the threshold.
   */
  lemma {:induction false} FailuresCount(s: State, n: nat)
    ensures Run(s, Failures(n)).failures == s.failures + n
    ensures Run(s, Failures(n)).shown <==> s.shown || (n > 0 && s.failures + n >= FailureThreshold)
    decreases n
  {
    if n > 0 {
      assert Failures(n)[1..] == Failures(n - 1);
      FailuresCount(Step(s, Failure), n - 1);
    }
  }

  /** From the initial state, two failures keep the banner hidden and the third shows it. */
  lemma ThirdFailureShowsBanner(n: nat)
    ensures Run(Initial, Failures(n)).shown <==> n >= FailureThreshold
  {
    FailuresCount(Initial, n);
  }

  /** A success in between starts the count again. */
  lemma {:induction false} SuccessRestartsCount(s: State, before: nat, after: nat)
    ensures Run(s, Failures(before) + [Success] + Failures(after)) == Run(Initial, Failures(after))
  {
    RunConcat(s, Failures(before), [Success] + Failures(after));
    var mid := Run(s, Failures(before));
    assert Run(mid, [Success] + Failures(after)) == Run(Initial, Failures(after)) by {
      assert ([Success] + Failures(after))[1..] == Failures(after);
    }
    assert Failures(before) + [Success] + Failures(after) ==
           Failures(before) + ([Success] + Failures(after));
  }

  /** Running two sequences is running the first, then the second. */
  lemma {:induction false} RunConcat(s: State, xs: seq<Event>, ys: seq<Event>)
    ensures Run(s, xs + ys) == Run(Run(s, xs), ys)
    decreases |xs|
  {
    if xs != [] {
      assert (xs + ys)[0] == xs[0] && (xs + ys)[1..] == xs[1..] + ys;
      RunConcat(Step(s, xs[0]), xs[1..], ys);
    } else {
      assert xs + ys == ys;
    }
  }

  /** The store object. */
  class Store {
    var showMaintenance: bool
    var consecutiveFailures: nat

    function Current(): State
      reads this
    {
      State(showMaintenance, consecutiveFailures)
    }

    constructor()
      ensures Current() == Initial
    {
      showMaintenance := false;
      consecutiveFailures := 0;
    }

    method SetMaintenance(value: bool)
      modifies this
      ensures Current() == Step(old(Current()), Set(value))
      ensures showMaintenance == value && (!value ==> consecutiveFailures == 0)
    {
      showMaintenance := value;
      if !value {
        consecutiveFailures := 0;
      }
    }

    method ReportBackendFailure()
      modifies this
      ensures Current() == Step(old(Current()), Failure)
      ensures consecutiveFailures == old(consecutiveFailures) + 1
      ensures showMaintenance <==> old(showMaintenance) || consecutiveFailures >= FailureThreshold
    {
      consecutiveFailures := consecutiveFailures + 1;
      if consecutiveFailures >= FailureThreshold {
        showMaintenance := true;
      }
    }

    method ReportBackendSuccess()
      modifies this
      ensures Current() == Step(old(Current()), Success) == Initial
    {
      consecutiveFailures := 0;
      showMaintenance := false;
    }

    method ForceMaintenance()
      modifies this
      ensures Current() == Step(old(Current()), Force)
      ensures showMaintenance && consecutiveFailures == FailureThreshold
    {
      consecutiveFailures := FailureThreshold;
      showMaintenance := true;
    }
  }
}
