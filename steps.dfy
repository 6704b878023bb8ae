/**
 * Loops that run a step per page load, seen as iterated functions: the
 * state after `n` loads, and the guard each of those loads was made under.
 */
module Steps {

  /** The state after `n` steps of `step` from `s0`; step `k` (0-based) is `step(·, k)`. */
  function Iterate<S>(step: (S, nat) -> S, s0: S, n: nat): S
    decreases n
  {
    if n == 0 then s0 else step(Iterate(step, s0, n - 1), n - 1)
  }

  /** Each of the first `n` steps started from a state whose measure is below `cap`. */
  predicate AllBelow<S>(step: (S, nat) -> S, s0: S, measure: S -> nat, cap: nat, n: nat)
    decreases n
  {
    n == 0 || (AllBelow(step, s0, measure, cap, n - 1) && measure(Iterate(step, s0, n - 1)) < cap)
  }

  lemma {:induction false} AllBelowMeans<S>(step: (S, nat) -> S, s0: S, measure: S -> nat, cap: nat, n: nat)
    requires AllBelow(step, s0, measure, cap, n)
    ensures forall k :: 0 <= k < n ==> measure(Iterate(step, s0, k)) < cap
    decreases n
  {
    if n > 0 {
      AllBelowMeans(step, s0, measure, cap, n - 1);
    }
  }

  /** A property that `s0` has and every step keeps holds after any number of steps. */
  lemma {:induction false} IterateKeeps<S>(step: (S, nat) -> S, s0: S, inv: S -> bool, n: nat)
    requires inv(s0)
    requires forall s, k :: inv(s) ==> inv(step(s, k))
    ensures inv(Iterate(step, s0, n))
    decreases n
  {
    if n > 0 {
      IterateKeeps(step, s0, inv, n - 1);
    }
  }

  /** The response to one page load: a timeout or other failure, or the page's job cards. */
  datatype Load<C> = LoadFailed | Loaded(cards: seq<C>)

  /** A page load that makes the page scraper report failure: it raised or showed no cards. */
  predicate Fails<C>(load: Load<C>) {
    !load.Loaded? || load.cards == []
  }

  /** The response to the `k`-th page load (0-based); failed once the responses run out. */
  function Response<C>(responses: seq<Load<C>>, k: nat): Load<C> {
    if k < |responses| then responses[k] else LoadFailed
  }

  /** The first `n` page loads all succeeded. */
  predicate Served<C>(responses: seq<Load<C>>, n: nat)
    decreases n
  {
    n == 0 || (Served(responses, n - 1) && !Fails(Response(responses, n - 1)))
  }

  lemma {:induction false} ServedLoads<C>(responses: seq<Load<C>>, n: nat)
    requires Served(responses, n)
    ensures forall k :: 0 <= k < n ==> !Fails(Response(responses, k))
    decreases n
  {
    if n > 0 {
      ServedLoads(responses, n - 1);
    }
  }
}
