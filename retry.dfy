/**
 * The retry policy that all four variants configure with `WaitAndRetryAsync`.
 *
 * One logical call runs an operation; the policy's handling predicates classify
 * the outcome. An outcome that is not handled is returned (or rethrown) at once.
 * A handled outcome is returned (or its handled exception rethrown) once the
 * retries are used up; otherwise the retry counter is incremented, the sleep
 * duration provider is called with the retry number, the on-retry hook is called
 * with the handled outcome, the wait, and the retry number, the call sleeps for
 * the wait and the operation runs again.
 *
 * The state `S` carries whatever the hooks change (a rebuilt client, a new
 * channel, a log); the operation reads it and also receives the attempt index,
 * so that the environment (the network, the clock) may differ from one attempt
 * to the next.
 */
module Retry {
  import opened Wrappers
  import opened Grpc

  /**
   * What the handling predicates decide about one outcome: whether it is handled,
   * and the outcome the policy gives back if it stops here (for an exception matched
   * as an inner exception, that inner exception).
   */
  datatype Verdict<T> = Verdict(handled: bool, outcome: Outcome<T>)

  /**
   * A configured policy. `origin` is the retry number the library passes for the
   * first retry (Polly counts from 1); the k-th retry, counting from 0, gets
   * `origin + k`. The sleep duration provider may change the state; the on-retry
   * hook may change it or raise an exception, which ends the call.
   */
  datatype Policy<!S, !T> = Policy(
    classify: Outcome<T> -> Verdict<T>,
    retryCount: nat,
    origin: nat,
    sleepDuration: (S, int) -> (S, int),
    onRetry: (S, Outcome<T>, int, int) -> Result<S, Exception>)

  /**
   * The record of one logical call: the state each attempt ran in, each attempt's
   * outcome, the waits slept between attempts, what the caller gets, and the state
   * the hooks left behind.
   */
  datatype Trace<S, T> = Trace(
    states: seq<S>,
    outcomes: seq<Outcome<T>>,
    waits: seq<int>,
    result: Outcome<T>,
    final: S)

  /** The trace of `t` with one more attempt in front of it. */
  function Prepend<S, T>(s: S, o: Outcome<T>, w: int, t: Trace<S, T>): Trace<S, T> {
    Trace([s] + t.states, [o] + t.outcomes, [w] + t.waits, t.result, t.final)
  }

  /**
   * The wait each variant's duration provider computes: `3 + n` seconds for retry number `n`.
   * The ensures only unfolds the body for the provers; the claims about the waits are
   * `BackoffStrictlyIncreasing` and `RunWaits`.
   */
  function Backoff(n: int): (w: int)
    ensures w - 3 == n
  {
    3 + n
  }

  lemma BackoffStrictlyIncreasing(m: int, n: int)
    requires m < n
    ensures Backoff(m) < Backoff(n)
  {
  }

  /** What the policy does after an attempt: stop with what the caller gets, or wait and go on in a new state. */
  datatype Step<S, T> = Stop(result: Outcome<T>, final: S) | Next(wait: int, state: S)

  /**
   * The decision after the attempt with index `tries` had outcome `o` in state `s`:
   * an outcome that is not handled, or one left when the retries are used up, stops
   * the call; otherwise the sleep duration provider and then the on-retry hook run
   * with retry number `origin + tries`, and a hook that raises stops the call with
   * its exception.
   */
  function Decide<S, T>(p: Policy<S, T>, s: S, o: Outcome<T>, tries: nat): (st: Step<S, T>)
    ensures st.Next? ==> p.classify(o).handled && tries < p.retryCount
    ensures !p.classify(o).handled || tries >= p.retryCount ==> st == Stop(p.classify(o).outcome, s)
    ensures p.classify(o).handled && tries < p.retryCount ==>
      var n := p.origin + tries;
      var sw := p.sleepDuration(s, n);
      var h := p.onRetry(sw.0, p.classify(o).outcome, sw.1, n);
      && (h.Success? ==> st == Next(sw.1, h.value))
      && (h.Failure? ==> st == Stop(Thrown(h.error), sw.0))
  {
    var v := p.classify(o);
    if !v.handled || tries >= p.retryCount then Stop(v.outcome, s)
    else
      var n := p.origin + tries;
      var sw := p.sleepDuration(s, n);
      match p.onRetry(sw.0, v.outcome, sw.1, n)
      case Failure(e) => Stop(Thrown(e), sw.0)
      case Success(s2) => Next(sw.1, s2)
  }

  /**
   * The specification of one logical call, from the attempt with index `tries`
   * (the number of retries already made) in state `s`.
   */
  function Run<S, T>(p: Policy<S, T>, op: (S, nat) -> Outcome<T>, s: S, tries: nat): (t: Trace<S, T>)
    requires tries <= p.retryCount
    ensures 1 <= |t.outcomes| <= p.retryCount - tries + 1
    ensures |t.states| == |t.outcomes| == |t.waits| + 1
    ensures t.states[0] == s && t.outcomes[0] == op(s, tries)
    decreases p.retryCount - tries
  {
    var o := op(s, tries);
    match Decide(p, s, o, tries)
    case Stop(r, f) => Trace([s], [o], [], r, f)
    case Next(w, s2) => Prepend(s, o, w, Run(p, op, s2, tries + 1))
  }

  /** The trace `t` with the attempts already made in front of it. */
  function After<S, T>(states: seq<S>, outcomes: seq<Outcome<T>>, waits: seq<int>, t: Trace<S, T>): Trace<S, T> {
    Trace(states + t.states, outcomes + t.outcomes, waits + t.waits, t.result, t.final)
  }

  lemma AfterPrepend<S, T>(states: seq<S>, outcomes: seq<Outcome<T>>, waits: seq<int>, s: S, o: Outcome<T>, w: int, t: Trace<S, T>)
    ensures After(states, outcomes, waits, Prepend(s, o, w, t)) == After(states + [s], outcomes + [o], waits + [w], t)
  {
  }

  /** A call that goes on after the attempt in state `s` is that attempt followed by the call from the next state. */
  lemma RunNext<S, T>(p: Policy<S, T>, op: (S, nat) -> Outcome<T>, s: S, tries: nat, w: int, s2: S)
    requires tries <= p.retryCount && Decide(p, s, op(s, tries), tries) == Next(w, s2)
    ensures tries + 1 <= p.retryCount
    ensures Run(p, op, s, tries) == Prepend(s, op(s, tries), w, Run(p, op, s2, tries + 1))
  {
  }

  /** A call that goes on after the attempt in state `s`: that attempt joins the ones already made. */
  lemma AfterNext<S, T>(p: Policy<S, T>, op: (S, nat) -> Outcome<T>, s: S, tries: nat,
                        states: seq<S>, outcomes: seq<Outcome<T>>, waits: seq<int>, w: int, s2: S)
    requires tries <= p.retryCount && Decide(p, s, op(s, tries), tries) == Next(w, s2)
    ensures tries + 1 <= p.retryCount
    ensures After(states, outcomes, waits, Run(p, op, s, tries))
         == After(states + [s], outcomes + [op(s, tries)], waits + [w], Run(p, op, s2, tries + 1))
  {
    AfterPrepend(states, outcomes, waits, s, op(s, tries), w, Run(p, op, s2, tries + 1));
  }

  /** A call that stops after the attempt in state `s`: the trace ends with that attempt. */
  lemma AfterStop<S, T>(p: Policy<S, T>, op: (S, nat) -> Outcome<T>, s: S, tries: nat,
                        states: seq<S>, outcomes: seq<Outcome<T>>, waits: seq<int>, r: Outcome<T>, f: S)
    requires tries <= p.retryCount && Decide(p, s, op(s, tries), tries) == Stop(r, f)
    ensures After(states, outcomes, waits, Run(p, op, s, tries)) == Trace(states + [s], outcomes + [op(s, tries)], waits, r, f)
  {
  }

  /** Runs a logical call under policy `p`, starting in state `s0`. */
  method Execute<S, T>(p: Policy<S, T>, op: (S, nat) -> Outcome<T>, s0: S) returns (t: Trace<S, T>)
    ensures t == Run(p, op, s0, 0)
  {
    var s, tries := s0, 0;
    var states, outcomes, waits := [], [], [];
    assert After(states, outcomes, waits, Run(p, op, s0, 0)) == Run(p, op, s0, 0);
    while true
      invariant tries <= p.retryCount
      invariant Run(p, op, s0, 0) == After(states, outcomes, waits, Run(p, op, s, tries))
      decreases p.retryCount - tries
    {
      var o := op(s, tries);
      var step := Decide(p, s, o, tries);
      if step.Stop? {
        AfterStop(p, op, s, tries, states, outcomes, waits, step.result, step.final);
        return Trace(states + [s], outcomes + [o], waits, step.result, step.final);
      }
      AfterNext(p, op, s, tries, states, outcomes, waits, step.wait, step.state);
      states, outcomes, waits := states + [s], outcomes + [o], waits + [step.wait];
      s, tries := step.state, tries + 1;
    }
  }

  /** Every attempt ran the operation in the state recorded for it. */
  lemma {:induction false} RunOutcomes<S, T>(p: Policy<S, T>, op: (S, nat) -> Outcome<T>, s: S, tries: nat)
    requires tries <= p.retryCount
    ensures forall i :: 0 <= i < |Run(p, op, s, tries).outcomes| ==>
      Run(p, op, s, tries).outcomes[i] == op(Run(p, op, s, tries).states[i], tries + i)
    decreases p.retryCount - tries
  {
    var step := Decide(p, s, op(s, tries), tries);
    if step.Next? {
      RunOutcomes(p, op, step.state, tries + 1);
      var t, r := Run(p, op, s, tries), Run(p, op, step.state, tries + 1);
      assert t == Prepend(s, op(s, tries), step.wait, r);
      forall i | 0 < i < |t.outcomes|
        ensures t.outcomes[i] == op(t.states[i], tries + i)
      {
        assert t.outcomes[i] == r.outcomes[i - 1] && t.states[i] == r.states[i - 1];
      }
    }
  }

  /**
   * How the trace `t` of a call from the attempt with index `tries` ends, as far as
   * the handling predicates decide it: every attempt but the last ended in a handled
   * outcome, and a call that stops at an unhandled outcome or with the retries used
   * up gives the caller the last outcome as the policy saw it and leaves the last
   * attempt's state.
   */
  ghost predicate StopsAsClassified<S, T>(p: Policy<S, T>, t: Trace<S, T>, tries: nat)
    requires 1 <= |t.outcomes| == |t.states|
  {
    var last := |t.outcomes| - 1;
    var v := p.classify(t.outcomes[last]);
    && (forall i :: 0 <= i < last ==> p.classify(t.outcomes[i]).handled)
    && (!v.handled || tries + last >= p.retryCount ==> t.result == v.outcome && t.final == t.states[last])
  }

  /**
   * How the trace `t` of a call from the attempt with index `tries` ends, whatever
   * the hooks do: it stops as the handling predicates decide (`StopsAsClassified`);
   * after every attempt but the last the wait is the one the sleep duration provider
   * computed and the on-retry hook returned the state the next attempt ran in; and a
   * call that stops with retries left stopped because the on-retry hook raised for
   * the last attempt: the caller gets the hook's exception.
   */
  ghost predicate EndsAsPolicySays<S, T>(p: Policy<S, T>, t: Trace<S, T>, tries: nat)
    requires 1 <= |t.outcomes| == |t.states| == |t.waits| + 1
  {
    var last := |t.outcomes| - 1;
    var v := p.classify(t.outcomes[last]);
    var n := p.origin + tries + last;
    var sw := p.sleepDuration(t.states[last], n);
    && StopsAsClassified(p, t, tries)
    && (forall i :: 0 <= i < last ==> RetriedAs(p, t.states[i], t.outcomes[i], tries + i, t.waits[i], t.states[i + 1]))
    && (v.handled && tries + last < p.retryCount ==>
          p.onRetry(sw.0, v.outcome, sw.1, n).Failure?
          && t.result == Thrown(p.onRetry(sw.0, v.outcome, sw.1, n).error)
          && t.final == sw.0)
  }

  /**
   * After the attempt with index `tries` in state `s` with outcome `o`, the sleep
   * duration provider computed the wait `w` and the on-retry hook succeeded with
   * the state `s2`.
   */
  ghost predicate RetriedAs<S, T>(p: Policy<S, T>, s: S, o: Outcome<T>, tries: nat, w: int, s2: S) {
    var n := p.origin + tries;
    var sw := p.sleepDuration(s, n);
    w == sw.1 && p.onRetry(sw.0, p.classify(o).outcome, sw.1, n) == Success(s2)
  }

  /** A retried attempt in front of a trace that ends as the policy says gives a trace that ends as the policy says. */
  lemma PrependEnds<S, T>(p: Policy<S, T>, s: S, o: Outcome<T>, tries: nat, w: int, r: Trace<S, T>)
    requires 1 <= |r.outcomes| == |r.states| == |r.waits| + 1
    requires p.classify(o).handled && RetriedAs(p, s, o, tries, w, r.states[0])
    requires EndsAsPolicySays(p, r, tries + 1)
    ensures EndsAsPolicySays(p, Prepend(s, o, w, r), tries)
  {
    var t := Prepend(s, o, w, r);
    var last := |t.outcomes| - 1;
    assert t.outcomes[last] == r.outcomes[last - 1] && t.states[last] == r.states[last - 1];
    forall i | 0 < i < last
      ensures p.classify(t.outcomes[i]).handled
      ensures RetriedAs(p, t.states[i], t.outcomes[i], tries + i, t.waits[i], t.states[i + 1])
    {
      assert t.outcomes[i] == r.outcomes[i - 1] && t.states[i] == r.states[i - 1];
      assert t.waits[i] == r.waits[i - 1] && t.states[i + 1] == r.states[i];
      assert RetriedAs(p, r.states[i - 1], r.outcomes[i - 1], tries + 1 + (i - 1), r.waits[i - 1], r.states[i]);
    }
    assert t.states[1] == r.states[0] && t.waits[0] == w && t.outcomes[0] == o && t.states[0] == s;
  }

  /** Every call ends as `EndsAsPolicySays` describes. */
  lemma {:induction false} RunEnds<S, T>(p: Policy<S, T>, op: (S, nat) -> Outcome<T>, s: S, tries: nat)
    requires tries <= p.retryCount
    ensures EndsAsPolicySays(p, Run(p, op, s, tries), tries)
    decreases p.retryCount - tries
  {
    var o := op(s, tries);
    var step := Decide(p, s, o, tries);
    if step.Next? {
      RunEnds(p, op, step.state, tries + 1);
      RunNext(p, op, s, tries, step.wait, step.state);
      assert RetriedAs(p, s, o, tries, step.wait, step.state);
      PrependEnds(p, s, o, tries, step.wait, Run(p, op, step.state, tries + 1));
    }
  }

  /** Every call stops as the handling predicates decide. */
  lemma RunStopsAsClassified<S, T>(p: Policy<S, T>, op: (S, nat) -> Outcome<T>, s: S, tries: nat)
    requires tries <= p.retryCount
    ensures StopsAsClassified(p, Run(p, op, s, tries), tries)
  {
    RunEnds(p, op, s, tries);
  }

  /**
   * When the on-retry hook cannot raise: every attempt but the last ended in a
   * handled outcome, the call stops exactly when an outcome is not handled or the
   * retries are used up, and the caller gets the last attempt's outcome as the
   * policy saw it, and the state left behind is the one the last attempt ran in.
   */
  lemma RunStops<S(!new), T(!new)>(p: Policy<S, T>, op: (S, nat) -> Outcome<T>, s: S, tries: nat)
    requires tries <= p.retryCount
    requires forall s': S, o: Outcome<T>, w: int, n: int :: p.onRetry(s', o, w, n).Success?
    ensures var t := Run(p, op, s, tries);
      var last := p.classify(t.outcomes[|t.outcomes| - 1]);
      && (forall i :: 0 <= i < |t.outcomes| - 1 ==> p.classify(t.outcomes[i]).handled)
      && (!last.handled || |t.outcomes| == p.retryCount - tries + 1)
      && t.result == last.outcome
      && t.final == t.states[|t.states| - 1]
  {
    RunEnds(p, op, s, tries);
    var t := Run(p, op, s, tries);
    var last := |t.outcomes| - 1;
    var n := p.origin + tries + last;
    var sw := p.sleepDuration(t.states[last], n);
    var s1, o1, w1 := sw.0, p.classify(t.outcomes[last]).outcome, sw.1;
    assert p.onRetry(s1, o1, w1, n).Success?;
  }

  /** `next` applied `k` times to `s`. */
  function Iterate<S>(next: S -> S, s: S, k: nat): S
    decreases k
  {
    if k == 0 then s else Iterate(next, next(s), k - 1)
  }

  /**
   * When every retry moves the state by the same `next` (whatever the outcome and
   * the retry number) and the hook cannot raise, the attempt with index k runs in
   * `next` applied k times, and the call leaves behind the state of its last attempt.
   */
  lemma {:induction false} RunStates<S(!new), T(!new)>(p: Policy<S, T>, op: (S, nat) -> Outcome<T>, s: S, tries: nat, next: S -> S)
    requires tries <= p.retryCount
    requires forall s': S, o: Outcome<T>, n: int ::
      p.onRetry(p.sleepDuration(s', n).0, o, p.sleepDuration(s', n).1, n) == Success(next(s'))
    ensures forall k :: 0 <= k < |Run(p, op, s, tries).states| ==> Run(p, op, s, tries).states[k] == Iterate(next, s, k)
    ensures Run(p, op, s, tries).final == Run(p, op, s, tries).states[|Run(p, op, s, tries).states| - 1]
    decreases p.retryCount - tries
  {
    var o := op(s, tries);
    var step := Decide(p, s, o, tries);
    var t := Run(p, op, s, tries);
    if p.classify(o).handled && tries < p.retryCount {
      var n := p.origin + tries;
      assert p.onRetry(p.sleepDuration(s, n).0, p.classify(o).outcome, p.sleepDuration(s, n).1, n) == Success(next(s));
      assert step == Next(p.sleepDuration(s, n).1, next(s));
      RunNext(p, op, s, tries, step.wait, step.state);
      RunStates(p, op, next(s), tries + 1, next);
      var r := Run(p, op, next(s), tries + 1);
      forall k | 0 < k < |t.states| ensures t.states[k] == Iterate(next, s, k) {
        assert t.states[k] == r.states[k - 1];
      }
    }
  }

  /** An outcome the policy does not handle ends the call after that one attempt. */
  lemma ShortCircuit<S, T>(p: Policy<S, T>, op: (S, nat) -> Outcome<T>, s: S, tries: nat)
    requires tries <= p.retryCount
    requires !p.classify(op(s, tries)).handled
    ensures var t := Run(p, op, s, tries);
      |t.outcomes| == 1 && t.waits == [] && t.final == s && t.result == p.classify(op(s, tries)).outcome
  {
  }

  /**
   * When every attempt's outcome is handled and the hook cannot raise, the call
   * makes exactly `retryCount + 1` attempts (counting from `tries`).
   */
  lemma {:induction false} RunExhausts<S(!new), T(!new)>(p: Policy<S, T>, op: (S, nat) -> Outcome<T>, s: S, tries: nat)
    requires tries <= p.retryCount
    requires forall s': S, o: Outcome<T>, w: int, n: int :: p.onRetry(s', o, w, n).Success?
    requires forall s': S, i: nat :: p.classify(op(s', i)).handled
    ensures |Run(p, op, s, tries).outcomes| == p.retryCount - tries + 1
  {
    RunStops(p, op, s, tries);
    RunOutcomes(p, op, s, tries);
  }

  /**
   * When the sleep duration provider computes `Backoff`, the wait before the k-th
   * retry (counting from 0) is `3 + origin + k` seconds, the waits strictly
   * increase, and their sum is that of the first `|waits|` such values.
   */
  lemma {:induction false} RunWaits<S(!new), T>(p: Policy<S, T>, op: (S, nat) -> Outcome<T>, s: S, tries: nat)
    requires tries <= p.retryCount
    requires forall s': S, n: int :: p.sleepDuration(s', n).1 == Backoff(n)
    ensures forall k :: 0 <= k < |Run(p, op, s, tries).waits| ==>
      Run(p, op, s, tries).waits[k] == 3 + p.origin + tries + k
    decreases p.retryCount - tries
  {
    var step := Decide(p, s, op(s, tries), tries);
    if step.Next? {
      assert step.wait == Backoff(p.origin + tries);
      RunWaits(p, op, step.state, tries + 1);
      var t, r := Run(p, op, s, tries), Run(p, op, step.state, tries + 1);
      assert t == Prepend(s, op(s, tries), step.wait, r);
      forall k | 0 < k < |t.waits|
        ensures t.waits[k] == 3 + p.origin + tries + k
      {
        assert t.waits[k] == r.waits[k - 1];
      }
    }
  }

  /** The total of `k` consecutive backoff waits starting from retry number `n`. */
  function TotalBackoff(n: int, k: nat): int
    decreases k
  {
    if k == 0 then 0 else Backoff(n) + TotalBackoff(n + 1, k - 1)
  }

  /** Waits that follow `Backoff` add up to `TotalBackoff`. */
  lemma {:induction false} SumOfWaits(waits: seq<int>, n: int)
    requires forall k :: 0 <= k < |waits| ==> waits[k] == 3 + n + k
    ensures Sum(waits) == TotalBackoff(n, |waits|) == |waits| * (3 + n) + |waits| * (|waits| - 1) / 2
  {
    if |waits| > 0 {
      SumOfWaits(waits[1..], n + 1);
    }
  }

  function Sum(s: seq<int>): int {
    if |s| == 0 then 0 else s[0] + Sum(s[1..])
  }
}
