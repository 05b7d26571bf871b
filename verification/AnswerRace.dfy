/**
 * Concurrent answers at a gateway's in-flight limit. An answer is compared with the time of the last one before
 * it takes the lock, and takes effect under the lock without being compared again.
 */
module AnswerRace {
  import opened MaxInflight

  /** passed are the answers that were found to be new and have not taken effect yet. */
  datatype Wrapper = Wrapper(s: State, passed: map<nat, Reply>)

  datatype Step =
    | Compare(t: nat, r: Reply)
    | Effect(t: nat, fallback: int)

  /** Error-free answers carry the time of their request. */
  predicate Enabled(w: Wrapper, step: Step) {
    match step
    case Compare(t, r) => t !in w.passed && (ErrorFree(r) ==> r.requestTime > 0)
    case Effect(t, _) => t in w.passed
  }

  function Apply(w: Wrapper, step: Step): Wrapper
    requires Enabled(w, step)
  {
    match step
    case Compare(t, r) => if TooLate(w.s, r) then w else w.(passed := w.passed[t := r])
    case Effect(t, fallback) => Wrapper(Take(w.s, w.passed[t], fallback), w.passed - {t})
  }

  /** An answer that nothing interrupts has the effect it has without concurrency. */
  lemma UninterruptedIsSetLimit(w: Wrapper, t: nat, r: Reply, fallback: int)
    requires Enabled(w, Compare(t, r))
    ensures var w' := Apply(w, Compare(t, r));
            if TooLate(w.s, r) then w'.s == SetLimit(w.s, r, fallback)
            else Enabled(w', Effect(t, fallback)) &&
                 Apply(w', Effect(t, fallback)) == Wrapper(SetLimit(w.s, r, fallback), w.passed)
  {
    if !TooLate(w.s, r) {
      assert w.passed[t := r] - {t} == w.passed;
    }
  }

  /** The step lets an error-free answer take effect that is older than the last one. */
  predicate Regresses(w: Wrapper, step: Step)
    requires Enabled(w, step)
  {
    step.Effect? && ErrorFree(w.passed[step.t]) && w.passed[step.t].requestTime < w.s.lastAcquireTime
  }

  lemma StepMovesForwardIff(w: Wrapper, step: Step)
    requires Enabled(w, step)
    ensures w.s.lastAcquireTime <= Apply(w, step).s.lastAcquireTime <==> !Regresses(w, step)
  {
  }

  ghost predicate Run(states: seq<Wrapper>, steps: seq<Step>) {
    && |states| == |steps| + 1
    && forall i :: 0 <= i < |steps| ==> Enabled(states[i], steps[i]) && states[i + 1] == Apply(states[i], steps[i])
  }

  /** Answers take effect in the order of their requests exactly when no step regresses. */
  lemma TimeMovesForwardIff(states: seq<Wrapper>, steps: seq<Step>, k: nat)
    requires Run(states, steps) && k <= |steps|
    ensures (forall i, j :: 0 <= i <= j <= k ==> states[i].s.lastAcquireTime <= states[j].s.lastAcquireTime) <==>
            (forall j :: 0 <= j < k ==> !Regresses(states[j], steps[j]))
  {
    if forall j :: 0 <= j < k ==> !Regresses(states[j], steps[j]) {
      for m := 0 to k
        invariant forall i, j :: 0 <= i <= j <= m ==> states[i].s.lastAcquireTime <= states[j].s.lastAcquireTime
      {
        assert !Regresses(states[m], steps[m]);
        StepMovesForwardIff(states[m], steps[m]);
      }
    }
    if forall i, j :: 0 <= i <= j <= k ==> states[i].s.lastAcquireTime <= states[j].s.lastAcquireTime {
      forall j | 0 <= j < k ensures !Regresses(states[j], steps[j]) {
        assert states[j].s.lastAcquireTime <= states[j + 1].s.lastAcquireTime;
        StepMovesForwardIff(states[j], steps[j]);
      }
    }
  }

  /** An error-free answer takes effect. */
  predicate Takes(w: Wrapper, step: Step)
    requires Enabled(w, step)
  {
    step.Effect? && ErrorFree(w.passed[step.t])
  }

  /** An answer regresses only if another one took effect after it was compared. */
  lemma OnlyOvertakenRegress(states: seq<Wrapper>, steps: seq<Step>, i: nat, j: nat)
    requires Run(states, steps) && i < j < |steps| && steps[i].Compare? && steps[j].Effect? && steps[j].t == steps[i].t
    requires !TooLate(states[i].s, steps[i].r) && forall m :: i < m < j ==> !Takes(states[m], steps[m])
    requires forall m :: i < m < j && steps[m].Effect? ==> steps[m].t != steps[i].t
    ensures !Regresses(states[j], steps[j])
  {
    var t, r := steps[i].t, steps[i].r;
    for m := i + 1 to j
      invariant t in states[m].passed && states[m].passed[t] == r
      invariant states[m].s.lastAcquireTime == states[i].s.lastAcquireTime
    {
      assert !Takes(states[m], steps[m]);
    }
  }

  /** In a run that does not regress, the wrapper ends with the answer to the latest request that took effect. */
  lemma NewestTakenIsRemembered(states: seq<Wrapper>, steps: seq<Step>, w: nat, k: nat)
    requires Run(states, steps) && w < k <= |steps| && Takes(states[w], steps[w])
    requires forall j :: 0 <= j < k ==> !Regresses(states[j], steps[j])
    requires forall j :: w < j < k && Takes(states[j], steps[j]) ==>
               states[j].passed[steps[j].t].requestTime < states[w].passed[steps[w].t].requestTime
    ensures Remembers(states[k].s, states[w].s, states[w].passed[steps[w].t])
  {
    var r := states[w].passed[steps[w].t];
    for j := w + 1 to k
      invariant Remembers(states[j].s, states[w].s, r)
    {
      assert !Regresses(states[j], steps[j]);
      assert !Takes(states[j], steps[j]);
    }
  }

  /** Two answers are both found to be new, and the older one takes effect last: it is the one that counts. */
  lemma OlderAnswerWins(w0: Wrapper, older: Reply, newer: Reply, fallback: int)
    returns (w1: Wrapper, w2: Wrapper, w3: Wrapper)
    requires w0.passed == map[] && ErrorFree(older) && ErrorFree(newer)
    requires 0 <= w0.s.lastAcquireTime < older.requestTime < newer.requestTime
    ensures Enabled(w0, Compare(1, older)) && Enabled(Apply(w0, Compare(1, older)), Compare(2, newer))
    ensures w1 == Apply(Apply(w0, Compare(1, older)), Compare(2, newer))
    ensures Enabled(w1, Effect(2, fallback)) && w2 == Apply(w1, Effect(2, fallback))
    ensures Enabled(w2, Effect(1, fallback)) && w3 == Apply(w2, Effect(1, fallback))
    ensures Regresses(w2, Effect(1, fallback)) && Remembers(w3.s, w0.s, older) && w3.passed == map[]
  {
    w1 := Apply(Apply(w0, Compare(1, older)), Compare(2, newer));
    w2 := Apply(w1, Effect(2, fallback));
    w3 := Apply(w2, Effect(1, fallback));
  }
}
