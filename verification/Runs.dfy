/** Runs of an arbitrary step function, shared by every machine here. */
module Runs {
  import opened Words

  ghost function Run<S(!new)>(step: S -> Option<S>, s: S, n: nat): Option<S>
    decreases n
  {
    if n == 0 then Some(s)
    else match step(s)
      case None => None
      case Some(t) => Run(step, t, n - 1)
  }

  ghost predicate Reaches<S(!new)>(step: S -> Option<S>, s: S, t: S) {
    exists n: nat :: Run(step, s, n) == Some(t)
  }

  lemma {:induction false} RunAppend<S(!new)>(step: S -> Option<S>, s: S, n: nat, t: S, m: nat)
    requires Run(step, s, n) == Some(t)
    ensures Run(step, s, n + m) == Run(step, t, m)
    decreases n
  {
    if n > 0 {
      RunAppend(step, step(s).value, n - 1, t, m);
    }
  }

  lemma ReachesSelf<S(!new)>(step: S -> Option<S>, s: S)
    ensures Reaches(step, s, s)
  {
    assert Run(step, s, 0) == Some(s);
  }

  lemma ReachesThen<S(!new)>(step: S -> Option<S>, s: S, t: S, u: S)
    requires Reaches(step, s, t) && Reaches(step, t, u)
    ensures Reaches(step, s, u)
  {
    var n: nat :| Run(step, s, n) == Some(t);
    var m: nat :| Run(step, t, m) == Some(u);
    RunAppend(step, s, n, t, m);
    assert Run(step, s, n + m) == Some(u);
  }

  lemma ReachesStep<S(!new)>(step: S -> Option<S>, s: S, t: S)
    requires step(s) == Some(t)
    ensures Reaches(step, s, t)
  {
    assert Run(step, t, 0) == Some(t);
    assert Run(step, s, 1) == Some(t);
  }

  // ----- runs on which something holds until their end -----

  /** `good` holds of the first n states. */
  ghost predicate AllGood<S(!new)>(step: S -> Option<S>, good: S -> bool, s: S, n: nat)
    decreases n
  {
    n == 0 || (good(s) && match step(s) case None => true case Some(t) => AllGood(step, good, t, n - 1))
  }

  ghost predicate Via<S(!new)>(step: S -> Option<S>, good: S -> bool, s: S, t: S) {
    exists n: nat :: Run(step, s, n) == Some(t) && AllGood(step, good, s, n)
  }

  lemma {:induction false} GoodAppend<S(!new)>(step: S -> Option<S>, good: S -> bool, s: S, n: nat, t: S, m: nat)
    requires Run(step, s, n) == Some(t) && AllGood(step, good, s, n) && AllGood(step, good, t, m)
    ensures AllGood(step, good, s, n + m)
    decreases n
  {
    if n > 0 {
      GoodAppend(step, good, step(s).value, n - 1, t, m);
    }
  }

  lemma {:induction false} GoodAt<S(!new)>(step: S -> Option<S>, good: S -> bool, s: S, n: nat, k: nat, t: S)
    requires AllGood(step, good, s, n) && k < n && Run(step, s, k) == Some(t)
    ensures good(t)
    decreases k
  {
    if k > 0 {
      GoodAt(step, good, step(s).value, n - 1, k - 1, t);
    }
  }

  lemma ViaSelf<S(!new)>(step: S -> Option<S>, good: S -> bool, s: S)
    ensures Via(step, good, s, s)
  {
    assert Run(step, s, 0) == Some(s) && AllGood(step, good, s, 0);
  }

  lemma ViaStep<S(!new)>(step: S -> Option<S>, good: S -> bool, s: S, t: S)
    requires step(s) == Some(t) && good(s)
    ensures Via(step, good, s, t)
  {
    assert Run(step, t, 0) == Some(t) && AllGood(step, good, t, 0);
    assert Run(step, s, 1) == Some(t) && AllGood(step, good, s, 1);
  }

  lemma ViaThen<S(!new)>(step: S -> Option<S>, good: S -> bool, s: S, t: S, u: S)
    requires Via(step, good, s, t) && Via(step, good, t, u)
    ensures Via(step, good, s, u)
  {
    var n: nat :| Run(step, s, n) == Some(t) && AllGood(step, good, s, n);
    var m: nat :| Run(step, t, m) == Some(u) && AllGood(step, good, t, m);
    RunAppend(step, s, n, t, m);
    GoodAppend(step, good, s, n, t, m);
    assert Run(step, s, n + m) == Some(u) && AllGood(step, good, s, n + m);
  }

  /** A run on which more holds. */
  lemma {:induction false} GoodWeakens<S(!new)>(step: S -> Option<S>, good: S -> bool, better: S -> bool, s: S, n: nat)
    requires AllGood(step, better, s, n) && forall u :: better(u) ==> good(u)
    ensures AllGood(step, good, s, n)
    decreases n
  {
    if n > 0 && step(s).Some? {
      GoodWeakens(step, good, better, step(s).value, n - 1);
    }
  }
}
