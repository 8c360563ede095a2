/**
 * Loops over the iterations 0 .. n-1 of a pass, as functions of the iteration: a run threads a
 * state through a step that may fail, a collection concatenates the outputs of every iteration.
 */
module Folds {
  import opened Wrappers

  /** `step` applied to iterations 0 .. n-1 in turn, starting from `init`; the first failure ends the run. */
  function Run<D(!new), E>(n: nat, init: D, step: (nat, D) --> Result<D, E>): Result<D, E>
    requires forall i: nat, d: D :: i < n ==> step.requires(i, d)
  {
    if n == 0 then Success(init)
    else
      var d :- Run(n - 1, init, step);
      step(n - 1, d)
  }

  /** The outputs of iterations 0 .. n-1 concatenated in order; the first failure ends the collection. */
  function Collect<P, E>(n: nat, out: nat --> Result<seq<P>, E>): Result<seq<P>, E>
    requires forall i: nat :: i < n ==> out.requires(i)
  {
    if n == 0 then Success([])
    else
      var ps :- Collect(n - 1, out);
      var p :- out(n - 1);
      Success(ps + p)
  }

  /** Iteration `n` continues from the state the first `n` iterations left. */
  lemma RunNext<D(!new), E>(n: nat, init: D, step: (nat, D) --> Result<D, E>, d: D)
    requires forall i: nat, d: D :: i <= n ==> step.requires(i, d)
    requires Run(n, init, step) == Success(d)
    ensures Run(n + 1, init, step) == step(n, d)
  {
  }

  /** A failed run stays failed with the same error, whatever iterations follow. */
  lemma {:induction false} RunFailure<D(!new), E>(n: nat, m: nat, init: D, step: (nat, D) --> Result<D, E>)
    requires n <= m && forall i: nat, d: D :: i < m ==> step.requires(i, d)
    requires Run(n, init, step).Failure?
    ensures Run(m, init, step) == Run(n, init, step)
    decreases m
  {
    if m > n {
      RunFailure(n, m - 1, init, step);
      var prev := Run(m - 1, init, step);
      assert prev == Failure(prev.error);
    }
  }

  /** A successful collection is the collection of one iteration fewer, then that iteration's output. */
  lemma CollectLast<P, E>(n: nat, out: nat --> Result<seq<P>, E>)
    requires 0 < n && forall i: nat :: i < n ==> out.requires(i)
    requires Collect(n, out).Success?
    ensures Collect(n - 1, out).Success? && out(n - 1).Success?
    ensures Collect(n, out).value == Collect(n - 1, out).value + out(n - 1).value
  {
  }

  /**
   * A run whose state is a summary `abs` of the outputs collected so far: when every step takes
   * the summary of `ps` to the summary of `ps` followed by the iteration's output, failing exactly
   * when that output fails, the whole run ends in the summary of the whole collection.
   */
  lemma {:induction false} RunCollect<D(!new), P(!new), E>(n: nat, init: D, step: (nat, D) --> Result<D, E>,
                                               out: nat --> Result<seq<P>, E>, abs: seq<P> -> D)
    requires forall i: nat, d: D :: i < n ==> step.requires(i, d)
    requires forall i: nat :: i < n ==> out.requires(i)
    requires init == abs([])
    requires forall i: nat, ps: seq<P> :: i < n ==>
               step(i, abs(ps)) == if out(i).Success? then Success(abs(ps + out(i).value)) else Failure(out(i).error)
    ensures Run(n, init, step) ==
              if Collect(n, out).Success? then Success(abs(Collect(n, out).value)) else Failure(Collect(n, out).error)
    decreases n
  {
    if n > 0 {
      RunCollect(n - 1, init, step, out, abs);
      var prev := Collect(n - 1, out);
      if prev.Success? {
        assert Run(n, init, step) == step(n - 1, abs(prev.value));
      } else {
        assert Run(n - 1, init, step) == Failure(prev.error);
      }
    }
  }

  /** Every collected element satisfies `ok` when every iteration's output does. */
  lemma {:induction false} CollectAll<P, E>(n: nat, out: nat --> Result<seq<P>, E>, ok: P -> bool)
    requires forall i: nat :: i < n ==> out.requires(i)
    requires forall i: nat :: i < n && out(i).Success? ==> forall p :: p in out(i).value ==> ok(p)
    ensures Collect(n, out).Success? ==> forall p :: p in Collect(n, out).value ==> ok(p)
    decreases n
  {
    if n > 0 && Collect(n, out).Success? {
      CollectAll(n - 1, out, ok);
      CollectLast(n, out);
    }
  }
}
