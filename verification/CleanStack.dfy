/** The stack of clean-up jobs that every action defers. A job is a function of the
    state it cleans, giving the new state and whether it failed. */
module CleanStacks {
  import opened Basics

  datatype Kind = ErrorOnly | SuccessOnly | Always

  datatype Job<!S> = Job(run: S -> (S, bool), kind: Kind)

  /** Whether a job popped while the accumulated error is `err` is run. */
  predicate Runs(kind: Kind, err: bool)
  {
    match kind
    case ErrorOnly => err
    case SuccessOnly => !err
    case Always => true
  }

  /** State and accumulated error after popping one job. */
  function Pop1<S>(job: Job<S>, at: (S, bool)): (S, bool)
  {
    if Runs(job.kind, at.1) then
      var (s', failed) := job.run(at.0);
      (s', at.1 || failed)
    else at
  }

  /** State and error after the whole stack has been popped, top (last pushed) first. */
  function RunJobs<S>(jobs: seq<Job<S>>, s: S, err: bool): (S, bool)
  {
    if jobs == [] then (s, err)
    else
      var (s', err') := Pop1(jobs[|jobs| - 1], (s, err));
      RunJobs(jobs[..|jobs| - 1], s', err')
  }

  class CleanStack<S> {
    var jobs: seq<Job<S>>
    var count: nat

    ghost predicate Valid()
      reads this
    {
      count <= |jobs|
    }

    /** The jobs still to be run; entries of `jobs` above `count` are leftovers. */
    ghost function Live(): seq<Job<S>>
      requires Valid()
      reads this
    {
      jobs[..count]
    }

    constructor ()
      ensures Valid() && Live() == []
    {
      jobs, count := [], 0;
    }

    method Push(job: Job<S>)
      requires Valid()
      modifies this
      ensures Valid() && Live() == old(Live()) + [job]
    {
      jobs := jobs[..count] + [job];
      count := count + 1;
    }

    /** The top job; none, and no change, if the stack is empty. */
    method Pop() returns (job: Option<Job<S>>)
      requires Valid()
      modifies this
      ensures Valid() && (job.None? <==> old(Live()) == [])
      ensures job.None? ==> Live() == []
      ensures job.Some? ==> old(Live()) == Live() + [job.value]
    {
      if count == 0 { return None; }
      count := count - 1;
      return Some(jobs[count]);
    }

    method Cleanup(s: S, err: bool) returns (s': S, errs: bool)
      requires Valid()
      modifies this
      ensures Valid() && Live() == []
      ensures (s', errs) == RunJobs(old(Live()), s, err)
    {
      s', errs := s, err;
      while count > 0
        invariant Valid()
        invariant RunJobs(Live(), s', errs) == RunJobs(old(Live()), s, err)
        decreases count
      {
        var popped := Pop();
        var job := popped.value;
        RunTop(Live(), job, s', errs);
        var failed := false;
        match job.kind {
          case SuccessOnly =>
            if !errs { var r := job.run(s'); s', failed := r.0, r.1; }
          case ErrorOnly =>
            if errs { var r := job.run(s'); s', failed := r.0, r.1; }
          case Always =>
            var r := job.run(s'); s', failed := r.0, r.1;
        }
        errs := errs || failed;
      }
    }
  }

  /** `t` is the history of one clean-up: `t[k]` is the state and error after
      `k` pops, and the k-th pop takes the k-th job from the top. */
  ghost predicate History<S>(jobs: seq<Job<S>>, s: S, err: bool, t: seq<(S, bool)>)
  {
    && |t| == |jobs| + 1 && t[0] == (s, err)
    && forall k :: 1 <= k < |t| ==> t[k] == Pop1(jobs[|jobs| - k], t[k - 1])
  }

  ghost function HistoryOf<S>(jobs: seq<Job<S>>, s: S, err: bool): (t: seq<(S, bool)>)
    ensures |t| == |jobs| + 1
  {
    if jobs == [] then [(s, err)]
    else
      var next := Pop1(jobs[|jobs| - 1], (s, err));
      [(s, err)] + HistoryOf(jobs[..|jobs| - 1], next.0, next.1)
  }

  /** Every job is popped exactly once, last in first out, and judged by the error
      accumulated when it is popped; the last entry of the history is the result. */
  lemma {:induction false} CleanupIsLifo<S>(jobs: seq<Job<S>>, s: S, err: bool)
    ensures History(jobs, s, err, HistoryOf(jobs, s, err))
    ensures HistoryOf(jobs, s, err)[|jobs|] == RunJobs(jobs, s, err)
  {
    if jobs != [] {
      var n, t := |jobs|, HistoryOf(jobs, s, err);
      var rest := jobs[..n - 1];
      var next := Pop1(jobs[n - 1], (s, err));
      var tail := HistoryOf(rest, next.0, next.1);
      CleanupIsLifo(rest, next.0, next.1);
      forall k | 1 <= k < |t| ensures t[k] == Pop1(jobs[n - k], t[k - 1]) {
        assert t[k] == tail[k - 1];
        if k > 1 { assert t[k - 1] == tail[k - 2]; }
      }
    }
  }

  /** A clean-up has one possible history. */
  lemma HistoryIsUnique<S>(jobs: seq<Job<S>>, s: S, err: bool, t: seq<(S, bool)>, u: seq<(S, bool)>)
    requires History(jobs, s, err, t) && History(jobs, s, err, u)
    ensures t == u
  {
    var k := 0;
    while k < |jobs|
      invariant k <= |jobs|
      invariant t[..k + 1] == u[..k + 1]
    {
      k := k + 1;
      assert t[k - 1] == t[..k][k - 1] == u[..k][k - 1] == u[k - 1];
      assert t[..k + 1] == t[..k] + [t[k]] && u[..k + 1] == u[..k] + [u[k]];
    }
    assert t == t[..|jobs| + 1] && u == u[..|jobs| + 1];
  }

  /** The (k)-th pop ran a job and that job failed. */
  ghost predicate PopFails<S>(jobs: seq<Job<S>>, t: seq<(S, bool)>, k: nat)
    requires 1 <= k <= |jobs| && |t| == |jobs| + 1
  {
    Runs(jobs[|jobs| - k].kind, t[k - 1].1) && jobs[|jobs| - k].run(t[k - 1].0).1
  }

  /** The result is error-free iff the input was and no job that ran failed. */
  lemma CleanupError<S>(jobs: seq<Job<S>>, s: S, err: bool)
    ensures var t := HistoryOf(jobs, s, err);
      RunJobs(jobs, s, err).1 <==> err || exists k :: 1 <= k <= |jobs| && PopFails(jobs, t, k)
  {
    var n, t := |jobs|, HistoryOf(jobs, s, err);
    CleanupIsLifo(jobs, s, err);
    var k := 0;
    while k < n
      invariant k <= n
      invariant t[k].1 <==> err || exists i :: 1 <= i <= k && PopFails(jobs, t, i)
    {
      k := k + 1;
      assert t[k] == Pop1(jobs[n - k], t[k - 1]);
      assert t[k].1 <==> t[k - 1].1 || PopFails(jobs, t, k);
      assert forall i :: 1 <= i <= k && PopFails(jobs, t, i) ==> i == k || 1 <= i <= k - 1;
    }
  }

  /** `states` are the states between the steps that pushed `jobs`, and each job undoes its step from
      where that step led. */
  ghost predicate UndoneAlong<S>(jobs: seq<Job<S>>, states: seq<S>)
  {
    && |states| == |jobs| + 1
    && forall i :: 0 <= i < |jobs| ==> jobs[i].run(states[i + 1]) == (states[i], false)
  }

  /** If every job pushed undoes its step, then after any number of steps a failure takes the state back
      to where it was, and so does success when all jobs are unconditional. */
  lemma {:induction false} CleanupUndoes<S>(jobs: seq<Job<S>>, states: seq<S>, err: bool)
    requires UndoneAlong(jobs, states)
    requires forall i :: 0 <= i < |jobs| ==> Runs(jobs[i].kind, err)
    ensures RunJobs(jobs, states[|jobs|], err) == (states[0], err)
  {
    if jobs != [] {
      var n := |jobs| - 1;
      assert jobs[n].run(states[n + 1]) == (states[n], false);
      CleanupUndoes(jobs[..n], states[..n + 1], err);
    }
  }

  /** When a job runs, by its kind. */
  lemma KindOfJob<S>(run: S -> (S, bool), s: S, err: bool)
    ensures RunJobs([Job(run, ErrorOnly)], s, err) == if err then (run(s).0, true) else (s, false)
    ensures RunJobs([Job(run, SuccessOnly)], s, err) == if err then (s, true) else run(s)
    ensures RunJobs([Job(run, Always)], s, err) == (run(s).0, err || run(s).1)
  {
    RunTop([], Job(run, ErrorOnly), s, err);
    RunTop([], Job(run, SuccessOnly), s, err);
    RunTop([], Job(run, Always), s, err);
    assert [] + [Job(run, ErrorOnly)] == [Job(run, ErrorOnly)];
    assert [] + [Job(run, SuccessOnly)] == [Job(run, SuccessOnly)];
    assert [] + [Job(run, Always)] == [Job(run, Always)];
  }

  /** One more job on top runs first. */
  lemma RunTop<S>(jobs: seq<Job<S>>, top: Job<S>, s: S, err: bool)
    ensures var next := Pop1(top, (s, err));
      RunJobs(jobs + [top], s, err) == RunJobs(jobs, next.0, next.1)
  {
    assert (jobs + [top])[..|jobs|] == jobs;
  }
}
