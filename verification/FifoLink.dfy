/**
 A link as a work-conserving first-in first-out server. `Exit` is the
 recurrence a scheduler keeps in one variable; `ExitIsMaxPlus` shows that the
 recurrence computes the closed form of a queue: the latest, over all earlier
 jobs, of that job's arrival plus all the work from it onwards.
 */
module FifoLink {

  datatype Job = Job(arrive: int, service: nat)

  function Later(a: int, b: int): int {
    if b > a then b else a
  }

  /** When the link is free again after `jobs`, starting free at time zero. */
  function Exit(jobs: seq<Job>): int {
    if jobs == [] then 0
    else
      var n := |jobs| - 1;
      Later(jobs[n].arrive, Exit(jobs[..n])) + jobs[n].service
  }

  /** The service time of `jobs[i..]`. */
  function Work(jobs: seq<Job>, i: nat): nat {
    if |jobs| <= i then 0 else Work(jobs[..|jobs| - 1], i) + jobs[|jobs| - 1].service
  }

  /** `t` is the maximum of all the work since time zero and of every arrival plus the work from it. */
  ghost predicate IsMaxPlus(jobs: seq<Job>, t: int) {
    && t >= Work(jobs, 0)
    && (forall i | 0 <= i < |jobs| :: t >= jobs[i].arrive + Work(jobs, i))
    && (t == Work(jobs, 0) || exists i | 0 <= i < |jobs| :: t == jobs[i].arrive + Work(jobs, i))
  }

  lemma {:induction false} ExitIsMaxPlus(jobs: seq<Job>)
    ensures IsMaxPlus(jobs, Exit(jobs))
  {
    if jobs != [] {
      var n := |jobs| - 1;
      var before := jobs[..n];
      ExitIsMaxPlus(before);
      assert forall i | 0 <= i < n :: before[i] == jobs[i];
      assert Work(jobs, n) == jobs[n].service;
      if jobs[n].arrive < Exit(before) && Exit(before) != Work(before, 0) {
        var i :| 0 <= i < n && Exit(before) == before[i].arrive + Work(before, i);
        assert Exit(jobs) == jobs[i].arrive + Work(jobs, i);
      }
    }
  }

  /** Between the i-th exit and the last one the link has carried all the work in between. */
  lemma {:induction false} ExitsAreSpaced(jobs: seq<Job>, i: nat)
    requires i <= |jobs|
    ensures Exit(jobs) - Exit(jobs[..i]) >= Work(jobs, i)
  {
    if i == |jobs| {
      assert jobs[..i] == jobs;
    } else {
      var n := |jobs| - 1;
      assert jobs[..n][..i] == jobs[..i];
      ExitsAreSpaced(jobs[..n], i);
    }
  }

  lemma ExitAppend(jobs: seq<Job>, j: Job)
    ensures Exit(jobs + [j]) == Later(j.arrive, Exit(jobs)) + j.service
  {
    assert (jobs + [j])[..|jobs|] == jobs;
  }

  lemma {:induction false} WorkOfTail(earlier: seq<Job>, later: seq<Job>)
    ensures Work(earlier + later, |earlier|) == Work(later, 0)
  {
    if later != [] {
      var n := |later| - 1;
      assert (earlier + later)[..|earlier| + n] == earlier + later[..n];
      WorkOfTail(earlier, later[..n]);
    }
  }
}
