/** The multi-server FCFS policy on plain values: tasks, already in the
    order the scheduler considers them, go one at a time to the machine that
    is free earliest (the first such machine in list order), start when both
    that machine is free and the task has arrived, and occupy the machine
    for their burst. This is the reference the scheduler's loop is proved
    against. */
module Fcfs {
  import opened Sequences

  /** What the schedule needs of a task. */
  datatype Job = Job(arrival: int, burst: int)

  /** Where and when one task runs: the machine's position in the list. */
  datatype Slot = Slot(vm: nat, start: int, completion: int)

  /** When each machine is free after the run, and the slot of each task. */
  datatype Schedule = Schedule(avail: seq<int>, slots: seq<Slot>)

  /** Position of the machine that is free earliest; the first one among
      equals, as Python's min() returns. */
  function EarliestIndex(avail: seq<int>): (k: nat)
    requires avail != []
    ensures k < |avail|
    ensures forall j :: 0 <= j < |avail| ==> avail[k] <= avail[j]
    ensures forall j :: 0 <= j < k ==> avail[k] < avail[j]
  {
    if |avail| == 1 then 0
    else
      var n := |avail| - 1;
      var k := EarliestIndex(avail[..n]);
      if avail[n] < avail[k] then n else k
  }

  /** The slot of one job on machines free at the times in avail. */
  function Place(avail: seq<int>, job: Job): Slot
    requires avail != []
  {
    var k := EarliestIndex(avail);
    var start := Max(avail[k], job.arrival);
    Slot(k, start, start + job.burst)
  }

  /** One more job: it runs on the machine free earliest, which is then
      busy until the job completes; no other machine changes. */
  function Step(r: Schedule, job: Job): (r': Schedule)
    requires r.avail != []
    ensures |r'.avail| == |r.avail| && |r'.slots| == |r.slots| + 1
    ensures r'.slots[..|r.slots|] == r.slots
    ensures var s := r'.slots[|r.slots|];
      && s.vm < |r.avail|
      && (forall k :: 0 <= k < |r.avail| ==> r.avail[s.vm] <= r.avail[k])
      && s.start == Max(r.avail[s.vm], job.arrival)
      && s.completion == s.start + job.burst
      && r'.avail == r.avail[s.vm := s.completion]
  {
    var s := Place(r.avail, job);
    Schedule(r.avail[s.vm := s.completion], r.slots + [s])
  }

  /** The schedule of jobs, in order, on machines initially free at the
      times in avail0. */
  function Run(avail0: seq<int>, jobs: seq<Job>): (r: Schedule)
    requires avail0 != []
    ensures |r.avail| == |avail0| && |r.slots| == |jobs|
    ensures forall j :: 0 <= j < |jobs| ==>
      && r.slots[j].vm < |avail0|
      && jobs[j].arrival <= r.slots[j].start
      && r.slots[j].completion == r.slots[j].start + jobs[j].burst
  {
    if jobs == [] then Schedule(avail0, [])
    else
      var n := |jobs| - 1;
      Step(Run(avail0, jobs[..n]), jobs[n])
  }

  /** No task has a negative burst. */
  ghost predicate JobBurstsNonNegative(jobs: seq<Job>)
  {
    forall j :: 0 <= j < |jobs| ==> 0 <= jobs[j].burst
  }

  /** With non-negative bursts no machine becomes free earlier than it was,
      and every task completes no later than its machine becomes free. */
  lemma {:induction false} RunMonotone(avail0: seq<int>, jobs: seq<Job>)
    requires avail0 != []
    requires JobBurstsNonNegative(jobs)
    ensures forall k :: 0 <= k < |avail0| ==> avail0[k] <= Run(avail0, jobs).avail[k]
    ensures forall j :: 0 <= j < |jobs| ==>
      Run(avail0, jobs).slots[j].completion <= Run(avail0, jobs).avail[Run(avail0, jobs).slots[j].vm]
  {
    if jobs != [] {
      var n := |jobs| - 1;
      var prev := Run(avail0, jobs[..n]);
      var s := Place(prev.avail, jobs[n]);
      RunMonotone(avail0, jobs[..n]);
      var r := Run(avail0, jobs);
      assert r.slots == prev.slots + [s];
      forall j | 0 <= j < |jobs|
        ensures r.slots[j].completion <= r.avail[r.slots[j].vm]
      {
        if j < n {
          assert r.slots[j] == prev.slots[j];
          assert jobs[..n][j] == jobs[j];
        }
      }
    }
  }

  /** No slot is on machine k. */
  ghost predicate Unused(slots: seq<Slot>, k: nat)
  {
    forall j :: 0 <= j < |slots| ==> slots[j].vm != k
  }

  /** Slot j is the last one on machine k. */
  ghost predicate LastOn(slots: seq<Slot>, k: nat, j: nat)
  {
    j < |slots| && slots[j].vm == k && forall j' :: j < j' < |slots| ==> slots[j'].vm != k
  }

  /** Machine k is free at a0k if no slot is on it, and otherwise at the
      completion time of the last slot on it. */
  ghost predicate FreeAfterLast(r: Schedule, k: nat, a0k: int)
    requires k < |r.avail|
  {
    || (r.avail[k] == a0k && Unused(r.slots, k))
    || exists j: nat :: LastOn(r.slots, k, j) && r.slots[j].completion == r.avail[k]
  }

  /** One more job keeps every machine free after its last task. */
  lemma StepKeepsFreeAfterLast(r: Schedule, job: Job, k: nat, a0k: int)
    requires r.avail != [] && k < |r.avail| && FreeAfterLast(r, k, a0k)
    ensures FreeAfterLast(Step(r, job), k, a0k)
  {
    var n := |r.slots|;
    var r' := Step(r, job);
    if r'.slots[n].vm == k {
      assert LastOn(r'.slots, k, n);
    } else if j: nat :| LastOn(r.slots, k, j) && r.slots[j].completion == r.avail[k] {
      forall j' | j < j' < |r'.slots| ensures r'.slots[j'].vm != k {
        if j' < n {
          assert r'.slots[j'] == r'.slots[..n][j'];
        }
      }
      assert r'.slots[j] == r'.slots[..n][j];
      assert LastOn(r'.slots, k, j);
    } else {
      forall j | 0 <= j < n ensures r'.slots[j] == r.slots[j] {
        assert r'.slots[j] == r'.slots[..n][j];
      }
    }
  }

  /** Each machine is free at its initial time if no task was placed on it,
      and otherwise at the completion time of the last task placed on it. */
  lemma {:induction false} RunAvailIsLastCompletion(avail0: seq<int>, jobs: seq<Job>, k: nat)
    requires avail0 != [] && k < |avail0|
    ensures FreeAfterLast(Run(avail0, jobs), k, avail0[k])
  {
    if jobs != [] {
      var n := |jobs| - 1;
      RunAvailIsLastCompletion(avail0, jobs[..n], k);
      StepKeepsFreeAfterLast(Run(avail0, jobs[..n]), jobs[n], k, avail0[k]);
    }
  }

  /** Two tasks on the same machine never overlap: the later one starts no
      earlier than the earlier one completes. */
  ghost predicate NoOverlap(slots: seq<Slot>)
  {
    forall j, j' :: 0 <= j < j' < |slots| && slots[j].vm == slots[j'].vm ==>
      slots[j].completion <= slots[j'].start
  }

  /** One more job keeps the tasks apart when every task so far completes
      no later than its machine is free. */
  lemma StepKeepsNoOverlap(r: Schedule, job: Job)
    requires r.avail != [] && NoOverlap(r.slots)
    requires forall j :: 0 <= j < |r.slots| && r.slots[j].vm < |r.avail| ==>
      r.slots[j].completion <= r.avail[r.slots[j].vm]
    ensures NoOverlap(Step(r, job).slots)
  {
    var r' := Step(r, job);
    var n := |r.slots|;
    forall j | 0 <= j < n ensures r'.slots[j] == r.slots[j] {
      assert r'.slots[j] == r'.slots[..n][j];
    }
  }

  /** With non-negative bursts, tasks placed on the same machine never
      overlap. */
  lemma {:induction false} RunNoOverlap(avail0: seq<int>, jobs: seq<Job>)
    requires avail0 != [] && JobBurstsNonNegative(jobs)
    ensures NoOverlap(Run(avail0, jobs).slots)
  {
    if jobs != [] {
      var n := |jobs| - 1;
      assert JobBurstsNonNegative(jobs[..n]) by {
        forall i | 0 <= i < n ensures jobs[..n][i] == jobs[i] { }
      }
      RunNoOverlap(avail0, jobs[..n]);
      RunMonotone(avail0, jobs[..n]);
      StepKeepsNoOverlap(Run(avail0, jobs[..n]), jobs[n]);
    }
  }

  /** With non-negative bursts, the task placed last starts no later than
      any machine is free or the task arrived, whichever is later. */
  lemma RunLastStart(avail0: seq<int>, jobs: seq<Job>)
    requires avail0 != [] && jobs != [] && JobBurstsNonNegative(jobs)
    ensures var r := Run(avail0, jobs); var n := |jobs| - 1;
      forall k :: 0 <= k < |avail0| ==> r.slots[n].start <= Max(r.avail[k], jobs[n].arrival)
  {
    var n := |jobs| - 1;
    var prev := Run(avail0, jobs[..n]);
    assert Run(avail0, jobs) == Step(prev, jobs[n]);
  }

  /** Arrival times in non-decreasing order. */
  ghost predicate ArrivalsOrdered(jobs: seq<Job>)
  {
    forall j, j' :: 0 <= j <= j' < |jobs| ==> jobs[j].arrival <= jobs[j'].arrival
  }

  /** Start times in non-decreasing order. */
  ghost predicate StartsOrdered(slots: seq<Slot>)
  {
    forall j, j' :: 0 <= j <= j' < |slots| ==> slots[j].start <= slots[j'].start
  }

  /** One more job keeps the start times in order when it arrives no
      earlier than the job placed last, and that job started no later than
      any machine is free or it arrived, whichever is later. */
  lemma StepKeepsStartsOrdered(r: Schedule, last: Job, job: Job)
    requires r.avail != [] && StartsOrdered(r.slots)
    requires r.slots != [] ==> last.arrival <= job.arrival
    requires r.slots != [] ==> forall k :: 0 <= k < |r.avail| ==>
      r.slots[|r.slots| - 1].start <= Max(r.avail[k], last.arrival)
    ensures StartsOrdered(Step(r, job).slots)
  {
    var r' := Step(r, job);
    var n := |r.slots|;
    forall j | 0 <= j < n ensures r'.slots[j] == r.slots[j] {
      assert r'.slots[j] == r'.slots[..n][j];
    }
    if n > 0 {
      // the new job starts at the later of its machine's free time and its
      // arrival, which bounds the last start from above
      var s := r'.slots[n];
      assert r.slots[n - 1].start <= Max(r.avail[s.vm], last.arrival) <= s.start;
    }
  }

  /** First come, first served: when the jobs come in arrival order and no
      burst is negative, no job starts before a job ahead of it. */
  lemma {:induction false} RunStartsInOrder(avail0: seq<int>, jobs: seq<Job>)
    requires avail0 != [] && JobBurstsNonNegative(jobs) && ArrivalsOrdered(jobs)
    ensures StartsOrdered(Run(avail0, jobs).slots)
  {
    if jobs != [] {
      var n := |jobs| - 1;
      assert JobBurstsNonNegative(jobs[..n]) && ArrivalsOrdered(jobs[..n]) by {
        forall i | 0 <= i < n ensures jobs[..n][i] == jobs[i] { }
      }
      RunStartsInOrder(avail0, jobs[..n]);
      if n > 0 {
        RunLastStart(avail0, jobs[..n]);
        assert jobs[..n][n - 1] == jobs[n - 1];
      }
      StepKeepsStartsOrdered(Run(avail0, jobs[..n]), if n > 0 then jobs[n - 1] else jobs[n], jobs[n]);
    }
  }

  /** No slot completes after t, and some slot completes at t. */
  ghost predicate IsLatestCompletion(slots: seq<Slot>, t: int)
  {
    && (forall j :: 0 <= j < |slots| ==> slots[j].completion <= t)
    && exists j :: 0 <= j < |slots| && slots[j].completion == t
  }

  /** Starting from idle machines, with non-negative bursts and at least one
      task, the latest time a machine becomes free is the completion time of
      some task: the makespan is the largest completion time. */
  lemma MakespanIsLatestCompletion(avail0: seq<int>, jobs: seq<Job>)
    requires avail0 != [] && jobs != []
    requires forall k :: 0 <= k < |avail0| ==> avail0[k] == 0
    requires JobBurstsNonNegative(jobs)
    ensures IsLatestCompletion(Run(avail0, jobs).slots, MaxOf(Run(avail0, jobs).avail))
  {
    var r := Run(avail0, jobs);
    var top := MaxOf(r.avail);
    RunMonotone(avail0, jobs);
    forall j | 0 <= j < |jobs| ensures r.slots[j].completion <= top {
      assert r.avail[r.slots[j].vm] in r.avail;
    }
    var m :| 0 <= m < |r.avail| && r.avail[m] == top;
    RunAvailIsLastCompletion(avail0, jobs, m);
    if j: nat :| LastOn(r.slots, m, j) && r.slots[j].completion == r.avail[m] {
      assert j < |jobs| && r.slots[j].completion == top;
    } else {
      // machine m never ran anything, so the makespan is 0, and so is the
      // time the machine of any task becomes free after its last task
      var v := r.slots[0].vm;
      assert r.avail[v] in r.avail;
      RunAvailIsLastCompletion(avail0, jobs, v);
      assert !Unused(r.slots, v);
      var j: nat :| LastOn(r.slots, v, j) && r.slots[j].completion == r.avail[v];
      assert j < |jobs| && r.slots[j].completion == top;
    }
  }
}
