/** The sample scenario of the program's entry point: six rendering tasks
    arriving one time unit apart, scheduled on three idle machines. */
module Sample {
  import opened Wrappers
  import opened Sequences
  import opened Tasks
  import opened VirtualMachines
  import opened TaskOrder
  import opened Fcfs
  import opened Scheduler

  /** T1 .. T6 in arrival order, which is also their (arrival, id) order. */
  function SampleJobs(): seq<Job>
  {
    [Job(0, 5), Job(1, 8), Job(2, 3), Job(3, 7), Job(4, 4), Job(5, 6)]
  }

  /** Sum over the jobs of the time from arrival to start: the total
      waiting time of Scheduler.TotalWaitingTime on plain values, to which
      TotalsFromSlots links it. */
  function TotalWaiting(jobs: seq<Job>, slots: seq<Slot>): int
    requires |slots| == |jobs|
  {
    if jobs == [] then 0
    else
      var n := |jobs| - 1;
      TotalWaiting(jobs[..n], slots[..n]) + slots[n].start - jobs[n].arrival
  }

  /** Sum over the jobs of the time from arrival to completion: the total
      turnaround time of Scheduler.TotalTurnaroundTime on plain values, to
      which TotalsFromSlots links it. */
  function TotalTurnaround(jobs: seq<Job>, slots: seq<Slot>): int
    requires |slots| == |jobs|
  {
    if jobs == [] then 0
    else
      var n := |jobs| - 1;
      TotalTurnaround(jobs[..n], slots[..n]) + slots[n].completion - jobs[n].arrival
  }

  /** Machine position, start and completion for each of T1 .. T6. */
  function SampleSlots(): seq<Slot>
  {
    [Slot(0, 0, 5), Slot(1, 1, 9), Slot(2, 2, 5), Slot(0, 5, 12), Slot(2, 5, 9), Slot(1, 9, 15)]
  }

  /** The whole of a sequence is its prefix of its own length. */
  lemma TakeAll<T>(s: seq<T>, n: nat)
    requires n == |s|
    ensures s[..n] == s
  {
  }

  /** A prefix one longer is the shorter prefix and the next element. */
  lemma TakeSnoc<T>(s: seq<T>, n: nat)
    requires 0 < n <= |s|
    ensures s[..n - 1] + [s[n - 1]] == s[..n]
  {
  }

  /** The largest of three values. */
  lemma MaxOfThree(x: int, y: int, z: int)
    ensures MaxOf([x, y, z]) == Max(Max(x, y), z)
  {
    var s := [x, y, z];
    assert s[..2] == [x, y] && s[..2][..1] == [x];
  }

  /** Running one more job is one more Step. */
  lemma RunPrefix(avail0: seq<int>, jobs: seq<Job>, n: nat)
    requires avail0 != [] && n < |jobs|
    ensures Run(avail0, jobs[..n + 1]) == Step(Run(avail0, jobs[..n]), jobs[n])
  {
    assert jobs[..n + 1][..n] == jobs[..n];
  }

  /** Where a job goes on three machines free at x, y and z, in closed form. */
  lemma PlaceOnThree(x: int, y: int, z: int, job: Job)
    ensures var k := if x <= y && x <= z then 0 else if y <= z then 1 else 2;
      var start := Max([x, y, z][k], job.arrival);
      Place([x, y, z], job) == Slot(k, start, start + job.burst)
  {
    var avail := [x, y, z];
    assert avail[..2] == [x, y] && avail[..2][..1] == [x];
  }

  /** One more job: it takes the slot Place gives it on machines free at
      before, and its machine is then free at its completion. */
  lemma RunStep(avail0: seq<int>, jobs: seq<Job>, slots: seq<Slot>, n: nat, before: seq<int>, after: seq<int>)
    requires avail0 != [] && before != [] && 0 < n <= |jobs| && n <= |slots|
    requires Run(avail0, jobs[..n - 1]) == Schedule(before, slots[..n - 1])
    requires Place(before, jobs[n - 1]) == slots[n - 1]
    requires after == before[slots[n - 1].vm := slots[n - 1].completion]
    ensures Run(avail0, jobs[..n]) == Schedule(after, slots[..n])
  {
    RunPrefix(avail0, jobs, n - 1);
    TakeSnoc(slots, n);
  }

  /** One more job on three machines free at x, y and z: it goes to the
      first machine free earliest, starts when that machine is free and the
      job has arrived, and takes the next slot. */
  lemma RunStepOnThree(avail0: seq<int>, jobs: seq<Job>, slots: seq<Slot>, n: nat, x: int, y: int, z: int)
    requires avail0 != [] && 0 < n <= |jobs| && n <= |slots|
    requires Run(avail0, jobs[..n - 1]) == Schedule([x, y, z], slots[..n - 1])
    requires var k := if x <= y && x <= z then 0 else if y <= z then 1 else 2;
      var start := Max([x, y, z][k], jobs[n - 1].arrival);
      slots[n - 1] == Slot(k, start, start + jobs[n - 1].burst)
    ensures var c := slots[n - 1].completion;
      var k := slots[n - 1].vm;
      Run(avail0, jobs[..n]) == Schedule(if k == 0 then [c, y, z] else if k == 1 then [x, c, z] else [x, y, c], slots[..n])
  {
    var job := jobs[n - 1];
    var c := slots[n - 1].completion;
    PlaceOnThree(x, y, z, job);
    if x <= y && x <= z {
      assert [x, y, z][0 := c] == [c, y, z];
      RunStep(avail0, jobs, slots, n, [x, y, z], [c, y, z]);
    } else if y <= z {
      assert [x, y, z][1 := c] == [x, c, z];
      RunStep(avail0, jobs, slots, n, [x, y, z], [x, c, z]);
    } else {
      assert [x, y, z][2 := c] == [x, y, c];
      RunStep(avail0, jobs, slots, n, [x, y, z], [x, y, c]);
    }
  }

  /** The waiting and turnaround totals of each prefix of the sample. */
  lemma {:induction false} SampleTotals(n: nat)
    requires n <= 6
    ensures TotalWaiting(SampleJobs()[..n], SampleSlots()[..n]) == [0, 0, 0, 0, 2, 3, 7][n]
    ensures TotalTurnaround(SampleJobs()[..n], SampleSlots()[..n]) == [0, 5, 13, 16, 25, 30, 40][n]
  {
    if n > 0 {
      var m := n - 1;
      SampleTotals(m);
      assert SampleJobs()[..n][..m] == SampleJobs()[..m];
      assert SampleSlots()[..n][..m] == SampleSlots()[..m];
    }
  }

  /** The schedule of the first two tasks of the sample: each finds an
      idle machine. */
  lemma SampleFirstTwo()
    ensures Run([0, 0, 0], SampleJobs()[..2]) == Schedule([5, 9, 0], SampleSlots()[..2])
  {
    assert SampleJobs()[..0] == [] && SampleSlots()[..0] == [];
    RunStepOnThree([0, 0, 0], SampleJobs(), SampleSlots(), 1, 0, 0, 0);
    RunStepOnThree([0, 0, 0], SampleJobs(), SampleSlots(), 2, 5, 0, 0);
  }

  /** The schedule of the first four tasks of the sample. */
  lemma SampleFirstFour()
    ensures Run([0, 0, 0], SampleJobs()[..4]) == Schedule([12, 9, 5], SampleSlots()[..4])
  {
    SampleFirstTwo();
    RunStepOnThree([0, 0, 0], SampleJobs(), SampleSlots(), 3, 5, 9, 0);
    RunStepOnThree([0, 0, 0], SampleJobs(), SampleSlots(), 4, 5, 9, 5);
  }

  /** The schedule of all six tasks of the sample. */
  lemma SampleAllSix()
    ensures Run([0, 0, 0], SampleJobs()[..6]) == Schedule([12, 15, 9], SampleSlots()[..6])
  {
    SampleFirstFour();
    RunStepOnThree([0, 0, 0], SampleJobs(), SampleSlots(), 5, 12, 9, 5);
    RunStepOnThree([0, 0, 0], SampleJobs(), SampleSlots(), 6, 12, 9, 9);
  }

  /** On three machines the sample gives T1, T4 to the first machine, T2,
      T6 to the second and T3, T5 to the third; the makespan is 15, the
      tasks wait 7 time units in total and turn around in 40. */
  lemma SampleSchedule()
    ensures var r := Run([0, 0, 0], SampleJobs());
      && r.slots == [Slot(0, 0, 5), Slot(1, 1, 9), Slot(2, 2, 5), Slot(0, 5, 12), Slot(2, 5, 9), Slot(1, 9, 15)]
      && r.avail == [12, 15, 9]
      && MaxOf(r.avail) == 15
      && TotalWaiting(SampleJobs(), r.slots) == 7
      && TotalTurnaround(SampleJobs(), r.slots) == 40
  {
    assert Run([0, 0, 0], SampleJobs()) == Schedule([12, 15, 9], SampleSlots()) by {
      SampleAllSix();
      TakeAll(SampleJobs(), 6);
      TakeAll(SampleSlots(), 6);
    }
    assert TotalWaiting(SampleJobs(), SampleSlots()) == 7 && TotalTurnaround(SampleJobs(), SampleSlots()) == 40 by {
      SampleTotals(6);
      TakeAll(SampleJobs(), 6);
      TakeAll(SampleSlots(), 6);
    }
    MaxOfThree(12, 15, 9);
  }

  /** The per-task times agree with the slots, so the scheduler's totals
      are those of the slots. */
  lemma {:induction false} TotalsFromSlots(ts: seq<Task>, slots: seq<Slot>)
    requires |slots| == |ts|
    requires forall j :: 0 <= j < |ts| ==>
      ts[j].start == Some(slots[j].start) && ts[j].completion == Some(slots[j].completion)
    ensures TotalWaitingTime(ts) == TotalWaiting(Jobs(ts), slots)
    ensures TotalTurnaroundTime(ts) == TotalTurnaround(Jobs(ts), slots)
  {
    if ts != [] {
      var n := |ts| - 1;
      TotalsFromSlots(ts[..n], slots[..n]);
      assert Jobs(ts)[..n] == Jobs(ts[..n]);
    }
  }

  /** The sample tasks arrive one after another, so sorting them by
      (arrival, id) keeps their order. */
  lemma SampleSorted(ts: seq<Task>)
    requires Jobs(ts) == SampleJobs()
    ensures SortByKey(ts) == ts
  {
    forall i, j | 0 <= i < j < |ts| ensures KeyLe(ts[i], ts[j]) {
      assert Jobs(ts)[i].arrival == i && Jobs(ts)[j].arrival == j;
    }
    SortByKeyOfOrdered(ts);
  }

  /** The averages of the sample: 33 time units of work on 3 machines over
      a makespan of 15, and 7 and 40 time units of waiting and turnaround
      over 6 tasks. */
  lemma SampleAverages(utilization: real, waiting: real, turnaround: real)
    requires BusyShare(utilization, 3 * 15, 33)
    requires waiting * 6.0 == 7.0 && turnaround == waiting + 33.0 / 6.0
    ensures utilization == 220.0 / 3.0 && waiting == 7.0 / 6.0 && turnaround == 40.0 / 6.0
  {
  }

  /** A simulation of the sample tasks on three new machines ends with
      makespan 15, 7 time units of waiting and 40 of turnaround in total,
      and metrics of 73.33 % average utilization, 1.17 average waiting time
      and 6.67 average turnaround time. */
  lemma SampleSimulation(s: FCFSScheduler, a0: seq<int>, h0: seq<seq<Task>>)
    requires s.Finished(s.tasks, a0, h0) && Idle(a0, h0) && |s.vms| == 3 && s.MachinesValid()
    requires Jobs(s.tasks) == SampleJobs() && s.makespan == MaxOf(AvailTimes(s.vms))
    ensures s.makespan == 15
    ensures TotalWaitingTime(s.tasks) == 7 && TotalTurnaroundTime(s.tasks) == 40
    ensures s.CalculateMetrics() == Success(Metrics(15, 220.0 / 3.0, 7.0 / 6.0, 40.0 / 6.0))
  {
    var ts := s.tasks;
    assert a0 == [0, 0, 0];
    var r := Replay(a0, h0, ts, |ts|).schedule;
    assert r == Schedule([12, 15, 9], SampleSlots()) by {
      ReplayAll(a0, h0, ts);
      SampleSchedule();
    }
    MaxOfThree(12, 15, 9);
    assert TotalWaitingTime(ts) == 7 && TotalTurnaroundTime(ts) == 40 by {
      TotalsFromSlots(ts, r.slots);
      SampleSchedule();
    }
    assert BurstsNonNegative(ts) by {
      forall j | 0 <= j < |ts| ensures 0 <= ts[j].burst {
        assert Jobs(ts)[j].burst == SampleJobs()[j].burst;
      }
    }
    assert SumBursts(ts) == 33 by {
      s.FinishedTasksPlaced(ts, a0, h0);
      TotalsOfScheduled(ts);
    }
    s.MetricsAfterSimulation(a0, h0);
    var m := s.CalculateMetrics().value;
    SampleAverages(m.avgUtilization, m.avgWaitingTime, m.avgTurnaroundTime);
  }

  /** The sample tasks T1 .. T6, newly created. */
  method NewSampleTasks() returns (ts: seq<Task>)
    ensures Jobs(ts) == SampleJobs() && Distinct(ts)
    ensures forall j :: 0 <= j < |ts| ==> fresh(ts[j])
  {
    var t1 := new Task("T1", 0, 5);
    var t2 := new Task("T2", 1, 8);
    var t3 := new Task("T3", 2, 3);
    var t4 := new Task("T4", 3, 7);
    var t5 := new Task("T5", 4, 4);
    var t6 := new Task("T6", 5, 6);
    ts := [t1, t2, t3, t4, t5, t6];
    PairwiseDistinct(ts);
  }

  /** Three new machines VM1, VM2 and VM3. */
  method NewMachines() returns (vs: seq<VirtualMachine>)
    ensures |vs| == 3 && Distinct(vs) && Idle(AvailTimes(vs), Histories(vs))
    ensures forall k :: 0 <= k < |vs| ==> fresh(vs[k]) && vs[k].Valid()
  {
    var v1 := new VirtualMachine("VM1");
    var v2 := new VirtualMachine("VM2");
    var v3 := new VirtualMachine("VM3");
    vs := [v1, v2, v3];
    PairwiseDistinct(vs);
  }

  /** The sample as the program's entry point runs it: six new tasks and
      three new machines, simulated and then measured. */
  method RunSample() returns (metrics: Result<Metrics, SchedulerError>)
    ensures metrics == Success(Metrics(15, 220.0 / 3.0, 7.0 / 6.0, 40.0 / 6.0))
  {
    var ts := NewSampleTasks();
    var vs := NewMachines();
    ghost var a0, h0 := AvailTimes(vs), Histories(vs);
    SampleSorted(ts);
    var scheduler := new FCFSScheduler(ts, vs);
    assert scheduler.MachinesValid();
    var error := scheduler.SimulateExecution();
    SampleSimulation(scheduler, a0, h0);
    metrics := scheduler.CalculateMetrics();
  }
}
