/** The FCFS scheduler: sorts the tasks, gives each in turn to the machine
    that is free earliest, and records the makespan. */
module Scheduler {
  import opened Wrappers
  import opened Sequences
  import opened Tasks
  import opened VirtualMachines
  import opened TaskOrder
  import opened Fcfs

  /** The exceptions the source raises: min() or max() over an empty VM
      list, and division by zero when averaging over no tasks. */
  datatype SchedulerError = NoVirtualMachines | NoTasks

  /** No object occurs twice. */
  ghost predicate Distinct<T>(s: seq<T>)
  {
    forall x | x in multiset(s) :: multiset(s)[x] <= 1
  }

  /** Two positions of a list without repetitions hold different objects. */
  lemma DistinctIndices<T>(s: seq<T>, i: nat, j: nat)
    requires Distinct(s) && i < |s| && j < |s| && i != j
    ensures s[i] != s[j]
  {
    var lo, hi := if i < j then i else j, if i < j then j else i;
    assert s == s[..lo] + [s[lo]] + s[lo + 1..hi] + [s[hi]] + s[hi + 1..];
    assert multiset(s)[s[lo]] >= 1 + (if s[hi] == s[lo] then 1 else 0);
  }

  /** A list whose positions hold pairwise different elements has no
      repetitions. */
  lemma {:induction false} PairwiseDistinct<T>(s: seq<T>)
    requires forall i, j | 0 <= i < j < |s| :: s[i] != s[j]
    ensures Distinct(s)
  {
    if s != [] {
      var n := |s| - 1;
      PairwiseDistinct(s[..n]);
      assert s == s[..n] + [s[n]];
      assert s[n] !in multiset(s[..n]);
    }
  }

  /** The arrival and burst of each task, in list order. */
  function Jobs(ts: seq<Task>): (js: seq<Job>)
    ensures |js| == |ts|
    ensures forall j :: 0 <= j < |ts| ==> js[j] == Job(ts[j].arrival, ts[j].burst)
  {
    seq(|ts|, j requires 0 <= j < |ts| => Job(ts[j].arrival, ts[j].burst))
  }

  /** The machines' histories h0 after the tasks ts ran in the given
      slots: each task, in list order, is appended to the history of the
      machine its slot is on. */
  function HistoriesAfter(h0: seq<seq<Task>>, ts: seq<Task>, slots: seq<Slot>): (h: seq<seq<Task>>)
    requires |ts| == |slots|
    ensures |h| == |h0|
  {
    if ts == [] then h0
    else
      var n := |ts| - 1;
      var g := HistoriesAfter(h0, ts[..n], slots[..n]);
      var k := slots[n].vm;
      if k < |g| then g[k := g[k] + [ts[n]]] else g
  }

  /** The tasks of ts whose slot is on machine k, in list order. */
  function OnMachine(ts: seq<Task>, slots: seq<Slot>, k: nat): (s: seq<Task>)
    requires |ts| == |slots|
    ensures forall t :: t in s ==> t in ts
  {
    if ts == [] then []
    else
      var n := |ts| - 1;
      var s' := OnMachine(ts[..n], slots[..n], k);
      assert forall t :: t in ts[..n] ==> t in ts;
      if slots[n].vm == k then s' + [ts[n]] else s'
  }

  /** A machine's history is what it had run before, followed by the tasks
      placed on it, in list order. */
  lemma {:induction false} HistoriesAfterSplits(h0: seq<seq<Task>>, ts: seq<Task>, slots: seq<Slot>, k: nat)
    requires |ts| == |slots| && k < |h0|
    ensures HistoriesAfter(h0, ts, slots)[k] == h0[k] + OnMachine(ts, slots, k)
  {
    if ts != [] {
      var n := |ts| - 1;
      HistoriesAfterSplits(h0, ts[..n], slots[..n], k);
    }
  }

  /** The tasks placed on one machine keep the key order of the list. */
  lemma {:induction false} OnMachineOrdered(ts: seq<Task>, slots: seq<Slot>, k: nat)
    requires |ts| == |slots| && Ordered(ts)
    ensures Ordered(OnMachine(ts, slots, k))
  {
    if ts != [] {
      var n := |ts| - 1;
      var s' := OnMachine(ts[..n], slots[..n], k);
      assert Ordered(ts[..n]);
      OnMachineOrdered(ts[..n], slots[..n], k);
      if slots[n].vm == k {
        var s := s' + [ts[n]];
        forall i, j | 0 <= i < j < |s| ensures KeyLe(s[i], s[j]) {
          if j == |s'| {
            assert s[i] in ts[..n];
            var m :| 0 <= m < n && ts[..n][m] == s[i];
            assert ts[m] == s[i];
          } else {
            assert s[i] == s'[i] && s[j] == s'[j];
          }
        }
      }
    }
  }

  /** Every task with a slot on a machine ends up in that machine's
      history. */
  lemma {:induction false} HistoriesAfterContains(h0: seq<seq<Task>>, ts: seq<Task>, slots: seq<Slot>, i: nat)
    requires |ts| == |slots| && i < |ts| && slots[i].vm < |h0|
    ensures ts[i] in HistoriesAfter(h0, ts, slots)[slots[i].vm]
  {
    var n := |ts| - 1;
    var g := HistoriesAfter(h0, ts[..n], slots[..n]);
    var k := slots[i].vm;
    if i < n {
      HistoriesAfterContains(h0, ts[..n], slots[..n], i);
      assert ts[..n][i] == ts[i] && slots[..n][i] == slots[i];
      assert g[k] <= HistoriesAfter(h0, ts, slots)[k];
    }
  }

  /** Every task in a history was there before or is one of ts with its
      slot on that machine. */
  lemma {:induction false} HistoriesAfterOrigin(h0: seq<seq<Task>>, ts: seq<Task>, slots: seq<Slot>, k: nat, t: Task)
    requires |ts| == |slots| && k < |h0| && t in HistoriesAfter(h0, ts, slots)[k]
    ensures t in h0[k] || exists i :: 0 <= i < |ts| && ts[i] == t && slots[i].vm == k
  {
    if ts != [] {
      var n := |ts| - 1;
      var g := HistoriesAfter(h0, ts[..n], slots[..n]);
      if t in g[k] {
        HistoriesAfterOrigin(h0, ts[..n], slots[..n], k, t);
        if t !in h0[k] {
          var i :| 0 <= i < n && ts[..n][i] == t && slots[..n][i].vm == k;
          assert ts[i] == t && slots[i].vm == k;
        }
      } else {
        assert ts[n] == t && slots[n].vm == k;
      }
    }
  }

  /** When none of the tasks is in an initial history and no task repeats,
      each task ends up in the history of exactly the machine its slot is
      on. */
  lemma HistoriesAfterMembership(h0: seq<seq<Task>>, ts: seq<Task>, slots: seq<Slot>, i: nat, k: nat)
    requires |ts| == |slots| && Distinct(ts) && i < |ts| && k < |h0|
    requires forall k' :: 0 <= k' < |h0| ==> ts[i] !in h0[k']
    ensures ts[i] in HistoriesAfter(h0, ts, slots)[k] <==> slots[i].vm == k
  {
    if slots[i].vm == k {
      HistoriesAfterContains(h0, ts, slots, i);
    }
    if ts[i] in HistoriesAfter(h0, ts, slots)[k] {
      HistoriesAfterOrigin(h0, ts, slots, k, ts[i]);
      var i' :| 0 <= i' < |ts| && ts[i'] == ts[i] && slots[i'].vm == k;
      if i' != i {
        DistinctIndices(ts, i, i');
      }
    }
  }

  /** Total burst time of each history, in list order. */
  function BurstTotals(h: seq<seq<Task>>): (b: seq<int>)
    ensures |b| == |h|
    ensures forall k :: 0 <= k < |h| ==> b[k] == SumBursts(h[k])
  {
    seq(|h|, k requires 0 <= k < |h| => SumBursts(h[k]))
  }

  /** Busy time is conserved: when every slot is on one of the machines,
      the bursts of all histories together grow by exactly the bursts of
      the tasks placed. */
  lemma {:induction false} HistoriesAfterBursts(h0: seq<seq<Task>>, ts: seq<Task>, slots: seq<Slot>)
    requires |ts| == |slots|
    requires forall i :: 0 <= i < |slots| ==> slots[i].vm < |h0|
    ensures Sum(BurstTotals(HistoriesAfter(h0, ts, slots))) == Sum(BurstTotals(h0)) + SumBursts(ts)
  {
    if ts != [] {
      var n := |ts| - 1;
      var g := HistoriesAfter(h0, ts[..n], slots[..n]);
      var k := slots[n].vm;
      HistoriesAfterBursts(h0, ts[..n], slots[..n]);
      assert (g[k] + [ts[n]])[..|g[k]|] == g[k];
      assert BurstTotals(g[k := g[k] + [ts[n]]]) == BurstTotals(g)[k := BurstTotals(g)[k] + ts[n].burst];
      SumUpdate(BurstTotals(g), k, ts[n].burst);
    }
  }

  /** The state of a simulation on values: the schedule so far and each
      machine's history. */
  datatype Progress = Progress(schedule: Schedule, histories: seq<seq<Task>>)

  /** One task more: it takes the slot the policy gives it, and joins the
      history of the machine free earliest. */
  function Advance(p: Progress, t: Task): (q: Progress)
    requires p.schedule.avail != [] && |p.histories| == |p.schedule.avail|
    ensures |q.schedule.avail| == |p.schedule.avail| && |q.histories| == |p.histories|
    ensures |q.schedule.slots| == |p.schedule.slots| + 1
  {
    var k := EarliestIndex(p.schedule.avail);
    Progress(Step(p.schedule, Job(t.arrival, t.burst)), p.histories[k := p.histories[k] + [t]])
  }

  /** The state after the first n tasks of ts, one Advance at a time, from
      machines free at a0 with histories h0. */
  function Replay(a0: seq<int>, h0: seq<seq<Task>>, ts: seq<Task>, n: nat): (p: Progress)
    requires a0 != [] && |h0| == |a0| && n <= |ts|
    ensures |p.schedule.avail| == |a0| && |p.histories| == |a0| && |p.schedule.slots| == n
  {
    if n == 0 then Progress(Schedule(a0, []), h0)
    else Advance(Replay(a0, h0, ts, n - 1), ts[n - 1])
  }

  /** Replaying the first n tasks one at a time gives the reference
      schedule of those tasks. */
  lemma {:induction false} ReplayIsRun(a0: seq<int>, h0: seq<seq<Task>>, ts: seq<Task>, n: nat)
    requires a0 != [] && |h0| == |a0| && n <= |ts|
    ensures Replay(a0, h0, ts, n).schedule == Run(a0, Jobs(ts[..n]))
  {
    if n == 0 {
      assert Jobs(ts[..0]) == [];
    } else {
      ReplayIsRun(a0, h0, ts, n - 1);
      assert Jobs(ts[..n])[..n - 1] == Jobs(ts[..n - 1]);
    }
  }

  /** Replaying the first n tasks leaves each of them, in list order, in
      the history of the machine its slot is on. */
  lemma {:induction false} ReplayHistories(a0: seq<int>, h0: seq<seq<Task>>, ts: seq<Task>, n: nat)
    requires a0 != [] && |h0| == |a0| && n <= |ts|
    ensures Replay(a0, h0, ts, n).histories == HistoriesAfter(h0, ts[..n], Replay(a0, h0, ts, n).schedule.slots)
  {
    if n == 0 {
      assert ts[..0] == [];
    } else {
      var p := Replay(a0, h0, ts, n - 1);
      var q := Replay(a0, h0, ts, n);
      ReplayHistories(a0, h0, ts, n - 1);
      assert ts[..n][..n - 1] == ts[..n - 1];
      assert q.schedule.slots[..n - 1] == p.schedule.slots;
    }
  }

  // What the replay of a whole task list satisfies, carried over from the
  // reference schedule.

  /** The replay of all of ts is the reference schedule of ts... */
  lemma ReplayAll(a0: seq<int>, h0: seq<seq<Task>>, ts: seq<Task>)
    requires a0 != [] && |h0| == |a0|
    ensures Replay(a0, h0, ts, |ts|).schedule == Run(a0, Jobs(ts))
  {
    assert ts[..|ts|] == ts;
    ReplayIsRun(a0, h0, ts, |ts|);
  }

  /** ...and each machine's history holds, after what it had run before,
      the tasks of ts on that machine. */
  lemma ReplayAllHistories(a0: seq<int>, h0: seq<seq<Task>>, ts: seq<Task>)
    requires a0 != [] && |h0| == |a0|
    ensures |Replay(a0, h0, ts, |ts|).schedule.slots| == |ts|
    ensures Replay(a0, h0, ts, |ts|).histories == HistoriesAfter(h0, ts, Replay(a0, h0, ts, |ts|).schedule.slots)
  {
    assert ts[..|ts|] == ts;
    ReplayHistories(a0, h0, ts, |ts|);
  }

  /** Each task gets a slot on one of the machines, starts no earlier than
      it arrives, runs for its burst, and joins that machine's history. */
  lemma ReplaySlot(a0: seq<int>, h0: seq<seq<Task>>, ts: seq<Task>, j: nat)
    requires a0 != [] && |h0| == |a0| && j < |ts|
    ensures var p := Replay(a0, h0, ts, |ts|); var s := p.schedule.slots[j];
      && |p.schedule.slots| == |ts|
      && s.vm < |a0| && ts[j].arrival <= s.start && s.completion == s.start + ts[j].burst
      && ts[j] in p.histories[s.vm]
  {
    ReplayAll(a0, h0, ts);
    ReplayAllHistories(a0, h0, ts);
    HistoriesAfterContains(h0, ts, Replay(a0, h0, ts, |ts|).schedule.slots, j);
  }

  /** A machine's history is what it had run before, followed by the tasks
      placed on it in list order. */
  lemma ReplayHistory(a0: seq<int>, h0: seq<seq<Task>>, ts: seq<Task>, k: nat)
    requires a0 != [] && |h0| == |a0| && k < |a0|
    ensures var p := Replay(a0, h0, ts, |ts|);
      |p.schedule.slots| == |ts| && p.histories[k] == h0[k] + OnMachine(ts, p.schedule.slots, k)
  {
    ReplayAllHistories(a0, h0, ts);
    HistoriesAfterSplits(h0, ts, Replay(a0, h0, ts, |ts|).schedule.slots, k);
  }

  /** With no task listed twice and none run before, a task is in the
      history of exactly the machine its slot is on. */
  lemma ReplayMembership(a0: seq<int>, h0: seq<seq<Task>>, ts: seq<Task>, j: nat, k: nat)
    requires a0 != [] && |h0| == |a0| && j < |ts| && k < |a0| && Distinct(ts)
    requires forall k' :: 0 <= k' < |h0| ==> ts[j] !in h0[k']
    ensures var p := Replay(a0, h0, ts, |ts|);
      |p.schedule.slots| == |ts| && (ts[j] in p.histories[k] <==> p.schedule.slots[j].vm == k)
  {
    ReplayAllHistories(a0, h0, ts);
    HistoriesAfterMembership(h0, ts, Replay(a0, h0, ts, |ts|).schedule.slots, j, k);
  }

  /** With non-negative bursts, tasks on one machine do not overlap. */
  lemma ReplayNoOverlap(a0: seq<int>, h0: seq<seq<Task>>, ts: seq<Task>)
    requires a0 != [] && |h0| == |a0| && JobBurstsNonNegative(Jobs(ts))
    ensures NoOverlap(Replay(a0, h0, ts, |ts|).schedule.slots)
  {
    ReplayAll(a0, h0, ts);
    RunNoOverlap(a0, Jobs(ts));
  }

  /** With arrivals in order and non-negative bursts, tasks start in list
      order. */
  lemma ReplayStartsInOrder(a0: seq<int>, h0: seq<seq<Task>>, ts: seq<Task>)
    requires a0 != [] && |h0| == |a0| && JobBurstsNonNegative(Jobs(ts)) && ArrivalsOrdered(Jobs(ts))
    ensures StartsOrdered(Replay(a0, h0, ts, |ts|).schedule.slots)
  {
    ReplayAll(a0, h0, ts);
    RunStartsInOrder(a0, Jobs(ts));
  }

  /** From idle machines, with non-negative bursts and at least one task,
      the latest time a machine is free is the latest completion time. */
  lemma ReplayMakespan(a0: seq<int>, h0: seq<seq<Task>>, ts: seq<Task>)
    requires a0 != [] && |h0| == |a0| && ts != [] && JobBurstsNonNegative(Jobs(ts))
    requires forall k :: 0 <= k < |a0| ==> a0[k] == 0
    ensures IsLatestCompletion(Replay(a0, h0, ts, |ts|).schedule.slots, MaxOf(Replay(a0, h0, ts, |ts|).schedule.avail))
  {
    assert Jobs(ts) != [] by {
      assert |Jobs(ts)| == |ts|;
    }
    MakespanIsLatestCompletion(a0, Jobs(ts));
    ReplayAll(a0, h0, ts);
  }

  /** The histories' bursts grow by exactly the bursts of the tasks. */
  lemma ReplayBursts(a0: seq<int>, h0: seq<seq<Task>>, ts: seq<Task>)
    requires a0 != [] && |h0| == |a0|
    ensures Sum(BurstTotals(Replay(a0, h0, ts, |ts|).histories)) == Sum(BurstTotals(h0)) + SumBursts(ts)
  {
    ReplayAll(a0, h0, ts);
    ReplayAllHistories(a0, h0, ts);
    HistoriesAfterBursts(h0, ts, Replay(a0, h0, ts, |ts|).schedule.slots);
  }

  /** The figures calculate_metrics reports. */
  datatype Metrics = Metrics(makespan: int, avgUtilization: real, avgWaitingTime: real, avgTurnaroundTime: real)

  /** Sum of the machines' utilizations for the given makespan. */
  function TotalUtilization(vs: seq<VirtualMachine>, makespan: int): real
    reads vs
  {
    if vs == [] then 0.0
    else TotalUtilization(vs[..|vs| - 1], makespan) + vs[|vs| - 1].GetUtilization(makespan)
  }

  /** u percent of capacity time units is exactly busy time units. */
  ghost predicate BusyShare(u: real, capacity: int, busy: int)
  {
    u * capacity as real == busy as real * 100.0
  }

  /** For a non-zero makespan the utilizations add up to the total busy
      time as a percentage of the makespan. */
  lemma {:induction false} TotalUtilizationIsBusyShare(vs: seq<VirtualMachine>, makespan: int)
    requires makespan != 0
    ensures BusyShare(TotalUtilization(vs, makespan), makespan, Sum(BusyTimes(vs)))
  {
    if vs != [] {
      var n := |vs| - 1;
      TotalUtilizationIsBusyShare(vs[..n], makespan);
      assert BusyTimes(vs)[..n] == BusyTimes(vs[..n]);
      var u := vs[n].GetUtilization(makespan);
      calc {
        TotalUtilization(vs, makespan) * makespan as real;
        TotalUtilization(vs[..n], makespan) * makespan as real + u * makespan as real;
        Sum(BusyTimes(vs[..n])) as real * 100.0 + vs[n].totalBusyTime as real * 100.0;
        Sum(BusyTimes(vs)) as real * 100.0;
      }
    }
  }

  /** When every machine was busy between 0 and makespan units of time, the
      utilizations add up to between 0 and 100 per machine. */
  lemma {:induction false} TotalUtilizationBounds(vs: seq<VirtualMachine>, makespan: int)
    requires forall k :: 0 <= k < |vs| ==> 0 <= vs[k].totalBusyTime <= makespan
    ensures 0.0 <= TotalUtilization(vs, makespan) <= 100.0 * |vs| as real
  {
    if vs != [] {
      var n := |vs| - 1;
      TotalUtilizationBounds(vs[..n], makespan);
      var u := vs[n].GetUtilization(makespan);
      assert 0.0 <= u <= 100.0;
    }
  }

  /** The average of the utilizations of nv machines lies between 0 and
      100 and, for a non-zero makespan, is the busy time as a percentage of
      nv times the makespan. */
  lemma UtilizationAverage(u: real, nv: nat, busy: int, makespan: int)
    requires nv > 0 && 0.0 <= u <= 100.0 * nv as real
    ensures 0.0 <= u / nv as real <= 100.0
    ensures makespan != 0 && BusyShare(u, makespan, busy) ==> BusyShare(u / nv as real, nv * makespan, busy)
  {
    var a := u / nv as real;
    assert a * nv as real == u;
    assert (100.0 - a) * nv as real >= 0.0;
    assert a * (nv * makespan) as real == (a * nv as real) * makespan as real;
  }

  /** Averaging over n tasks splits turnaround into waiting plus burst. */
  lemma TurnaroundAverage(waiting: int, turnaround: int, bursts: int, n: nat)
    requires n > 0 && turnaround == waiting + bursts
    ensures turnaround as real / n as real == waiting as real / n as real + bursts as real / n as real
  {
  }

  /** Sum of the tasks' waiting times. */
  function TotalWaitingTime(ts: seq<Task>): int
    reads ts
  {
    if ts == [] then 0 else TotalWaitingTime(ts[..|ts| - 1]) + ts[|ts| - 1].WaitingTime()
  }

  /** Sum of the tasks' turnaround times. */
  function TotalTurnaroundTime(ts: seq<Task>): int
    reads ts
  {
    if ts == [] then 0 else TotalTurnaroundTime(ts[..|ts| - 1]) + ts[|ts| - 1].TurnaroundTime()
  }

  /** Once every task is scheduled, no waiting time is negative and the
      turnaround times add up to the waiting times plus the bursts. */
  lemma {:induction false} TotalsOfScheduled(ts: seq<Task>)
    requires forall j :: 0 <= j < |ts| ==> ts[j].Scheduled()
    ensures 0 <= TotalWaitingTime(ts)
    ensures TotalTurnaroundTime(ts) == TotalWaitingTime(ts) + SumBursts(ts)
  {
    if ts != [] {
      var n := |ts| - 1;
      TotalsOfScheduled(ts[..n]);
      assert ts[n].Scheduled();
    }
  }

  /** Machines as a new VirtualMachine leaves them: free at time 0 and
      with nothing run. */
  ghost predicate Idle(a0: seq<int>, h0: seq<seq<Task>>)
  {
    |a0| == |h0| && forall k :: 0 <= k < |a0| ==> a0[k] == 0 && h0[k] == []
  }

  class FCFSScheduler {
    var tasks: seq<Task>
    const vms: seq<VirtualMachine>
    var makespan: int

    /** A scheduler over the given tasks and machines, makespan 0. */
    constructor (tasks: seq<Task>, vms: seq<VirtualMachine>)
      ensures this.tasks == tasks && this.vms == vms && makespan == 0
    {
      this.tasks := tasks;
      this.vms := vms;
      makespan := 0;
    }

    /** Every machine keeps its bookkeeping invariant. */
    ghost predicate MachinesValid()
      reads vms
    {
      forall k {:trigger vms[k].Valid()} :: 0 <= k < |vms| ==> vms[k].Valid()
    }

    /** Puts the tasks in (arrival time, id) order. */
    method SortTasksByArrival()
      modifies this
      ensures tasks == SortByKey(old(tasks)) && multiset(tasks) == multiset(old(tasks))
      ensures makespan == old(makespan)
    {
      tasks := SortByKey(tasks);
    }

    /** Position of the machine that is free earliest, the first in list
        order among equals as min() picks it; None where min() fails on an
        empty machine list. */
    function FindEarliestAvailableVm(): (r: Option<nat>)
      reads vms
      ensures r.None? <==> vms == []
      ensures r.Some? ==> r.value < |vms| && r.value == EarliestIndex(AvailTimes(vms))
      ensures r.Some? ==> forall j :: 0 <= j < |vms| ==> vms[r.value].availableTime <= vms[j].availableTime
      ensures r.Some? ==> forall j :: 0 <= j < r.value ==> vms[r.value].availableTime < vms[j].availableTime
    {
      if vms == [] then None
      else
        var avail := AvailTimes(vms);
        assert forall j :: 0 <= j < |vms| ==> avail[j] == vms[j].availableTime;
        Some(EarliestIndex(avail))
    }

    /** Runs the task on the machine at position k, and nothing else: the
        other machines keep their state and every machine stays valid. */
    method AssignTo(k: nat, task: Task)
      requires k < |vms|
      requires forall k' :: 0 <= k' < |vms| && k' != k ==> vms[k'] != vms[k]
      requires MachinesValid()
      modifies vms[k], task
      ensures
        var start := Max(old(AvailTimes(vms))[k], task.arrival);
        && task.start == Some(start)
        && task.completion == Some(start + task.burst)
        && task.vmId == Some(vms[k].id)
        && AvailTimes(vms) == old(AvailTimes(vms))[k := start + task.burst]
      ensures Histories(vms) == old(Histories(vms))[k := old(Histories(vms))[k] + [task]]
      ensures forall k' :: 0 <= k' < |vms| && k' != k ==> unchanged(vms[k'])
      ensures MachinesValid()
    {
      var start, completion := vms[k].AssignTask(task);
      forall k' | 0 <= k' < |vms| && k' != k
        ensures unchanged(vms[k'])
      {
        assert vms[k'] != vms[k];
      }
    }

    /** The machines and the tasks ts agree with the state p of the
        simulation after the first i tasks: the machines are free at the
        times and hold the histories p records, and each of the first i
        tasks holds the times and machine of its slot. */
    ghost predicate Reflects(ts: seq<Task>, i: nat, p: Progress)
      reads vms, ts
    {
      var r := p.schedule;
      && i <= |ts| && |r.slots| == i && |r.avail| == |vms| && |p.histories| == |vms|
      && (forall j :: 0 <= j < i ==> r.slots[j].vm < |vms|)
      && AvailTimes(vms) == r.avail
      && (forall j :: 0 <= j < i ==>
            && ts[j].start == Some(r.slots[j].start)
            && ts[j].completion == Some(r.slots[j].completion)
            && ts[j].vmId == Some(vms[r.slots[j].vm].id))
      && Histories(vms) == p.histories
    }

    /** Reflects depends on the machines and the tasks only. */
    twostate lemma ReflectsFramed(ts: seq<Task>)
      requires unchanged(vms) && unchanged(ts)
      ensures forall i, p {:trigger Reflects(ts, i, p)} ::
        old(allocated(p)) && old(Reflects(ts, i, p)) ==> Reflects(ts, i, p)
    {
    }

    /** The body of the scheduling loop for the task at position i: it runs
        on machine k, the one free earliest, and the machines and tasks then
        agree with the state one task further. */
    method AssignNext(ts: seq<Task>, i: nat, k: nat, ghost p: Progress)
      requires i < |ts| && vms != [] && Distinct(ts) && Distinct(vms)
      requires Reflects(ts, i, p)
      requires MachinesValid()
      requires k == EarliestIndex(p.schedule.avail)
      modifies vms, ts[i]
      ensures Reflects(ts, i + 1, Advance(p, ts[i]))
      ensures MachinesValid()
    {
      var task := ts[i];
      forall k' | 0 <= k' < |vms| && k' != k ensures vms[k'] != vms[k] {
        DistinctIndices(vms, k', k);
      }
      AssignTo(k, task);
      ghost var r' := Step(p.schedule, Job(task.arrival, task.burst));
      forall j | 0 <= j < i + 1
        ensures ts[j].start == Some(r'.slots[j].start)
        ensures ts[j].completion == Some(r'.slots[j].completion)
        ensures ts[j].vmId == Some(vms[r'.slots[j].vm].id)
      {
        if j < i {
          DistinctIndices(ts, j, i);
          assert r'.slots[j] == r'.slots[..i][j];
        }
      }
    }

    /** One turn of the scheduling loop: the task at position i goes to the
        machine free earliest, and the machines and tasks then agree with
        the replay of one task more. */
    method ScheduleNext(ts: seq<Task>, i: nat, ghost a0: seq<int>, ghost h0: seq<seq<Task>>)
      requires i < |ts| && vms != [] && |a0| == |vms| && |h0| == |vms| && Distinct(ts) && Distinct(vms)
      requires MachinesValid()
      requires Reflects(ts, i, Replay(a0, h0, ts, i))
      modifies vms, ts[i]
      ensures MachinesValid()
      ensures Reflects(ts, i + 1, Replay(a0, h0, ts, i + 1))
    {
      var k := FindEarliestAvailableVm().value;
      AssignNext(ts, i, k, Replay(a0, h0, ts, i));
    }

    /** Sorts the tasks, then gives each in turn to the machine that is
        free earliest, and records as makespan the latest time a machine
        becomes free. Fails, as min() and max() do in the source, when there
        are no machines. Otherwise the machines and the sorted tasks end up
        agreeing with the replay of the sorted tasks. */
    method SimulateExecution() returns (error: Option<SchedulerError>)
      requires Distinct(tasks) && Distinct(vms)
      requires MachinesValid()
      modifies this, vms, tasks
      ensures tasks == SortByKey(old(tasks))
      ensures MachinesValid()
      ensures error.Some? <==> vms == []
      ensures error.Some? ==> error == Some(NoVirtualMachines) && makespan == old(makespan)
      ensures error.Some? ==> unchanged(old(tasks))
      ensures error.None? ==>
        Reflects(tasks, |tasks|, Replay(old(AvailTimes(vms)), old(Histories(vms)), tasks, |tasks|))
      ensures error.None? ==> makespan == MaxOf(AvailTimes(vms))
    {
      ghost var a0, h0 := AvailTimes(vms), Histories(vms);
      SortTasksByArrival();
      assert AvailTimes(vms) == a0 && Histories(vms) == h0;
      forall j | 0 <= j < |tasks| ensures tasks[j] in old(tasks) {
        assert tasks[j] in multiset(old(tasks));
      }
      error := ExecuteInOrder();
    }

    /** The loop of the simulation and the makespan after it. Fails when
        there are no machines to choose from. */
    method ExecuteInOrder() returns (error: Option<SchedulerError>)
      requires Distinct(tasks) && Distinct(vms)
      requires MachinesValid()
      modifies this, vms, tasks
      ensures tasks == old(tasks)
      ensures MachinesValid()
      ensures error.Some? <==> vms == []
      ensures error.Some? ==> error == Some(NoVirtualMachines) && makespan == old(makespan) && unchanged(tasks)
      ensures error.None? ==> makespan == MaxOf(AvailTimes(vms))
      ensures error.None? ==>
        Reflects(tasks, |tasks|, Replay(old(AvailTimes(vms)), old(Histories(vms)), tasks, |tasks|))
    {
      ghost var a0, h0 := AvailTimes(vms), Histories(vms);
      ghost var ts := tasks;
      error := AssignAll();
      assert tasks == ts;
      if error.None? {
        RecordMakespan(tasks, Replay(a0, h0, tasks, |tasks|));
      }
    }

    /** Records as makespan the latest time a machine becomes free, which
        changes neither the machines nor the tasks. */
    method RecordMakespan(ghost ts: seq<Task>, ghost p: Progress)
      requires vms != []
      requires MachinesValid() && Reflects(ts, |ts|, p)
      modifies this
      ensures makespan == MaxOf(AvailTimes(vms)) && tasks == old(tasks)
      ensures MachinesValid() && Reflects(ts, |ts|, p)
    {
      label before:
      makespan := MaxOf(AvailTimes(vms));
      ReflectsFramed@before(ts);
    }

    /** The loop of the simulation: the tasks, in their current order, each
        go to the machine free earliest. Fails when there are no machines to
        choose from. */
    method AssignAll() returns (error: Option<SchedulerError>)
      requires Distinct(tasks) && Distinct(vms)
      requires MachinesValid()
      modifies vms, tasks
      ensures MachinesValid()
      ensures error.Some? <==> vms == []
      ensures error.Some? ==> error == Some(NoVirtualMachines) && unchanged(tasks)
      ensures error.None? ==>
        Reflects(tasks, |tasks|, Replay(old(AvailTimes(vms)), old(Histories(vms)), tasks, |tasks|))
    {
      if vms == [] {
        // min() fails on the first task, or max() right after an empty loop
        return Some(NoVirtualMachines);
      }
      var ts := tasks;
      error := None;
      AssignEach(ts);
      assert tasks == ts;
    }

    /** The loop itself, over the tasks ts and at least one machine. */
    method AssignEach(ts: seq<Task>)
      requires vms != [] && Distinct(ts) && Distinct(vms)
      requires MachinesValid()
      modifies vms, ts
      ensures MachinesValid()
      ensures Reflects(ts, |ts|, Replay(old(AvailTimes(vms)), old(Histories(vms)), ts, |ts|))
    {
      ghost var a0, h0 := AvailTimes(vms), Histories(vms);
      var i := 0;
      while i < |ts|
        invariant 0 <= i <= |ts|
        invariant MachinesValid()
        invariant Reflects(ts, i, Replay(a0, h0, ts, i))
      {
        ScheduleNext(ts, i, a0, h0);
        i := i + 1;
      }
    }

    /** The averages calculate_metrics reports: utilization over the
        machines, waiting and turnaround time over the tasks. Fails where
        the source divides by zero: first for no machines, then for no
        tasks. */
    function CalculateMetrics(): (r: Result<Metrics, SchedulerError>)
      reads this, vms, tasks
      ensures r == Failure(NoVirtualMachines) <==> vms == []
      ensures r == Failure(NoTasks) <==> vms != [] && tasks == []
      ensures r.Success? ==>
        && r.value.makespan == makespan
        && r.value.avgUtilization * |vms| as real == TotalUtilization(vms, makespan)
        && r.value.avgWaitingTime * |tasks| as real == TotalWaitingTime(tasks) as real
        && r.value.avgTurnaroundTime * |tasks| as real == TotalTurnaroundTime(tasks) as real
    {
      if vms == [] then Failure(NoVirtualMachines)
      else if tasks == [] then Failure(NoTasks)
      else
        var utilization := TotalUtilization(vms, makespan) / |vms| as real;
        var waiting := TotalWaitingTime(tasks) as real / |tasks| as real;
        var turnaround := TotalTurnaroundTime(tasks) as real / |tasks| as real;
        Success(Metrics(makespan, utilization, waiting, turnaround))
    }

    /** After a simulation from idle machines with at least one task and no
        negative burst, the metrics exist; average utilization lies between
        0 and 100 and, for a non-zero makespan, is the total burst time as a
        percentage of machines times makespan; average waiting time is not
        negative, and average turnaround time is average waiting time plus
        the average burst. */
    lemma MetricsAfterSimulation(a0: seq<int>, h0: seq<seq<Task>>)
      requires Finished(tasks, a0, h0) && Idle(a0, h0) && MachinesValid()
      requires tasks != [] && BurstsNonNegative(tasks) && makespan == MaxOf(AvailTimes(vms))
      ensures var r := CalculateMetrics();
        && r.Success?
        && 0.0 <= r.value.avgUtilization <= 100.0
        && (makespan != 0 ==> BusyShare(r.value.avgUtilization, |vms| * makespan, SumBursts(tasks)))
        && 0.0 <= r.value.avgWaitingTime
        && r.value.avgTurnaroundTime == r.value.avgWaitingTime + SumBursts(tasks) as real / |tasks| as real
    {
      var ts := tasks;
      var u := TotalUtilization(vms, makespan);
      var tw, tt := TotalWaitingTime(ts), TotalTurnaroundTime(ts);
      assert CalculateMetrics() == Success(Metrics(makespan, u / |vms| as real, tw as real / |ts| as real, tt as real / |ts| as real));
      assert tt == tw + SumBursts(ts) && 0 <= tw by {
        FinishedTasksPlaced(ts, a0, h0);
        TotalsOfScheduled(ts);
      }
      assert 0.0 <= u <= 100.0 * |vms| as real by {
        FinishedBusyBounded(ts, a0, h0);
        TotalUtilizationBounds(vms, makespan);
      }
      var busy := Sum(BusyTimes(vms));
      assert busy == SumBursts(ts) by {
        FinishedBusyTotal(ts, a0, h0);
      }
      UtilizationAverage(u, |vms|, busy, makespan);
      if makespan != 0 {
        TotalUtilizationIsBusyShare(vms, makespan);
      }
      TurnaroundAverage(tw, tt, busy, |ts|);
    }

    /** The state SimulateExecution leaves on success: at least one machine,
        and the machines (free at a0 with histories h0 before) and the tasks
        ts agree with the replay of all of ts. */
    ghost predicate Finished(ts: seq<Task>, a0: seq<int>, h0: seq<seq<Task>>)
      reads vms, ts
    {
      vms != [] && |a0| == |vms| && |h0| == |vms| && Reflects(ts, |ts|, Replay(a0, h0, ts, |ts|))
    }

    /** After the simulation every task is scheduled (started no earlier
        than it arrived, ran for its burst), names a machine of vms, and is
        in that machine's history. */
    lemma FinishedTasksPlaced(ts: seq<Task>, a0: seq<int>, h0: seq<seq<Task>>)
      requires Finished(ts, a0, h0)
      ensures forall j :: 0 <= j < |ts| ==> ts[j].Scheduled()
      ensures forall j :: 0 <= j < |ts| ==>
        exists k :: 0 <= k < |vms| && ts[j].vmId == Some(vms[k].id) && ts[j] in vms[k].history
    {
      var p := Replay(a0, h0, ts, |ts|);
      forall j | 0 <= j < |ts|
        ensures ts[j].Scheduled()
        ensures exists k :: 0 <= k < |vms| && ts[j].vmId == Some(vms[k].id) && ts[j] in vms[k].history
      {
        ReplaySlot(a0, h0, ts, j);
        var k := p.schedule.slots[j].vm;
        assert ts[j] in vms[k].history;
      }
    }

    /** From idle machines, each machine's history is exactly the tasks
        placed on it in list order, and so in key order when the list is;
        with no task listed twice, no task is in two histories. */
    lemma FinishedHistories(ts: seq<Task>, a0: seq<int>, h0: seq<seq<Task>>)
      requires Finished(ts, a0, h0) && Idle(a0, h0)
      ensures forall k :: 0 <= k < |vms| ==>
        vms[k].history == OnMachine(ts, Replay(a0, h0, ts, |ts|).schedule.slots, k)
      ensures Ordered(ts) ==> forall k :: 0 <= k < |vms| ==> Ordered(vms[k].history)
      ensures Distinct(ts) ==> forall j, k, k' | 0 <= j < |ts| && 0 <= k < |vms| && 0 <= k' < |vms| ::
        ts[j] in vms[k].history && ts[j] in vms[k'].history ==> k == k'
    {
      var p := Replay(a0, h0, ts, |ts|);
      forall k | 0 <= k < |vms|
        ensures vms[k].history == OnMachine(ts, p.schedule.slots, k)
        ensures Ordered(ts) ==> Ordered(vms[k].history)
      {
        ReplayHistory(a0, h0, ts, k);
        assert h0[k] + OnMachine(ts, p.schedule.slots, k) == OnMachine(ts, p.schedule.slots, k);
        if Ordered(ts) {
          OnMachineOrdered(ts, p.schedule.slots, k);
        }
      }
      if Distinct(ts) {
        forall j, k, k' | 0 <= j < |ts| && 0 <= k < |vms| && 0 <= k' < |vms| &&
          ts[j] in vms[k].history && ts[j] in vms[k'].history
          ensures k == k'
        {
          ReplayMembership(a0, h0, ts, j, k);
          ReplayMembership(a0, h0, ts, j, k');
        }
      }
    }

    /** From idle machines, with no task listed twice and no negative
        burst, two tasks in one machine's history never overlap: the one
        earlier in the list completes before the later one starts. */
    lemma FinishedNoOverlap(ts: seq<Task>, a0: seq<int>, h0: seq<seq<Task>>)
      requires Finished(ts, a0, h0) && Idle(a0, h0) && Distinct(ts) && BurstsNonNegative(ts)
      ensures forall j, j', k | 0 <= j < j' < |ts| && 0 <= k < |vms| ::
        ts[j] in vms[k].history && ts[j'] in vms[k].history ==> ts[j].completion.value <= ts[j'].start.value
    {
      var p := Replay(a0, h0, ts, |ts|);
      ReplayNoOverlap(a0, h0, ts);
      forall j, j', k | 0 <= j < j' < |ts| && 0 <= k < |vms| && ts[j] in vms[k].history && ts[j'] in vms[k].history
        ensures ts[j].completion.value <= ts[j'].start.value
      {
        ReplayMembership(a0, h0, ts, j, k);
        ReplayMembership(a0, h0, ts, j', k);
      }
    }

    /** First come, first served: when the list is in key order and no
        burst is negative, no task starts before one ahead of it. */
    lemma FinishedStartsInOrder(ts: seq<Task>, a0: seq<int>, h0: seq<seq<Task>>)
      requires Finished(ts, a0, h0) && Ordered(ts) && BurstsNonNegative(ts)
      ensures forall j, j' :: 0 <= j <= j' < |ts| ==> ts[j].start.value <= ts[j'].start.value
    {
      assert ArrivalsOrdered(Jobs(ts)) by {
        forall j, j' | 0 <= j <= j' < |ts| ensures ts[j].arrival <= ts[j'].arrival {
          if j < j' {
            assert KeyLe(ts[j], ts[j']);
          }
        }
      }
      ReplayStartsInOrder(a0, h0, ts);
    }

    /** From idle machines, with no negative burst and at least one task,
        the latest time a machine becomes free is the latest completion
        time of a task. */
    lemma FinishedMakespan(ts: seq<Task>, a0: seq<int>, h0: seq<seq<Task>>)
      requires Finished(ts, a0, h0) && Idle(a0, h0) && BurstsNonNegative(ts) && ts != []
      ensures forall j :: 0 <= j < |ts| ==> ts[j].completion.value <= MaxOf(AvailTimes(vms))
      ensures exists j :: 0 <= j < |ts| && ts[j].completion == Some(MaxOf(AvailTimes(vms)))
    {
      var p := Replay(a0, h0, ts, |ts|);
      ReplayMakespan(a0, h0, ts);
      var j :| 0 <= j < |ts| && p.schedule.slots[j].completion == MaxOf(p.schedule.avail);
      assert ts[j].completion == Some(MaxOf(AvailTimes(vms)));
    }

    /** From idle machines that keep their bookkeeping, the busy times add
        up to the bursts of all tasks. */
    lemma FinishedBusyTotal(ts: seq<Task>, a0: seq<int>, h0: seq<seq<Task>>)
      requires Finished(ts, a0, h0) && Idle(a0, h0) && MachinesValid()
      ensures Sum(BusyTimes(vms)) == SumBursts(ts)
    {
      var p := Replay(a0, h0, ts, |ts|);
      ReplayBursts(a0, h0, ts);
      assert BusyTimes(vms) == BurstTotals(p.histories) by {
        forall k | 0 <= k < |vms| ensures BusyTimes(vms)[k] == BurstTotals(p.histories)[k] {
          assert vms[k].Valid();
        }
      }
      SumBounds(BurstTotals(h0), 0, 0);
    }

    /** From idle machines that keep their bookkeeping, with no negative
        burst, each machine was busy between 0 and makespan units of time. */
    lemma FinishedBusyBounded(ts: seq<Task>, a0: seq<int>, h0: seq<seq<Task>>)
      requires Finished(ts, a0, h0) && Idle(a0, h0) && MachinesValid() && BurstsNonNegative(ts)
      ensures forall k :: 0 <= k < |vms| ==> 0 <= vms[k].totalBusyTime <= MaxOf(AvailTimes(vms))
    {
      var p := Replay(a0, h0, ts, |ts|);
      forall k | 0 <= k < |vms| ensures 0 <= vms[k].totalBusyTime <= MaxOf(AvailTimes(vms)) {
        ReplayHistory(a0, h0, ts, k);
        assert BurstsNonNegative(vms[k].history) by {
          forall i | 0 <= i < |p.histories[k]| ensures 0 <= p.histories[k][i].burst {
            assert p.histories[k][i] in OnMachine(ts, p.schedule.slots, k);
          }
        }
        assert vms[k].Valid();
        assert AvailTimes(vms)[k] in AvailTimes(vms);
      }
    }
  }
}
