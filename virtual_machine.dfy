/** A virtual machine that runs tasks one after another and keeps its own
    bookkeeping: when it is free next, how long it has been busy, and which
    tasks it ran, in order. */
module VirtualMachines {
  import opened Wrappers
  import opened Tasks
  import opened Sequences

  /** Total burst time of a sequence of tasks. */
  function SumBursts(ts: seq<Task>): int
  {
    if ts == [] then 0 else SumBursts(ts[..|ts| - 1]) + ts[|ts| - 1].burst
  }

  /** No task in ts has a negative burst. */
  predicate BurstsNonNegative(ts: seq<Task>)
  {
    forall j :: 0 <= j < |ts| ==> 0 <= ts[j].burst
  }

  class VirtualMachine {
    const id: string
    var availableTime: int
    var totalBusyTime: int
    var history: seq<Task>

    /** The bookkeeping invariant: busy time is the sum of the bursts of the
        tasks run so far and, while no burst is negative, lies between 0 and
        the time at which the machine is free next. */
    ghost predicate Valid()
      reads this
    {
      && totalBusyTime == SumBursts(history)
      && (BurstsNonNegative(history) ==> 0 <= totalBusyTime <= availableTime)
    }

    /** A new machine is free at time 0, has never been busy and has run
        nothing. */
    constructor (id: string)
      ensures this.id == id
      ensures availableTime == 0 && totalBusyTime == 0 && history == []
      ensures Valid()
    {
      this.id := id;
      availableTime := 0;
      history := [];
      totalBusyTime := 0;
    }

    /** Runs task as soon as both the machine is free and the task has
        arrived, records the result in the task and in the machine, and
        returns the start and completion time. */
    method AssignTask(task: Task) returns (start: int, completion: int)
      modifies this, task
      ensures start == Max(old(availableTime), task.arrival)
      ensures completion == start + task.burst
      ensures task.start == Some(start) && task.completion == Some(completion)
      ensures task.vmId == Some(id)
      ensures availableTime == completion
      ensures totalBusyTime == old(totalBusyTime) + task.burst
      ensures history == old(history) + [task]
      ensures 0 <= task.burst ==> old(availableTime) <= availableTime
      ensures old(Valid()) ==> Valid()
    {
      start := Max(availableTime, task.arrival);
      completion := start + task.burst;

      task.start := Some(start);
      task.completion := Some(completion);
      task.vmId := Some(id);

      ghost var before := history;
      availableTime := completion;
      totalBusyTime := totalBusyTime + task.burst;
      history := history + [task];

      assert history[..|history| - 1] == before;
      assert BurstsNonNegative(history) ==> BurstsNonNegative(before) by {
        if BurstsNonNegative(history) {
          forall j | 0 <= j < |before| ensures 0 <= before[j].burst {
            assert before[j] == history[j];
          }
        }
      }
    }

    /** Share of the makespan this machine was busy, as a percentage; 0 for
        a zero makespan. */
    function GetUtilization(makespan: int): (u: real)
      reads this
      ensures makespan == 0 ==> u == 0.0
      ensures makespan != 0 ==> u * makespan as real == totalBusyTime as real * 100.0
      ensures 0 <= totalBusyTime <= makespan ==> 0.0 <= u <= 100.0
    {
      if makespan == 0 then 0.0
      else (totalBusyTime as real / makespan as real) * 100.0
    }
  }

  /** When each machine becomes free, in list order. */
  function AvailTimes(vs: seq<VirtualMachine>): (r: seq<int>)
    reads vs
    ensures |r| == |vs|
    ensures forall k {:trigger r[k]} :: 0 <= k < |vs| ==> r[k] == vs[k].availableTime
  {
    seq(|vs|, k requires 0 <= k < |vs| reads vs => vs[k].availableTime)
  }

  /** Busy time of each machine, in list order. */
  function BusyTimes(vs: seq<VirtualMachine>): (r: seq<int>)
    reads vs
    ensures |r| == |vs|
    ensures forall k {:trigger r[k]} :: 0 <= k < |vs| ==> r[k] == vs[k].totalBusyTime
  {
    seq(|vs|, k requires 0 <= k < |vs| reads vs => vs[k].totalBusyTime)
  }

  /** Each machine's task history, in list order. */
  ghost function Histories(vs: seq<VirtualMachine>): (r: seq<seq<Task>>)
    reads vs
    ensures |r| == |vs|
    ensures forall k {:trigger r[k]} :: 0 <= k < |vs| ==> r[k] == vs[k].history
  {
    seq(|vs|, k requires 0 <= k < |vs| reads vs => vs[k].history)
  }
}
