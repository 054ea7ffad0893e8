# FCFS scheduling of video rendering tasks on virtual machines

This project models the core of a cloud rendering scheduler that uses
multi-server, non-preemptive First Come First Served scheduling. It
consists of three parts:

- **Tasks.** A task (`Tasks.Task`) has an id, an arrival time and a burst
  time. Its start time, completion time and machine id stay unset until a
  machine runs it.
- **Virtual machines.** A virtual machine (`VirtualMachines.VirtualMachine`)
  records the time it is free next, its total busy time and the tasks it
  has run. `AssignTask` runs a task as soon as both the machine is free
  and the task has arrived.
- **The scheduler.** The scheduler (`Scheduler.FCFSScheduler`) works in
  three steps:
  1. It sorts its task list by (arrival time, task id).
  2. It hands the tasks one by one to the machine that is free earliest.
     Among equals, that is the first in list order, as Python's `min`
     returns.
  3. It records the makespan, the latest time a machine becomes free.

  `CalculateMetrics` then computes the average utilization, the average
  waiting time and the average turnaround time.

The classes keep the source's mutable state. Task results are `Option`
fields written by `AssignTask`. Machines update their fields in place, and
the scheduler holds its task list as a `seq` that sorting reassigns. The
scheduling loop is an imperative `while` loop. It is proved against a pure
reference schedule:

- `Fcfs.Run` is the policy on plain values, defined over `Job`, `Slot` and
  `Schedule`.
- `Scheduler.Replay` is the same policy over the task objects, with the
  machines' histories added.

After the loop, the machines and tasks agree with the replay of the sorted
list (`FCFSScheduler.Reflects`). The lemmas about `Run` carry over to the
objects through the `Finished*` lemmas:

- no two tasks on one machine overlap;
- tasks start in arrival order;
- the makespan is the latest completion time;
- busy time is conserved;
- each task appears in exactly one history.

Failures are modelled as values. Where Python raises an exception, the model
returns a result:

- `min`/`max` over an empty machine list becomes `NoVirtualMachines`;
- division by zero in `calculate_metrics` becomes `NoVirtualMachines` or
  `NoTasks`.

The sample scenario of the entry point (six tasks, three machines) is
proved end to end, from creating the objects to the returned metrics:

- makespan 15;
- total waiting time 7 and total turnaround time 40;
- average utilization 220/3 %, average waiting time 7/6 and average
  turnaround time 40/6.

Where the code and its documentation disagree, the model follows the code.
The docstring of `sort_tasks_by_arrival` says that tasks with equal arrival
times keep their original order. The key actually breaks ties by task id,
compared as Python compares strings, and `TaskOrder.KeyLe` models that key.

Files:

- `wrappers.dfy`: `Option`, `Result`.
- `sequences.dfy`: `Max`, `Sum`, `MaxOf`.
- `task.dfy`: the task record.
- `virtual_machine.dfy`: the machine bookkeeping.
- `task_order.dfy`: the sort key and the sort.
- `fcfs.dfy`: the reference policy.
- `scheduler.dfy`: the scheduler class, the replay and the metrics.
- `sample.dfy`: the sample scenario.

## Model

| member | source | states |
|---|---|---|
| Tasks.Task.constructor | fcfs_scheduler/task.py:27-32 | a new task keeps its id, arrival and burst, and its start, completion and machine id are unset |
| Tasks.Task.WaitingTime | fcfs_scheduler/task.py:45-47 | 0 while the start is unset; otherwise arrival plus waiting time is the start; never negative for a scheduled task |
| Tasks.Task.TurnaroundTime | fcfs_scheduler/task.py:56-58 | 0 while the completion is unset; otherwise arrival plus turnaround is the completion; for a scheduled task, turnaround is waiting time plus burst |
| VirtualMachines.VirtualMachine.constructor | fcfs_scheduler/virtual_machine.py:23-26 | a new machine is free at 0, was never busy, has an empty history and satisfies the bookkeeping invariant |
| VirtualMachines.VirtualMachine.AssignTask | fcfs_scheduler/virtual_machine.py:39-52 | start is the later of the old free time and the arrival; completion is start plus burst; both and the machine id are written into the task; the machine is free at completion; busy time grows by the burst; the history grows by exactly the task at the end; free time never decreases for a non-negative burst; busy time stays the sum of the history's bursts |
| VirtualMachines.VirtualMachine.GetUtilization | fcfs_scheduler/virtual_machine.py:64-66 | 0 for makespan 0; otherwise utilization times makespan is 100 times busy time; between 0 and 100 when busy time lies between 0 and the makespan |
| TaskOrder.Insert | fcfs_scheduler/scheduler.py:29 | inserting a task adds exactly that task to the list's multiset |
| TaskOrder.SortByKey | fcfs_scheduler/scheduler.py:29 | the sorted list is a permutation of the input |
| TaskOrder.InsertOrdered | fcfs_scheduler/scheduler.py:29 | inserting into a list in (arrival, id) order keeps it in that order |
| TaskOrder.SortByKeyOrdered | fcfs_scheduler/scheduler.py:29 | the sorted list is in (arrival, id) order, ids compared as Python strings |
| TaskOrder.SortByKeyOfOrdered | fcfs_scheduler/scheduler.py:29 | sorting a list that is already in key order leaves it unchanged |
| TaskOrder.StrLeTotal | fcfs_scheduler/scheduler.py:29 | any two ids are comparable in Python's string order |
| TaskOrder.StrLeTransitive | fcfs_scheduler/scheduler.py:29 | Python's string order is transitive |
| TaskOrder.StrLeAntisymmetric | fcfs_scheduler/scheduler.py:29 | two ids that are each at or before the other are equal |
| Scheduler.FCFSScheduler.constructor | fcfs_scheduler/scheduler.py:20-22 | the scheduler keeps the given tasks and machines, and its makespan is 0 |
| Scheduler.FCFSScheduler.SortTasksByArrival | fcfs_scheduler/scheduler.py:24-29 | the task list becomes its (arrival, id) sort, a permutation of the old list; the makespan is unchanged |
| Fcfs.EarliestIndex | fcfs_scheduler/scheduler.py:38 | the chosen machine is free no later than any machine and strictly earlier than every machine before it in the list |
| Scheduler.FCFSScheduler.FindEarliestAvailableVm | fcfs_scheduler/scheduler.py:31-38 | fails exactly when there are no machines; otherwise it returns the first machine in list order whose free time is minimal |
| Fcfs.Step | fcfs_scheduler/scheduler.py:62-63 | one more job takes a new slot on a machine free earliest, starts at the later of that machine's free time and its arrival, runs for its burst, and only that machine's free time changes; earlier slots are kept |
| Fcfs.Run | fcfs_scheduler/scheduler.py:61-63 | every job gets a slot on one of the machines, starting no earlier than its arrival and completing after exactly its burst |
| Fcfs.RunMonotone | fcfs_scheduler/virtual_machine.py:39-48 | with non-negative bursts no machine becomes free earlier than it was, and each job completes no later than its machine is free |
| Fcfs.RunAvailIsLastCompletion | fcfs_scheduler/virtual_machine.py:48-50 | each machine is free at its initial time if nothing ran on it, and otherwise at the completion of the last job placed on it |
| Fcfs.RunNoOverlap | fcfs_scheduler/virtual_machine.py:39-48 | with non-negative bursts, of two jobs on one machine the earlier completes before the later starts |
| Fcfs.RunLastStart | fcfs_scheduler/virtual_machine.py:39 | the job placed last starts no later than any machine's free time or its arrival, whichever is later |
| Fcfs.RunStartsInOrder | fcfs_scheduler/scheduler.py:61-63 | first come, first served: with arrivals in order and non-negative bursts, start times are in list order |
| Fcfs.MakespanIsLatestCompletion | fcfs_scheduler/scheduler.py:73 | from idle machines with at least one job, the latest free time is at least every completion and equals one |
| Scheduler.HistoriesAfterSplits | fcfs_scheduler/virtual_machine.py:50 | a machine's history is its earlier history followed by the tasks placed on it, in list order |
| Scheduler.OnMachineOrdered | fcfs_scheduler/scheduler.py:61-63 | the tasks placed on one machine keep the key order of the list |
| Scheduler.HistoriesAfterMembership | fcfs_scheduler/scheduler.py:61-63 | with no task listed twice or run before, a task is in a machine's history exactly when its slot is on that machine |
| Scheduler.HistoriesAfterBursts | fcfs_scheduler/virtual_machine.py:49-50 | the bursts of all histories together grow by exactly the bursts of the tasks placed |
| Scheduler.ReplayIsRun | fcfs_scheduler/scheduler.py:61-63 | replaying tasks one at a time on the objects' values gives the reference schedule of their jobs |
| Scheduler.ReplayHistories | fcfs_scheduler/scheduler.py:61-63 | after the first n tasks, each is in order in the history of the machine of its slot |
| Scheduler.FCFSScheduler.AssignTo | fcfs_scheduler/scheduler.py:62-63 | running a task on the machine at position k writes the task's start, completion and machine id; only that machine's free time and history change; every other machine is unchanged |
| Scheduler.FCFSScheduler.AssignNext | fcfs_scheduler/scheduler.py:61-63 | one loop body moves the machines and tasks from the state after i tasks to the state after i + 1 |
| Scheduler.FCFSScheduler.ScheduleNext | fcfs_scheduler/scheduler.py:61-63 | choosing the earliest free machine and running task i keeps the objects agreeing with the replay of one more task |
| Scheduler.FCFSScheduler.AssignEach | fcfs_scheduler/scheduler.py:61-63 | after the loop, the machines and all tasks agree with the replay of the whole list from the machines' initial state |
| Scheduler.FCFSScheduler.AssignAll | fcfs_scheduler/scheduler.py:61-63 | fails exactly when there are no machines, leaving every task object as it was; otherwise the objects agree with the replay of the list |
| Scheduler.FCFSScheduler.RecordMakespan | fcfs_scheduler/scheduler.py:73 | the makespan becomes the latest free time, and the machines and tasks are unchanged |
| Scheduler.FCFSScheduler.ExecuteInOrder | fcfs_scheduler/scheduler.py:61-73 | fails exactly when there are no machines and then leaves the makespan and every task object alone; otherwise the objects agree with the replay and the makespan is the latest free time |
| Scheduler.FCFSScheduler.SimulateExecution | fcfs_scheduler/scheduler.py:40-73 | the tasks end up sorted; fails with NoVirtualMachines exactly when there are no machines, and then leaves the makespan and every task object as they were; otherwise the machines and tasks agree with the replay of the sorted tasks, and the makespan is the latest free time |
| Scheduler.FCFSScheduler.FinishedTasksPlaced | fcfs_scheduler/scheduler.py:61-63 | after simulation every task is scheduled, names one of the machines, and is in that machine's history |
| Scheduler.FCFSScheduler.FinishedHistories | fcfs_scheduler/scheduler.py:61-63 | from idle machines, each history is exactly the tasks placed on that machine in list order, and in key order when the list is; no task is in two histories |
| Scheduler.FCFSScheduler.FinishedNoOverlap | fcfs_scheduler/virtual_machine.py:39-48 | two tasks in one machine's history never overlap |
| Scheduler.FCFSScheduler.FinishedStartsInOrder | fcfs_scheduler/scheduler.py:61-63 | with the list in key order and non-negative bursts, no task starts before one ahead of it |
| Scheduler.FCFSScheduler.FinishedMakespan | fcfs_scheduler/scheduler.py:73 | the makespan is at least every task's completion and equals the completion of some task |
| Scheduler.FCFSScheduler.FinishedBusyTotal | fcfs_scheduler/virtual_machine.py:49 | the machines' busy times add up to the bursts of all tasks |
| Scheduler.FCFSScheduler.FinishedBusyBounded | fcfs_scheduler/virtual_machine.py:49 | each machine's busy time lies between 0 and the makespan |
| Scheduler.FCFSScheduler.CalculateMetrics | fcfs_scheduler/scheduler.py:96-122 | fails with NoVirtualMachines exactly when there are no machines and with NoTasks exactly when there are machines but no tasks; otherwise it reports the makespan, and each average times its count is the corresponding total |
| Scheduler.TotalUtilizationIsBusyShare | fcfs_scheduler/scheduler.py:102 | for a non-zero makespan, the utilizations add up to 100 times the total busy time divided by the makespan |
| Scheduler.TotalUtilizationBounds | fcfs_scheduler/scheduler.py:102 | when each machine was busy between 0 and makespan units, the utilizations add up to between 0 and 100 per machine |
| Scheduler.TotalsOfScheduled | fcfs_scheduler/scheduler.py:106-107 | once every task is scheduled, total waiting time is not negative and total turnaround time is total waiting time plus total burst |
| Scheduler.FCFSScheduler.MetricsAfterSimulation | fcfs_scheduler/scheduler.py:102-110 | after a simulation from idle machines with at least one task: the metrics exist; average utilization is between 0 and 100 and is the total burst as a percentage of machines times makespan; average waiting time is not negative; average turnaround time is average waiting time plus average burst |
| Sample.NewSampleTasks | fcfs_scheduler/main.py:28-35 | six new, distinct tasks with the sample's arrivals and bursts |
| Sample.NewMachines | fcfs_scheduler/main.py:49 | three new, distinct, idle machines |
| Sample.SampleSorted | fcfs_scheduler/scheduler.py:29 | sorting the sample tasks keeps their order |
| Sample.SampleSchedule | fcfs_scheduler/main.py:28-35 | on three idle machines, T1 and T4 go to the first machine, T2 and T6 to the second, T3 and T5 to the third, with the listed start and end times; makespan 15, total waiting 7, total turnaround 40 |
| Sample.SampleSimulation | fcfs_scheduler/main.py:74-78 | simulating the sample on three new machines gives makespan 15, totals 7 and 40, and metrics 220/3, 7/6 and 40/6 |
| Sample.RunSample | fcfs_scheduler/main.py:66-78 | creating the sample tasks and machines, simulating and measuring returns makespan 15, average utilization 220/3, average waiting time 7/6 and average turnaround time 40/6 |

## Left out

- The visualizer (Gantt chart and utilization plots written as PNG files) and the entry point's banner and summary output are not modelled. They are presentation built on foreign plotting libraries.
- The `print` calls in the scheduler and their `:.2f` rounding are not modelled. They are console output.
- `get_scheduling_data` and the `__repr__` methods are not modelled. They only build dictionaries and strings for display.
- Floating-point division in `get_utilization` and the averages is modelled as exact `real` division. IEEE rounding is not captured.
- Python's `ValueError` and `ZeroDivisionError` are modelled as `SchedulerError` values, not as exceptions.
- Scheduler.FCFSScheduler.SimulateExecution: requires that no task object and no machine object is listed twice, and that every machine keeps its bookkeeping invariant. The source runs on any lists. With an aliased task the same object would be scheduled twice.
- Scheduler.FCFSScheduler.SimulateExecution: on success its result is stated relative to the replay of the sorted list from the machines' state before the call. The properties of that state are the separate `Finished*` lemmas, which assume idle machines and no negative burst where they need them.
- TaskOrder.SortByKey: stability is not stated. Stability means that tasks with equal arrival and equal id keep their input order. The sort is the stable insertion sort, but only its ordering and permutation are proved.
- Scheduler.FCFSScheduler.SortTasksByArrival: the in-place `list.sort` is modelled as reassigning the scheduler's task list to its sorted value. The entry point's own list (fcfs_scheduler/main.py:66) is the same list object, so the source reorders it too; the model does not capture this aliasing of the list. The entry point reads only that list's length afterwards.
- Scheduler.FCFSScheduler.CalculateMetrics: it reports only the four returned figures. The per-machine utilizations the source prints are available through `GetUtilization` but are not part of the result.
