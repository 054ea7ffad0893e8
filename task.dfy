/** A video rendering job: its arrival and burst time, and the three result
    fields that the virtual machine running it fills in. */
module Tasks {
  import opened Wrappers

  class Task {
    const id: string
    const arrival: int
    const burst: int
    var start: Option<int>
    var completion: Option<int>
    var vmId: Option<string>

    /** A new task keeps the given identity and times and is not scheduled. */
    constructor (id: string, arrival: int, burst: int)
      ensures this.id == id && this.arrival == arrival && this.burst == burst
      ensures Unassigned()
    {
      this.id := id;
      this.arrival := arrival;
      this.burst := burst;
      start := None;
      completion := None;
      vmId := None;
    }

    /** None of the result fields has been written yet. */
    predicate Unassigned()
      reads this
    {
      start.None? && completion.None? && vmId.None?
    }

    /** The result fields as a virtual machine leaves them: all set, the task
        starts no earlier than it arrives and runs for exactly its burst. */
    predicate Scheduled()
      reads this
    {
      && start.Some? && completion.Some? && vmId.Some?
      && arrival <= start.value
      && completion.value == start.value + burst
    }

    /** Time between arrival and start; 0 while the task has no start time. */
    function WaitingTime(): (w: int)
      reads this
      ensures start.None? ==> w == 0
      ensures start.Some? ==> arrival + w == start.value
      ensures Scheduled() ==> 0 <= w
    {
      if start.Some? then start.value - arrival else 0
    }

    /** Time between arrival and completion; 0 while the task has no
        completion time. */
    function TurnaroundTime(): (t: int)
      reads this
      ensures completion.None? ==> t == 0
      ensures completion.Some? ==> arrival + t == completion.value
      ensures Scheduled() ==> t == WaitingTime() + burst
    {
      if completion.Some? then completion.value - arrival else 0
    }
  }
}
