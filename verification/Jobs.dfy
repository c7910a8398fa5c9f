module Jobs {
  /** What can be scheduled: a fiber, the callback of a sleep that schedules a fiber, or another callback. */
  datatype Job = FiberJob(f: nat) | Wake(f: nat) | Call(id: nat)
}
