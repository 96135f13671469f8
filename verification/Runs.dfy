/** Stored runs, as the thread sweep and the scheduler see them. */
module Runs {
  /** `Finished` stands for every status that is neither pending nor running. */
  datatype Status = Pending | Running | Finished

  datatype Run = Run(id: nat, thread: string, status: Status, createdAt: int)

  predicate Active(r: Run) {
    r.status.Pending? || r.status.Running?
  }
}
