/** Balancing events: what the root of a job announces about its demand and priority. */
module EventTypes {
  datatype Event = Event(jobId: int, epoch: int, demand: int, priority: real) {
    /** Newer events replace older ones. */
    predicate Dominates(other: Event) { epoch > other.epoch }
  }
}
