/** The state of the round coordinator (`ThreadState`, `WorkState` in work_state.rs). */
module WorkStates {
  import opened Labels
  import opened SubFilters
  import opened Jobs

  /** `NUMBER_OF_THREADS` */
  const NumberOfThreads: nat := 7

  /** What the coordinator knows about one worker in the current round. */
  datatype ThreadState = Finished | Working | Outdated

  /**
   * `NothingToDo`: no round and no unclaimed result. `Working`: a round in
   * progress with one status per worker, the number of filters, the job
   * queue and the accumulated results. `Finished`: the assembled result,
   * waiting to be claimed.
   */
  datatype WorkState =
    | NothingToDo
    | Working(
        threadState: seq<ThreadState>,
        allFiltersLen: nat,
        unfinishedWork: seq<Work>,
        finishedFilters: seq<(nat, SubFilter)>,
        finishedMainFilterLabel: seq<Label>)
    | Finished(filter: seq<SubFilter>, mainFilterLabelOptions: seq<Label>)

  /** The fixed-size status array of a `Working` state. */
  predicate WellFormed(s: WorkState) {
    s.Working? ==> |s.threadState| == NumberOfThreads
  }
}
