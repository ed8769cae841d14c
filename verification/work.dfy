/** The jobs of one round (`Work` in work.rs). */
module Jobs {
  import opened Wrappers
  import opened SubFilters
  import opened LabelVecs

  /**
   * `NothingToDo` is the sentinel handed out when the queue is empty. A
   * per-filter job carries the filter's position and core; both real jobs
   * carry the frozen list of all cores and the shared label snapshot.
   */
  datatype Work =
    | NothingToDo
    | FilterLabel(filter: (nat, FilterCore), allFilters: seq<FilterCore>, labels: LabelVec)
    | MainFilterOptions(allFilters: seq<FilterCore>, labels: LabelVec)

  /**
   * The core a job leaves out of the survivor test: the per-filter job's own
   * core; the global job leaves none out.
   */
  function ExcludedCore(job: Work): (r: Option<FilterCore>)
    requires !job.NothingToDo?
    ensures r.None? <==> job.MainFilterOptions?
    ensures job.FilterLabel? ==> r == Some(job.filter.1)
  {
    match job
    case FilterLabel(filter, _, _) => Some(filter.1)
    case MainFilterOptions(_, _) => None
  }
}
