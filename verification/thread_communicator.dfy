/**
 * The round coordinator (`ThreadCommunicator` in thread_communicator.rs).
 * Every public method runs inside one critical section of the state mutex,
 * so each is modelled as one atomic transition of `WorkState`; the
 * condition-variable wait in `get_work` becomes the precondition that a
 * round is in progress.
 */
module Coordinator {
  import opened Wrappers
  import opened Labels
  import opened SubFilters
  import opened LabelVecs
  import opened Jobs
  import opened WorkStates
  import Sorting

  /** `ThreadCommunicator::new`: no round yet. */
  function Init(): (s: WorkState)
    ensures s.NothingToDo? && Inv(s)
  {
    WorkState.NothingToDo
  }

  /** The number of workers whose status is `Working`. */
  function CountWorking(statuses: seq<ThreadState>): (r: nat)
    ensures r <= |statuses|
  {
    if |statuses| == 0 then 0
    else (if statuses[0].Working? then 1 else 0) + CountWorking(statuses[1..])
  }

  lemma {:induction false} CountWorkingUpdate(statuses: seq<ThreadState>, id: nat, x: ThreadState)
    requires id < |statuses|
    ensures CountWorking(statuses[id := x]) + (if statuses[id].Working? then 1 else 0)
         == CountWorking(statuses) + (if x.Working? then 1 else 0)
  {
    if id > 0 {
      CountWorkingUpdate(statuses[1..], id - 1, x);
      assert statuses[id := x][1..] == statuses[1..][id - 1 := x];
    }
  }

  lemma {:induction false} CountWorkingNone(statuses: seq<ThreadState>)
    requires forall w :: 0 <= w < |statuses| ==> !statuses[w].Working?
    ensures CountWorking(statuses) == 0
  {
    if |statuses| > 0 {
      CountWorkingNone(statuses[1..]);
    }
  }

  /** Every status is `Finished`. */
  predicate AllFinished(statuses: seq<ThreadState>) {
    forall w :: 0 <= w < |statuses| ==> statuses[w].Finished?
  }

  /**
   * The invariant of the coordinator state: a round has one status per
   * worker, and the queued jobs plus the workers still `Working` never
   * outnumber the jobs of the round (the filters plus the global job).
   */
  predicate Inv(s: WorkState) {
    && WellFormed(s)
    && (s.Working? ==> |s.unfinishedWork| + CountWorking(s.threadState) <= s.allFiltersLen + 1)
  }

  /** `clone_core` on every filter. */
  function Cores(filters: seq<SubFilter>): (cores: seq<FilterCore>)
    ensures |cores| == |filters|
    ensures forall i :: 0 <= i < |filters| ==> cores[i] == filters[i].core
  {
    seq(|filters|, i requires 0 <= i < |filters| => filters[i].core)
  }

  /** The job queue of a round: one job per filter, in order, then the global job. */
  function Queue(cores: seq<FilterCore>, labels: LabelVec): (q: seq<Work>)
    ensures |q| == |cores| + 1
    ensures forall i :: 0 <= i < |cores| ==> q[i] == FilterLabel((i, cores[i]), cores, labels)
    ensures q[|cores|] == MainFilterOptions(cores, labels)
  {
    seq(|cores|, i requires 0 <= i < |cores| => FilterLabel((i, cores[i]), cores, labels))
      + [MainFilterOptions(cores, labels)]
  }

  function AllOutdated(): (statuses: seq<ThreadState>)
    ensures |statuses| == NumberOfThreads
    ensures forall w :: 0 <= w < |statuses| ==> statuses[w].Outdated?
    ensures CountWorking(statuses) == 0
  {
    var statuses := seq(NumberOfThreads, w => ThreadState.Outdated);
    CountWorkingNone(statuses);
    statuses
  }

  /**
   * `start`: whatever the current state, a fresh round over a new snapshot
   * of `data` and the cores of `filters`, every worker `Outdated`, nothing
   * accumulated yet.
   */
  function Start(data: seq<seq<Label>>, filters: seq<SubFilter>): (s: WorkState)
    ensures s.Working? && Inv(s)
    ensures forall w :: 0 <= w < |s.threadState| ==> s.threadState[w].Outdated?
    ensures s.allFiltersLen == |filters|
    ensures s.unfinishedWork == Queue(Cores(filters), From(data))
    ensures s.finishedFilters == [] && s.finishedMainFilterLabel == []
  {
    WorkState.Working(AllOutdated(), |filters|, Queue(Cores(filters), From(data)), [], [])
  }

  /** Orders results by their first component, the filter's position. */
  predicate IndexLe(a: (nat, SubFilter), b: (nat, SubFilter)) {
    a.0 <= b.0
  }

  /** `sort_by_key` on the position. */
  function SortByIndex(results: seq<(nat, SubFilter)>): (r: seq<(nat, SubFilter)>)
    ensures Sorting.SortedBy(r, IndexLe)
    ensures multiset(r) == multiset(results)
  {
    Sorting.Sort(results, IndexLe)
  }

  /** The filters of the results, the positions dropped. */
  function DropIndices(results: seq<(nat, SubFilter)>): (r: seq<SubFilter>)
    ensures |r| == |results|
    ensures forall k :: 0 <= k < |r| ==> r[k] == results[k].1
  {
    seq(|results|, k requires 0 <= k < |results| => results[k].1)
  }

  /** The status `get_work` gives its caller: `Finished` for the sentinel, `Working` for a real job. */
  function StatusFor(job: Work): ThreadState {
    if job.NothingToDo? then ThreadState.Finished else ThreadState.Working
  }

  /**
   * `get_work` after the wait: pop the last queued job (the sentinel when
   * the queue is empty), record the caller's new status, and when that makes
   * every status `Finished`, turn the round into its result.
   */
  function GetWork(s: WorkState, id: nat): (r: (WorkState, Work))
    requires s.Working? && WellFormed(s) && id < NumberOfThreads
    ensures |s.unfinishedWork| == 0 ==> r.1.NothingToDo?
    ensures |s.unfinishedWork| > 0 ==> r.1 == s.unfinishedWork[|s.unfinishedWork| - 1]
    ensures var statuses := s.threadState[id := StatusFor(r.1)];
      && (r.0.Finished? <==> AllFinished(statuses))
      && (r.0.Finished? ==> r.0.filter == DropIndices(SortByIndex(s.finishedFilters)))
      && (r.0.Finished? ==> r.0.mainFilterLabelOptions == s.finishedMainFilterLabel)
      && (r.0.Working? ==> r.0.threadState == statuses)
    ensures r.0.Working? ==> r.0.unfinishedWork + (if |s.unfinishedWork| == 0 then [] else [r.1]) == s.unfinishedWork
    ensures r.0.Working? ==> r.0.allFiltersLen == s.allFiltersLen
    ensures r.0.Working? ==> r.0.finishedFilters == s.finishedFilters
    ensures r.0.Working? ==> r.0.finishedMainFilterLabel == s.finishedMainFilterLabel
    ensures !r.0.NothingToDo?
    ensures Inv(s) ==> Inv(r.0)
  {
    var q := s.unfinishedWork;
    var work := if |q| == 0 then Jobs.NothingToDo else q[|q| - 1];
    var rest := if |q| == 0 then q else q[..|q| - 1];
    var statuses := s.threadState[id := StatusFor(work)];
    CountWorkingUpdate(s.threadState, id, StatusFor(work));
    if AllFinished(statuses) then
      (WorkState.Finished(DropIndices(SortByIndex(s.finishedFilters)), s.finishedMainFilterLabel), work)
    else
      (s.(threadState := statuses, unfinishedWork := rest), work)
  }

  /**
   * `push_finished_filter`: the result is appended only when the caller is
   * `Working` in this round; otherwise (a result from a superseded round)
   * nothing changes. A state other than `Working` is the `unreachable!()`.
   */
  function PushFinishedFilter(s: WorkState, index: nat, filter: SubFilter, id: nat): (r: WorkState)
    requires s.Working? && WellFormed(s) && id < NumberOfThreads
    ensures s.threadState[id].Working? ==> r == s.(finishedFilters := s.finishedFilters + [(index, filter)])
    ensures !s.threadState[id].Working? ==> r == s
    ensures Inv(s) ==> Inv(r)
  {
    if s.threadState[id].Working? then s.(finishedFilters := s.finishedFilters + [(index, filter)]) else s
  }

  /** `push_main_filter_label_options`: overwrites the global list under the same staleness rule. */
  function PushMainFilterLabelOptions(s: WorkState, options: seq<Label>, id: nat): (r: WorkState)
    requires s.Working? && WellFormed(s) && id < NumberOfThreads
    ensures s.threadState[id].Working? ==> r == s.(finishedMainFilterLabel := options)
    ensures !s.threadState[id].Working? ==> r == s
    ensures Inv(s) ==> Inv(r)
  {
    if s.threadState[id].Working? then s.(finishedMainFilterLabel := options) else s
  }

  /** `try_get_finished`: hands out a finished result once and goes back to `NothingToDo`. */
  function TryGetFinished(s: WorkState): (r: (WorkState, Option<(seq<SubFilter>, seq<Label>)>))
    ensures r.1.Some? <==> s.Finished?
    ensures s.Finished? ==> r.0.NothingToDo? && r.1.value == (s.filter, s.mainFilterLabelOptions)
    ensures !s.Finished? ==> r.0 == s
    ensures Inv(s) ==> Inv(r.0)
  {
    match s
    case Finished(filter, options) => (WorkState.NothingToDo, Some((filter, options)))
    case _ => (s, None)
  }

  /**
   * `get_progress`: `(a, b)` meaning a of b jobs done. The invariant is what
   * keeps the subtraction from going below zero.
   */
  function GetProgress(s: WorkState): (r: (nat, nat))
    requires Inv(s)
    ensures 1 <= r.1 && r.0 <= r.1
    ensures s.NothingToDo? ==> r == (1, 1)
    ensures s.Finished? ==> r == (|s.filter| + 1, |s.filter| + 1)
    ensures s.Working? ==> r.1 == s.allFiltersLen + 1
    ensures s.Working? ==> r.0 + |s.unfinishedWork| + CountWorking(s.threadState) == r.1
  {
    match s
    case Working(statuses, len, queue, _, _) =>
      var b := len + 1;
      (b - (|queue| + CountWorking(statuses)), b)
    case Finished(filter, _) => (|filter| + 1, |filter| + 1)
    case NothingToDo => (1, 1)
  }

  lemma IndexLeIsTotalPreorder()
    ensures Sorting.TotalPreorder(IndexLe)
  {
  }

  function IndexOf(p: (nat, SubFilter)): nat { p.0 }

  /** Some result is for position `k`. */
  ghost predicate HasIndex(s: seq<(nat, SubFilter)>, k: nat) {
    exists m :: 0 <= m < |s| && s[m].0 == k
  }

  /**
   * Results sorted by position, one per position below `n` and none
   * elsewhere, sit exactly at their own position.
   */
  lemma SortedIndicesAreIdentity(s: seq<(nat, SubFilter)>, n: nat)
    requires Sorting.SortedBy(s, IndexLe)
    requires Sorting.DistinctBy(s, IndexOf)
    requires forall m :: 0 <= m < |s| ==> s[m].0 < n
    requires forall k :: 0 <= k < n ==> HasIndex(s, k)
    ensures |s| == n
    ensures forall i :: 0 <= i < |s| ==> s[i].0 == i
  {
    assert forall i, j :: 0 <= i < j < |s| ==> s[i].0 < s[j].0 by {
      forall i, j | 0 <= i < j < |s|
        ensures s[i].0 < s[j].0
      {
        assert IndexLe(s[i], s[j]) && IndexOf(s[i]) != IndexOf(s[j]);
      }
    }
    IndicesExact(s, n, |s|);
    if n > 0 {
      assert HasIndex(s, n - 1);
      var m :| 0 <= m < |s| && s[m].0 == n - 1;
      assert m == n - 1;
    }
    if |s| > 0 {
      assert s[|s| - 1].0 >= |s| - 1;
    }
  }

  lemma {:induction false} IndicesExact(s: seq<(nat, SubFilter)>, n: nat, i: nat)
    requires forall a, b :: 0 <= a < b < |s| ==> s[a].0 < s[b].0
    requires forall k :: 0 <= k < n ==> HasIndex(s, k)
    requires i <= |s|
    ensures forall j :: 0 <= j < i && j < n ==> s[j].0 == j
    ensures forall j :: 0 <= j < i ==> s[j].0 >= j
  {
    if i > 0 {
      IndicesExact(s, n, i - 1);
      var j := i - 1;
      assert s[j].0 >= j by {
        if j > 0 {
          assert s[j - 1].0 < s[j].0;
        }
      }
      if j < n {
        assert HasIndex(s, j);
        var m :| 0 <= m < |s| && s[m].0 == j;
        assert m >= j;
        assert s[j].0 <= s[m].0;
      }
    }
  }
}
