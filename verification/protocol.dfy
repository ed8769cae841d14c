/**
 * The coordinator together with its workers. Each worker thread loops:
 * wait for a round, take a job, compute it, report it. The threads are
 * interleaved by an explicit choice of which worker steps next; each step is
 * one critical section of the coordinator. The round counter and the
 * per-worker record of the round a job was taken in are bookkeeping of the
 * model, not state of the program: they let the invariants say which
 * results belong to the current round.
 */
module Protocol {
  import opened Wrappers
  import opened Labels
  import opened SubFilters
  import opened LabelVecs
  import opened Jobs
  import opened WorkStates
  import opened Coordinator
  import Sorting

  /** A worker thread: between jobs, or computing a job it took in round `round`. */
  datatype Worker = Free | Holding(job: Work, round: nat)

  /**
   * The coordinator state, the workers, the number of rounds started, the
   * cores and snapshot of the latest round, and whether its global job's
   * result has been accepted.
   */
  datatype System = System(
    state: WorkState,
    workers: seq<Worker>,
    round: nat,
    cores: seq<FilterCore>,
    labels: LabelVec,
    mainReported: bool)

  /** Worker `w` is computing a job of the latest round. */
  predicate Current(sys: System, w: nat)
    requires w < |sys.workers|
  {
    sys.workers[w].Holding? && sys.workers[w].round == sys.round
  }

  /**
   * A worker holding a job always finds a round in progress; its status is
   * `Working` if it took the job in this round and `Outdated` if it took it
   * in an earlier one.
   */
  predicate Safe(sys: System) {
    && Inv(sys.state)
    && |sys.workers| == NumberOfThreads
    && (forall w :: 0 <= w < |sys.workers| && sys.workers[w].Holding? ==>
          && sys.state.Working?
          && !sys.workers[w].job.NothingToDo?
          && sys.workers[w].round <= sys.round)
    && (forall w :: 0 <= w < |sys.workers| && sys.workers[w].Holding? && sys.state.Working? ==>
          (sys.state.threadState[w].Working? <==> sys.workers[w].round == sys.round))
    && (forall w :: 0 <= w < |sys.workers| && sys.workers[w].Holding? && sys.state.Working? ==>
          (sys.state.threadState[w].Outdated? <==> sys.workers[w].round < sys.round))
  }

  /** The program's starting point: no round, every worker waiting. */
  function SysInit(): (sys: System)
    ensures Safe(sys)
    ensures sys.state.NothingToDo?
  {
    System(Init(), seq(NumberOfThreads, w => Free), 0, [], LabelVec([], []), false)
  }

  /** The caller edits the filters and calls `start`. */
  function SysStart(sys: System, data: seq<seq<Label>>, filters: seq<SubFilter>): (r: System)
    requires Safe(sys)
    ensures Safe(r)
    ensures r.round == sys.round + 1
    ensures r.workers == sys.workers
    ensures r.state == Start(data, filters)
  {
    System(Start(data, filters), sys.workers, sys.round + 1, Cores(filters), From(data), false)
  }

  /** A waiting worker, woken because a round is in progress, calls `get_work`. */
  function SysTake(sys: System, w: nat): (r: System)
    requires Safe(sys) && w < NumberOfThreads
    requires sys.workers[w].Free?
    requires sys.state.Working?
    ensures Safe(r)
    ensures r.round == sys.round
    ensures r.workers[w].Holding? ==> r.workers[w].round == sys.round
    ensures r.state.Finished? ==> forall v :: 0 <= v < |r.workers| ==> r.workers[v].Free?
  {
    var (state, job) := GetWork(sys.state, w);
    var workers := sys.workers[w := if job.NothingToDo? then Free else Holding(job, sys.round)];
    assert Inv(state);
    if state.Finished? then
      FinishedFreesAll(sys, w, job, workers);
      System(state, workers, sys.round, sys.cores, sys.labels, sys.mainReported)
    else
      System(state, workers, sys.round, sys.cores, sys.labels, sys.mainReported)
  }

  /** When every status is `Finished` after a take, no worker holds a job. */
  lemma FinishedFreesAll(sys: System, w: nat, job: Work, workers: seq<Worker>)
    requires Safe(sys) && w < NumberOfThreads && sys.state.Working?
    requires AllFinished(sys.state.threadState[w := StatusFor(job)])
    requires workers == sys.workers[w := if job.NothingToDo? then Free else Holding(job, sys.round)]
    ensures forall v :: 0 <= v < |workers| ==> workers[v].Free?
  {
    forall v | 0 <= v < |workers|
      ensures workers[v].Free?
    {
      assert sys.state.threadState[w := StatusFor(job)][v].Finished?;
    }
  }

  /**
   * A worker holding a job reports its result: a per-filter job through
   * `push_finished_filter`, the global job through
   * `push_main_filter_label_options`. The lists are whatever the worker
   * computed. The coordinator is always `Working` here, so neither
   * `unreachable!()` is ever reached; the result is accepted exactly when
   * the job belongs to the latest round.
   */
  function SysReport(sys: System, w: nat, top: seq<Label>, sub: seq<Label>): (r: System)
    requires Safe(sys) && w < NumberOfThreads
    requires sys.workers[w].Holding?
    ensures Safe(r)
    ensures r.workers[w].Free? && r.round == sys.round
    ensures sys.state.Working? && r.state.Working?
    ensures sys.workers[w].round < sys.round ==> r.state == sys.state
    ensures sys.workers[w].round == sys.round && sys.workers[w].job.FilterLabel? ==>
      r.state.finishedFilters == sys.state.finishedFilters
        + [(sys.workers[w].job.filter.0, FromCoreWithLabelOptions(sys.workers[w].job.filter.1, top, sub))]
    ensures sys.workers[w].round == sys.round && sys.workers[w].job.MainFilterOptions? ==>
      r.state.finishedMainFilterLabel == top
  {
    var job := sys.workers[w].job;
    var accepted := sys.state.threadState[w].Working?;
    var state :=
      if job.FilterLabel? then
        PushFinishedFilter(sys.state, job.filter.0, FromCoreWithLabelOptions(job.filter.1, top, sub), w)
      else
        PushMainFilterLabelOptions(sys.state, top, w);
    var mainReported := sys.mainReported || (job.MainFilterOptions? && accepted);
    System(state, sys.workers[w := Free], sys.round, sys.cores, sys.labels, mainReported)
  }

  /** The caller polls with `try_get_finished`. */
  function SysPoll(sys: System): (r: (System, Option<(seq<SubFilter>, seq<Label>)>))
    requires Safe(sys)
    ensures Safe(r.0)
    ensures r.0.workers == sys.workers && r.0.round == sys.round
    ensures r.1.Some? <==> sys.state.Finished?
  {
    var (state, result) := TryGetFinished(sys.state);
    (sys.(state := state), result)
  }

  /** A real job's place in its round's queue: its filter's position, or `n` for the global job. */
  function JobIndex(job: Work, n: nat): nat {
    if job.FilterLabel? then job.filter.0 else n
  }

  /** Some worker is computing the job at position `k` of the latest round. */
  ghost predicate Held(sys: System, k: nat) {
    exists w :: 0 <= w < |sys.workers| && Current(sys, w) && JobIndex(sys.workers[w].job, |sys.cores|) == k
  }

  /**
   * Book-keeping of a round in progress. The queue is the unpopped front of
   * the round's job list; every popped job is either being computed by a
   * worker of this round or has had its result accepted, never both, and no
   * job is accepted twice; every accepted filter result carries the core of
   * the filter at its position.
   */
  ghost predicate RoundInv(sys: System)
    requires sys.state.Working?
  {
    var n := |sys.cores|;
    var q := sys.state.unfinishedWork;
    var jobs := Queue(sys.cores, sys.labels);
    var ff := sys.state.finishedFilters;
    && sys.state.allFiltersLen == n
    && |q| <= n + 1
    && (forall k :: 0 <= k < |q| ==> q[k] == jobs[k])
    && (forall w :: 0 <= w < |sys.workers| && Current(sys, w) ==>
          && |q| <= JobIndex(sys.workers[w].job, n) <= n
          && sys.workers[w].job == jobs[JobIndex(sys.workers[w].job, n)])
    && (forall v, w :: 0 <= v < |sys.workers| && 0 <= w < |sys.workers| && v != w && Current(sys, v) && Current(sys, w) ==>
          JobIndex(sys.workers[v].job, n) != JobIndex(sys.workers[w].job, n))
    && (forall m :: 0 <= m < |ff| ==>
          && |q| <= ff[m].0 < n
          && ff[m].1.core == sys.cores[ff[m].0]
          && !Held(sys, ff[m].0))
    && Sorting.DistinctBy(ff, IndexOf)
    && (sys.mainReported ==> |q| <= n && !Held(sys, n))
    && (forall k :: |q| <= k <= n ==>
          Held(sys, k) || (k < n && HasIndex(ff, k)) || (k == n && sys.mainReported))
  }

  /** A completed round's result: one filter per position, in the original order, each with its own core. */
  ghost predicate FinishedInv(sys: System)
    requires sys.state.Finished?
  {
    && |sys.state.filter| == |sys.cores|
    && (forall i :: 0 <= i < |sys.cores| ==> sys.state.filter[i].core == sys.cores[i])
    && sys.mainReported
  }

  ghost predicate Complete(sys: System) {
    && Safe(sys)
    && (sys.state.Working? ==> RoundInv(sys))
    && (sys.state.Finished? ==> FinishedInv(sys))
  }

  /** The program starts out consistent. */
  lemma InitComplete()
    ensures Complete(SysInit())
  {
  }

  /** `start` begins a consistent round: the whole job list queued, nothing held or accepted. */
  lemma StartComplete(sys: System, data: seq<seq<Label>>, filters: seq<SubFilter>)
    requires Complete(sys)
    ensures Complete(SysStart(sys, data, filters))
  {
    var r := SysStart(sys, data, filters);
    forall w | 0 <= w < |r.workers|
      ensures !Current(r, w)
    {
    }
    forall k: nat
      ensures !Held(r, k)
    {
    }
  }

  /** Taking a job from a non-empty queue moves the last queued job to the taking worker. */
  lemma TakeFromQueue(sys: System, w: nat)
    requires Complete(sys) && w < NumberOfThreads
    requires sys.workers[w].Free? && sys.state.Working?
    requires |sys.state.unfinishedWork| > 0
    ensures Complete(SysTake(sys, w))
  {
    var q := sys.state.unfinishedWork;
    var k := |q| - 1;
    var job := Queue(sys.cores, sys.labels)[k];
    var r := SysTake(sys, w);
    PopFacts(sys, w);
    PopKeepsRoundInv(sys, r, w, job);
  }

  /** What `get_work` does to the system when the queue is not empty. */
  lemma PopFacts(sys: System, w: nat)
    requires Complete(sys) && w < NumberOfThreads
    requires sys.workers[w].Free? && sys.state.Working?
    requires |sys.state.unfinishedWork| > 0
    ensures var q := sys.state.unfinishedWork;
      var job := Queue(sys.cores, sys.labels)[|q| - 1];
      var r := SysTake(sys, w);
      && JobIndex(job, |sys.cores|) == |q| - 1
      && r.state.Working?
      && r.state.unfinishedWork == q[..|q| - 1]
      && r.state.finishedFilters == sys.state.finishedFilters
      && r.state.allFiltersLen == sys.state.allFiltersLen
      && r.workers == sys.workers[w := Holding(job, sys.round)]
      && r.cores == sys.cores && r.labels == sys.labels && r.round == sys.round
      && r.mainReported == sys.mainReported
  {
    var q := sys.state.unfinishedWork;
    var jobs := Queue(sys.cores, sys.labels);
    var (state, job) := GetWork(sys.state, w);
    assert job == jobs[|q| - 1];
    assert sys.state.threadState[w := StatusFor(job)][w].Working?;
    assert state.unfinishedWork + [job] == q;
    assert state.unfinishedWork == q[..|q| - 1];
  }

  lemma PopKeepsRoundInv(sys: System, r: System, w: nat, job: Work)
    requires Complete(sys) && w < NumberOfThreads && sys.workers[w].Free? && sys.state.Working?
    requires |sys.state.unfinishedWork| > 0
    requires job == Queue(sys.cores, sys.labels)[|sys.state.unfinishedWork| - 1]
    requires JobIndex(job, |sys.cores|) == |sys.state.unfinishedWork| - 1
    requires Safe(r) && r.state.Working?
    requires r.state.unfinishedWork == sys.state.unfinishedWork[..|sys.state.unfinishedWork| - 1]
    requires r.state.finishedFilters == sys.state.finishedFilters
    requires r.state.allFiltersLen == sys.state.allFiltersLen
    requires r.workers == sys.workers[w := Holding(job, sys.round)]
    requires r.cores == sys.cores && r.labels == sys.labels && r.round == sys.round
    requires r.mainReported == sys.mainReported
    ensures Complete(r)
  {
    var k := |sys.state.unfinishedWork| - 1;
    HeldAfterPop(sys, r, w, job, k);
  }

  lemma HeldAfterPop(sys: System, r: System, w: nat, job: Work, k: nat)
    requires Safe(sys) && w < NumberOfThreads && sys.workers[w].Free?
    requires r.cores == sys.cores && r.round == sys.round
    requires r.workers == sys.workers[w := Holding(job, sys.round)]
    requires JobIndex(job, |sys.cores|) == k
    ensures forall x: nat :: Held(r, x) <==> Held(sys, x) || x == k
    ensures forall v :: 0 <= v < |r.workers| && v != w ==> Current(r, v) == Current(sys, v)
    ensures Current(r, w) && !Current(sys, w)
  {
    var n := |sys.cores|;
    forall x: nat
      ensures Held(r, x) <==> Held(sys, x) || x == k
    {
      if Held(sys, x) {
        var v :| 0 <= v < |sys.workers| && Current(sys, v) && JobIndex(sys.workers[v].job, n) == x;
        assert v != w;
        assert Current(r, v);
      }
      if x == k {
        assert Current(r, w) && JobIndex(r.workers[w].job, n) == k;
      }
      if Held(r, x) && x != k {
        var v :| 0 <= v < |r.workers| && Current(r, v) && JobIndex(r.workers[v].job, n) == x;
        assert v != w;
        assert Current(sys, v);
      }
    }
  }

  /** Taking from an empty queue hands out the sentinel; if that finishes every worker, the round completes correctly. */
  lemma TakeFromEmptyQueue(sys: System, w: nat)
    requires Complete(sys) && w < NumberOfThreads
    requires sys.workers[w].Free? && sys.state.Working?
    requires |sys.state.unfinishedWork| == 0
    ensures Complete(SysTake(sys, w))
  {
    var (state, job) := GetWork(sys.state, w);
    var r := SysTake(sys, w);
    assert job.NothingToDo?;
    assert r.workers == sys.workers;
    if state.Finished? {
      forall v | 0 <= v < |sys.workers|
        ensures !sys.workers[v].Holding?
      {
        assert r.workers[v].Free?;
      }
      assert state.filter == DropIndices(SortByIndex(sys.state.finishedFilters));
      CompletedRound(sys);
    } else {
      assert state.unfinishedWork == [];
      assert r == sys.(state := state);
      forall v | 0 <= v < |r.workers|
        ensures Current(r, v) == Current(sys, v)
      {
      }
      forall x: nat
        ensures Held(r, x) == Held(sys, x)
      {
      }
    }
  }

  /**
   * When the queue is empty and no worker holds a job, every job's result
   * has been accepted: the sorted results are one per filter, in order.
   */
  lemma CompletedRound(sys: System)
    requires Complete(sys) && sys.state.Working?
    requires |sys.state.unfinishedWork| == 0
    requires forall v :: 0 <= v < |sys.workers| ==> !sys.workers[v].Holding?
    ensures sys.mainReported
    ensures var filter := DropIndices(SortByIndex(sys.state.finishedFilters));
      && |filter| == |sys.cores|
      && forall i :: 0 <= i < |sys.cores| ==> filter[i].core == sys.cores[i]
  {
    var n := |sys.cores|;
    var ff := sys.state.finishedFilters;
    forall x: nat
      ensures !Held(sys, x)
    {
    }
    assert sys.mainReported by {
      assert !Held(sys, n);
    }
    forall k | 0 <= k < n
      ensures HasIndex(ff, k)
    {
      assert !Held(sys, k);
    }
    SortedResults(ff, sys.cores);
  }

  /** Sorting keeps a result for every position that had one. */
  lemma SortedCovers(ff: seq<(nat, SubFilter)>, n: nat)
    requires forall k :: 0 <= k < n ==> HasIndex(ff, k)
    ensures forall k :: 0 <= k < n ==> HasIndex(SortByIndex(ff), k)
  {
    var sorted := SortByIndex(ff);
    forall k | 0 <= k < n
      ensures HasIndex(sorted, k)
    {
      assert HasIndex(ff, k);
      var j :| 0 <= j < |ff| && ff[j].0 == k;
      assert ff[j] in multiset(sorted);
      assert ff[j] in sorted;
      var m :| 0 <= m < |sorted| && sorted[m] == ff[j];
    }
  }

  /** Sorting keeps every result's core matching its position. */
  lemma SortedCores(ff: seq<(nat, SubFilter)>, cores: seq<FilterCore>)
    requires forall m :: 0 <= m < |ff| ==> ff[m].0 < |cores| && ff[m].1.core == cores[ff[m].0]
    ensures forall m :: 0 <= m < |SortByIndex(ff)| ==>
      SortByIndex(ff)[m].0 < |cores| && SortByIndex(ff)[m].1.core == cores[SortByIndex(ff)[m].0]
  {
    var sorted := SortByIndex(ff);
    forall m | 0 <= m < |sorted|
      ensures sorted[m].0 < |cores| && sorted[m].1.core == cores[sorted[m].0]
    {
      assert sorted[m] in multiset(ff);
      assert sorted[m] in ff;
    }
  }

  /**
   * Results with distinct positions, one for every position below
   * `|cores|`, each carrying the core at its position, sort into exactly
   * the cores' order.
   */
  lemma SortedResults(ff: seq<(nat, SubFilter)>, cores: seq<FilterCore>)
    requires Sorting.DistinctBy(ff, IndexOf)
    requires forall m :: 0 <= m < |ff| ==> ff[m].0 < |cores| && ff[m].1.core == cores[ff[m].0]
    requires forall k :: 0 <= k < |cores| ==> HasIndex(ff, k)
    ensures var filter := DropIndices(SortByIndex(ff));
      && |filter| == |cores|
      && forall i :: 0 <= i < |cores| ==> filter[i].core == cores[i]
  {
    var n := |cores|;
    var sorted := SortByIndex(ff);
    IndexLeIsTotalPreorder();
    Sorting.SortDistinct(ff, IndexLe, IndexOf);
    SortedCores(ff, cores);
    SortedCovers(ff, n);
    SortedIndicesAreIdentity(sorted, n);
  }

  /** Every step a free worker can take keeps the system consistent. */
  lemma TakeComplete(sys: System, w: nat)
    requires Complete(sys) && w < NumberOfThreads
    requires sys.workers[w].Free? && sys.state.Working?
    ensures Complete(SysTake(sys, w))
  {
    if |sys.state.unfinishedWork| > 0 {
      TakeFromQueue(sys, w);
    } else {
      TakeFromEmptyQueue(sys, w);
    }
  }

  /**
   * After worker `w` stops holding its job, the positions held in the
   * latest round are those held before, less the position `w` held if it
   * was current.
   */
  lemma HeldAfterRelease(sys: System, r: System, w: nat)
    requires RoundInv0(sys) && w < |sys.workers| && sys.workers[w].Holding?
    requires r.cores == sys.cores && r.round == sys.round
    requires r.workers == sys.workers[w := Free]
    ensures forall x: nat :: Held(r, x) <==>
      Held(sys, x) && !(Current(sys, w) && x == JobIndex(sys.workers[w].job, |sys.cores|))
    ensures forall v :: 0 <= v < |r.workers| && v != w ==> Current(r, v) == Current(sys, v)
  {
    var n := |sys.cores|;
    forall x: nat
      ensures Held(r, x) <==> Held(sys, x) && !(Current(sys, w) && x == JobIndex(sys.workers[w].job, n))
    {
      if Held(r, x) {
        var v :| 0 <= v < |r.workers| && Current(r, v) && JobIndex(r.workers[v].job, n) == x;
        assert v != w && Current(sys, v);
      }
      if Held(sys, x) && !(Current(sys, w) && x == JobIndex(sys.workers[w].job, n)) {
        var v :| 0 <= v < |sys.workers| && Current(sys, v) && JobIndex(sys.workers[v].job, n) == x;
        assert v != w;
        assert Current(r, v);
      }
    }
  }

  /** Distinct current workers hold distinct positions. */
  ghost predicate RoundInv0(sys: System) {
    forall v, w :: 0 <= v < |sys.workers| && 0 <= w < |sys.workers| && v != w && Current(sys, v) && Current(sys, w) ==>
      JobIndex(sys.workers[v].job, |sys.cores|) != JobIndex(sys.workers[w].job, |sys.cores|)
  }

  /** A stale report changes nothing but freeing its worker. */
  lemma ReportStale(sys: System, w: nat, top: seq<Label>, sub: seq<Label>)
    requires Complete(sys) && w < NumberOfThreads
    requires sys.workers[w].Holding? && sys.workers[w].round < sys.round
    ensures Complete(SysReport(sys, w, top, sub))
  {
    var r := SysReport(sys, w, top, sub);
    assert !sys.state.threadState[w].Working?;
    assert r == sys.(workers := sys.workers[w := Free]);
    HeldAfterRelease(sys, r, w);
  }

  /** An accepted per-filter result moves its position from held to accepted. */
  lemma ReportFilter(sys: System, w: nat, top: seq<Label>, sub: seq<Label>)
    requires Complete(sys) && w < NumberOfThreads
    requires sys.workers[w].Holding? && sys.workers[w].round == sys.round
    requires sys.workers[w].job.FilterLabel?
    ensures Complete(SysReport(sys, w, top, sub))
  {
    var job := sys.workers[w].job;
    var k := job.filter.0;
    var entry: (nat, SubFilter) := (k, FromCoreWithLabelOptions(job.filter.1, top, sub));
    var r := SysReport(sys, w, top, sub);
    assert Current(sys, w);
    assert JobIndex(job, |sys.cores|) == k;
    assert sys.state.threadState[w].Working?;
    assert r == sys.(state := sys.state.(finishedFilters := sys.state.finishedFilters + [entry]), workers := sys.workers[w := Free]);
    AcceptKeepsRoundInv(sys, r, w, entry);
  }

  /** The bookkeeping after accepting the result `entry` of the current job of worker `w`. */
  lemma AcceptKeepsRoundInv(sys: System, r: System, w: nat, entry: (nat, SubFilter))
    requires Complete(sys) && w < NumberOfThreads && sys.workers[w].Holding?
    requires Current(sys, w) && sys.workers[w].job.FilterLabel?
    requires entry.0 == sys.workers[w].job.filter.0 && entry.1.core == sys.workers[w].job.filter.1
    requires Safe(r) && r.state.Working?
    requires r == sys.(state := sys.state.(finishedFilters := sys.state.finishedFilters + [entry]), workers := sys.workers[w := Free])
    ensures Complete(r)
  {
    var n := |sys.cores|;
    var k := entry.0;
    assert JobIndex(sys.workers[w].job, n) == k;
    assert k < n && sys.workers[w].job == Queue(sys.cores, sys.labels)[k];
    assert Held(sys, k);
    HeldAfterRelease(sys, r, w);
    AppendResultDistinct(sys, entry);
    AcceptedEntries(sys, r, k, entry);
    AcceptCoverage(sys, r, k, entry);
  }

  /** Every accepted result, the new one included, is for a popped position that nobody holds, with that position's core. */
  lemma AcceptedEntries(sys: System, r: System, k: nat, entry: (nat, SubFilter))
    requires Complete(sys) && sys.state.Working? && r.state.Working?
    requires entry.0 == k && k < |sys.cores| && |sys.state.unfinishedWork| <= k && entry.1.core == sys.cores[k]
    requires r.cores == sys.cores && r.state.unfinishedWork == sys.state.unfinishedWork
    requires r.state.finishedFilters == sys.state.finishedFilters + [entry]
    requires forall x: nat :: Held(r, x) <==> Held(sys, x) && x != k
    ensures forall m :: 0 <= m < |r.state.finishedFilters| ==>
      && |r.state.unfinishedWork| <= r.state.finishedFilters[m].0 < |r.cores|
      && r.state.finishedFilters[m].1.core == r.cores[r.state.finishedFilters[m].0]
      && !Held(r, r.state.finishedFilters[m].0)
  {
    var ff := sys.state.finishedFilters;
    forall m | 0 <= m < |r.state.finishedFilters|
      ensures |r.state.unfinishedWork| <= r.state.finishedFilters[m].0 < |r.cores|
      ensures r.state.finishedFilters[m].1.core == r.cores[r.state.finishedFilters[m].0]
      ensures !Held(r, r.state.finishedFilters[m].0)
    {
      if m < |ff| {
        assert r.state.finishedFilters[m] == ff[m];
      }
    }
  }

  /** After accepting the result for position `k`, every popped position is still held or accepted. */
  lemma AcceptCoverage(sys: System, r: System, k: nat, entry: (nat, SubFilter))
    requires Complete(sys) && sys.state.Working? && r.state.Working?
    requires entry.0 == k && k < |sys.cores|
    requires r.cores == sys.cores && r.state.unfinishedWork == sys.state.unfinishedWork
    requires r.mainReported == sys.mainReported
    requires r.state.finishedFilters == sys.state.finishedFilters + [entry]
    requires forall x: nat :: Held(r, x) <==> Held(sys, x) && x != k
    ensures forall x :: |r.state.unfinishedWork| <= x <= |r.cores| ==>
      Held(r, x) || (x < |r.cores| && HasIndex(r.state.finishedFilters, x)) || (x == |r.cores| && r.mainReported)
  {
    var n := |sys.cores|;
    var ff := sys.state.finishedFilters;
    var ff' := r.state.finishedFilters;
    forall x | |r.state.unfinishedWork| <= x <= n
      ensures Held(r, x) || (x < n && HasIndex(ff', x)) || (x == n && r.mainReported)
    {
      if x == k {
        assert ff'[|ff|].0 == k;
      } else if x < n && HasIndex(ff, x) {
        var m :| 0 <= m < |ff| && ff[m].0 == x;
        assert ff'[m].0 == x;
      }
    }
  }

  /** A result for a held position is for a position no accepted result has. */
  lemma AppendResultDistinct(sys: System, entry: (nat, SubFilter))
    requires Complete(sys) && sys.state.Working? && Held(sys, entry.0)
    ensures Sorting.DistinctBy(sys.state.finishedFilters + [entry], IndexOf)
  {
    var ff := sys.state.finishedFilters;
    var ff' := ff + [entry];
    forall i, j | 0 <= i < j < |ff'|
      ensures IndexOf(ff'[i]) != IndexOf(ff'[j])
    {
      if j < |ff| {
        assert IndexOf(ff[i]) != IndexOf(ff[j]);
      } else {
        assert !Held(sys, ff[i].0);
      }
    }
  }

  /** An accepted global result marks the global job as done. */
  lemma ReportMain(sys: System, w: nat, top: seq<Label>, sub: seq<Label>)
    requires Complete(sys) && w < NumberOfThreads
    requires sys.workers[w].Holding? && sys.workers[w].round == sys.round
    requires sys.workers[w].job.MainFilterOptions?
    ensures Complete(SysReport(sys, w, top, sub))
  {
    var n := |sys.cores|;
    var job := sys.workers[w].job;
    var r := SysReport(sys, w, top, sub);
    assert Current(sys, w);
    assert JobIndex(job, n) == n;
    assert sys.state.threadState[w].Working?;
    assert r.state == sys.state.(finishedMainFilterLabel := top);
    assert r == sys.(state := r.state, workers := sys.workers[w := Free], mainReported := true);
    HeldAfterRelease(sys, r, w);
    assert !Held(r, n);
  }

  /** Every report keeps the system consistent. */
  lemma ReportComplete(sys: System, w: nat, top: seq<Label>, sub: seq<Label>)
    requires Complete(sys) && w < NumberOfThreads
    requires sys.workers[w].Holding?
    ensures Complete(SysReport(sys, w, top, sub))
  {
    if sys.workers[w].round < sys.round {
      ReportStale(sys, w, top, sub);
    } else if sys.workers[w].job.FilterLabel? {
      ReportFilter(sys, w, top, sub);
    } else {
      ReportMain(sys, w, top, sub);
    }
  }

  /** Polling keeps the system consistent. */
  lemma PollComplete(sys: System)
    requires Complete(sys)
    ensures Complete(SysPoll(sys).0)
  {
  }

  /**
   * A result handed out by `try_get_finished` holds one filter per filter
   * of the round, in the order the caller gave them, each keeping its core.
   */
  lemma PollDeliversEveryFilter(sys: System)
    requires Complete(sys)
    ensures var (r, result) := SysPoll(sys);
      result.Some? ==>
        && |result.value.0| == |sys.cores|
        && (forall i :: 0 <= i < |sys.cores| ==> result.value.0[i].core == sys.cores[i])
        && result.value.1 == sys.state.mainFilterLabelOptions
        && r.state.NothingToDo?
  {
  }

  /**
   * A consistent system in which every job of the round is done as far as
   * `get_progress` can tell, yet no result can be polled: worker 0 still
   * holds a job of the previous round, so its status is `Outdated` rather
   * than `Finished`.
   */
  function StaleWorkerSystem(): System {
    var statuses := seq(NumberOfThreads, w => if w == 0 then ThreadState.Outdated else ThreadState.Finished);
    var workers := seq(NumberOfThreads, w => if w == 0 then Holding(StaleJob(), 1) else Free);
    System(WorkState.Working(statuses, 0, [], [], []), workers, 2, [], LabelVec([], []), true)
  }

  /** The stale-worker system is one the invariants allow. */
  lemma StaleWorkerConsistent()
    ensures Complete(StaleWorkerSystem())
  {
    var sys := StaleWorkerSystem();
    CountWorkingNone(sys.state.threadState);
    assert Safe(sys);
    forall v | 0 <= v < |sys.workers|
      ensures !Current(sys, v)
    {
    }
    forall x: nat
      ensures !Held(sys, x)
    {
    }
  }

  /** The stale job of the run below: the global job of a round over no filters and no records. */
  function StaleJob(): Work {
    MainFilterOptions([], LabelVec([], []))
  }

  /**
   * A free worker takes the only queued job, the global job, while another
   * worker is still `Outdated`: it now holds that job, its status is
   * `Working`, the queue is empty, and nothing else changes.
   */
  lemma TakeOnlyJob(sys: System, w: nat, other: nat)
    requires Safe(sys) && w < NumberOfThreads && other < NumberOfThreads && w != other
    requires sys.workers[w].Free?
    requires sys.state.Working? && sys.state.threadState[other].Outdated?
    requires |sys.state.unfinishedWork| == 1 && sys.state.unfinishedWork[0].MainFilterOptions?
    ensures SysTake(sys, w) == sys.(
      state := sys.state.(threadState := sys.state.threadState[w := ThreadState.Working], unfinishedWork := []),
      workers := sys.workers[w := Holding(sys.state.unfinishedWork[0], sys.round)])
  {
    assert sys.state.threadState[w := ThreadState.Working][other].Outdated?;
  }

  /** A worker reports a current global job with an empty list: only the worker and the accepted flag change. */
  lemma ReportEmptyMain(sys: System, w: nat)
    requires Safe(sys) && w < NumberOfThreads
    requires sys.workers[w].Holding? && sys.workers[w].round == sys.round && sys.workers[w].job.MainFilterOptions?
    requires sys.state.Working? && sys.state.finishedMainFilterLabel == []
    ensures SysReport(sys, w, [], []) == sys.(workers := sys.workers[w := Free], mainReported := true)
  {
  }

  /** After the first round starts and worker 0 takes its only job. */
  function FirstTaken(): System {
    var statuses := seq(NumberOfThreads, w => if w == 0 then ThreadState.Working else ThreadState.Outdated);
    var workers := seq(NumberOfThreads, w => if w == 0 then Holding(StaleJob(), 1) else Free);
    System(WorkState.Working(statuses, 0, [], [], []), workers, 1, [], LabelVec([], []), false)
  }

  /** After the second round starts and worker 1 takes its only job. */
  function SecondTaken(): System {
    var statuses := seq(NumberOfThreads, w => if w == 1 then ThreadState.Working else ThreadState.Outdated);
    var workers := FirstTaken().workers[1 := Holding(StaleJob(), 2)];
    System(WorkState.Working(statuses, 0, [], [], []), workers, 2, [], LabelVec([], []), false)
  }

  /** After worker 1 then reports the second round's job. */
  function SecondReported(): System {
    SecondTaken().(workers := FirstTaken().workers, mainReported := true)
  }

  /** From the start, the first round: `start`, then worker 0 takes the global job. */
  lemma FirstRoundRun()
    ensures SysTake(SysStart(SysInit(), [], []), 0) == FirstTaken()
  {
    var s1 := SysStart(SysInit(), [], []);
    assert s1.state.unfinishedWork == [StaleJob()];
    TakeOnlyJob(s1, 0, 1);
    assert s1.workers[0 := Holding(StaleJob(), 1)] == FirstTaken().workers;
    assert s1.state.threadState[0 := ThreadState.Working] == FirstTaken().state.threadState;
  }

  /** The second round starts and worker 1 takes the global job. */
  lemma SecondRoundTake(s2: System)
    requires Safe(s2) && s2 == FirstTaken()
    ensures SysTake(SysStart(s2, [], []), 1) == SecondTaken()
  {
    var s3 := SysStart(s2, [], []);
    assert s3.state.unfinishedWork == [StaleJob()];
    TakeOnlyJob(s3, 1, 0);
    assert s3.state.threadState[1 := ThreadState.Working] == SecondTaken().state.threadState;
  }

  /** Worker 1 reports the second round's global job. */
  lemma SecondRoundReport(s4: System)
    requires Safe(s4) && s4 == SecondTaken()
    ensures SysReport(s4, 1, [], []) == SecondReported()
  {
    ReportEmptyMain(s4, 1);
    assert s4.workers[1 := Free] == FirstTaken().workers;
  }

  /** Workers 1 to 6 then find the queue empty and end in the stale-worker system. */
  lemma LastTakesRun(s5: System)
    requires Safe(s5) && s5 == SecondReported()
    ensures s5.state.Working? && s5.state.unfinishedWork == [] && s5.state.threadState[0].Outdated?
    ensures forall v :: 1 <= v < NumberOfThreads ==> s5.workers[v].Free?
    ensures TakeEmptyFrom(s5, 1) == StaleWorkerSystem()
  {
    var r := TakeEmptyFrom(s5, 1);
    StaleStatuses(r.state.threadState);
    assert r.workers == StaleWorkerSystem().workers;
  }

  /** The first round of the run below, from the program's start. */
  function FirstStage(): (s: System)
    ensures Safe(s) && s == FirstTaken()
  {
    FirstRoundRun();
    SysTake(SysStart(SysInit(), [], []), 0)
  }

  /** The second round of the run below. */
  function SecondStage(s2: System): (s: System)
    requires Safe(s2) && s2 == FirstTaken()
    ensures Safe(s) && s == SecondReported()
  {
    SecondRoundTake(s2);
    var s4 := SysTake(SysStart(s2, [], []), 1);
    SecondRoundReport(s4);
    SysReport(s4, 1, [], [])
  }

  /**
   * A run from the program's start that ends in the stale-worker system:
   * two rounds over no filters; worker 0 takes the first round's global job
   * and is still computing it when the second round starts; worker 1 takes
   * and reports the second round's global job; then workers 1 to 6 find the
   * queue empty.
   */
  function StaleRun(): (sys: System)
    ensures Safe(sys)
    ensures sys == StaleWorkerSystem()
  {
    var s5 := SecondStage(FirstStage());
    LastTakesRun(s5);
    TakeEmptyFrom(s5, 1)
  }

  /** Worker 0 `Outdated` and all others `Finished`: the statuses of the stale-worker system. */
  lemma StaleStatuses(t: seq<ThreadState>)
    requires |t| == NumberOfThreads && t[0].Outdated?
    requires forall v :: 0 < v < NumberOfThreads ==> t[v].Finished?
    ensures t == StaleWorkerSystem().state.threadState
  {
  }

  /**
   * Workers `w` to 6 call `get_work` in turn on an empty queue while
   * worker 0 is `Outdated`: each is marked `Finished` and nothing else
   * changes, so the round stays in progress.
   */
  function TakeEmptyFrom(sys: System, w: nat): (r: System)
    requires Safe(sys) && 0 < w <= NumberOfThreads
    requires sys.state.Working? && sys.state.unfinishedWork == [] && sys.state.threadState[0].Outdated?
    requires forall v :: w <= v < NumberOfThreads ==> sys.workers[v].Free?
    ensures Safe(r) && r.state.Working?
    ensures r == sys.(state := sys.state.(threadState := r.state.threadState))
    ensures forall v :: 0 <= v < w ==> r.state.threadState[v] == sys.state.threadState[v]
    ensures forall v :: w <= v < NumberOfThreads ==> r.state.threadState[v].Finished?
    decreases NumberOfThreads - w
  {
    if w == NumberOfThreads then sys
    else
      var statuses := sys.state.threadState[w := ThreadState.Finished];
      assert statuses[0].Outdated?;
      var next := SysTake(sys, w);
      assert next == sys.(state := sys.state.(threadState := statuses));
      TakeEmptyFrom(next, w + 1)
  }

  /** In the stale-worker system progress reads (1, 1), yet nothing can be polled. */
  lemma StaleProgress()
    ensures var sys := StaleWorkerSystem();
      && Complete(sys)
      && sys.state.Working?
      && GetProgress(sys.state) == (1, 1)
      && SysPoll(sys).1.None?
  {
    StaleWorkerConsistent();
    CountWorkingNone(StaleWorkerSystem().state.threadState);
  }

  /**
   * Full progress does not mean a result is ready: at the end of the run
   * above, `get_progress` reads (1, 1) while the round is still in progress
   * and polling yields nothing.
   */
  lemma ProgressFullBeforeCompletion()
    ensures var sys := StaleRun();
      && Complete(sys)
      && sys.state.Working?
      && GetProgress(sys.state) == (1, 1)
      && SysPoll(sys).1.None?
  {
    StaleProgress();
  }
}
