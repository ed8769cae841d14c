# label_filter core, modelled in Dafny

label_filter is a small Rust library for narrowing a list of labelled
records with a row of filters. Each filter names one label, and may be inverted. A
record is shown when every filter keeps it. After every change to the filters,
seven background threads recompute which labels are still useful to offer:

- For each filter, the labels that would narrow the records the *other*
  filters keep. These are split into a top-level list and a sub-level list
  for the filter's own top-level label.
- Globally, the top-level labels that would narrow the records all filters keep.

This project models that core as immutable datatypes and pure functions:

- `LabelVecs`: the flattened label snapshot (`LabelVec`) and its chunk iterator.
- `SubFilters`: one filter row (`SubFilter`) with its predicate and option setters.
- `Jobs`, `WorkStates`: the job and round-state datatypes.
- `Classification`: one worker pass, `calculate_filter_options`. The
  `HashMap` drain order is an explicit parameter.
- `Coordinator`: the round coordinator (`ThreadCommunicator`). Each
  mutex-protected method is one function on the round state. `get_work` and
  both push methods require a round in progress: for `get_work` this is the
  condition-variable wait, and for the push methods it excludes the
  `unreachable!()` branches, which `Protocol` shows are never reached.
  `get_progress` requires the coordinator invariant.
- `Protocol`: the coordinator together with seven workers, interleaved by an
  explicit choice of which worker steps next. It shows that the
  `unreachable!()` branches are never reached. It also shows that a completed
  round hands back exactly one filter per filter of the round, in order.
- `MainFilters`: the filter list owner (`MainFilter`). It covers the filter
  map, the new filter's id and label, and the adoption of a finished round.
- `Labels`, `Sorting`, `Wrappers`: a concrete label type with its total
  order, an insertion sort, and `Option`.

Labels are `Label(top: int, sub: Option<int>)`. They are ordered
lexicographically, with `None` before `Some`, as a derived `Ord` would order
them. Records are `seq<seq<Label>>`.

## Model

| member | source | states |
|---|---|---|
| LabelVecs.From | src/main_filter/filter_calculation/label_vec.rs:40-56 | one border per record; the flat label list is the in-order concatenation of the records; borders are non-decreasing, within bounds, and the last equals the label count; each border is the previous one plus the record's length |
| LabelVecs.Iter | src/main_filter/filter_calculation/label_vec.rs:23-30 | yields one chunk per border, chunk i being the labels between the previous border and border i; the chunks concatenate back to the flat list |
| LabelVecs.RoundTrip | src/main_filter/filter_calculation/label_vec.rs:23-48 | iterating a snapshot built from records gives back exactly those records, empty records and empty input included |
| LabelVecs.SnapshotRoundTrip | src/main_filter/filter_calculation/label_vec.rs:23-48 | running `from` and then the iterator loop returns the input records unchanged |
| SubFilters.New | src/sub_filter.rs:36-47 | the new filter has the given label and id, is not inverted, and has both option lists empty |
| SubFilters.Id | src/sub_filter.rs:53-55 | the id identifies the filter's core: another core denotes the same filter exactly when its id equals the result |
| SubFilters.LabelOf | src/sub_filter.rs:49-51 | the returned label is the one the filter's predicate looks for: a record passes iff it carries that label, exclusive-or the invert flag |
| SubFilters.Filter | src/sub_filter.rs:57-59 | the record is kept iff some position of it holds the filter's label, exclusive-or the invert flag |
| SubFilters.FilterMeaning | src/sub_filter.rs:57-59 | a plain filter keeps exactly the records carrying its label; an inverted one keeps exactly the records lacking it |
| SubFilters.Invert | src/sub_filter.rs:125-127 | the invert button flips the flag and changes nothing else |
| SubFilters.InvertComplements | src/sub_filter.rs:57-59 | an inverted filter keeps exactly the records the original rejects; inverting twice restores the filter |
| SubFilters.SetSubLevelLabelOptions | src/sub_filter.rs:61-68 | succeeds iff every option shares the filter's top-level label; on success it replaces only the sub-level list |
| SubFilters.SetTopLevelLabelOptions | src/sub_filter.rs:70-72 | replaces only the top-level list; core and sub-level list unchanged |
| Jobs.ExcludedCore | src/main_filter/filter_calculation/work.rs:7-25 | a per-filter job excludes exactly its own core; the global job excludes none |
| Classification.PassesAll | src/main_filter/filter_calculation/mod.rs:42-49 | a record passes iff every core except the job's own keeps it |
| Classification.Survivors | src/main_filter/filter_calculation/mod.rs:40-52 | the survivors are strictly increasing positions; a position is among them iff its record passes; their number is `data_counter` |
| Classification.Tally | src/main_filter/filter_calculation/mod.rs:54-58 | a label is counted iff it occurs on some survivor |
| Classification.TallyCountsOccurrences | src/main_filter/filter_calculation/mod.rs:54-58 | a label's count is its number of occurrences across the surviving records taken together, so a record that repeats a label adds more than one |
| Classification.Classify | src/main_filter/filter_calculation/mod.rs:61-96 | the sub list holds exactly the reported labels that share the job's top-level label. Every top-list label is reported and not routed to the sub list, and every such top-level category appears in the top list. No two top entries share a top-level label, and no two sub entries share a sub-level label. Both lists are sorted. The global job's sub list is empty. A label counted as often as there are survivors is never reported |
| Classification.TopCategoriesIndependentOfDrain | src/main_filter/filter_calculation/mod.rs:69-96 | the set of top-level categories in the top list is the same for every drain order of the label map |
| Classification.SubListIndependentOfDrain | src/main_filter/filter_calculation/mod.rs:69-95 | the sorted sub list is the same for every drain order |
| Classification.OwnFilterNeverApplies | src/main_filter/filter_calculation/mod.rs:42-44 | changing the job's own core (label or flag) never changes which records survive that job |
| Classification.GlobalJobAppliesEveryCore | src/main_filter/filter_calculation/mod.rs:42-44 | the global job skips no core: a record survives iff every filter keeps it |
| Classification.RecordTallyCounts | src/main_filter/filter_calculation/mod.rs:64-65 | a per-record count is at most the survivor count. It equals the survivor count iff every survivor carries the label, and it is positive iff some survivor does |
| Classification.ClassifyByRecords | src/main_filter/filter_calculation/mod.rs:64-96 | corrected classification: the reported labels are exactly those on some but not all survivors, routed and ordered as in `Classify` |
| Classification.TalliesAgreeWithoutRepeats | src/main_filter/filter_calculation/mod.rs:54-58 | when no record repeats a label, counting per occurrence equals counting per record |
| Classification.ClassificationsAgreeWithoutRepeats | src/main_filter/filter_calculation/mod.rs:55-96 | when no record repeats a label, the classification as written and the corrected one give the same two lists, for every drain order |
| Classification.RepeatedLabelHidden | src/main_filter/filter_calculation/mod.rs:55-73 | for survivors [A, A] and [B], A lies on one record of two but is not reported |
| Classification.RepeatedLabelReported | src/main_filter/filter_calculation/mod.rs:55-73 | for the single survivor [A, A], A lies on every record yet is reported |
| Classification.RunJob | src/main_filter/filter_calculation/mod.rs:98-110 | a per-filter job reports its own position and unchanged core with both lists. Its sub list always passes the sub-option assertion. The global job reports its top list only |
| Labels.LeIsTotalOrder | src/label.rs:3 | the label order is total, reflexive, transitive and antisymmetric |
| Labels.SortLabels | src/main_filter/filter_calculation/mod.rs:95-96 | the output is sorted and a permutation of the input |
| Labels.SortedDistinctUnique | src/main_filter/filter_calculation/mod.rs:95-96 | two sorted lists without repeats that have the same members are equal |
| Sorting.SortDistinct | src/main_filter/filter_calculation/thread_communicator.rs:80 | sorting keeps keys distinct if they were distinct |
| Coordinator.Init | src/main_filter/filter_calculation/thread_communicator.rs:34-38 | the coordinator starts with no round and satisfies the invariant |
| Coordinator.Queue | src/main_filter/filter_calculation/thread_communicator.rs:135-148 | the job list holds one per-filter job per filter, in order, paired with its position, followed by the global job |
| Coordinator.Start | src/main_filter/filter_calculation/thread_communicator.rs:127-163 | a new round: every status `Outdated`, the full job list queued, nothing accumulated, and the invariant established |
| Coordinator.GetWork | src/main_filter/filter_calculation/thread_communicator.rs:57-89 | pops the last queued job, or hands out `NothingToDo` when the queue is empty. Only the caller's status changes. The round finishes iff every status is then `Finished`, and the finished state holds the results sorted by position with the positions dropped. The invariant is preserved |
| Coordinator.PushFinishedFilter | src/main_filter/filter_calculation/thread_communicator.rs:111-125 | appends the result iff the caller's status is `Working`; otherwise the state is unchanged |
| Coordinator.PushMainFilterLabelOptions | src/main_filter/filter_calculation/thread_communicator.rs:95-109 | overwrites the global list iff the caller's status is `Working`; otherwise the state is unchanged |
| Coordinator.TryGetFinished | src/main_filter/filter_calculation/thread_communicator.rs:166-181 | returns the result and resets to `NothingToDo` iff the round is finished; otherwise returns nothing and leaves the state unchanged |
| Coordinator.GetProgress | src/main_filter/filter_calculation/thread_communicator.rs:184-212 | never underflows and never reports more done than total: done + queued + working = total = filters + 1 while working; (1, 1) when idle; (k+1, k+1) when finished with k filters |
| Coordinator.SortedIndicesAreIdentity | src/main_filter/filter_calculation/thread_communicator.rs:76-81 | accumulated results with distinct positions that cover 0..n-1, once sorted, hold position i at place i |
| Protocol.SysTake | src/main_filter/filter_calculation/thread_communicator.rs:48-93 | a woken worker's take keeps every holder's status in step with its round. If the round finishes, no worker holds a job |
| Protocol.SysReport | src/main_filter/filter_calculation/thread_communicator.rs:95-125 | a holder always reports into a round in progress, so `unreachable!()` is never reached. A stale result leaves the state unchanged. A current one is appended or stored |
| Protocol.SysPoll | src/main_filter/filter_calculation/thread_communicator.rs:166-181 | polling keeps the system safe and returns a result iff the round is finished |
| Protocol.StartComplete | src/main_filter/filter_calculation/thread_communicator.rs:127-163 | starting a round while older jobs are still being computed yields a consistent round: nothing held in it, nothing accepted |
| Protocol.TakeComplete | src/main_filter/filter_calculation/thread_communicator.rs:57-89 | every take preserves round bookkeeping. Each job is queued, held by one current worker, or accepted, exactly once. A finishing round's result is one filter per position, each with its own core |
| Protocol.ReportComplete | src/main_filter/filter_calculation/thread_communicator.rs:95-125 | every report preserves round bookkeeping; no position is accepted twice |
| Protocol.PollDeliversEveryFilter | src/main_filter/filter_calculation/thread_communicator.rs:166-181 | a polled result has one filter per filter of the round, in the caller's order, each with its own core |
| Protocol.StaleRun | src/main_filter/filter_calculation/thread_communicator.rs:48-163 | a run from the program's start of `start`, `get_work`, `start`, `get_work`, a report and six more `get_work` calls is allowed at every step, and ends with worker 0 still computing a job of the first round while every other worker is `Finished` in the second |
| Protocol.ProgressFullBeforeCompletion | src/main_filter/filter_calculation/thread_communicator.rs:184-202 | at the end of that run, progress reads (1, 1) and the round is in progress, yet polling yields nothing |
| MainFilters.NewMainFilter | src/main_filter.rs:30-39 | a new owner has no filters, no options and no default label, so it is ready and its ids are distinct |
| MainFilters.GetFilterMap | src/main_filter.rs:41-53 | strictly increasing positions, each below the record count. A position is returned iff every filter keeps its record. With no filters the result is 0..n-1. The result equals the survivors of the global job over the same filters |
| MainFilters.NextFreeId | src/main_filter.rs:87-96 | the smallest id no filter uses; it is at most the number of filters, and the search fails only when all 2^32 ids are taken |
| MainFilters.AddFilter | src/main_filter.rs:85-103 | nothing happens without a default label. Otherwise the new filter is appended, not inverted, with the smallest free id. Its label is the popped last top-level option, or the default label when there are none. Distinct ids and "no default label implies no options" are preserved |
| MainFilters.AddKeepsIdsDistinct | src/main_filter.rs:87-96 | appending a filter with a free id keeps all ids distinct |
| MainFilters.AdoptFinished | src/main_filter.rs:61-69 | a finished result replaces filters and global options wholesale; the default label is set once, to the first global option, only while unset |
| MainFilters.ReadyPreserved | src/main_filter.rs:61-69 | without a default label there are no top-level options; `new`, adoption and adding keep this |

## Left out

- Threads, the mutex, the condition variable, `Arc` sharing and the workers' endless loop are not modelled as such. Each locked section is one transition, and the interleaving is an explicit choice of worker.
- The egui rendering (`show` apart from the id/label choice and the result adoption, `SubFilter::show`, `FilterInfo`, filter removal) is left out because it is user-interface code.
- The sequencing inside `show` is not one modelled function: the first-call `start`, adopting a result, adding a filter, and restarting the round after any change (`update_all_filter`). Its pieces are `MainFilters.AdoptFinished`, `MainFilters.AddFilter` and `Coordinator.Start`.
- The `f32` progress ratio is left out: it is floating point and only drawn.
- The `HashMap` iteration order is unspecified, so the drain order is a parameter constrained only to enumerate each counted label once.
- `SubFilterCore` is imported from sub_filter.rs (work.rs:3), but its definition, its `==`, its `filter`, `clone_core` and `from_core_with_label_options` are not part of this model. The program uses them at four places: `clone_core` at thread_communicator.rs:133, the core comparison at mod.rs:44, the core's `filter` at mod.rs:46, and `from_core_with_label_options` at mod.rs:100. A core is modelled as (id, label, inverted), and two cores compare equal when their ids agree (`SubFilters.SameCore`). `clone_core` is modelled as projection to those fields, and `from_core_with_label_options` as packing them with the two lists.
- The core's `filter` (mod.rs:46) is assumed to be the same contains-XOR-inverted test as `SubFilter::filter` (sub_filter.rs:57-59). It is modelled by `SubFilters.Passes`, and every survivor, tally and classification result rests on this assumption.
- The `Label` and `LabeledData` traits are replaced by the concrete `Label` type and `seq<seq<Label>>` records.
- MainFilters.NextFreeId: the `0..` range over `u32` computes the next value before yielding the current one. A debug build therefore panics in `Step::forward` on the call that would yield `u32::MAX`, so that id is never tested there. A release build wraps to 0, and the search never ends when every id is taken. The model tests every id up to and including `u32::MAX`, as the release build does, and `None` stands for the panic or the endless search.
- Classification.RunJob: takes a valid snapshot as given, since snapshots only come from `from`.
- Classification.RunJob: uses the per-occurrence count as written, not the corrected one (see Findings).
- Protocol.SysReport: the reported lists are parameters, not `RunJob` applied to the job and the round's snapshot. So `Protocol.PollDeliversEveryFilter` promises each delivered filter's core and position, not its option lists. The lists are covered separately by `Classification.RunJob`.
- Coordinator.GetProgress: requires the coordinator invariant, because as written the subtraction would underflow otherwise. `Protocol` shows that every reachable state meets it.
- Full progress does not imply that a result is ready: `Protocol.ProgressFullBeforeCompletion` shows progress (1, 1) after a reachable run in which a stale worker keeps the round open. An idle coordinator also reports (1, 1).
- The code keeps no lists of "useless" labels and has no step that resolves a conflict between useful and useless labels, so the model has none either.
- Classification.Tally: the counts are unbounded integers. In the code, `data_counter` (mod.rs:37) and the map's counters (mod.rs:56) carry no type annotation, and the comparison at mod.rs:71 only ties them to each other, so Rust gives both the default `i32`. With more than `i32::MAX` surviving records, or that many occurrences of one label, a debug build panics on the overflow. That kills the worker thread, and the round never completes. A release build wraps. The model covers neither.

## Findings

| source | as written | input that shows it | evidently intended | confidence | as-written member | corrected member |
|---|---|---|---|---|---|---|
| src/main_filter/filter_calculation/mod.rs:55-73 | labels are counted once per occurrence and compared with the number of surviving records | survivors [A, A] and [B]: A is counted twice, equals the survivor count, and is dropped although it is on only one record; a single survivor [A, A] reports A although every record carries it | count each label once per surviving record, so that "in some but not all" records (line 65) holds | medium, not executed | Classification.RepeatedLabelHidden | Classification.ClassifyByRecords |
