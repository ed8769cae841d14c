/**
 * The body of a worker's loop in filter_calculation/mod.rs: for one job,
 * decide which labels would still narrow the records that survive the
 * other filters, and split them into a top-level and a sub-level list.
 */
module Classification {
  import opened Wrappers
  import opened Labels
  import opened SubFilters
  import opened LabelVecs
  import opened Jobs
  import Sorting

  /** `c` is not applied because it is the job's own filter (core equality is id equality). */
  predicate Skipped(excluded: Option<FilterCore>, c: FilterCore) {
    excluded.Some? && SameCore(excluded.value, c)
  }

  /** The inner filter loop: the chunk passes every core the job does not skip. */
  function PassesAll(cores: seq<FilterCore>, excluded: Option<FilterCore>, chunk: seq<Label>): (r: bool)
    ensures r <==> forall j :: 0 <= j < |cores| && !Skipped(excluded, cores[j]) ==> Passes(cores[j], chunk)
  {
    if |cores| == 0 then true
    else if !Skipped(excluded, cores[0]) && !Passes(cores[0], chunk) then false
    else PassesAll(cores[1..], excluded, chunk)
  }

  predicate StrictlyIncreasing(s: seq<nat>) {
    forall i, j :: 0 <= i < j < |s| ==> s[i] < s[j]
  }

  /** The positions of the surviving chunks, in order; `data_counter` is their number. */
  function Survivors(chunks: seq<seq<Label>>, cores: seq<FilterCore>, excluded: Option<FilterCore>): (r: seq<nat>)
    ensures StrictlyIncreasing(r)
    ensures forall k :: 0 <= k < |r| ==> r[k] < |chunks|
    ensures forall i :: 0 <= i < |chunks| ==> (i in r <==> PassesAll(cores, excluded, chunks[i]))
    ensures |r| <= |chunks|
  {
    if |chunks| == 0 then []
    else
      var p := Survivors(chunks[..|chunks| - 1], cores, excluded);
      assert forall i :: 0 <= i < |chunks| - 1 ==> chunks[..|chunks| - 1][i] == chunks[i];
      if PassesAll(cores, excluded, chunks[|chunks| - 1]) then p + [|chunks| - 1] else p
  }

  /** The chunks at positions `idx`, in that order. */
  function Picked(chunks: seq<seq<Label>>, idx: seq<nat>): seq<seq<Label>>
    requires forall k :: 0 <= k < |idx| ==> idx[k] < |chunks|
  {
    seq(|idx|, k requires 0 <= k < |idx| => chunks[idx[k]])
  }

  /**
   * `label_map` after the chunk loop: the labels of the chunks at `idx`,
   * once per occurrence.
   */
  function Tally(chunks: seq<seq<Label>>, idx: seq<nat>): (r: multiset<Label>)
    requires forall k :: 0 <= k < |idx| ==> idx[k] < |chunks|
    ensures forall l :: l in r <==> exists k :: 0 <= k < |idx| && l in chunks[idx[k]]
  {
    if |idx| == 0 then multiset{}
    else
      var init := idx[..|idx| - 1];
      var r := Tally(chunks, init) + multiset(chunks[idx[|idx| - 1]]);
      assert forall k :: 0 <= k < |init| ==> init[k] == idx[k];
      r
  }

  /** A label's count in the tally is its number of occurrences across the picked chunks together. */
  lemma {:induction false} TallyCountsOccurrences(chunks: seq<seq<Label>>, idx: seq<nat>)
    requires forall k :: 0 <= k < |idx| ==> idx[k] < |chunks|
    ensures Tally(chunks, idx) == multiset(Flatten(Picked(chunks, idx)))
  {
    if |idx| > 0 {
      var init := idx[..|idx| - 1];
      TallyCountsOccurrences(chunks, init);
      PickedSnoc(chunks, idx);
    }
  }

  /** Picking one more position appends that chunk's labels to the flattened picks. */
  lemma PickedSnoc(chunks: seq<seq<Label>>, idx: seq<nat>)
    requires forall k :: 0 <= k < |idx| ==> idx[k] < |chunks|
    requires |idx| > 0
    ensures Flatten(Picked(chunks, idx)) == Flatten(Picked(chunks, idx[..|idx| - 1])) + chunks[idx[|idx| - 1]]
  {
    var init := idx[..|idx| - 1];
    assert Picked(chunks, idx) == Picked(chunks, init) + [chunks[idx[|idx| - 1]]];
    FlattenAppend(Picked(chunks, init), chunks[idx[|idx| - 1]]);
  }

  /** The labels of the surviving records, counted once per occurrence. */
  function OccurrenceTally(chunks: seq<seq<Label>>, cores: seq<FilterCore>, excluded: Option<FilterCore>): multiset<Label> {
    Tally(chunks, Survivors(chunks, cores, excluded))
  }

  /** `current_label`: the job's own label, none for the global job. */
  function CurrentLabel(excluded: Option<FilterCore>): Option<Label> {
    match excluded
    case Some(c) => Some(c.filterLabel)
    case None => None
  }

  /** The label goes to the sub-level list: it shares the job's current top-level label. */
  predicate RoutedToSub(current: Option<Label>, l: Label) {
    current.Some? && TopOf(current.value) == TopOf(l)
  }

  /** The two lists a job produces. */
  datatype Options = Options(top: seq<Label>, sub: seq<Label>)

  /** `label_map.drain()` visits every counted label exactly once, in some order. */
  ghost predicate IsDrainOrder(drain: seq<Label>, tally: multiset<Label>) {
    && (forall l :: l in drain <==> l in tally)
    && Sorting.DistinctBy(drain, (l: Label) => l)
  }

  lemma AppendDistinct<K>(s: seq<Label>, l: Label, key: Label -> K)
    requires Sorting.DistinctBy(s, key)
    requires forall t :: t in s ==> key(t) != key(l)
    ensures Sorting.DistinctBy(s + [l], key)
  {
    var r := s + [l];
    forall i, j | 0 <= i < j < |r|
      ensures key(r[i]) != key(r[j])
    {
      assert r[i] in s;
    }
  }

  /**
   * One turn of the drain loop: skip a label counted on as many occurrences
   * as there are survivors; otherwise add it to the sub-level list (unless
   * one with the same sub-level label is there) when it shares the current
   * top-level label, or to the top-level list (unless one with the same
   * top-level label is there).
   */
  function Step(l: Label, tally: multiset<Label>, n: nat, current: Option<Label>, acc: Options): (r: Options)
    requires Sorting.DistinctBy(acc.top, TopOf) && Sorting.DistinctBy(acc.sub, SubOf)
    ensures Sorting.DistinctBy(r.top, TopOf) && Sorting.DistinctBy(r.sub, SubOf)
    ensures forall x :: x in acc.top ==> x in r.top
    ensures forall x :: x in acc.sub ==> x in r.sub
    ensures forall x :: x in r.top ==> x in acc.top || (x == l && tally[l] != n && !RoutedToSub(current, l))
    ensures forall x :: x in r.sub ==> x in acc.sub || (x == l && tally[l] != n && RoutedToSub(current, l))
    ensures tally[l] != n && !RoutedToSub(current, l) ==> exists t :: t in r.top && TopOf(t) == TopOf(l)
    ensures tally[l] != n && RoutedToSub(current, l) ==> exists t :: t in r.sub && SubOf(t) == SubOf(l)
  {
    if tally[l] == n then acc
    else if RoutedToSub(current, l) then
      if exists t :: t in acc.sub && SubOf(t) == SubOf(l) then acc
      else
        AppendDistinct(acc.sub, l, SubOf);
        assert l in acc.sub + [l];
        acc.(sub := acc.sub + [l])
    else
      if exists t :: t in acc.top && TopOf(t) == TopOf(l) then acc
      else
        AppendDistinct(acc.top, l, TopOf);
        assert l in acc.top + [l];
        acc.(top := acc.top + [l])
  }

  /** The whole drain loop, one `Step` per drained label. */
  function Sift(drain: seq<Label>, tally: multiset<Label>, n: nat, current: Option<Label>, acc: Options): (r: Options)
    requires Sorting.DistinctBy(acc.top, TopOf) && Sorting.DistinctBy(acc.sub, SubOf)
    ensures Sorting.DistinctBy(r.top, TopOf) && Sorting.DistinctBy(r.sub, SubOf)
    ensures forall l :: l in acc.top ==> l in r.top
    ensures forall l :: l in acc.sub ==> l in r.sub
    ensures forall l :: l in r.top ==> l in acc.top || (l in drain && tally[l] != n && !RoutedToSub(current, l))
    ensures forall l :: l in r.sub ==> l in acc.sub || (l in drain && tally[l] != n && RoutedToSub(current, l))
    ensures forall l :: l in drain && tally[l] != n && !RoutedToSub(current, l) ==>
      exists t :: t in r.top && TopOf(t) == TopOf(l)
    ensures forall l :: l in drain && tally[l] != n && RoutedToSub(current, l) ==>
      exists t :: t in r.sub && SubOf(t) == SubOf(l)
    decreases |drain|
  {
    if |drain| == 0 then acc
    else
      assert forall x :: x in drain <==> x == drain[0] || x in drain[1..];
      Sift(drain[1..], tally, n, current, Step(drain[0], tally, n, current, acc))
  }

  /**
   * The drain loop followed by sorting both lists, for any tally and
   * survivor count.
   */
  function SiftAndSort(drain: seq<Label>, tally: multiset<Label>, n: nat, current: Option<Label>): (r: Options)
    ensures Sorting.SortedBy(r.top, Le) && Sorting.SortedBy(r.sub, Le)
    ensures Sorting.DistinctBy(r.top, TopOf) && Sorting.DistinctBy(r.sub, SubOf)
    ensures forall l :: l in r.top ==> l in drain && tally[l] != n && !RoutedToSub(current, l)
    ensures forall l :: l in r.sub <==> l in drain && tally[l] != n && RoutedToSub(current, l)
    ensures forall l :: l in drain && tally[l] != n && !RoutedToSub(current, l) ==>
      exists t :: t in r.top && TopOf(t) == TopOf(l)
  {
    var sifted := Sift(drain, tally, n, current, Options([], []));
    SortKeeps(sifted.top, TopOf);
    SortKeeps(sifted.sub, SubOf);
    SubListComplete(drain, tally, n, current, sifted);
    Options(SortLabels(sifted.top), SortLabels(sifted.sub))
  }

  /**
   * Two labels with the same top-level and sub-level label are the same
   * label, so the sub-level list keeps every reported label routed to it.
   */
  lemma SubListComplete(drain: seq<Label>, tally: multiset<Label>, n: nat, current: Option<Label>, sifted: Options)
    requires sifted == Sift(drain, tally, n, current, Options([], []))
    ensures forall l :: l in drain && tally[l] != n && RoutedToSub(current, l) ==> l in sifted.sub
  {
    forall l | l in drain && tally[l] != n && RoutedToSub(current, l)
      ensures l in sifted.sub
    {
      var t :| t in sifted.sub && SubOf(t) == SubOf(l);
      assert t == l;
    }
  }

  /** A label the job reports: counted on the survivors, but not as often as there are survivors. */
  predicate Reported(chunks: seq<seq<Label>>, cores: seq<FilterCore>, excluded: Option<FilterCore>, l: Label) {
    var tally := OccurrenceTally(chunks, cores, excluded);
    l in tally && tally[l] != |Survivors(chunks, cores, excluded)|
  }

  /**
   * One job's classification, as the worker computes it, for a given order
   * in which the label map is drained.
   */
  function Classify(chunks: seq<seq<Label>>, cores: seq<FilterCore>, excluded: Option<FilterCore>, drain: seq<Label>): (r: Options)
    requires IsDrainOrder(drain, OccurrenceTally(chunks, cores, excluded))
    ensures forall l :: l in r.top ==> Reported(chunks, cores, excluded, l) && !RoutedToSub(CurrentLabel(excluded), l)
    ensures forall l :: l in r.sub <==> Reported(chunks, cores, excluded, l) && RoutedToSub(CurrentLabel(excluded), l)
    ensures forall l :: Reported(chunks, cores, excluded, l) && !RoutedToSub(CurrentLabel(excluded), l) ==>
      exists t :: t in r.top && TopOf(t) == TopOf(l)
    ensures Sorting.DistinctBy(r.top, TopOf) && Sorting.DistinctBy(r.sub, SubOf)
    ensures Sorting.SortedBy(r.top, Le) && Sorting.SortedBy(r.sub, Le)
    ensures excluded.None? ==> r.sub == []
  {
    var idx := Survivors(chunks, cores, excluded);
    var r := SiftAndSort(drain, Tally(chunks, idx), |idx|, CurrentLabel(excluded));
    assert |r.sub| > 0 ==> r.sub[0] in r.sub;
    r
  }

  /** The top-level labels a list covers. */
  function TopsOf(s: seq<Label>): set<int> {
    set l | l in s :: TopOf(l)
  }

  /**
   * The categories of the top-level list do not depend on the order in which
   * the label map is drained; only which representative is kept does.
   */
  lemma TopCategoriesIndependentOfDrain(chunks: seq<seq<Label>>, cores: seq<FilterCore>, excluded: Option<FilterCore>, d1: seq<Label>, d2: seq<Label>)
    requires IsDrainOrder(d1, OccurrenceTally(chunks, cores, excluded))
    requires IsDrainOrder(d2, OccurrenceTally(chunks, cores, excluded))
    ensures TopsOf(Classify(chunks, cores, excluded, d1).top) == TopsOf(Classify(chunks, cores, excluded, d2).top)
  {
    var r1 := Classify(chunks, cores, excluded, d1);
    var r2 := Classify(chunks, cores, excluded, d2);
    TopsCovered(chunks, cores, excluded, r1.top, r2.top);
    TopsCovered(chunks, cores, excluded, r2.top, r1.top);
  }

  lemma TopsCovered(chunks: seq<seq<Label>>, cores: seq<FilterCore>, excluded: Option<FilterCore>, a: seq<Label>, b: seq<Label>)
    requires forall l :: l in a ==> Reported(chunks, cores, excluded, l) && !RoutedToSub(CurrentLabel(excluded), l)
    requires forall l :: Reported(chunks, cores, excluded, l) && !RoutedToSub(CurrentLabel(excluded), l) ==>
      exists t :: t in b && TopOf(t) == TopOf(l)
    ensures TopsOf(a) <= TopsOf(b)
  {
    forall x | x in TopsOf(a)
      ensures x in TopsOf(b)
    {
      var l :| l in a && TopOf(l) == x;
      var t :| t in b && TopOf(t) == TopOf(l);
    }
  }

  /** The sub-level list does not depend on the drain order at all. */
  lemma SubListIndependentOfDrain(chunks: seq<seq<Label>>, cores: seq<FilterCore>, excluded: Option<FilterCore>, d1: seq<Label>, d2: seq<Label>)
    requires IsDrainOrder(d1, OccurrenceTally(chunks, cores, excluded))
    requires IsDrainOrder(d2, OccurrenceTally(chunks, cores, excluded))
    ensures Classify(chunks, cores, excluded, d1).sub == Classify(chunks, cores, excluded, d2).sub
  {
    var r1 := Classify(chunks, cores, excluded, d1);
    var r2 := Classify(chunks, cores, excluded, d2);
    assert forall l :: l in r1.sub <==> l in r2.sub;
    DistinctByIdentity(r1.sub);
    DistinctByIdentity(r2.sub);
    SortedDistinctUnique(r1.sub, r2.sub);
  }

  lemma DistinctByIdentity(s: seq<Label>)
    requires Sorting.DistinctBy(s, SubOf)
    ensures Sorting.DistinctBy(s, (l: Label) => l)
  {
  }

  /**
   * Leave-one-out: a job never applies its own filter. Replacing the job's
   * core by any core with the same id (another label, the flag flipped)
   * leaves every record's survival unchanged.
   */
  lemma OwnFilterNeverApplies(cores: seq<FilterCore>, i: nat, c: FilterCore, chunk: seq<Label>)
    requires i < |cores| && SameCore(c, cores[i])
    ensures PassesAll(cores[i := c], Some(c), chunk) == PassesAll(cores, Some(cores[i]), chunk)
  {
    var cores' := cores[i := c];
    assert forall j :: 0 <= j < |cores| && j != i ==> cores'[j] == cores[j];
  }

  /** The global job skips nothing: a record survives it iff it passes every filter. */
  lemma GlobalJobAppliesEveryCore(cores: seq<FilterCore>, chunk: seq<Label>)
    ensures PassesAll(cores, None, chunk) <==> forall j :: 0 <= j < |cores| ==> Passes(cores[j], chunk)
  {
  }

  /** The distinct labels of a record. */
  function LabelSet(s: seq<Label>): (r: set<Label>)
    ensures forall l :: l in r <==> l in s
  {
    set i | 0 <= i < |s| :: s[i]
  }

  /** The labels of the surviving records, counted once per record that carries them. */
  function RecordTally(chunks: seq<seq<Label>>, idx: seq<nat>): multiset<Label>
    requires forall k :: 0 <= k < |idx| ==> idx[k] < |chunks|
  {
    if |idx| == 0 then multiset{}
    else RecordTally(chunks, idx[..|idx| - 1]) + multiset(LabelSet(chunks[idx[|idx| - 1]]))
  }

  /** A record's count is the number of survivors carrying it. */
  lemma {:induction false} RecordTallyCounts(chunks: seq<seq<Label>>, idx: seq<nat>, l: Label)
    requires forall k :: 0 <= k < |idx| ==> idx[k] < |chunks|
    ensures RecordTally(chunks, idx)[l] <= |idx|
    ensures RecordTally(chunks, idx)[l] == |idx| <==> forall k :: 0 <= k < |idx| ==> l in chunks[idx[k]]
    ensures RecordTally(chunks, idx)[l] > 0 <==> exists k :: 0 <= k < |idx| && l in chunks[idx[k]]
  {
    if |idx| > 0 {
      var init := idx[..|idx| - 1];
      var last := chunks[idx[|idx| - 1]];
      RecordTallyCounts(chunks, init, l);
      assert forall k :: 0 <= k < |init| ==> init[k] == idx[k];
      assert multiset(LabelSet(last))[l] == if l in last then 1 else 0;
    }
  }

  /** The survivors of the job include one carrying `l` and one lacking it: filtering by `l` would narrow them. */
  ghost predicate Discriminates(chunks: seq<seq<Label>>, cores: seq<FilterCore>, excluded: Option<FilterCore>, l: Label) {
    var idx := Survivors(chunks, cores, excluded);
    && (exists k :: 0 <= k < |idx| && l in chunks[idx[k]])
    && (exists k :: 0 <= k < |idx| && l !in chunks[idx[k]])
  }

  /**
   * The classification with the count the surrounding comment describes
   * ("in some but not all" records): a label counts once per surviving
   * record that carries it.
   */
  function ClassifyByRecords(chunks: seq<seq<Label>>, cores: seq<FilterCore>, excluded: Option<FilterCore>, drain: seq<Label>): (r: Options)
    requires IsDrainOrder(drain, OccurrenceTally(chunks, cores, excluded))
    ensures forall l :: l in r.top ==> Discriminates(chunks, cores, excluded, l) && !RoutedToSub(CurrentLabel(excluded), l)
    ensures forall l :: l in r.sub <==> Discriminates(chunks, cores, excluded, l) && RoutedToSub(CurrentLabel(excluded), l)
    ensures forall l :: Discriminates(chunks, cores, excluded, l) && !RoutedToSub(CurrentLabel(excluded), l) ==>
      exists t :: t in r.top && TopOf(t) == TopOf(l)
    ensures Sorting.DistinctBy(r.top, TopOf) && Sorting.DistinctBy(r.sub, SubOf)
    ensures Sorting.SortedBy(r.top, Le) && Sorting.SortedBy(r.sub, Le)
  {
    var idx := Survivors(chunks, cores, excluded);
    var tally := RecordTally(chunks, idx);
    assert forall l :: l in drain && tally[l] != |idx| <==> Discriminates(chunks, cores, excluded, l) by {
      forall l
        ensures l in drain && tally[l] != |idx| <==> Discriminates(chunks, cores, excluded, l)
      {
        RecordTallyCounts(chunks, idx, l);
      }
    }
    SiftAndSort(drain, tally, |idx|, CurrentLabel(excluded))
  }

  /** Without a label repeated inside one record, counting per occurrence equals counting per record. */
  lemma {:induction false} TalliesAgreeWithoutRepeats(chunks: seq<seq<Label>>, idx: seq<nat>)
    requires forall k :: 0 <= k < |idx| ==> idx[k] < |chunks|
    requires forall i :: 0 <= i < |chunks| ==> Sorting.DistinctBy(chunks[i], (l: Label) => l)
    ensures Tally(chunks, idx) == RecordTally(chunks, idx)
  {
    if |idx| > 0 {
      var init := idx[..|idx| - 1];
      TalliesAgreeWithoutRepeats(chunks, init);
      DistinctSeqMultiset(chunks[idx[|idx| - 1]]);
    }
  }

  /** Hence, when no record repeats a label, the code as written and the corrected classification agree. */
  lemma ClassificationsAgreeWithoutRepeats(chunks: seq<seq<Label>>, cores: seq<FilterCore>, excluded: Option<FilterCore>, drain: seq<Label>)
    requires IsDrainOrder(drain, OccurrenceTally(chunks, cores, excluded))
    requires forall i :: 0 <= i < |chunks| ==> Sorting.DistinctBy(chunks[i], (l: Label) => l)
    ensures Classify(chunks, cores, excluded, drain) == ClassifyByRecords(chunks, cores, excluded, drain)
  {
    TalliesAgreeWithoutRepeats(chunks, Survivors(chunks, cores, excluded));
  }

  lemma {:induction false} DistinctSeqMultiset(s: seq<Label>)
    requires Sorting.DistinctBy(s, (l: Label) => l)
    ensures multiset(s) == multiset(LabelSet(s))
  {
    if |s| > 0 {
      var t := s[1..];
      assert Sorting.DistinctBy(t, (l: Label) => l);
      DistinctSeqMultiset(t);
      assert s == [s[0]] + t;
      assert s[0] !in t;
      assert LabelSet(s) == {s[0]} + LabelSet(t);
    }
  }

  /**
   * As written, the count is per occurrence, so a label repeated inside a
   * record is misjudged: with survivors [A, A] and [B], A is on one of two
   * records and would narrow them, yet is not reported.
   */
  lemma RepeatedLabelHidden()
    ensures var a := Label(0, None); var b := Label(1, None);
      !Reported([[a, a], [b]], [], None, a) && Discriminates([[a, a], [b]], [], None, a)
  {
    var a := Label(0, None);
    var b := Label(1, None);
    var c := [[a, a], [b]];
    TwoRecordsSurvive(c);
    TwoRecordTally(a, b);
    var idx := Survivors(c, [], None);
    assert a in c[idx[0]] && a !in c[idx[1]];
  }

  lemma TwoRecordsSurvive(c: seq<seq<Label>>)
    requires |c| == 2
    ensures Survivors(c, [], None) == [0, 1]
  {
    OneRecordSurvives(c[..1]);
  }

  lemma TwoRecordTally(a: Label, b: Label)
    ensures Tally([[a, a], [b]], [0, 1]) == multiset{a, a, b}
  {
    var idx: seq<nat> := [0, 1];
    assert idx[..1] == [0];
    assert [0][..0] == [];
  }

  /**
   * The other direction: with the single survivor [A, A], A is on every
   * record, yet it is reported.
   */
  lemma RepeatedLabelReported()
    ensures var a := Label(0, None);
      Reported([[a, a]], [], None, a) && !Discriminates([[a, a]], [], None, a)
  {
    var a := Label(0, None);
    var c := [[a, a]];
    OneRecordSurvives(c);
    OneRecordTally(a);
  }

  lemma OneRecordSurvives(c: seq<seq<Label>>)
    requires |c| == 1
    ensures Survivors(c, [], None) == [0]
  {
    assert c[..0] == [];
  }

  lemma OneRecordTally(a: Label)
    ensures Tally([[a, a]], [0]) == multiset{a, a}
  {
    var idx: seq<nat> := [0];
    assert idx[..0] == [];
  }

  /** What a worker hands back to the coordinator after a real job. */
  datatype JobResult = FilterDone(index: nat, filter: SubFilter) | MainDone(options: seq<Label>)

  /** The label counts of a real job over its snapshot. */
  function JobTally(job: Work): multiset<Label>
    requires !job.NothingToDo? && Valid(job.labels)
  {
    OccurrenceTally(Chunks(job.labels), job.allFilters, ExcludedCore(job))
  }

  /**
   * One pass of the worker loop after `get_work` returned a real job: a
   * per-filter job reports its position and its unchanged core with both
   * lists; the global job reports its top-level list only.
   */
  function RunJob(job: Work, drain: seq<Label>): (r: JobResult)
    requires !job.NothingToDo? && Valid(job.labels)
    requires IsDrainOrder(drain, JobTally(job))
    ensures r.FilterDone? <==> job.FilterLabel?
    ensures r.FilterDone? ==> r.index == job.filter.0 && r.filter.core == job.filter.1
    ensures r.FilterDone? ==> SetSubLevelLabelOptions(r.filter, r.filter.subLevelLabelOptionsForCurrentLabel).Some?
    ensures r.FilterDone? ==>
      var o := Classify(Chunks(job.labels), job.allFilters, ExcludedCore(job), drain);
      r.filter.topLevelLabelOptions == o.top && r.filter.subLevelLabelOptionsForCurrentLabel == o.sub
    ensures r.MainDone? ==> r.options == Classify(Chunks(job.labels), job.allFilters, None, drain).top
  {
    var o := Classify(Chunks(job.labels), job.allFilters, ExcludedCore(job), drain);
    match job
    case FilterLabel((i, core), _, _) =>
      assert forall k :: 0 <= k < |o.sub| ==> o.sub[k] in o.sub;
      FilterDone(i, FromCoreWithLabelOptions(core, o.top, o.sub))
    case MainFilterOptions(_, _) =>
      MainDone(o.top)
  }
}
