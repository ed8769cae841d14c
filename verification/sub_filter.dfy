/**
 * One filter row (`SubFilter` in sub_filter.rs): the chosen label, the invert
 * flag and the stable id, plus the two option lists the background round
 * computes for it.
 */
module SubFilters {
  import opened Wrappers
  import opened Labels

  /** Filter ids are `u32`. */
  newtype u32 = x: int | 0 <= x < 0x1_0000_0000

  /**
   * The immutable part of a filter handed to the workers: id, label and
   * invert flag. Two cores denote the same filter when their ids agree.
   */
  datatype FilterCore = FilterCore(id: u32, filterLabel: Label, inverted: bool)

  predicate SameCore(a: FilterCore, b: FilterCore) {
    a.id == b.id
  }

  datatype SubFilter = SubFilter(
    core: FilterCore,
    topLevelLabelOptions: seq<Label>,
    subLevelLabelOptionsForCurrentLabel: seq<Label>)

  /** `id()`: the id identifies the filter's core. */
  function Id(f: SubFilter): (r: u32)
    ensures forall c: FilterCore :: SameCore(f.core, c) <==> c.id == r
  {
    f.core.id
  }

  /** `label()`: the label the filter's predicate looks for. */
  function LabelOf(f: SubFilter): (r: Label)
    ensures forall record: seq<Label> :: Passes(f.core, record) <==> (r in record) != f.core.inverted
  {
    f.core.filterLabel
  }

  /** `new`: the given label and id, not inverted, no options yet. */
  function New(l: Label, id: u32): (f: SubFilter)
    ensures Id(f) == id && LabelOf(f) == l
    ensures !f.core.inverted
    ensures f.topLevelLabelOptions == [] && f.subLevelLabelOptionsForCurrentLabel == []
  {
    SubFilter(FilterCore(id, l, false), [], [])
  }

  /** The predicate of a filter: the record carries the label, flipped when inverted. */
  predicate Passes(c: FilterCore, record: seq<Label>) {
    (c.filterLabel in record) != c.inverted
  }

  /** `filter`: the record carries the filter's label, exclusive-or the invert flag. */
  function Filter(f: SubFilter, record: seq<Label>): (r: bool)
    ensures r <==> ((exists k :: 0 <= k < |record| && record[k] == LabelOf(f)) != f.core.inverted)
  {
    Passes(f.core, record)
  }

  /** A filter that is not inverted keeps exactly the records carrying its label; an inverted one exactly the others. */
  lemma FilterMeaning(f: SubFilter, record: seq<Label>)
    ensures !f.core.inverted ==> (Filter(f, record) <==> exists k :: 0 <= k < |record| && record[k] == LabelOf(f))
    ensures f.core.inverted ==> (Filter(f, record) <==> forall k :: 0 <= k < |record| ==> record[k] != LabelOf(f))
  {
  }

  /** The "invert" button: flips the flag and nothing else. */
  function Invert(f: SubFilter): (r: SubFilter)
    ensures Id(r) == Id(f) && LabelOf(r) == LabelOf(f)
    ensures r.core.inverted == !f.core.inverted
    ensures r.topLevelLabelOptions == f.topLevelLabelOptions
    ensures r.subLevelLabelOptionsForCurrentLabel == f.subLevelLabelOptionsForCurrentLabel
  {
    f.(core := f.core.(inverted := !f.core.inverted))
  }

  /** Toggling `inverted` complements the predicate on every record. */
  lemma InvertComplements(f: SubFilter, record: seq<Label>)
    ensures Filter(Invert(f), record) == !Filter(f, record)
    ensures Invert(Invert(f)) == f
  {
  }

  /**
   * `set_sub_level_label_options_for_current_label`: the assertion fails
   * (None) unless every option has the filter's top-level label; otherwise
   * only the sub-level list is replaced.
   */
  function SetSubLevelLabelOptions(f: SubFilter, options: seq<Label>): (r: Option<SubFilter>)
    ensures r.Some? <==> forall k :: 0 <= k < |options| ==> TopOf(options[k]) == TopOf(LabelOf(f))
    ensures r.Some? ==> r.value.core == f.core
    ensures r.Some? ==> r.value.topLevelLabelOptions == f.topLevelLabelOptions
    ensures r.Some? ==> r.value.subLevelLabelOptionsForCurrentLabel == options
  {
    if forall o :: o in options ==> TopOf(o) == TopOf(f.core.filterLabel) then
      Some(f.(subLevelLabelOptionsForCurrentLabel := options))
    else
      None
  }

  /** `set_top_level_label_options`: replaces only the top-level list. */
  function SetTopLevelLabelOptions(f: SubFilter, options: seq<Label>): (r: SubFilter)
    ensures r.core == f.core
    ensures r.subLevelLabelOptionsForCurrentLabel == f.subLevelLabelOptionsForCurrentLabel
    ensures r.topLevelLabelOptions == options
  {
    f.(topLevelLabelOptions := options)
  }

  /**
   * The filter a worker reports for a per-filter job: the job's core with the
   * two computed option lists.
   */
  function FromCoreWithLabelOptions(core: FilterCore, top: seq<Label>, sub: seq<Label>): (f: SubFilter)
    ensures f.core == core
    ensures f.topLevelLabelOptions == top && f.subLevelLabelOptionsForCurrentLabel == sub
  {
    SubFilter(core, top, sub)
  }
}
