/**
 * The owner of the filter list (`MainFilter` in main_filter.rs): the filters
 * in display order, the global label options of the latest finished round,
 * and the label a new filter falls back on. Rendering is not modelled; what
 * remains is the filter map, the choice of a new filter's id and label, and
 * the adoption of a finished round's result.
 */
module MainFilters {
  import opened Wrappers
  import opened Labels
  import opened SubFilters
  import opened Classification
  import opened Coordinator

  datatype MainFilter = MainFilter(
    filters: seq<SubFilter>,
    topLevelLabelOptions: seq<Label>,
    defaultLabel: Option<Label>)

  /** `new`: no filters, no options, no default label. */
  function NewMainFilter(): (m: MainFilter)
    ensures m.filters == [] && m.topLevelLabelOptions == [] && m.defaultLabel.None?
    ensures Ready(m) && DistinctIds(m.filters)
  {
    MainFilter([], [], None)
  }

  /** The record is kept by every filter of the list. */
  predicate PassesEvery(filters: seq<SubFilter>, record: seq<Label>) {
    forall j :: 0 <= j < |filters| ==> Filter(filters[j], record)
  }

  /** The inner loop of `get_filter_map`: stops at the first filter that rejects the record. */
  method PassesFilters(filters: seq<SubFilter>, record: seq<Label>) returns (b: bool)
    ensures b <==> PassesEvery(filters, record)
  {
    var j := 0;
    while j < |filters|
      invariant 0 <= j <= |filters|
      invariant forall k :: 0 <= k < j ==> Filter(filters[k], record)
    {
      if !Filter(filters[j], record) {
        return false;
      }
      j := j + 1;
    }
    return true;
  }

  /**
   * `get_filter_map`: the positions of the records every filter keeps, in
   * increasing order. They are exactly the records the global job of a
   * round over the same filters counts as survivors.
   */
  method GetFilterMap(m: MainFilter, data: seq<seq<Label>>) returns (r: seq<nat>)
    ensures StrictlyIncreasing(r)
    ensures forall k :: 0 <= k < |r| ==> r[k] < |data|
    ensures forall i :: 0 <= i < |data| ==> (i in r <==> PassesEvery(m.filters, data[i]))
    ensures |m.filters| == 0 ==> r == seq(|data|, i => i)
    ensures r == Survivors(data, Cores(m.filters), None)
  {
    var cores := Cores(m.filters);
    CoresWithoutExclusion(m.filters);
    r := [];
    var i := 0;
    while i < |data|
      invariant 0 <= i <= |data|
      invariant r == Survivors(data[..i], cores, None)
    {
      var keep := PassesFilters(m.filters, data[i]);
      assert data[..i + 1][..i] == data[..i];
      if keep {
        r := r + [i];
      }
      i := i + 1;
    }
    assert data[..i] == data;
    if |m.filters| == 0 {
      NoFiltersKeepAll(data, cores);
    }
  }

  /** With no excluded core, passing every core of the list is passing every filter. */
  lemma CoresWithoutExclusion(filters: seq<SubFilter>)
    ensures forall record :: PassesAll(Cores(filters), None, record) <==> PassesEvery(filters, record)
  {
  }

  /** With no cores, every record survives. */
  lemma {:induction false} NoFiltersKeepAll(data: seq<seq<Label>>, cores: seq<FilterCore>)
    requires |cores| == 0
    ensures Survivors(data, cores, None) == seq(|data|, i => i)
  {
    if |data| > 0 {
      NoFiltersKeepAll(data[..|data| - 1], cores);
    }
  }

  /** Some filter of the list has id `id`. */
  ghost predicate Used(filters: seq<SubFilter>, id: int) {
    exists j :: 0 <= j < |filters| && Id(filters[j]) as int == id
  }

  /** The body of the `find` closure: no filter has this id. */
  function IsFree(filters: seq<SubFilter>, id: u32): (r: bool)
    ensures r <==> !Used(filters, id as int)
  {
    if |filters| == 0 then true
    else Id(filters[0]) != id && IsFree(filters[1..], id)
  }

  /**
   * The id search of the "Add Filter" button: the smallest `u32` no filter
   * uses. `None` is the `expect` failing, which needs all 2^32 ids in use.
   */
  method NextFreeId(filters: seq<SubFilter>) returns (r: Option<u32>)
    ensures r.Some? ==> !Used(filters, r.value as int)
    ensures r.Some? ==> forall x: int :: 0 <= x < r.value as int ==> Used(filters, x)
    ensures r.Some? ==> r.value as int <= |filters|
    ensures r.None? ==> |filters| >= 0x1_0000_0000
  {
    var id: int := 0;
    while id < 0x1_0000_0000
      invariant 0 <= id <= 0x1_0000_0000
      invariant forall x: int :: 0 <= x < id ==> Used(filters, x)
    {
      var free := IsFree(filters, id as u32);
      if free {
        assert !Used(filters, id);
        IdsBelowUsed(filters, id);
        return Some(id as u32);
      }
      id := id + 1;
    }
    IdsBelowUsed(filters, id);
    r := None;
  }

  /** When every id below `v` is in use, there are at least `v` filters. */
  lemma IdsBelowUsed(filters: seq<SubFilter>, v: int)
    requires 0 <= v <= 0x1_0000_0000
    requires forall x: int :: 0 <= x < v ==> Used(filters, x)
    ensures v <= |filters|
  {
    Below(v);
    UsedBound(Range(v), filters);
  }

  /** The numbers `0, …, v - 1`. */
  function Range(v: nat): set<int> {
    if v == 0 then {} else Range(v - 1) + {v - 1}
  }

  lemma {:induction false} Below(v: nat)
    ensures forall x :: x in Range(v) <==> 0 <= x < v
    ensures |Range(v)| == v
  {
    if v > 0 {
      Below(v - 1);
    }
  }

  /** A set of ids, each used by some filter, has at most as many members as there are filters. */
  lemma {:induction false} UsedBound(s: set<int>, filters: seq<SubFilter>)
    requires forall x :: x in s ==> Used(filters, x)
    ensures |s| <= |filters|
  {
    if |filters| == 0 {
      assert forall x :: !Used(filters, x);
      assert forall x :: x !in s;
      assert s == {};
    } else {
      var n := |filters| - 1;
      var rest := s - {Id(filters[n]) as int};
      forall x | x in rest
        ensures Used(filters[..n], x)
      {
        var j :| 0 <= j < |filters| && Id(filters[j]) as int == x;
        assert j != n;
        assert filters[..n][j] == filters[j];
      }
      UsedBound(rest, filters[..n]);
    }
  }

  /** No two filters share an id. */
  predicate DistinctIds(filters: seq<SubFilter>) {
    forall i, j :: 0 <= i < j < |filters| ==> Id(filters[i]) != Id(filters[j])
  }

  /**
   * The "Add Filter" button. It is enabled only while a default label
   * exists; otherwise nothing changes. When clicked, the new filter takes
   * the smallest free id and the last top-level option (popped from the
   * list), or the default label when the list is empty, and is appended.
   * `None` is the `expect` on the id search failing.
   */
  method AddFilter(m: MainFilter) returns (r: Option<MainFilter>)
    ensures m.defaultLabel.None? ==> r == Some(m)
    ensures m.defaultLabel.Some? && |m.filters| < 0x1_0000_0000 ==> r.Some?
    ensures m.defaultLabel.Some? && r.Some? ==>
      && |r.value.filters| == |m.filters| + 1
      && r.value.filters[..|m.filters|] == m.filters
      && r.value.defaultLabel == m.defaultLabel
    ensures m.defaultLabel.Some? && r.Some? ==>
      var added := r.value.filters[|m.filters|];
      && !added.core.inverted
      && !Used(m.filters, Id(added) as int)
      && (forall x: int :: 0 <= x < Id(added) as int ==> Used(m.filters, x))
    ensures m.defaultLabel.Some? && r.Some? && |m.topLevelLabelOptions| > 0 ==>
      && LabelOf(r.value.filters[|m.filters|]) == m.topLevelLabelOptions[|m.topLevelLabelOptions| - 1]
      && r.value.topLevelLabelOptions == m.topLevelLabelOptions[..|m.topLevelLabelOptions| - 1]
    ensures m.defaultLabel.Some? && r.Some? && |m.topLevelLabelOptions| == 0 ==>
      && LabelOf(r.value.filters[|m.filters|]) == m.defaultLabel.value
      && r.value.topLevelLabelOptions == []
    ensures DistinctIds(m.filters) && r.Some? ==> DistinctIds(r.value.filters)
    ensures Ready(m) && r.Some? ==> Ready(r.value)
  {
    if m.defaultLabel.None? {
      return Some(m);
    }
    var id := NextFreeId(m.filters);
    if id.None? {
      return None;
    }
    var options := m.topLevelLabelOptions;
    var l: Label;
    if |options| > 0 {
      l := options[|options| - 1];
      options := options[..|options| - 1];
    } else {
      l := m.defaultLabel.value;
    }
    r := Some(MainFilter(m.filters + [New(l, id.value)], options, m.defaultLabel));
    assert (m.filters + [New(l, id.value)])[..|m.filters|] == m.filters;
    if DistinctIds(m.filters) {
      AddKeepsIdsDistinct(m, New(l, id.value));
    }
  }

  /** Adding a filter never gives two filters the same id. */
  lemma AddKeepsIdsDistinct(m: MainFilter, added: SubFilter)
    requires DistinctIds(m.filters)
    requires !Used(m.filters, Id(added) as int)
    ensures DistinctIds(m.filters + [added])
  {
    var f := m.filters + [added];
    forall i, j | 0 <= i < j < |f|
      ensures Id(f[i]) != Id(f[j])
    {
      if j == |m.filters| {
        assert f[i] == m.filters[i];
      } else {
        assert f[i] == m.filters[i] && f[j] == m.filters[j];
      }
    }
  }

  /**
   * Taking over a finished round (the `try_get_finished` branch of `show`):
   * the filters and global options are replaced wholesale, and the default
   * label, if still unset, becomes the first global option.
   */
  function AdoptFinished(m: MainFilter, result: Option<(seq<SubFilter>, seq<Label>)>): (r: MainFilter)
    ensures result.None? ==> r == m
    ensures result.Some? ==> r.filters == result.value.0 && r.topLevelLabelOptions == result.value.1
    ensures m.defaultLabel.Some? ==> r.defaultLabel == m.defaultLabel
    ensures m.defaultLabel.None? && result.Some? && |result.value.1| > 0 ==> r.defaultLabel == Some(result.value.1[0])
    ensures m.defaultLabel.None? && (result.None? || |result.value.1| == 0) ==> r.defaultLabel.None?
  {
    match result
    case None => m
    case Some((filters, options)) =>
      var default := if m.defaultLabel.None? then (if |options| > 0 then Some(options[0]) else None) else m.defaultLabel;
      MainFilter(filters, options, default)
  }

  /** While no default label exists, there are no top-level options either, so "Add Filter" is enabled whenever an option exists. */
  predicate Ready(m: MainFilter) {
    m.defaultLabel.None? ==> m.topLevelLabelOptions == []
  }

  /** `new`, adopting a result and adding a filter all keep `Ready`. */
  lemma ReadyPreserved(m: MainFilter, result: Option<(seq<SubFilter>, seq<Label>)>, added: Option<MainFilter>)
    requires Ready(m)
    requires m.defaultLabel.None? ==> added == Some(m)
    requires m.defaultLabel.Some? && added.Some? ==> added.value.defaultLabel == m.defaultLabel
    ensures Ready(NewMainFilter())
    ensures Ready(AdoptFinished(m, result))
    ensures added.Some? ==> Ready(added.value)
  {
  }
}
