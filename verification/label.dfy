/**
 * Labels: a top-level category with an optional sub-level category. The
 * program is generic over any `Label` type with a total order; this model
 * fixes one concrete label type whose order compares the top-level category
 * first and then the sub-level category, an absent sub-level category first.
 */
module Labels {
  import opened Wrappers
  import Sorting

  datatype Label = Label(top: int, sub: Option<int>)

  /** `get_top_level_label` */
  function TopOf(l: Label): int { l.top }

  /** `get_sub_level_label` */
  function SubOf(l: Label): Option<int> { l.sub }

  predicate SubLe(a: Option<int>, b: Option<int>) {
    match a
    case None => true
    case Some(x) => b.Some? && x <= b.value
  }

  /** The total order on labels used by `sort`. */
  predicate Le(a: Label, b: Label) {
    a.top < b.top || (a.top == b.top && SubLe(a.sub, b.sub))
  }

  lemma LeIsTotalOrder()
    ensures Sorting.TotalPreorder(Le)
    ensures forall a, b :: Le(a, b) && Le(b, a) ==> a == b
  {
  }

  function SortLabels(s: seq<Label>): (r: seq<Label>)
    ensures Sorting.SortedBy(r, Le)
    ensures multiset(r) == multiset(s)
  {
    LeIsTotalOrder();
    Sorting.Sort(s, Le)
  }

  /** Sorting keeps the members of a list, and keeps any key distinct that was distinct. */
  lemma SortKeeps<K>(s: seq<Label>, key: Label -> K)
    requires Sorting.DistinctBy(s, key)
    ensures Sorting.DistinctBy(SortLabels(s), key)
    ensures forall l :: l in SortLabels(s) <==> l in s
  {
    LeIsTotalOrder();
    Sorting.SortDistinct(s, Le, key);
    assert forall l :: l in SortLabels(s) <==> l in multiset(s);
  }

  /**
   * A sorted sequence without repeated labels is determined by its set of
   * elements.
   */
  lemma {:induction false} SortedDistinctUnique(a: seq<Label>, b: seq<Label>)
    requires Sorting.SortedBy(a, Le) && Sorting.SortedBy(b, Le)
    requires Sorting.DistinctBy(a, (l: Label) => l) && Sorting.DistinctBy(b, (l: Label) => l)
    requires forall l :: l in a <==> l in b
    ensures a == b
  {
    LeIsTotalOrder();
    if |a| > 0 {
      assert a[0] in b;
    }
    if |b| > 0 {
      assert b[0] in a;
    }
    if |a| == 0 {
    } else {
      var i :| 0 <= i < |b| && b[i] == a[0];
      var j :| 0 <= j < |a| && a[j] == b[0];
      assert Le(b[0], b[i]);
      assert Le(a[0], a[j]);
      assert a[0] == b[0];
      forall l
        ensures l in a[1..] <==> l in b[1..]
      {
        if l in a[1..] {
          var k :| 1 <= k < |a| && a[k] == l;
          assert l != a[0];
          assert l in b;
        }
        if l in b[1..] {
          var k :| 1 <= k < |b| && b[k] == l;
          assert l != b[0];
          assert l in a;
        }
      }
      SortedDistinctUnique(a[1..], b[1..]);
      assert a == [a[0]] + a[1..];
      assert b == [b[0]] + b[1..];
    }
  }
}
