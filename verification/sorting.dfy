/** Ordering of the selected rows by category priority (`sort_values` on
    `ordem_prioridade`). Only sortedness and permutation are promised: the
    source's sort is not stable, so the order of rows of equal priority is
    an implementation choice of this model. */
module Sorting {
  import opened Catalog

  /** Priorities never decrease along the sequence. */
  predicate SortedByPriority(rows: seq<CatalogRow>)
  {
    forall i, j | 0 <= i < j < |rows| :: rows[i].priority <= rows[j].priority
  }

  /** Every row of `rows` has priority at least `p`. */
  predicate AtLeast(p: int, rows: seq<CatalogRow>)
  {
    forall i | 0 <= i < |rows| :: p <= rows[i].priority
  }

  /** A lower bound on priorities is a property of the rows, not of their order. */
  lemma AtLeastOfSameRows(p: int, a: seq<CatalogRow>, b: seq<CatalogRow>)
    requires AtLeast(p, a) && multiset(a) == multiset(b)
    ensures AtLeast(p, b)
  {
    forall i | 0 <= i < |b|
      ensures p <= b[i].priority
    {
      assert b[i] in multiset(a);
    }
  }

  /** Inserts `x` into a sorted sequence, before the first row of higher or equal priority. */
  function Insert(x: CatalogRow, rows: seq<CatalogRow>): (r: seq<CatalogRow>)
    requires SortedByPriority(rows)
    ensures SortedByPriority(r)
    ensures multiset(r) == multiset(rows) + multiset{x}
  {
    if |rows| == 0 then [x]
    else if x.priority <= rows[0].priority then [x] + rows
    else
      var rest := Insert(x, rows[1..]);
      assert rows == [rows[0]] + rows[1..];
      assert AtLeast(rows[0].priority, rows[1..] + [x]);
      assert multiset(rows[1..] + [x]) == multiset(rest);
      AtLeastOfSameRows(rows[0].priority, rows[1..] + [x], rest);
      [rows[0]] + rest
  }

  /** Insertion sort by priority: the result is ordered and holds exactly the
      rows of the input, with their multiplicities. */
  function SortByPriority(rows: seq<CatalogRow>): (r: seq<CatalogRow>)
    ensures SortedByPriority(r)
    ensures multiset(r) == multiset(rows)
  {
    if |rows| == 0 then []
    else
      assert rows == [rows[0]] + rows[1..];
      Insert(rows[0], SortByPriority(rows[1..]))
  }

  /** Removing one row keeps a sorted sequence sorted. */
  lemma SortedWithout(b: seq<CatalogRow>, i: nat)
    requires SortedByPriority(b) && i < |b|
    ensures SortedByPriority(b[..i] + b[i + 1..])
  {
    var b' := b[..i] + b[i + 1..];
    forall p, q | 0 <= p < q < |b'|
      ensures b'[p].priority <= b'[q].priority
    {
      var p' := if p < i then p else p + 1;
      var q' := if q < i then q else q + 1;
      assert b'[p] == b[p'] && b'[q] == b[q'];
    }
  }

  lemma SortedTail(a: seq<CatalogRow>)
    requires SortedByPriority(a) && |a| > 0
    ensures SortedByPriority(a[1..])
  {
    forall p, q | 0 <= p < q < |a| - 1
      ensures a[1..][p].priority <= a[1..][q].priority
    {
      assert a[1..][p] == a[p + 1] && a[1..][q] == a[q + 1];
    }
  }

  /** Two sorted orderings of the same non-empty rows start with the same priority. */
  lemma SameFirstPriority(a: seq<CatalogRow>, b: seq<CatalogRow>)
    requires SortedByPriority(a) && SortedByPriority(b)
    requires multiset(a) == multiset(b) && |a| > 0 && |b| > 0
    ensures a[0].priority == b[0].priority
  {
    assert a[0] in multiset(b);
    assert b[0] in multiset(a);
  }

  /** Removing the row at `i` removes one occurrence of it from the multiset. */
  lemma MultisetWithout(b: seq<CatalogRow>, i: nat)
    requires i < |b|
    ensures multiset(b[..i] + b[i + 1..]) == multiset(b) - multiset{b[i]}
  {
    assert b == b[..i] + [b[i]] + b[i + 1..];
  }

  /** Reassembles the priorities of `b` from those of `b` without its row `i`,
      when that row has the smallest priority. */
  lemma ShiftedPriorities(a: seq<CatalogRow>, b: seq<CatalogRow>, i: nat)
    requires SortedByPriority(b) && i < |b| && |a| == |b|
    requires b[i].priority == b[0].priority == a[0].priority
    requires forall k | 0 <= k < |a| - 1 :: a[1..][k].priority == (b[..i] + b[i + 1..])[k].priority
    ensures forall k | 0 <= k < |a| :: a[k].priority == b[k].priority
  {
    var b' := b[..i] + b[i + 1..];
    forall k | 0 < k < |a|
      ensures a[k].priority == b[k].priority
    {
      assert a[k] == a[1..][k - 1];
      if k - 1 < i {
        assert b'[k - 1] == b[k - 1];
        assert b[0].priority <= b[k - 1].priority <= b[k].priority <= b[i].priority;
      } else {
        assert b'[k - 1] == b[k];
      }
    }
  }

  /** Any two orderings of the same rows by priority list the same priorities
      position by position, whatever they do with rows of equal priority. */
  lemma {:induction false} SortedPermutationsAgreeOnPriorities(a: seq<CatalogRow>, b: seq<CatalogRow>)
    requires SortedByPriority(a) && SortedByPriority(b)
    requires multiset(a) == multiset(b)
    ensures |a| == |b|
    ensures forall k | 0 <= k < |a| :: a[k].priority == b[k].priority
    decreases |a|
  {
    assert |a| == |multiset(a)| == |multiset(b)| == |b|;
    if |a| > 0 {
      SameFirstPriority(a, b);
      assert a[0] in multiset(b);
      var i :| 0 <= i < |b| && b[i] == a[0];
      var b' := b[..i] + b[i + 1..];
      MultisetWithout(b, i);
      assert a == [a[0]] + a[1..];
      assert multiset(a[1..]) == multiset(a) - multiset{a[0]};
      assert multiset(b') == multiset(a[1..]);
      SortedWithout(b, i);
      SortedTail(a);
      SortedPermutationsAgreeOnPriorities(a[1..], b');
      ShiftedPriorities(a, b, i);
    }
  }
}
