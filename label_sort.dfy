/**
 * `sort.Slice` on the label slice, ordering by `Name` with Go's `<`: the
 * labels are sorted in place by name. `sort.Slice` is not stable, so
 * all it promises is a permutation that is sorted in the sense of
 * `sort.SliceIsSorted`: no element is less than the one before it.
 */
module LabelSort {
  import opened GoStrings
  import opened Prompb

  /** `sort.SliceIsSorted` with the by-name order. */
  predicate SortedByName(ls: seq<Label>) {
    forall k :: 0 < k < |ls| ==> !Less(ls[k].name, ls[k - 1].name)
  }

  /** Sorts `a` in place by label name (insertion sort). */
  method SortByName(a: array<Label>)
    modifies a
    ensures SortedByName(a[..])
    ensures multiset(a[..]) == old(multiset(a[..]))
  {
    var i := 0;
    while i < a.Length
      invariant 0 <= i <= a.Length
      invariant SortedByName(a[..i])
      invariant multiset(a[..]) == old(multiset(a[..]))
    {
      InsertLast(a, i);
      i := i + 1;
    }
    assert a[..a.Length] == a[..];
  }

  /**
   * The state of the insertion of `s[i]` when it has moved down to `j`:
   * `s[..j]` and `s[j..i + 1]` are each in order, and the element before the
   * gap is not greater than the one after it.
   */
  ghost predicate Inserting(s: seq<Label>, i: nat, j: nat) {
    && j <= i < |s|
    && (forall k :: 0 < k < j ==> !Less(s[k].name, s[k - 1].name))
    && (forall k :: j + 1 < k <= i ==> !Less(s[k].name, s[k - 1].name))
    && (0 < j < i ==> !Less(s[j + 1].name, s[j - 1].name))
  }

  lemma InsertingInit(s: seq<Label>, i: nat)
    requires i < |s| && SortedByName(s[..i])
    ensures Inserting(s, i, i)
  {
    assert forall k :: 0 <= k < i ==> s[..i][k] == s[k];
  }

  /** Swapping `s[j]` below a greater `s[j - 1]` keeps the insertion state, one place lower. */
  lemma InsertingStep(s: seq<Label>, i: nat, j: nat)
    requires Inserting(s, i, j) && 0 < j && Less(s[j].name, s[j - 1].name)
    requires j < i ==> !Less(s[j + 1].name, s[j].name)
    ensures Inserting(s[j - 1 := s[j]][j := s[j - 1]], i, j - 1)
    ensures !Less(s[j - 1].name, s[j].name)
  {
    LessAsymmetric(s[j].name, s[j - 1].name);
  }

  /** Once `s[j]` is not less than its predecessor, `s[..i + 1]` is sorted. */
  lemma InsertingDone(s: seq<Label>, i: nat, j: nat)
    requires Inserting(s, i, j) && (j == 0 || !Less(s[j].name, s[j - 1].name))
    requires j < i ==> !Less(s[j + 1].name, s[j].name)
    ensures SortedByName(s[..i + 1])
  {
    assert forall k :: 0 <= k <= i ==> s[..i + 1][k] == s[k];
  }

  /** Moves `a[i]` down into the sorted prefix `a[..i]`, so that `a[..i + 1]` is sorted. */
  method InsertLast(a: array<Label>, i: nat)
    requires i < a.Length && SortedByName(a[..i])
    modifies a
    ensures SortedByName(a[..i + 1])
    ensures multiset(a[..]) == old(multiset(a[..]))
    ensures a[i + 1..] == old(a[i + 1..])
  {
    InsertingInit(a[..], i);
    hide Inserting, SortedByName;
    var j := i;
    while 0 < j && Less(a[j].name, a[j - 1].name)
      invariant 0 <= j <= i
      invariant Inserting(a[..], i, j)
      invariant j < i ==> !Less(a[j + 1].name, a[j].name)
      invariant multiset(a[..]) == old(multiset(a[..]))
      invariant a[i + 1..] == old(a[i + 1..])
    {
      InsertingStep(a[..], i, j);
      SwapWithPrevious(a, j);
      j := j - 1;
    }
    InsertingDone(a[..], i, j);
  }

  /** Exchanges `a[j - 1]` and `a[j]`. */
  method SwapWithPrevious(a: array<Label>, j: nat)
    requires 0 < j < a.Length
    modifies a
    ensures a[..] == old(a[..])[j - 1 := old(a[j])][j := old(a[j - 1])]
    ensures multiset(a[..]) == old(multiset(a[..]))
  {
    a[j - 1], a[j] := a[j], a[j - 1];
  }

  /** `sort.Slice` on a slice of labels: the backing array is sorted in place. */
  method SortSlice(lbls: seq<Label>) returns (sorted: seq<Label>)
    ensures SortedByName(sorted)
    ensures multiset(sorted) == multiset(lbls)
  {
    var a := new Label[|lbls|](k requires 0 <= k < |lbls| => lbls[k]);
    assert a[..] == lbls;
    SortByName(a);
    sorted := a[..];
  }

  /** A list sorted by name is ordered between any two positions, not only neighbours. */
  lemma {:induction false} SortedByNamePairwise(ls: seq<Label>)
    requires SortedByName(ls)
    ensures forall p, q :: 0 <= p < q < |ls| ==> !Less(ls[q].name, ls[p].name)
  {
    if |ls| > 1 {
      var init := ls[..|ls| - 1];
      SortedByNamePairwise(init);
      forall p | 0 <= p < |ls| - 1
        ensures !Less(ls[|ls| - 1].name, ls[p].name)
      {
        if p < |ls| - 2 {
          assert !Less(init[|ls| - 2].name, init[p].name);
          NotLessTransitive(ls[p].name, ls[|ls| - 2].name, ls[|ls| - 1].name);
        }
      }
    }
  }
}
