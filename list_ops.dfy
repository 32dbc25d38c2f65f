/**
 The two in-place edits the store makes to its list besides prepending:
 removing a set of positions in one step (`remove(atOffsets:)`) and
 flipping the completion flag of one row through its binding.
 */
module ListOps {
  import opened Items

  /** True when every offset names a position of a list of length `n`;
      `remove(atOffsets:)` traps otherwise. */
  predicate OffsetsInRange(offsets: set<nat>, n: nat)
  {
    forall o :: o in offsets ==> o < n
  }

  /** The positions in `[i, n)` that are not removed, in increasing order.
      This is the reference description of what a removal keeps. */
  function Survivors(n: nat, offsets: set<nat>, i: nat): (idx: seq<nat>)
    requires i <= n
    ensures forall k :: 0 <= k < |idx| ==> i <= idx[k] < n && idx[k] !in offsets
    ensures forall k, l :: 0 <= k < l < |idx| ==> idx[k] < idx[l]
    ensures forall j :: i <= j < n && j !in offsets ==> j in idx
    decreases n - i
  {
    if i == n then []
    else if i in offsets then Survivors(n, offsets, i + 1)
    else [i] + Survivors(n, offsets, i + 1)
  }

  /** The elements of `s` from position `i` on whose positions are not in
      `offsets`, in their original order. */
  function RemainingFrom<T>(s: seq<T>, offsets: set<nat>, i: nat): (r: seq<T>)
    requires i <= |s|
    ensures |r| <= |s| - i
    ensures multiset(r) <= multiset(s[i..])
    decreases |s| - i
  {
    if i == |s| then []
    else
      assert s[i..] == [s[i]] + s[i + 1..];
      if i in offsets then RemainingFrom(s, offsets, i + 1)
      else [s[i]] + RemainingFrom(s, offsets, i + 1)
  }

  /** `s` with the elements at `offsets` removed, every offset taken against
      `s` as it was before the removal; nothing is added or duplicated. */
  function RemoveAtOffsets<T>(s: seq<T>, offsets: set<nat>): (r: seq<T>)
    ensures |r| <= |s|
    ensures multiset(r) <= multiset(s)
  {
    assert s[0..] == s;
    RemainingFrom(s, offsets, 0)
  }

  /** What is left from position `i` on is exactly `s` read at the surviving
      positions, in increasing order. */
  lemma {:induction false} RemainingFromSelects<T>(s: seq<T>, offsets: set<nat>, i: nat)
    requires i <= |s|
    ensures |RemainingFrom(s, offsets, i)| == |Survivors(|s|, offsets, i)|
    ensures forall k :: 0 <= k < |RemainingFrom(s, offsets, i)| ==>
              RemainingFrom(s, offsets, i)[k] == s[Survivors(|s|, offsets, i)[k]]
    decreases |s| - i
  {
    if i < |s| {
      RemainingFromSelects(s, offsets, i + 1);
    }
  }

  /** The removal keeps exactly the elements at positions outside `offsets`,
      in their original relative order: the k-th survivor is `s[idx[k]]`,
      `idx` is strictly increasing, and a position is in `idx` iff it is not
      removed. */
  lemma RemoveAtOffsetsSelects<T>(s: seq<T>, offsets: set<nat>)
    ensures var r, idx := RemoveAtOffsets(s, offsets), Survivors(|s|, offsets, 0);
      && |r| == |idx|
      && (forall k :: 0 <= k < |r| ==> r[k] == s[idx[k]])
      && (forall k, l :: 0 <= k < l < |idx| ==> idx[k] < idx[l])
      && (forall j :: 0 <= j < |s| ==> (j in idx <==> j !in offsets))
  {
    RemainingFromSelects(s, offsets, 0);
  }

  /** The offsets at or after position `i`. */
  function OffsetsFrom(offsets: set<nat>, i: nat): (r: set<nat>)
    ensures r <= offsets
  {
    set o | o in offsets && i <= o
  }

  /** The number of surviving positions in `[i, n)` is the width of the
      range minus the offsets that fall in it. */
  lemma {:induction false} SurvivorsCount(n: nat, offsets: set<nat>, i: nat)
    requires i <= n
    requires OffsetsInRange(offsets, n)
    ensures |Survivors(n, offsets, i)| == (n - i) - |OffsetsFrom(offsets, i)|
    decreases n - i
  {
    if i == n {
      assert OffsetsFrom(offsets, i) == {};
    } else {
      SurvivorsCount(n, offsets, i + 1);
      var later := OffsetsFrom(offsets, i + 1);
      if i in offsets {
        assert OffsetsFrom(offsets, i) == later + {i};
      } else {
        assert OffsetsFrom(offsets, i) == later;
        assert |Survivors(n, offsets, i)| == |Survivors(n, offsets, i + 1)| + 1;
      }
    }
  }

  /** Removing in-range offsets shortens the list by the number of offsets. */
  lemma RemoveAtOffsetsLength<T>(s: seq<T>, offsets: set<nat>)
    requires OffsetsInRange(offsets, |s|)
    ensures |RemoveAtOffsets(s, offsets)| == |s| - |offsets|
  {
    RemainingFromSelects(s, offsets, 0);
    SurvivorsCount(|s|, offsets, 0);
    assert OffsetsFrom(offsets, 0) == offsets;
  }

  /** Positions are not shifted while removing: `[A, B, C]` without `{0, 2}`
      is `[B]`. */
  lemma RemoveFirstAndLastOfThree<T>(a: T, b: T, c: T)
    ensures RemoveAtOffsets([a, b, c], {0, 2}) == [b]
  {
    var s := [a, b, c];
    assert RemainingFrom(s, {0, 2}, 3) == [];
    assert RemainingFrom(s, {0, 2}, 2) == [];
    assert RemainingFrom(s, {0, 2}, 1) == [b];
  }

  /** Removal never edits the entries it keeps, so their identifiers are
      those of the original list at the surviving positions. */
  lemma IdsOfRemoved(s: seq<TodoItem>, offsets: set<nat>)
    ensures Ids(RemoveAtOffsets(s, offsets)) == RemoveAtOffsets(Ids(s), offsets)
  {
    RemoveAtOffsetsSelects(s, offsets);
    RemoveAtOffsetsSelects(Ids(s), offsets);
  }

  /** A removal keeps identifiers distinct. */
  lemma RemovePreservesDistinctIds(s: seq<TodoItem>, offsets: set<nat>)
    requires DistinctIds(s)
    ensures DistinctIds(RemoveAtOffsets(s, offsets))
  {
    var r, idx := RemoveAtOffsets(s, offsets), Survivors(|s|, offsets, 0);
    RemoveAtOffsetsSelects(s, offsets);
    forall k, l | 0 <= k < l < |r| ensures r[k].id != r[l].id {
      assert idx[k] < idx[l];
    }
  }

  /** The list after the row at `i` is tapped: only that entry's completion
      flag changes; its id, its title, the other rows and the length stay. */
  function ToggledAt(s: seq<TodoItem>, i: nat): (r: seq<TodoItem>)
    requires i < |s|
    ensures |r| == |s|
    ensures r[i].id == s[i].id && r[i].title == s[i].title
    ensures r[i].isCompleted <==> !s[i].isCompleted
    ensures forall j :: 0 <= j < |s| && j != i ==> r[j] == s[j]
  {
    s[i := Toggled(s[i])]
  }

  /** Tapping the same row twice restores the list. */
  lemma ToggledAtTwice(s: seq<TodoItem>, i: nat)
    requires i < |s|
    ensures ToggledAt(ToggledAt(s, i), i) == s
  {
    ToggledTwice(s[i]);
  }

  /** Tapping a row keeps every identifier in place, hence keeps them
      distinct. */
  lemma ToggledAtKeepsIds(s: seq<TodoItem>, i: nat)
    requires i < |s|
    ensures Ids(ToggledAt(s, i)) == Ids(s)
    ensures DistinctIds(ToggledAt(s, i)) <==> DistinctIds(s)
  {
    var r := ToggledAt(s, i);
    assert forall j :: 0 <= j < |s| ==> r[j].id == s[j].id;
  }
}
