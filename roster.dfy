/** The selection of student ids on the action screens, as the list updates
    the handlers pass to `setSelectedStudents`: a plain toggle and
    select-all, and the edit screens' variants that protect the ids of the
    students already enrolled ("originals"). */
module Roster {

  predicate NoDuplicates(s: seq<int>) {
    forall i, j :: 0 <= i < j < |s| ==> s[i] != s[j]
  }

  /** `s.filter(id => id !== x)`. */
  function Remove(s: seq<int>, x: int): (r: seq<int>)
    ensures x !in r
    ensures forall y :: y != x ==> (y in r <==> y in s)
    ensures |r| <= |s|
  {
    if s == [] then []
    else if s[0] == x then Remove(s[1..], x)
    else [s[0]] + Remove(s[1..], x)
  }

  /** `s.filter(id => keep.includes(id))`. */
  function KeepIn(s: seq<int>, keep: seq<int>): (r: seq<int>)
    ensures forall y :: y in r <==> y in s && y in keep
  {
    if s == [] then []
    else if s[0] in keep then [s[0]] + KeepIn(s[1..], keep)
    else KeepIn(s[1..], keep)
  }

  /** `s.filter(id => !drop.includes(id))`. */
  function DropIn(s: seq<int>, drop: seq<int>): (r: seq<int>)
    ensures forall y :: y in r <==> y in s && y !in drop
  {
    if s == [] then []
    else if s[0] in drop then DropIn(s[1..], drop)
    else [s[0]] + DropIn(s[1..], drop)
  }

  /** `prev.includes(id) ? prev.filter(i => i !== id) : [...prev, id]`. */
  function Toggle(s: seq<int>, x: int): seq<int> {
    if x in s then Remove(s, x) else s + [x]
  }

  /** Toggling flips the membership of `x` and of nothing else. */
  lemma ToggleMembership(s: seq<int>, x: int)
    ensures x in Toggle(s, x) <==> x !in s
    ensures forall y :: y != x ==> (y in Toggle(s, x) <==> y in s)
  {
  }

  /** Removing an id that is not there changes nothing. */
  lemma {:induction false} RemoveAbsent(s: seq<int>, x: int)
    requires x !in s
    ensures Remove(s, x) == s
  {
    if s != [] {
      RemoveAbsent(s[1..], x);
      assert [s[0]] + s[1..] == s;
    }
  }

  lemma {:induction false} RemoveConcat(a: seq<int>, b: seq<int>, x: int)
    ensures Remove(a + b, x) == Remove(a, x) + Remove(b, x)
  {
    if a == [] {
      assert a + b == b;
    } else {
      assert (a + b)[1..] == a[1..] + b;
      RemoveConcat(a[1..], b, x);
    }
  }

  /** Deselecting removes the one occurrence and keeps every other id in
      its place: the ids before it, then the ids after it. */
  lemma ToggleOffKeepsOrder(a: seq<int>, x: int, b: seq<int>)
    requires x !in a && x !in b
    ensures Toggle(a + [x] + b, x) == a + b
  {
    var s := a + [x] + b;
    assert s[|a|] == x;
    RemoveConcat(a + [x], b, x);
    RemoveConcat(a, [x], x);
    RemoveAbsent(a, x);
    RemoveAbsent(b, x);
    assert Remove([x], x) == [];
    calc {
      Toggle(s, x);
      Remove(s, x);
      Remove(a, x) + Remove([x], x) + Remove(b, x);
      a + b;
    }
  }

  lemma {:induction false} RemoveKeepsNoDuplicates(s: seq<int>, x: int)
    requires NoDuplicates(s)
    ensures NoDuplicates(Remove(s, x))
  {
    if s != [] {
      RemoveKeepsNoDuplicates(s[1..], x);
      assert forall i :: 0 < i < |s| ==> s[i] != s[0];
      assert s[0] !in s[1..];
    }
  }

  /** A selection without repeated ids keeps that property under toggling. */
  lemma ToggleKeepsNoDuplicates(s: seq<int>, x: int)
    requires NoDuplicates(s)
    ensures NoDuplicates(Toggle(s, x))
  {
    if x in s {
      RemoveKeepsNoDuplicates(s, x);
    }
  }

  /** Selecting an absent id and toggling it again restores the selection. */
  lemma ToggleTwice(s: seq<int>, x: int)
    requires x !in s
    ensures Toggle(Toggle(s, x), x) == s
  {
    ToggleOffKeepsOrder(s, x, []);
    assert s + [x] + [] == s + [x];
    assert s + [] == s;
  }

  /** CreateAction's select-all: clear when the selection is as long as the
      filtered list, otherwise select exactly the filtered ids. */
  function SelectAllOrNone(selected: seq<int>, filteredIds: seq<int>): (r: seq<int>)
    ensures r == [] || r == filteredIds
    ensures r == [] <==> |selected| == |filteredIds| || filteredIds == []
  {
    if |selected| == |filteredIds| then [] else filteredIds
  }

  /** The select-all decision compares lengths only: a selection of hidden
      ids as long as the filtered list is cleared, although none of the
      filtered ids was selected. */
  lemma SelectAllComparesLengthsOnly()
    ensures SelectAllOrNone([7], [1]) == []
  {
  }

  /** The edit screens' toggle: originals cannot be deselected (or toggled). */
  function ProtectedToggle(selected: seq<int>, originals: seq<int>, x: int): seq<int> {
    if x in originals then selected else Toggle(selected, x)
  }

  /** All originals are selected. */
  predicate OriginalsSelected(selected: seq<int>, originals: seq<int>) {
    forall o :: o in originals ==> o in selected
  }

  /** The edit screens' toggle is a no-op on an original and a plain toggle
      otherwise, and it never drops an original. */
  lemma ProtectedToggleSpec(selected: seq<int>, originals: seq<int>, x: int)
    requires OriginalsSelected(selected, originals)
    ensures x in originals ==> ProtectedToggle(selected, originals, x) == selected
    ensures x !in originals ==> ProtectedToggle(selected, originals, x) == Toggle(selected, x)
    ensures OriginalsSelected(ProtectedToggle(selected, originals, x), originals)
  {
    ToggleMembership(selected, x);
  }

  /** Every id of `s` is in `selected`. */
  predicate AllIn(s: seq<int>, selected: seq<int>) {
    forall id :: id in s ==> id in selected
  }

  /** The edit screens' select-all over the filtered ids. The non-original
      filtered ids are the candidates; when there is at least one and all are
      selected, only the selected originals are kept, otherwise the selection
      becomes the originals followed by the candidates. */
  function ProtectedSelectAll(selected: seq<int>, originals: seq<int>, filteredIds: seq<int>): seq<int> {
    var newOnly := DropIn(filteredIds, originals);
    if AllIn(newOnly, selected) && |newOnly| > 0 then KeepIn(selected, originals)
    else originals + newOnly
  }

  /** The two outcomes of the edit screens' select-all, and the invariant
      that originals stay selected. In the second outcome a selected
      non-original hidden by the search is dropped. */
  lemma ProtectedSelectAllSpec(selected: seq<int>, originals: seq<int>, filteredIds: seq<int>)
    requires OriginalsSelected(selected, originals)
    ensures var r := ProtectedSelectAll(selected, originals, filteredIds);
      && OriginalsSelected(r, originals)
      && (forall id :: id in r ==> id in originals || id in filteredIds)
      && var newOnly := DropIn(filteredIds, originals);
         if |newOnly| > 0 && AllIn(newOnly, selected)
         then forall id :: id in r <==> id in originals
         else (forall id :: id in r <==> id in originals || id in filteredIds) && r[..|originals|] == originals
  {
  }
}
