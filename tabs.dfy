/**
 * Drag-to-reorder of dashboard tabs: an administrator drops the dragged tab
 * on a target position; the tab list is copied, the dragged tab is spliced out
 * of its old position and into the new one, and every tab is renumbered.
 */
module Tabs {
  import opened Wrappers
  import opened Js

  /** A dashboard tab; `extra` holds the optional description, icon and colour. */
  datatype Tab = Tab(id: int, name: string, tabOrder: int, extra: Obj)

  /** What a drop does: nothing, only clear the drag state, or report a new order (and clear). */
  datatype DropOutcome = Ignored | Cleared | Reordered(tabs: seq<Tab>)

  /** `tabs.findIndex(t => t.id === id)`: the first index with the id, or -1. */
  function FindIndex(tabs: seq<Tab>, id: int): (r: int)
    ensures -1 <= r < |tabs|
    ensures r == -1 <==> forall i :: 0 <= i < |tabs| ==> tabs[i].id != id
    ensures r >= 0 ==> tabs[r].id == id && forall i :: 0 <= i < r ==> tabs[i].id != id
  {
    if tabs == [] then -1
    else if tabs[0].id == id then 0
    else
      var r := FindIndex(tabs[1..], id);
      if r == -1 then -1 else r + 1
  }

  /** Where `splice(start, ...)` starts on an array of length `len`: negative starts count from the end. */
  function SpliceStart(len: nat, start: int): (k: nat)
    ensures k <= len
  {
    if start < 0 then (if len + start < 0 then 0 else len + start)
    else if start > len then len
    else start
  }

  /** `a.splice(start, 1)` on a copy: the element at the start position, if any, is gone. */
  function SpliceRemoveOne(a: seq<Tab>, start: int): (r: seq<Tab>)
    ensures |r| == if SpliceStart(|a|, start) < |a| then |a| - 1 else |a|
  {
    var k := SpliceStart(|a|, start);
    if k < |a| then a[..k] + a[k + 1..] else a
  }

  /** `a.splice(start, 0, x)` on a copy: `x` inserted at the start position. */
  function SpliceInsert(a: seq<Tab>, start: int, x: Tab): (r: seq<Tab>)
    ensures |r| == |a| + 1
  {
    var k := SpliceStart(|a|, start);
    a[..k] + [x] + a[k..]
  }

  /** `tabs.map((tab, index) => ({...tab, tab_order: index}))`. */
  function Renumber(tabs: seq<Tab>): (r: seq<Tab>)
    ensures |r| == |tabs|
    ensures forall i :: 0 <= i < |tabs| ==> r[i] == tabs[i].(tabOrder := i)
  {
    seq(|tabs|, i requires 0 <= i < |tabs| => tabs[i].(tabOrder := i))
  }

  /** The order reported after dropping `dragged` at `targetIndex`. */
  function Reorder(tabs: seq<Tab>, dragged: Tab, targetIndex: int): (r: seq<Tab>)
    ensures forall i :: 0 <= i < |r| ==> r[i].tabOrder == i
  {
    Renumber(SpliceInsert(SpliceRemoveOne(tabs, FindIndex(tabs, dragged.id)), targetIndex, dragged))
  }

  /** `handleDrop`. */
  method HandleDrop(isAdmin: bool, hasOnReorder: bool, draggedTab: Option<Tab>, tabs: seq<Tab>, targetIndex: int)
    returns (outcome: DropOutcome)
    ensures !isAdmin || !hasOnReorder || draggedTab.None? ==> outcome == Ignored
    ensures isAdmin && hasOnReorder && draggedTab.Some? ==>
      if FindIndex(tabs, draggedTab.value.id) == targetIndex then outcome == Cleared
      else outcome == Reordered(Reorder(tabs, draggedTab.value, targetIndex))
  {
    if !isAdmin || !hasOnReorder || draggedTab.None? {
      return Ignored;
    }
    var dragged := draggedTab.value;
    var sourceIndex := FindIndex(tabs, dragged.id);
    if sourceIndex == targetIndex {
      return Cleared;
    }
    var newTabs := tabs;
    newTabs := SpliceRemoveOne(newTabs, sourceIndex);
    newTabs := SpliceInsert(newTabs, targetIndex, dragged);
    var reorderedTabs := Renumber(newTabs);
    outcome := Reordered(reorderedTabs);
  }

  function Ids(tabs: seq<Tab>): (r: seq<int>)
    ensures |r| == |tabs|
    ensures forall i :: 0 <= i < |tabs| ==> r[i] == tabs[i].id
  {
    seq(|tabs|, i requires 0 <= i < |tabs| => tabs[i].id)
  }

  /** The tabs with their numbering erased, to compare orders. */
  function Unnumbered(tabs: seq<Tab>): (r: seq<Tab>)
    ensures |r| == |tabs|
    ensures forall i :: 0 <= i < |tabs| ==> r[i] == tabs[i].(tabOrder := 0)
  {
    seq(|tabs|, i requires 0 <= i < |tabs| => tabs[i].(tabOrder := 0))
  }

  function RemoveAt(a: seq<Tab>, k: nat): seq<Tab>
    requires k < |a|
  {
    a[..k] + a[k + 1..]
  }

  /** Inserting a tab adds its id to the multiset of ids. */
  lemma {:induction false} IdsInsert(a: seq<Tab>, k: nat, x: Tab)
    requires k <= |a|
    ensures multiset(Ids(a[..k] + [x] + a[k..])) == multiset(Ids(a)) + multiset{x.id}
  {
    var ids := Ids(a);
    assert Ids(a[..k] + [x] + a[k..]) == ids[..k] + [x.id] + ids[k..];
    assert ids == ids[..k] + ids[k..];
  }

  /** Removing a tab takes its id out of the multiset of ids. */
  lemma {:induction false} IdsRemove(a: seq<Tab>, k: nat)
    requires k < |a|
    ensures multiset(Ids(a)) == multiset(Ids(RemoveAt(a, k))) + multiset{a[k].id}
  {
    var ids := Ids(a);
    assert Ids(RemoveAt(a, k)) == ids[..k] + ids[k + 1..];
    assert ids == ids[..k] + [a[k].id] + ids[k + 1..];
  }

  /** The moved list before renumbering: the dragged tab taken out of `s` and put in at `t`. */
  lemma {:induction false} ReorderShape(tabs: seq<Tab>, dragged: Tab, targetIndex: int)
    requires 0 <= FindIndex(tabs, dragged.id) && 0 <= targetIndex < |tabs|
    ensures var rest := RemoveAt(tabs, FindIndex(tabs, dragged.id));
            Reorder(tabs, dragged, targetIndex) == Renumber(rest[..targetIndex] + [dragged] + rest[targetIndex..])
  {
    var s := FindIndex(tabs, dragged.id);
    assert SpliceStart(|tabs|, s) == s;
    var rest := SpliceRemoveOne(tabs, s);
    assert rest == RemoveAt(tabs, s);
    assert SpliceStart(|rest|, targetIndex) == targetIndex;
    assert SpliceInsert(rest, targetIndex, dragged) == rest[..targetIndex] + [dragged] + rest[targetIndex..];
  }

  /** The dropped ids are a permutation of the old ones. */
  lemma {:induction false} ReorderPermutes(tabs: seq<Tab>, dragged: Tab, targetIndex: int)
    requires 0 <= FindIndex(tabs, dragged.id) && 0 <= targetIndex < |tabs|
    ensures multiset(Ids(Reorder(tabs, dragged, targetIndex))) == multiset(Ids(tabs))
  {
    var s := FindIndex(tabs, dragged.id);
    var rest := RemoveAt(tabs, s);
    var moved := rest[..targetIndex] + [dragged] + rest[targetIndex..];
    assert Ids(Reorder(tabs, dragged, targetIndex)) == Ids(moved) by {
      ReorderShape(tabs, dragged, targetIndex);
    }
    assert multiset(Ids(moved)) == multiset(Ids(rest)) + multiset{dragged.id} by {
      IdsInsert(rest, targetIndex, dragged);
    }
    assert multiset(Ids(tabs)) == multiset(Ids(rest)) + multiset{dragged.id} by {
      IdsRemove(tabs, s);
    }
  }

  /** With the dragged tab taken out of both lists, the remaining tabs keep their old order. */
  lemma {:induction false} ReorderKeepsOthersInOrder(tabs: seq<Tab>, dragged: Tab, targetIndex: int)
    requires 0 <= FindIndex(tabs, dragged.id) && 0 <= targetIndex < |tabs|
    ensures var r := Reorder(tabs, dragged, targetIndex);
            |r| == |tabs|
            && Unnumbered(RemoveAt(r, targetIndex)) == Unnumbered(RemoveAt(tabs, FindIndex(tabs, dragged.id)))
  {
    ReorderShape(tabs, dragged, targetIndex);
    RenumberedInsertRemoved(RemoveAt(tabs, FindIndex(tabs, dragged.id)), targetIndex, dragged);
  }

  /** Inserting a tab at `k`, renumbering and removing position `k` again leaves the other tabs as they were, up to numbering. */
  lemma {:induction false} RenumberedInsertRemoved(rest: seq<Tab>, k: nat, x: Tab)
    requires k <= |rest|
    ensures Unnumbered(RemoveAt(Renumber(rest[..k] + [x] + rest[k..]), k)) == Unnumbered(rest)
  {
    var moved := rest[..k] + [x] + rest[k..];
    var r := Renumber(moved);
    var d := RemoveAt(r, k);
    assert |d| == |rest|;
    var a, b := Unnumbered(d), Unnumbered(rest);
    forall i | 0 <= i < |rest| ensures a[i] == b[i] {
      if i < k {
        assert d[i] == r[i] && moved[i] == rest[i];
      } else {
        assert d[i] == r[i + 1] && moved[i + 1] == rest[i];
      }
    }
  }

  /**
   * A drop of a tab that is in the list, at a position of the list: the length
   * is kept, the dragged tab lands at the target and every `tab_order` is its
   * new position.
   */
  lemma {:induction false} ReorderPlacesDragged(tabs: seq<Tab>, dragged: Tab, targetIndex: int)
    requires 0 <= FindIndex(tabs, dragged.id) && 0 <= targetIndex < |tabs|
    ensures var r := Reorder(tabs, dragged, targetIndex);
            |r| == |tabs|
            && r[targetIndex] == dragged.(tabOrder := targetIndex)
            && forall i :: 0 <= i < |r| ==> r[i].tabOrder == i
  {
    ReorderShape(tabs, dragged, targetIndex);
  }

  /** Dropping a tab on its own position reports no new order. */
  lemma {:induction false} DropOnItselfReportsNothing(tabs: seq<Tab>, k: nat, dragged: Tab)
    requires k < |tabs| && tabs[k].id == dragged.id
    requires forall i :: 0 <= i < k ==> tabs[i].id != dragged.id
    ensures FindIndex(tabs, dragged.id) == k
  {
  }

  /**
   * A dragged tab that is no longer in the list gives `findIndex` -1, and
   * `splice(-1, 1)` then removes the last tab: its id is missing from the
   * reported order when it was unique.
   */
  lemma {:induction false} StaleDragDropsLastTab(tabs: seq<Tab>, dragged: Tab, targetIndex: int)
    requires |tabs| > 0 && forall i :: 0 <= i < |tabs| ==> tabs[i].id != dragged.id
    requires forall i :: 0 <= i < |tabs| - 1 ==> tabs[i].id != tabs[|tabs| - 1].id
    ensures var r := Reorder(tabs, dragged, targetIndex);
            |r| == |tabs| && tabs[|tabs| - 1].id !in Ids(r)
  {
    var n := |tabs|;
    var rest := tabs[..n - 1];
    assert SpliceRemoveOne(tabs, -1) == rest;
    var k := SpliceStart(|rest|, targetIndex);
    var moved := rest[..k] + [dragged] + rest[k..];
    var r := Renumber(moved);
    forall i | 0 <= i < |r| ensures r[i].id != tabs[n - 1].id {
      if i < k {
        assert moved[i] == tabs[i];
      } else if i > k {
        assert moved[i] == tabs[i - 1];
      }
    }
  }
}
