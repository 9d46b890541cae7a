/**
 * The dashboard's filter bar: of the filters an administrator defined, the
 * active ones are shown in display order; the values start at the filters'
 * defaults, each control writes its value under its SQL parameter name, and
 * "Clear All" goes back to the defaults.
 */
module FilterBar {
  import opened Wrappers
  import opened Js

  datatype FilterType = DateRange | Select | MultiSelect | Text

  datatype Filter = Filter(
    id: int,
    name: string,
    filterType: FilterType,
    labelText: string,
    sqlParameter: string,
    defaultValue: Option<string>,
    isActive: bool,
    displayOrder: int)

  /** The bar's state: the filters shown, the current values, whether it is still loading, whether it is folded. */
  datatype BarState = BarState(filters: seq<Filter>, values: Obj, loading: bool, collapsed: bool)

  const Initial := BarState([], [], true, false)

  // Active filters in display order.

  /** `filters.filter(f => f.is_active)`. */
  function Active(fs: seq<Filter>): (r: seq<Filter>)
    ensures |r| <= |fs|
    ensures forall i :: 0 <= i < |r| ==> r[i].isActive
  {
    if fs == [] then []
    else (if fs[0].isActive then [fs[0]] else []) + Active(fs[1..])
  }

  /** A filter is kept exactly when it is active. */
  lemma {:induction false} ActiveMembership(fs: seq<Filter>, f: Filter)
    ensures f in Active(fs) <==> f in fs && f.isActive
    decreases |fs|
  {
    if fs != [] {
      ActiveMembership(fs[1..], f);
      assert fs == [fs[0]] + fs[1..];
    }
  }

  predicate Sorted(s: seq<Filter>) {
    forall i, j :: 0 <= i < j < |s| ==> s[i].displayOrder <= s[j].displayOrder
  }

  /** The filters of one display order, in their order in `s`. */
  function OfOrder(s: seq<Filter>, d: int): seq<Filter> {
    if s == [] then []
    else (if s[0].displayOrder == d then [s[0]] else []) + OfOrder(s[1..], d)
  }

  lemma {:induction false} OfOrderAppend(a: seq<Filter>, b: seq<Filter>, d: int)
    ensures OfOrder(a + b, d) == OfOrder(a, d) + OfOrder(b, d)
    decreases |a|
  {
    if a == [] {
      assert a + b == b;
    } else {
      assert (a + b)[1..] == a[1..] + b;
      OfOrderAppend(a[1..], b, d);
    }
  }

  /** A sorted list whose first order is above `d` has no filter of order `d`. */
  lemma {:induction false} OfOrderAbove(t: seq<Filter>, d: int)
    requires Sorted(t) && t != [] && d < t[0].displayOrder
    ensures OfOrder(t, d) == []
    decreases |t|
  {
    if |t| > 1 {
      OfOrderAbove(t[1..], d);
    }
  }

  /** Puts `x` after every filter of `t` whose order is not above its own. */
  function Insert(t: seq<Filter>, x: Filter): (r: seq<Filter>)
    ensures |r| == |t| + 1
  {
    if t == [] then [x]
    else if x.displayOrder < t[0].displayOrder then [x] + t
    else [t[0]] + Insert(t[1..], x)
  }

  lemma {:induction false} InsertPermutes(t: seq<Filter>, x: Filter)
    ensures multiset(Insert(t, x)) == multiset(t) + multiset{x}
    decreases |t|
  {
    if t != [] && x.displayOrder >= t[0].displayOrder {
      InsertPermutes(t[1..], x);
      assert t == [t[0]] + t[1..];
    }
  }

  lemma {:induction false} InsertSorted(t: seq<Filter>, x: Filter)
    requires Sorted(t)
    ensures Sorted(Insert(t, x))
    ensures Insert(t, x)[0] == x || (t != [] && Insert(t, x)[0] == t[0])
    decreases |t|
  {
    if t != [] && x.displayOrder >= t[0].displayOrder {
      InsertSorted(t[1..], x);
      var r := Insert(t, x);
      assert r == [t[0]] + Insert(t[1..], x);
      forall i, j | 0 <= i < j < |r| ensures r[i].displayOrder <= r[j].displayOrder {
        if i == 0 {
          assert r[j] in Insert(t[1..], x);
          InsertPermutes(t[1..], x);
          assert r[j] in multiset(t[1..]) + multiset{x};
          if r[j] in t[1..] {
            var k :| 0 <= k < |t[1..]| && t[1..][k] == r[j];
            assert t[k + 1] == r[j];
          }
        }
      }
    }
  }

  /** With `t` sorted, inserting `x` adds it after every filter of its own order. */
  lemma {:induction false} InsertStable(t: seq<Filter>, x: Filter, d: int)
    requires Sorted(t)
    ensures OfOrder(Insert(t, x), d) == OfOrder(t, d) + (if x.displayOrder == d then [x] else [])
    decreases |t|
  {
    if t == [] {
    } else if x.displayOrder < t[0].displayOrder {
      assert ([x] + t)[1..] == t;
      if x.displayOrder == d {
        OfOrderAbove(t, d);
      }
    } else {
      InsertStable(t[1..], x, d);
      var r := [t[0]] + Insert(t[1..], x);
      assert r[1..] == Insert(t[1..], x);
    }
  }

  /** `.sort((a, b) => a.display_order - b.display_order)`, a stable sort. */
  function SortByOrder(s: seq<Filter>): (r: seq<Filter>)
    ensures |r| == |s|
  {
    if s == [] then [] else Insert(SortByOrder(s[..|s| - 1]), s[|s| - 1])
  }

  /**
   * The sort puts the filters in non-decreasing display order, keeps every
   * filter exactly once, and keeps filters of equal order in their old order.
   */
  lemma {:induction false} SortByOrderSpec(s: seq<Filter>)
    ensures Sorted(SortByOrder(s))
    ensures multiset(SortByOrder(s)) == multiset(s)
    ensures forall d :: OfOrder(SortByOrder(s), d) == OfOrder(s, d)
    decreases |s|
  {
    if s != [] {
      var init, x := s[..|s| - 1], s[|s| - 1];
      var st := SortByOrder(init);
      assert SortByOrder(s) == Insert(st, x);
      assert s == init + [x];
      assert Sorted(SortByOrder(s)) by {
        SortByOrderSpec(init);
        InsertSorted(st, x);
      }
      assert multiset(SortByOrder(s)) == multiset(s) by {
        SortByOrderSpec(init);
        InsertPermutes(st, x);
      }
      forall d ensures OfOrder(SortByOrder(s), d) == OfOrder(s, d) {
        assert OfOrder(st, d) == OfOrder(init, d) by {
          SortByOrderSpec(init);
        }
        InsertStable(st, x, d) by {
          SortByOrderSpec(init);
        }
        OfOrderAppend(init, [x], d);
      }
    }
  }

  /** The filters the bar shows. */
  function ActiveSorted(fs: seq<Filter>): seq<Filter> {
    SortByOrder(Active(fs))
  }

  /**
   * The bar shows exactly the active filters, each once, in non-decreasing
   * display order, filters of equal order keeping the order they came in.
   */
  lemma {:induction false} ActiveSortedSpec(fs: seq<Filter>)
    ensures Sorted(ActiveSorted(fs))
    ensures multiset(ActiveSorted(fs)) == multiset(Active(fs))
    ensures forall f :: f in ActiveSorted(fs) <==> f in fs && f.isActive
    ensures forall d :: OfOrder(ActiveSorted(fs), d) == OfOrder(Active(fs), d)
  {
    SortByOrderSpec(Active(fs));
    forall f ensures f in ActiveSorted(fs) <==> f in fs && f.isActive {
      ActiveMembership(fs, f);
      assert f in ActiveSorted(fs) <==> f in multiset(ActiveSorted(fs));
      assert f in Active(fs) <==> f in multiset(Active(fs));
    }
  }

  // Default values.

  /** `if (filter.default_value)`: a default that is present and not empty. */
  predicate HasDefault(f: Filter) {
    f.defaultValue.Some? && f.defaultValue.value != ""
  }

  /** The defaults object after the `forEach` over `fs`. */
  function DefaultsOf(fs: seq<Filter>): (r: Obj)
    ensures |r| <= |fs|
  {
    if fs == [] then []
    else
      var prev := DefaultsOf(fs[..|fs| - 1]);
      var f := fs[|fs| - 1];
      if HasDefault(f) then Put(prev, f.sqlParameter, Str(f.defaultValue.value)) else prev
  }

  /** The default of the last filter of `fs` that has one under parameter `k`. */
  function LastDefault(fs: seq<Filter>, k: string): Option<string> {
    if fs == [] then None
    else
      var f := fs[|fs| - 1];
      if HasDefault(f) && f.sqlParameter == k then Some(f.defaultValue.value)
      else LastDefault(fs[..|fs| - 1], k)
  }

  /** A filter of `fs` with a default under parameter `k`. */
  predicate DefaultAt(fs: seq<Filter>, k: string, i: int) {
    0 <= i < |fs| && HasDefault(fs[i]) && fs[i].sqlParameter == k
  }

  /**
   * There is a last default under `k` exactly when some filter has a default
   * under `k`, and it is the default of a filter no later filter overrides.
   */
  lemma {:induction false} LastDefaultSpec(fs: seq<Filter>, k: string)
    ensures LastDefault(fs, k).None? <==> forall i :: !DefaultAt(fs, k, i)
    ensures LastDefault(fs, k).Some? ==>
              exists i :: DefaultAt(fs, k, i) && fs[i].defaultValue.value == LastDefault(fs, k).value
                          && forall j :: i < j ==> !DefaultAt(fs, k, j)
    decreases |fs|
  {
    if fs != [] {
      var n := |fs| - 1;
      var init := fs[..n];
      if DefaultAt(fs, k, n) {
        assert forall j :: n < j ==> !DefaultAt(fs, k, j);
      } else {
        LastDefaultSpec(init, k);
        assert forall i :: DefaultAt(fs, k, i) <==> DefaultAt(init, k, i) by {
          forall i ensures DefaultAt(fs, k, i) <==> DefaultAt(init, k, i) {
            if 0 <= i < n {
              assert init[i] == fs[i];
            }
          }
        }
      }
    }
  }

  /**
   * The defaults object holds a parameter exactly when some filter has a
   * default under it, and then its value is the last such filter's default;
   * no parameter appears twice.
   */
  lemma {:induction false} DefaultsSpec(fs: seq<Filter>, k: string)
    ensures HasKey(DefaultsOf(fs), k) <==> LastDefault(fs, k).Some?
    ensures Get(DefaultsOf(fs), k) == if LastDefault(fs, k).Some? then Str(LastDefault(fs, k).value) else Undefined
    ensures UniqueKeys(DefaultsOf(fs))
    decreases |fs|
  {
    if fs != [] {
      var init, f := fs[..|fs| - 1], fs[|fs| - 1];
      DefaultsSpec(init, k);
      if HasDefault(f) {
        var prev := DefaultsOf(init);
        PutSpec(prev, f.sqlParameter, Str(f.defaultValue.value));
        assert HasKey(Put(prev, f.sqlParameter, Str(f.defaultValue.value)), k)
               <==> HasKey(prev, k) || k == f.sqlParameter;
      }
    }
  }

  /** The `forEach` that fills the defaults object, one filter at a time. */
  method CollectDefaults(fs: seq<Filter>) returns (defaults: Obj)
    ensures defaults == DefaultsOf(fs)
  {
    defaults := [];
    var i := 0;
    while i < |fs|
      invariant 0 <= i <= |fs|
      invariant defaults == DefaultsOf(fs[..i])
    {
      var filter := fs[i];
      assert fs[..i + 1][..i] == fs[..i];
      if filter.defaultValue.Some? && filter.defaultValue.value != "" {
        defaults := Put(defaults, filter.sqlParameter, Str(filter.defaultValue.value));
      }
      i := i + 1;
    }
    assert fs[..i] == fs;
  }

  // The component's handlers, each an atomic step on the bar's state.

  /**
   * `loadFilters`: on a response, the active filters in display order are
   * shown and the values (also sent to the dashboard) are their defaults; on
   * a failure only the loading flag drops.
   */
  method LoadFilters(st: BarState, response: Option<seq<Filter>>) returns (st': BarState, sent: Option<Obj>)
    ensures response.None? ==> st' == st.(loading := false) && sent == None
    ensures response.Some? ==>
              st' == st.(filters := ActiveSorted(response.value), values := DefaultsOf(ActiveSorted(response.value)),
                         loading := false)
              && sent == Some(st'.values)
  {
    if response.None? {
      return st.(loading := false), None;
    }
    var activeFilters := ActiveSorted(response.value);
    var defaults := CollectDefaults(activeFilters);
    st' := st.(filters := activeFilters, values := defaults, loading := false);
    sent := Some(defaults);
  }

  /**
   * `handleFilterChange`: the new value is stored under the parameter, every
   * other parameter keeps its value, and the new values are what is sent.
   */
  function HandleFilterChange(st: BarState, sqlParam: string, value: Value): (r: (BarState, Obj))
    ensures r.0.values == r.1 && r.0.filters == st.filters && r.0.loading == st.loading
    ensures Get(r.1, sqlParam) == value
    ensures forall k :: k != sqlParam ==> Get(r.1, k) == Get(st.values, k)
    ensures Keys(r.1) == if HasKey(st.values, sqlParam) then Keys(st.values) else Keys(st.values) + [sqlParam]
  {
    PutSpec(st.values, sqlParam, value);
    var newValues := Put(st.values, sqlParam, value);
    (st.(values := newValues), newValues)
  }

  /** `handleClearFilters`: the values, and what is sent, are the shown filters' defaults again. */
  method HandleClearFilters(st: BarState) returns (st': BarState, sent: Obj)
    ensures st' == st.(values := DefaultsOf(st.filters)) && sent == st'.values
  {
    var defaults := CollectDefaults(st.filters);
    st' := st.(values := defaults);
    sent := defaults;
  }

  /** Clearing after any changes gives back the values the bar started with once loaded. */
  lemma {:induction false} ClearRestoresLoaded(fs: seq<Filter>, changes: seq<(string, Value)>)
    ensures var loaded := BarState(ActiveSorted(fs), DefaultsOf(ActiveSorted(fs)), false, false);
            Changed(loaded, changes).filters == loaded.filters
            && DefaultsOf(Changed(loaded, changes).filters) == loaded.values
  {
    var loaded := BarState(ActiveSorted(fs), DefaultsOf(ActiveSorted(fs)), false, false);
    ChangedKeepsFilters(loaded, changes);
  }

  /** The state after a series of control changes. */
  function Changed(st: BarState, changes: seq<(string, Value)>): BarState
    decreases |changes|
  {
    if changes == [] then st
    else Changed(HandleFilterChange(st, changes[0].0, changes[0].1).0, changes[1..])
  }

  lemma {:induction false} ChangedKeepsFilters(st: BarState, changes: seq<(string, Value)>)
    ensures Changed(st, changes).filters == st.filters
    decreases |changes|
  {
    if changes != [] {
      ChangedKeepsFilters(HandleFilterChange(st, changes[0].0, changes[0].1).0, changes[1..]);
    }
  }

  // What the controls read and write.

  /** The keys a filter's controls write: `<param>_start` and `<param>_end` for a date range, the parameter otherwise. */
  function ControlKeys(f: Filter): seq<string> {
    if f.filterType == DateRange then [f.sqlParameter + "_start", f.sqlParameter + "_end"]
    else [f.sqlParameter]
  }

  /**
   * A date range's two keys differ from each other and from the parameter
   * itself, so the default stored under the parameter is shown by no
   * control of a date-range filter.
   */
  lemma {:induction false} DateRangeKeys(f: Filter)
    requires f.filterType == DateRange
    ensures |ControlKeys(f)| == 2 && ControlKeys(f)[0] != ControlKeys(f)[1]
    ensures f.sqlParameter !in ControlKeys(f)
  {
    var p := f.sqlParameter;
    assert (p + "_start")[|p| + 1] == 's' && (p + "_end")[|p| + 1] == 'e';
  }

  /** `filterValues[key] || ""`: what a control shows. */
  function Shown(values: Obj, key: string): (v: Value)
    ensures Truthy(v) || v == Str("")
    ensures Truthy(Get(values, key)) ==> v == Get(values, key)
  {
    if Truthy(Get(values, key)) then Get(values, key) else Str("")
  }

  /** The bar renders something only once loaded and with at least one filter. */
  predicate Visible(st: BarState) {
    !st.loading && |st.filters| > 0
  }

  /** Nothing shows before the load, after a failed load, or when no filter is active. */
  lemma {:induction false} HiddenCases(st: BarState, fs: seq<Filter>)
    ensures !Visible(Initial)
    ensures !Visible(st.(loading := false, filters := []))
    ensures (forall i :: 0 <= i < |fs| ==> !fs[i].isActive) ==> ActiveSorted(fs) == []
  {
    if forall i :: 0 <= i < |fs| ==> !fs[i].isActive {
      if ActiveSorted(fs) != [] {
        ActiveSortedSpec(fs);
        assert ActiveSorted(fs)[0] in ActiveSorted(fs);
      }
    }
  }
}
