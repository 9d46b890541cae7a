/**
 * The pivot table's drill-down: a pivot row expands into the raw rows that
 * agree with it on every row field, and a click toggles the row's index in
 * the set of expanded rows.
 */
module Pivot {
  import opened Wrappers
  import opened Js

  /** The pivot configuration; only `rowFields` matters to the drill-down. */
  datatype PivotConfig = PivotConfig(rowFields: seq<string>, columnFields: seq<string>, valueField: string, aggregation: string)

  /** `rowFields.every(field => rawRow[field] === pivotRow[field])`. */
  predicate AgreesOn(rawRow: Obj, pivotRow: Obj, fields: seq<string>) {
    forall i :: 0 <= i < |fields| ==> Get(rawRow, fields[i]) == Get(pivotRow, fields[i])
  }

  /** `rows.filter(r => AgreesOn(r, pivotRow, fields))`. */
  function FilterAgreeing(rows: seq<Obj>, pivotRow: Obj, fields: seq<string>): (r: seq<Obj>)
    ensures |r| <= |rows|
    ensures forall x :: x in r <==> x in rows && AgreesOn(x, pivotRow, fields)
  {
    if rows == [] then []
    else
      var rest := FilterAgreeing(rows[1..], pivotRow, fields);
      assert forall x :: x in rows <==> x == rows[0] || x in rows[1..];
      if AgreesOn(rows[0], pivotRow, fields) then [rows[0]] + rest else rest
  }

  /**
   * Duplicates are kept: a raw row that agrees appears in the detail rows as
   * many times as in the raw data, one that does not never appears.
   */
  lemma {:induction false} FilterMultiplicity(rows: seq<Obj>, pivotRow: Obj, fields: seq<string>, x: Obj)
    ensures multiset(FilterAgreeing(rows, pivotRow, fields))[x]
            == if AgreesOn(x, pivotRow, fields) then multiset(rows)[x] else 0
  {
    if rows != [] {
      FilterMultiplicity(rows[1..], pivotRow, fields, x);
      assert rows == [rows[0]] + rows[1..];
    }
  }

  /** `getDetailRows`: nothing without raw data or a configuration, else the agreeing raw rows. */
  function GetDetailRows(rawData: Option<seq<Obj>>, config: Option<PivotConfig>, pivotRow: Obj): (r: seq<Obj>)
    ensures rawData == None || config == None ==> r == []
    ensures rawData.Some? && config.Some? ==>
      forall x :: x in r <==> x in rawData.value && AgreesOn(x, pivotRow, config.value.rowFields)
  {
    if rawData.None? || config.None? then []
    else FilterAgreeing(rawData.value, pivotRow, config.value.rowFields)
  }

  /** `a` is `b` with some elements deleted, the rest in their original order. */
  predicate IsSubsequence(a: seq<Obj>, b: seq<Obj>)
    decreases |b|
  {
    if a == [] then true
    else if b == [] then false
    else if a[0] == b[0] then IsSubsequence(a[1..], b[1..])
    else IsSubsequence(a, b[1..])
  }

  /** The detail rows keep the raw data's order. */
  lemma {:induction false} FilterIsSubsequence(rows: seq<Obj>, pivotRow: Obj, fields: seq<string>)
    ensures IsSubsequence(FilterAgreeing(rows, pivotRow, fields), rows)
  {
    if rows != [] {
      FilterIsSubsequence(rows[1..], pivotRow, fields);
      var rest := FilterAgreeing(rows[1..], pivotRow, fields);
      if !AgreesOn(rows[0], pivotRow, fields) {
        SubsequenceSkip(rest, rows[0], rows[1..]);
      }
    }
  }

  lemma {:induction false} SubsequenceSkip(a: seq<Obj>, x: Obj, b: seq<Obj>)
    requires IsSubsequence(a, b)
    ensures IsSubsequence(a, [x] + b)
    decreases |a| + |b|, 1
  {
    if a != [] {
      assert ([x] + b)[1..] == b;
      if a[0] != x {
        assert IsSubsequence(a, b);
      } else {
        SubsequenceTail(a, b);
      }
    }
  }

  lemma {:induction false} SubsequenceTail(a: seq<Obj>, b: seq<Obj>)
    requires a != [] && IsSubsequence(a, b)
    ensures IsSubsequence(a[1..], b)
    decreases |a| + |b|, 0
  {
    if a[0] == b[0] {
      if a[1..] != [] {
        SubsequenceSkip(a[1..], b[0], b[1..]);
        assert b == [b[0]] + b[1..];
      }
    } else {
      SubsequenceTail(a, b[1..]);
      if a[1..] != [] {
        SubsequenceSkip(a[1..], b[0], b[1..]);
        assert b == [b[0]] + b[1..];
      }
    }
  }

  /** With no row fields every raw row matches, so the detail is all of the raw data. */
  lemma {:induction false} NoRowFieldsKeepsAll(rows: seq<Obj>, pivotRow: Obj)
    ensures FilterAgreeing(rows, pivotRow, []) == rows
  {
    if rows != [] {
      NoRowFieldsKeepsAll(rows[1..], pivotRow);
      assert rows == [rows[0]] + rows[1..];
    }
  }

  /** Pivot rows that differ on some row field have no detail row in common. */
  lemma {:induction false} DisjointDetails(rawData: seq<Obj>, config: PivotConfig, p: Obj, q: Obj, i: nat)
    requires i < |config.rowFields| && Get(p, config.rowFields[i]) != Get(q, config.rowFields[i])
    ensures forall x :: x in GetDetailRows(Some(rawData), Some(config), p)
                     ==> x !in GetDetailRows(Some(rawData), Some(config), q)
  {
  }

  /** The copy-and-mutate `toggleRow`: delete the index when present, add it otherwise. */
  method ToggleRow(expandedRows: set<int>, rowIdx: int) returns (newExpanded: set<int>)
    ensures rowIdx in newExpanded <==> rowIdx !in expandedRows
    ensures forall i :: i != rowIdx ==> (i in newExpanded <==> i in expandedRows)
    ensures newExpanded == Toggled(expandedRows, rowIdx)
  {
    newExpanded := expandedRows;
    if rowIdx in newExpanded {
      newExpanded := newExpanded - {rowIdx};
    } else {
      newExpanded := newExpanded + {rowIdx};
    }
  }

  /** The set `toggleRow` produces: symmetric difference with the clicked index. */
  function Toggled(s: set<int>, i: int): (r: set<int>)
    ensures i in r <==> i !in s
    ensures forall j :: j != i ==> (j in r <==> j in s)
  {
    (s - {i}) + ({i} - s)
  }

  /** Toggling the same row twice restores the set. */
  lemma {:induction false} ToggleTwice(s: set<int>, i: int)
    ensures Toggled(Toggled(s, i), i) == s
  {
  }

  /** `rawData && rawData.length > 0`: only then does a click reach `toggleRow`. */
  predicate CanExpand(rawData: Option<seq<Obj>>) {
    rawData.Some? && |rawData.value| > 0
  }

  /** The row's click handler: toggles only when the row can expand. */
  method OnRowClick(expandedRows: set<int>, rawData: Option<seq<Obj>>, rowIdx: int) returns (next: set<int>)
    ensures !CanExpand(rawData) ==> next == expandedRows
    ensures CanExpand(rawData) ==> next == Toggled(expandedRows, rowIdx)
  {
    next := expandedRows;
    if CanExpand(rawData) {
      next := ToggleRow(expandedRows, rowIdx);
    }
  }

  /** The rows shown under pivot row `rowIdx`: its detail rows when expanded, none otherwise. */
  function ShownDetail(expandedRows: set<int>, rowIdx: int, rawData: Option<seq<Obj>>, config: Option<PivotConfig>, row: Obj): (r: seq<Obj>)
    ensures rowIdx !in expandedRows ==> r == []
    ensures forall x :: x in r ==> rawData.Some? && x in rawData.value
  {
    if rowIdx in expandedRows then GetDetailRows(rawData, config, row) else []
  }
}
