/**
 * The table's drill-down: a click on a row turns the configured drill-down
 * query into SQL by replacing every `{column}` with the row's value for that
 * column, written as an SQL literal (strings quoted with embedded quotes
 * doubled, `NULL` for a missing value, the decimal text otherwise).
 */
module Drilldown {
  import opened Wrappers
  import opened Js
  import opened Quoting

  /** `{key}`: the placeholder a drill-down query uses for a column of the clicked row. */
  function Placeholder(key: string): (p: string)
    ensures |p| == |key| + 2 && p[0] == '{' && p[|p| - 1] == '}'
    ensures p[1..|p| - 1] == key
  {
    "{" + key + "}"
  }

  /** The replacement text for a row value: `'…'` with each `'` doubled, `NULL`, or `String(v)`. */
  function SqlLiteral(v: Value): (lit: string)
  {
    match v
    case Str(s) => "'" + Doubled(s, '\'') + "'"
    case Null => "NULL"
    case Undefined => "NULL"
    case _ => ToString(v)
  }

  /** Reads an SQL string literal at the start of `t`. */
  function ReadLiteral(t: string): Option<(string, string)> {
    if t != [] && t[0] == '\'' then ReadDoubled(t[1..], '\'') else None
  }

  /**
   * A string value cannot break out of its literal: reading the literal back
   * gives exactly the value, and the query text after it is untouched.
   */
  lemma {:induction false} StringLiteralRoundTrip(s: string, rest: string)
    requires rest == [] || rest[0] != '\''
    ensures ReadLiteral(SqlLiteral(Str(s)) + rest) == Some((s, rest))
  {
    var body := Doubled(s, '\'') + ['\''] + rest;
    ReadDoubledRoundTrip(s, '\'', rest);
    var t := SqlLiteral(Str(s)) + rest;
    assert t == ['\''] + body;
    assert t[1..] == body;
    assert ReadLiteral(t) == ReadDoubled(body, '\'');
  }

  /** Every other value is written without any quote character. */
  lemma {:induction false} NonStringLiteralUnquoted(v: Value)
    requires !v.Str?
    ensures '\'' !in SqlLiteral(v)
    ensures v == Null || v == Undefined ==> SqlLiteral(v) == "NULL"
  {
    match v
    case Num(n) =>
      var digits := NatToString(if n < 0 then -n else n);
      assert SqlLiteral(v) == (if n < 0 then "-" + digits else digits);
      assert forall i :: 0 <= i < |digits| ==> '0' <= digits[i] <= '9';
    case Bool(b) =>
      assert SqlLiteral(v) == if b then "true" else "false";
    case Null =>
    case Undefined =>
  }

  /**
   * `s.replace(new RegExp(pat, 'g'), r)` for a pattern that matches itself
   * literally and a replacement without `$`: the leftmost occurrences,
   * scanning left to right without overlaps, become `r`.
   */
  function ReplaceAll(s: string, pat: string, r: string): string
    requires pat != []
    decreases |s|
  {
    if s == [] then ""
    else if pat <= s then r + ReplaceAll(s[|pat|..], pat, r)
    else [s[0]] + ReplaceAll(s[1..], pat, r)
  }

  /** `s.split(pat)`: the pieces between the occurrences `ReplaceAll` finds. */
  function SplitOn(s: string, pat: string): (parts: seq<string>)
    requires pat != []
    ensures |parts| >= 1
    decreases |s|
  {
    if s == [] then [""]
    else if pat <= s then [""] + SplitOn(s[|pat|..], pat)
    else
      var t := SplitOn(s[1..], pat);
      [[s[0]] + t[0]] + t[1..]
  }

  /** `pat` occurs in `s` starting at index `i`. */
  predicate OccursAt(s: string, pat: string, i: int) {
    0 <= i && i + |pat| <= |s| && s[i..i + |pat|] == pat
  }

  ghost predicate Occurs(s: string, pat: string) {
    exists i :: OccursAt(s, pat, i)
  }

  lemma {:induction false} JoinConsHead(c: char, t: seq<string>, sep: string)
    requires |t| >= 1
    ensures Join([[c] + t[0]] + t[1..], sep) == [c] + Join(t, sep)
  {
    var p := [[c] + t[0]] + t[1..];
    if |t| > 1 {
      assert p[1..] == t[1..];
    }
  }

  /**
   * The replacement is the split glued back with `r`: every occurrence of
   * the pattern, and nothing else, becomes the replacement text.
   */
  lemma {:induction false} ReplaceAllIsJoin(s: string, pat: string, r: string)
    requires pat != []
    ensures ReplaceAll(s, pat, r) == Join(SplitOn(s, pat), r)
    decreases |s|
  {
    if s != [] {
      if pat <= s {
        ReplaceAllIsJoin(s[|pat|..], pat, r);
        var t := SplitOn(s[|pat|..], pat);
        assert ([""] + t)[1..] == t;
      } else {
        ReplaceAllIsJoin(s[1..], pat, r);
        JoinConsHead(s[0], SplitOn(s[1..], pat), r);
      }
    }
  }

  /** Replacing the pattern by itself changes nothing. */
  lemma {:induction false} ReplaceAllSelf(s: string, pat: string)
    requires pat != []
    ensures ReplaceAll(s, pat, pat) == s
    decreases |s|
  {
    if s != [] {
      if pat <= s {
        ReplaceAllSelf(s[|pat|..], pat);
        assert s == pat + s[|pat|..];
      } else {
        ReplaceAllSelf(s[1..], pat);
        assert s == [s[0]] + s[1..];
      }
    }
  }

  /** Gluing the pieces back with the pattern restores the text. */
  lemma {:induction false} SplitOnRestores(s: string, pat: string)
    requires pat != []
    ensures Join(SplitOn(s, pat), pat) == s
  {
    ReplaceAllIsJoin(s, pat, pat);
    ReplaceAllSelf(s, pat);
  }

  /** The first piece is a prefix of the text. */
  lemma {:induction false} SplitOnHeadPrefix(s: string, pat: string)
    requires pat != []
    ensures SplitOn(s, pat)[0] <= s
    decreases |s|
  {
    if s != [] && !(pat <= s) {
      SplitOnHeadPrefix(s[1..], pat);
      assert s == [s[0]] + s[1..];
    }
  }

  /** Putting a character before a free piece keeps it free unless the pattern starts the text. */
  lemma {:induction false} HeadPieceFree(s: string, pat: string, t0: string)
    requires pat != [] && s != [] && !(pat <= s)
    requires t0 <= s[1..] && !Occurs(t0, pat)
    ensures !Occurs([s[0]] + t0, pat)
  {
    var h := [s[0]] + t0;
    assert h <= s by { assert s == [s[0]] + s[1..]; }
    forall i | OccursAt(h, pat, i) ensures OccursAt(t0, pat, i - 1) {
      assert i != 0;
    }
  }

  /**
   * No piece contains the pattern. With `SplitOnRestores` this says that the
   * pieces are the text cut at the occurrences of the pattern, so
   * `ReplaceAllIsJoin` replaces every occurrence.
   */
  lemma {:induction false} SplitOnPiecesFree(s: string, pat: string)
    requires pat != []
    ensures forall p :: p in SplitOn(s, pat) ==> !Occurs(p, pat)
    decreases |s|
  {
    if s == [] {
      assert SplitOn(s, pat) == [""];
      assert forall i :: !OccursAt("", pat, i);
    } else if pat <= s {
      SplitOnPiecesFree(s[|pat|..], pat);
    } else {
      var t := SplitOn(s[1..], pat);
      SplitOnPiecesFree(s[1..], pat);
      SplitOnHeadPrefix(s[1..], pat);
      assert !Occurs(t[0], pat) by { assert t[0] in t; }
      HeadPieceFree(s, pat, t[0]);
      forall p | p in SplitOn(s, pat) ensures !Occurs(p, pat) {
        if p != [s[0]] + t[0] {
          assert p in t[1..];
        }
      }
    }
  }

  /** A text without the pattern passes through unchanged. */
  lemma {:induction false} NoOccurrenceUnchanged(s: string, pat: string, r: string)
    requires pat != [] && !Occurs(s, pat)
    ensures ReplaceAll(s, pat, r) == s
    decreases |s|
  {
    if s != [] {
      assert !OccursAt(s, pat, 0);
      assert !Occurs(s[1..], pat) by {
        forall i | 0 <= i && i + |pat| <= |s| - 1
          ensures !OccursAt(s[1..], pat, i)
        {
          assert s[1..][i..i + |pat|] == s[i + 1..i + 1 + |pat|];
          assert !OccursAt(s, pat, i + 1);
        }
      }
      NoOccurrenceUnchanged(s[1..], pat, r);
      assert s == [s[0]] + s[1..];
    }
  }

  lemma {:induction false} OccursShift(x: string, t: string, pat: string)
    requires Occurs(t, pat)
    ensures Occurs(x + t, pat)
  {
    var i :| OccursAt(t, pat, i);
    assert (x + t)[|x| + i..|x| + i + |pat|] == pat;
    assert OccursAt(x + t, pat, |x| + i);
  }

  /** Text whose characters cannot start the pattern is copied as it is. */
  lemma {:induction false} ReplaceAllFreePrefix(x: string, u: string, pat: string, r: string)
    requires pat != [] && pat[0] !in x
    ensures ReplaceAll(x + u, pat, r) == x + ReplaceAll(u, pat, r)
    decreases |x|
  {
    if x == [] {
      assert x + u == u;
    } else {
      assert (x + u)[0] == x[0] && (x + u)[1..] == x[1..] + u;
      assert !(pat <= x + u);
      ReplaceAllFreePrefix(x[1..], u, pat, r);
      assert x == [x[0]] + x[1..];
    }
  }

  /** A column name the table can use in a placeholder: no braces inside. */
  predicate BraceFree(key: string) {
    '{' !in key && '}' !in key
  }

  /** Past its opening brace, the placeholder of a brace-free name has no `{`. */
  lemma {:induction false} PlaceholderInnerNoBrace(k: string)
    requires BraceFree(k)
    ensures forall i :: 0 < i < |Placeholder(k)| ==> Placeholder(k)[i] != '{'
  {
    var pk := Placeholder(k);
    forall i | 0 < i < |pk| ensures pk[i] != '{' {
      if i < |pk| - 1 {
        assert pk[i] == k[i - 1];
      }
    }
  }

  /** A text that starts with `{k}` does not start with `{j}` for another brace-free name `j`. */
  lemma {:induction false} PlaceholderPrefixDiffers(k: string, j: string, s: string)
    requires BraceFree(k) && BraceFree(j) && k != j
    requires Placeholder(k) <= s
    ensures !(Placeholder(j) <= s)
  {
    var pk, pj := Placeholder(k), Placeholder(j);
    if |k| < |j| {
      assert s[|k| + 1] == pk[|k| + 1] == '}';
      assert pj[|k| + 1] == j[|k|] != '}';
    } else if |j| < |k| {
      assert pj[|j| + 1] == '}';
      assert s[|j| + 1] == pk[|j| + 1] == k[|j|] != '}';
    } else {
      assert exists i :: 0 <= i < |k| && k[i] != j[i];
      var i :| 0 <= i < |k| && k[i] != j[i];
      assert s[i + 1] == pk[i + 1] == k[i];
      assert pj[i + 1] == j[i];
    }
  }

  /** Where `{k}` starts, another brace-free placeholder can only start after its end. */
  lemma {:induction false} PlaceholdersApart(s: string, k: string, j: string, q: nat)
    requires BraceFree(k) && BraceFree(j) && k != j
    requires Placeholder(k) <= s
    requires q + |j| + 2 <= |s| && s[q..q + |j| + 2] == Placeholder(j)
    ensures q >= |k| + 2
  {
    PlaceholderPrefixDiffers(k, j, s);
    PlaceholderInnerNoBrace(k);
    assert s[q] == '{';
  }

  /** An occurrence of another column's placeholder survives the replacement of `{k}`. */
  lemma {:induction false} PlaceholderSurvives(s: string, k: string, j: string, r: string, q: nat)
    requires BraceFree(k) && BraceFree(j) && k != j
    requires q + |j| + 2 <= |s| && s[q..q + |j| + 2] == Placeholder(j)
    ensures Occurs(ReplaceAll(s, Placeholder(k), r), Placeholder(j))
    decreases |s|
  {
    var pk, pj := Placeholder(k), Placeholder(j);
    if pk <= s {
      PlaceholdersApart(s, k, j, q);
      var t := s[|pk|..];
      assert t[q - |pk|..q - |pk| + |j| + 2] == pj;
      PlaceholderSurvives(t, k, j, r, q - |pk|);
      OccursShift(r, ReplaceAll(t, pk, r), pj);
    } else if q == 0 {
      PlaceholderAtHeadSurvives(s, k, j, r);
    } else {
      var t := s[1..];
      assert t[q - 1..q - 1 + |j| + 2] == pj;
      PlaceholderSurvives(t, k, j, r, q - 1);
      OccursShift([s[0]], ReplaceAll(t, pk, r), pj);
    }
  }

  /** A placeholder at the very start that the step's placeholder does not begin is kept. */
  lemma {:induction false} PlaceholderAtHeadSurvives(s: string, k: string, j: string, r: string)
    requires BraceFree(k) && BraceFree(j)
    requires |j| + 2 <= |s| && s[..|j| + 2] == Placeholder(j)
    requires !(Placeholder(k) <= s)
    ensures OccursAt(ReplaceAll(s, Placeholder(k), r), Placeholder(j), 0)
  {
    var pk, pj := Placeholder(k), Placeholder(j);
    var u := s[|j| + 2..];
    var tail := j + "}";
    assert pj == ['{'] + tail;
    assert s == pj + u by {
      assert s == s[..|j| + 2] + u;
    }
    assert s[1..] == tail + u by {
      assert s == ['{'] + (tail + u);
    }
    ReplaceAllFreePrefix(tail, u, pk, r);
    var out := ReplaceAll(s, pk, r);
    assert out == [s[0]] + (tail + ReplaceAll(u, pk, r));
    assert out[0..|pj|] == pj;
  }

  /** `String.replace` patterns: a column name without regular-expression metacharacters. */
  predicate PlainKey(key: string) {
    forall c :: c in key ==> c !in "\\^$.|?*+()[]"
  }

  /** A replacement text in which `$` cannot start a replacement pattern. */
  predicate DollarFree(v: Value) {
    !(v.Str? && '$' in v.s)
  }

  /** The query after the first `n` columns of the row have been substituted, in `Object.keys` order. */
  function Substituted(query: string, row: Obj, n: nat): string
    requires n <= |row|
  {
    if n == 0 then query
    else
      var key := row[n - 1].0;
      ReplaceAll(Substituted(query, row, n - 1), Placeholder(key), SqlLiteral(Get(row, key)))
  }

  /** The replacement text chosen for one row value, by its type. */
  method ReplacementValue(value: Value) returns (replacementValue: string)
    ensures replacementValue == SqlLiteral(value)
    ensures value.Str? ==> ReadLiteral(replacementValue) == Some((value.s, ""))
  {
    if value.Str? {
      replacementValue := "'" + Doubled(value.s, '\'') + "'";
      StringLiteralRoundTrip(value.s, "");
      assert replacementValue + "" == replacementValue;
    } else if value == Null || value == Undefined {
      replacementValue := "NULL";
    } else {
      replacementValue := ToString(value);
    }
  }

  /** `!drilldownEnabled || !drilldownQuery`: the click is ignored. */
  predicate DrilldownOff(drilldownEnabled: bool, drilldownQuery: Option<string>) {
    !drilldownEnabled || drilldownQuery.None? || drilldownQuery.value == ""
  }

  /**
   * `handleRowClick`: the query sent for the clicked row, or nothing when
   * drill-down is off. Keys and string values are restricted to those for
   * which the regular-expression replacement is the literal one.
   */
  method HandleRowClick(drilldownEnabled: bool, drilldownQuery: Option<string>, row: Obj) returns (sent: Option<string>)
    requires forall i :: 0 <= i < |row| ==> PlainKey(row[i].0) && DollarFree(row[i].1)
    ensures DrilldownOff(drilldownEnabled, drilldownQuery) ==> sent == None
    ensures !DrilldownOff(drilldownEnabled, drilldownQuery) ==> sent == Some(Substituted(drilldownQuery.value, row, |row|))
  {
    if !drilldownEnabled || drilldownQuery.None? || drilldownQuery.value == "" {
      return None;
    }
    var query := drilldownQuery.value;
    var i := 0;
    while i < |row|
      invariant 0 <= i <= |row|
      invariant query == Substituted(drilldownQuery.value, row, i)
    {
      var key := row[i].0;
      var placeholder := Placeholder(key);
      var value := Get(row, key);
      var replacementValue := ReplacementValue(value);
      query := ReplaceAll(query, placeholder, replacementValue);
      assert query == Substituted(drilldownQuery.value, row, i + 1);
      i := i + 1;
    }
    sent := Some(query);
  }

  /** The query holds none of the row's placeholders. */
  ghost predicate NoRowPlaceholders(query: string, row: Obj) {
    forall i :: 0 <= i < |row| ==> !Occurs(query, Placeholder(row[i].0))
  }

  /** A query without any of the row's placeholders is sent unchanged. */
  lemma {:induction false} NoPlaceholdersUnchanged(query: string, row: Obj, n: nat)
    requires n <= |row|
    requires NoRowPlaceholders(query, row)
    ensures Substituted(query, row, n) == query
  {
    var i := 0;
    while i < n
      invariant i <= n
      invariant KeptUpTo(query, row, i)
    {
      i := i + 1;
      SubstitutedAbsentStep(query, row, i);
    }
  }

  /** The first `n` substitutions have left the query as it was. */
  ghost predicate KeptUpTo(query: string, row: Obj, n: nat) {
    n <= |row| && Substituted(query, row, n) == query
  }

  /** A step whose placeholder the query does not hold leaves the query as it is. */
  lemma {:induction false} SubstitutedAbsentStep(query: string, row: Obj, n: nat)
    requires 0 < n <= |row| && KeptUpTo(query, row, n - 1)
    requires NoRowPlaceholders(query, row)
    ensures KeptUpTo(query, row, n)
  {
    var key := row[n - 1].0;
    assert !Occurs(query, Placeholder(key));
    NoOccurrenceUnchanged(query, Placeholder(key), SqlLiteral(Get(row, key)));
  }

  /** A placeholder for a column the row does not have is left in the query. */
  lemma {:induction false} AbsentColumnKept(query: string, row: Obj, n: nat, j: string)
    requires n <= |row|
    requires BraceFree(j) && !HasKey(row, j)
    requires forall i :: 0 <= i < |row| ==> BraceFree(row[i].0)
    requires Occurs(query, Placeholder(j))
    ensures Occurs(Substituted(query, row, n), Placeholder(j))
  {
    var i := 0;
    while i < n
      invariant i <= n
      invariant PlaceholderKept(query, row, i, j)
    {
      i := i + 1;
      AbsentColumnStep(query, row, i, j);
    }
  }

  /** After the first `n` substitutions the query still holds `{j}`. */
  ghost predicate PlaceholderKept(query: string, row: Obj, n: nat, j: string) {
    n <= |row| && Occurs(Substituted(query, row, n), Placeholder(j))
  }

  /** One more substitution, for a column other than `j`, keeps `{j}`. */
  lemma {:induction false} AbsentColumnStep(query: string, row: Obj, n: nat, j: string)
    requires 0 < n <= |row|
    requires BraceFree(j) && !HasKey(row, j)
    requires forall i :: 0 <= i < |row| ==> BraceFree(row[i].0)
    requires PlaceholderKept(query, row, n - 1, j)
    ensures PlaceholderKept(query, row, n, j)
  {
    var key := row[n - 1].0;
    assert Keys(row)[n - 1] == key;
    var s := Substituted(query, row, n - 1);
    var q :| OccursAt(s, Placeholder(j), q);
    PlaceholderSurvives(s, key, j, SqlLiteral(Get(row, key)), q);
  }

  /** Each column is substituted in turn: the first column's placeholder becomes its literal. */
  lemma {:induction false} SubstitutedStep(query: string, row: Obj, n: nat)
    requires n < |row|
    ensures var pieces := SplitOn(Substituted(query, row, n), Placeholder(row[n].0));
            && Join(pieces, Placeholder(row[n].0)) == Substituted(query, row, n)
            && (forall p :: p in pieces ==> !Occurs(p, Placeholder(row[n].0)))
            && Substituted(query, row, n + 1) == Join(pieces, SqlLiteral(Get(row, row[n].0)))
  {
    ReplaceAllIsJoin(Substituted(query, row, n), Placeholder(row[n].0), SqlLiteral(Get(row, row[n].0)));
    SplitOnRestores(Substituted(query, row, n), Placeholder(row[n].0));
    SplitOnPiecesFree(Substituted(query, row, n), Placeholder(row[n].0));
  }
}
