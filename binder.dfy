/**
 * The named-to-positional SQL parameter binder of the card-data route
 * (`substituteParameters` in backend/src/routes/dashboard.routes.ts).
 *
 * A card's SQL template names its filters as `:identifier`. The binder scans
 * the template once with `/:([a-zA-Z_][a-zA-Z0-9_]*)/g`, handles each distinct
 * name once in order of first appearance, and rewrites every whole-word
 * occurrence of `:name` either to the next PostgreSQL positional parameter
 * `$N` (appending the value to `values`) or, for a missing, null or empty
 * filter, to the quoted wildcard `'%'`.
 *
 * The method keeps the source's loop and its string rewriting. It is proved
 * against `Bind`, which renders the tokenised ORIGINAL template through a
 * name-to-slot map; the lemmas below say what that map and rendering promise.
 */
module ParameterBinder {
  import opened Js

  // ---------------------------------------------------------------------------
  // Characters, identifiers and the placeholder regex

  /** `[a-zA-Z_]`: a character that may start a placeholder name. */
  predicate IsIdentStart(c: char) {
    'a' <= c <= 'z' || 'A' <= c <= 'Z' || c == '_'
  }

  /** `[a-zA-Z0-9_]`: a word character, as `\w` and `\b` see it. */
  predicate IsWordChar(c: char) {
    IsIdentStart(c) || '0' <= c <= '9'
  }

  predicate IsIdentifier(s: string) {
    |s| > 0 && IsIdentStart(s[0]) && forall i :: 0 < i < |s| ==> IsWordChar(s[i])
  }

  /** The longest prefix of `s` made of word characters (the greedy `[a-zA-Z0-9_]*`). */
  function WordRun(s: string): (w: string)
    ensures |w| <= |s| && w == s[..|w|]
    ensures forall i :: 0 <= i < |w| ==> IsWordChar(w[i])
    ensures |w| < |s| ==> !IsWordChar(s[|w|])
  {
    if s != [] && IsWordChar(s[0]) then [s[0]] + WordRun(s[1..]) else []
  }

  /** True when some `:` in `s` is directly followed by an identifier start: the regex matches. */
  predicate HasPlaceholder(s: string) {
    exists i :: 0 <= i < |s| - 1 && s[i] == ':' && IsIdentStart(s[i + 1])
  }

  // ---------------------------------------------------------------------------
  // The template as the regex scan sees it

  /** A piece of the template: one plain character, or a `:name` match. */
  datatype Token = Text(c: char) | Param(name: string)

  /**
   * The template split the way `matchAll` scans it: left to right, a `:`
   * followed by an identifier start begins a greedy match, anything else is
   * plain text. The second colon of a `::type` cast therefore starts a match.
   */
  function Tokenize(s: string): (ts: seq<Token>)
    ensures |s| > 0 ==> |ts| > 0 && (ts[0].Text? ==> ts[0].c == s[0])
    decreases |s|
  {
    if s == [] then []
    else if s[0] == ':' && |s| > 1 && IsIdentStart(s[1]) then
      var name := WordRun(s[1..]);
      [Param(name)] + Tokenize(s[1 + |name|..])
    else
      [Text(s[0])] + Tokenize(s[1..])
  }

  /** The names of the matches, in order, repeats included: `matches.map(m => m[1])`. */
  function ParamNames(ts: seq<Token>): (ns: seq<string>)
    ensures forall n :: n in ns <==> Param(n) in ts
  {
    if ts == [] then []
    else (if ts[0].Param? then [ts[0].name] else []) + ParamNames(ts[1..])
  }

  function Matches(sql: string): seq<string> {
    ParamNames(Tokenize(sql))
  }

  /**
   * What the scan guarantees about its tokens: every match name is an
   * identifier not followed by a word character, and a plain `:` is never
   * followed by a plain identifier start.
   */
  predicate WellFormed(ts: seq<Token>) {
    ts == [] ||
    ((match ts[0]
      case Text(c) => c == ':' ==> |ts| == 1 || !(ts[1].Text? && IsIdentStart(ts[1].c))
      case Param(n) => IsIdentifier(n) && (|ts| == 1 || !(ts[1].Text? && IsWordChar(ts[1].c))))
     && WellFormed(ts[1..]))
  }

  lemma {:induction false} TokenizeWellFormed(s: string)
    ensures WellFormed(Tokenize(s))
    decreases |s|
  {
    if s == [] {
    } else if s[0] == ':' && |s| > 1 && IsIdentStart(s[1]) {
      var name := WordRun(s[1..]);
      var rest := s[1 + |name|..];
      var ts := Tokenize(s);
      assert ts == [Param(name)] + Tokenize(rest);
      assert ts[1..] == Tokenize(rest);
      assert name[0] == s[1];
      assert IsIdentifier(name);
      assert rest != [] ==> !IsWordChar(rest[0]) by {
        if rest != [] {
          assert s[1..][|name|] == rest[0];
        }
      }
      TokenizeWellFormed(rest);
    } else {
      var ts := Tokenize(s);
      assert ts == [Text(s[0])] + Tokenize(s[1..]);
      assert ts[1..] == Tokenize(s[1..]);
      TokenizeWellFormed(s[1..]);
    }
  }

  // ---------------------------------------------------------------------------
  // Slots and rendering

  /** What a placeholder name is rewritten to: `$index`, or the wildcard literal `'%'`. */
  datatype Slot = Positional(index: nat) | Wildcard

  function SlotText(sl: Slot): (t: string)
    ensures |t| > 0 && !IsWordChar(t[0]) && t[0] != ':'
    ensures forall i :: 0 <= i < |t| ==> t[i] != ':'
  {
    match sl
    case Positional(i) => "$" + NatToString(i)
    case Wildcard => "'%'"
  }

  /** The template text with each match whose name has a slot rewritten to that slot's text. */
  function Render(ts: seq<Token>, f: map<string, Slot>): string {
    if ts == [] then ""
    else
      (match ts[0]
       case Text(c) => [c]
       case Param(n) => if n in f then SlotText(f[n]) else ":" + n)
      + Render(ts[1..], f)
  }

  lemma {:induction false} RenderText(c: char, ts: seq<Token>, f: map<string, Slot>)
    ensures Render([Text(c)] + ts, f) == [c] + Render(ts, f)
  {
    assert ([Text(c)] + ts)[1..] == ts;
  }

  lemma {:induction false} RenderUnbound(n: string, ts: seq<Token>, f: map<string, Slot>)
    requires n !in f
    ensures Render([Param(n)] + ts, f) == ":" + n + Render(ts, f)
  {
    assert ([Param(n)] + ts)[1..] == ts;
  }

  /** A match splits the template into `:`, the name, and the rest. */
  lemma {:induction false} MatchSplit(s: string)
    requires |s| > 1 && s[0] == ':' && IsIdentStart(s[1])
    ensures var name := WordRun(s[1..]);
      1 + |name| <= |s| && s == ":" + name + s[1 + |name|..]
  {
    var name := WordRun(s[1..]);
    assert s[1..][..|name|] == s[1..1 + |name|];
  }

  /** Rendering with no slots gives back the template: the scan loses nothing. */
  lemma {:induction false} RenderTokenize(s: string)
    ensures Render(Tokenize(s), map[]) == s
    decreases |s|
  {
    if s == [] {
    } else if s[0] == ':' && |s| > 1 && IsIdentStart(s[1]) {
      var name := WordRun(s[1..]);
      MatchSplit(s);
      RenderTokenize(s[1 + |name|..]);
      RenderUnbound(name, Tokenize(s[1 + |name|..]), map[]);
    } else {
      RenderTokenize(s[1..]);
      RenderText(s[0], Tokenize(s[1..]), map[]);
      assert s == [s[0]] + s[1..];
    }
  }

  /** A rendered token list starts with a non-word character whenever it starts with a match. */
  lemma {:induction false} RenderHead(ts: seq<Token>, f: map<string, Slot>)
    requires ts != []
    ensures |Render(ts, f)| > 0
    ensures ts[0].Text? ==> Render(ts, f)[0] == ts[0].c
    ensures ts[0].Param? ==> !IsWordChar(Render(ts, f)[0]) && !IsIdentStart(Render(ts, f)[0])
  {
    var R := Render(ts[1..], f);
    match ts[0]
    case Text(c) =>
      assert Render(ts, f) == [c] + R;
    case Param(n) =>
      if n in f {
        assert Render(ts, f) == SlotText(f[n]) + R;
      } else {
        assert Render(ts, f) == ":" + n + R;
      }
  }

  // ---------------------------------------------------------------------------
  // `processedSql.replace(new RegExp(`:${name}\\b`, 'g'), r)`

  /** `:name\b` matches at the start of `s`. */
  predicate OccursAt(s: string, name: string) {
    1 + |name| <= |s| && s[0] == ':' && s[1..1 + |name|] == name
    && (|s| == 1 + |name| || !IsWordChar(s[1 + |name|]))
  }

  /**
   * Global replacement of `:name\b` by the literal `r`, scanning left to right.
   * (`$1` in a replacement string refers to a capture group; the pattern has
   * none, so JavaScript inserts `$1` literally.)
   */
  function ReplaceWord(s: string, name: string, r: string): string
    decreases |s|
  {
    if s == [] then ""
    else if OccursAt(s, name) then r + ReplaceWord(s[1 + |name|..], name, r)
    else [s[0]] + ReplaceWord(s[1..], name, r)
  }

  /** Text without a colon passes through the replacement untouched. */
  lemma {:induction false} ReplaceWordColonFree(x: string, t: string, name: string, r: string)
    requires forall i :: 0 <= i < |x| ==> x[i] != ':'
    ensures ReplaceWord(x + t, name, r) == x + ReplaceWord(t, name, r)
    decreases |x|
  {
    if x != [] {
      var y := x[1..];
      assert (x + t)[0] == x[0] && (x + t)[1..] == y + t;
      assert !OccursAt(x + t, name);
      forall i | 0 <= i < |y| ensures y[i] != ':' {
        assert y[i] == x[i + 1];
      }
      ReplaceWordColonFree(y, t, name, r);
      assert ReplaceWord(x + t, name, r) == [x[0]] + ReplaceWord(y + t, name, r);
      assert x == [x[0]] + y;
    } else {
      assert x + t == t;
    }
  }

  /** A plain character is copied; a plain `:` cannot start `:n` since no identifier start follows it. */
  lemma {:induction false} ReplaceWordAtText(c: char, R: string, n: string, r: string)
    requires IsIdentifier(n)
    requires c == ':' ==> R == [] || !IsIdentStart(R[0])
    ensures ReplaceWord([c] + R, n, r) == [c] + ReplaceWord(R, n, r)
  {
    var S := [c] + R;
    assert S[1..] == R;
    if c == ':' && 1 + |n| <= |S| {
      assert S[1] == R[0];
      assert S[1..1 + |n|][0] == S[1];
    }
  }

  /** A match of `n` itself is rewritten, because no word character follows it. */
  lemma {:induction false} ReplaceWordAtMatch(R: string, n: string, r: string)
    requires IsIdentifier(n)
    requires R == [] || !IsWordChar(R[0])
    ensures ReplaceWord(":" + n + R, n, r) == r + ReplaceWord(R, n, r)
  {
    var S := ":" + n + R;
    assert S[1..1 + |n|] == n;
    assert |S| > 1 + |n| ==> S[1 + |n|] == R[0];
    assert S[1 + |n|..] == R;
  }

  /** A match of another name is kept whole, even when one name is a prefix of the other. */
  lemma {:induction false} ReplaceWordAtOther(m: string, R: string, n: string, r: string)
    requires IsIdentifier(n) && IsIdentifier(m) && m != n
    requires R == [] || !IsWordChar(R[0])
    ensures ReplaceWord(":" + m + R, n, r) == ":" + m + ReplaceWord(R, n, r)
  {
    var S := ":" + m + R;
    assert S[1..1 + |m|] == m;
    if |n| < |m| {
      assert S[1 + |n|] == m[|n|];
    } else if |n| > |m| && 1 + |n| <= |S| {
      assert S[1 + |m|] == R[0];
      assert S[1..1 + |n|][|m|] == R[0];
    }
    assert !OccursAt(S, n);
    assert S[1..] == m + R;
    ReplaceWordColonFree(m, R, n, r);
  }

  /**
   * Replacing `:n` in a rendering rewrites exactly the matches named `n`:
   * the whole-word regex neither touches a longer name that shares the prefix
   * (binding `:id` leaves `:identifier` alone) nor text produced by earlier
   * replacements. Once `n` has a slot, a further replacement changes nothing.
   */
  lemma {:induction false} ReplaceRender(ts: seq<Token>, f: map<string, Slot>, n: string, sl: Slot)
    requires WellFormed(ts)
    requires IsIdentifier(n)
    ensures ReplaceWord(Render(ts, f), n, SlotText(sl)) == Render(ts, if n in f then f else f[n := sl])
    decreases |ts|
  {
    var f' := if n in f then f else f[n := sl];
    var r := SlotText(sl);
    if ts != [] {
      var rest := ts[1..];
      var R := Render(rest, f);
      ReplaceRender(rest, f, n, sl);
      if rest != [] {
        RenderHead(rest, f);
      }
      match ts[0]
      case Text(c) =>
        ReplaceWordAtText(c, R, n, r);
      case Param(m) =>
        if m in f {
          ReplaceWordColonFree(SlotText(f[m]), R, n, r);
          assert f'[m] == f[m];
        } else if m == n {
          ReplaceWordAtMatch(R, n, r);
        } else {
          ReplaceWordAtOther(m, R, n, r);
        }
    }
  }

  /** A colon that is followed by an identifier start survives only as part of an unbound match. */
  predicate NoPlaceholderLeft(s: string) {
    forall i :: 0 <= i < |s| - 1 && s[i] == ':' ==> !IsIdentStart(s[i + 1])
  }

  lemma {:induction false} RenderBoundHasNoPlaceholder(ts: seq<Token>, f: map<string, Slot>)
    requires WellFormed(ts)
    requires forall n :: n in ParamNames(ts) ==> n in f
    ensures NoPlaceholderLeft(Render(ts, f))
    decreases |ts|
  {
    if ts != [] {
      var rest := ts[1..];
      var R := Render(rest, f);
      var S := Render(ts, f);
      RenderBoundHasNoPlaceholder(rest, f);
      if rest != [] {
        RenderHead(rest, f);
      }
      var head := S[..|S| - |R|];
      assert S == head + R;
      if ts[0].Param? {
        assert ts[0].name in ParamNames(ts);
        assert head == SlotText(f[ts[0].name]);
      } else {
        assert head == [ts[0].c];
      }
      forall i | 0 <= i < |S| - 1 && S[i] == ':' ensures !IsIdentStart(S[i + 1]) {
        if i >= |head| {
          assert S[i] == R[i - |head|] && S[i + 1] == R[i - |head| + 1];
        } else if ts[0] == Text(':') {
          assert S[1] == R[0];
        }
      }
    }
  }

  // ---------------------------------------------------------------------------
  // Distinct names, in order of first appearance

  /** The names with later repeats dropped (what the `processed` set achieves). */
  function Distinct(s: seq<string>): (d: seq<string>)
    ensures forall x :: x in d <==> x in s
    ensures forall i, j :: 0 <= i < j < |d| ==> d[i] != d[j]
  {
    if s == [] then []
    else
      var d := Distinct(s[..|s| - 1]);
      assert forall x :: x in s <==> x in s[..|s| - 1] || x == s[|s| - 1];
      if s[|s| - 1] in d then d else d + [s[|s| - 1]]
  }

  /** Position of the first occurrence of `x` in `s`. */
  function FirstIndex(s: seq<string>, x: string): (k: nat)
    requires x in s
    ensures k < |s| && s[k] == x && forall j :: 0 <= j < k ==> s[j] != x
  {
    if s[0] == x then 0 else 1 + FirstIndex(s[1..], x)
  }

  lemma {:induction false} FirstIndexPrefix(s: seq<string>, n: nat, x: string)
    requires n <= |s| && x in s[..n]
    ensures x in s && FirstIndex(s, x) == FirstIndex(s[..n], x)
  {
    var k := FirstIndex(s[..n], x);
    var k' := FirstIndex(s, x);
    assert s[k] == x;
    assert k' <= k;
    assert s[..n][k'] == x;
  }

  /** Each name is handled once, and the names come in order of their first appearance. */
  lemma {:induction false} DistinctFirstAppearance(s: seq<string>)
    ensures forall i, j :: 0 <= i < j < |Distinct(s)| ==> FirstIndex(s, Distinct(s)[i]) < FirstIndex(s, Distinct(s)[j])
    decreases |s|
  {
    if s != [] {
      var p := s[..|s| - 1];
      var x := s[|s| - 1];
      var d := Distinct(p);
      DistinctFirstAppearance(p);
      forall y | y in d ensures FirstIndex(s, y) == FirstIndex(p, y) {
        FirstIndexPrefix(s, |s| - 1, y);
        assert s[..|s| - 1] == p;
      }
      if x !in d {
        assert FirstIndex(s, x) == |s| - 1;
        forall y | y in d ensures FirstIndex(s, y) < |s| - 1 {
          assert FirstIndex(p, y) < |p|;
        }
      }
    }
  }

  // ---------------------------------------------------------------------------
  // Slot assignment

  /** A filter value is used unless it is `undefined`, `null` or `''`. */
  predicate Supplied(v: Value) {
    v != Undefined && v != Null && v != Str("")
  }

  /** The values bound, one per supplied name, in the order of `ds`. */
  function BoundValues(ds: seq<string>, params: Obj): seq<Value> {
    if ds == [] then []
    else
      var x := ds[|ds| - 1];
      BoundValues(ds[..|ds| - 1], params) + (if Supplied(Get(params, x)) then [Get(params, x)] else [])
  }

  /** The slot of each name of `ds`: the next index for a supplied name, the wildcard otherwise. */
  function Slots(ds: seq<string>, params: Obj): map<string, Slot> {
    if ds == [] then map[]
    else
      var p := ds[..|ds| - 1];
      var x := ds[|ds| - 1];
      Slots(p, params)[x := if Supplied(Get(params, x)) then Positional(|BoundValues(p, params)| + 1) else Wildcard]
  }

  /** Exactly the names of `ds` get a slot. */
  lemma {:induction false} SlotsKeys(ds: seq<string>, params: Obj)
    ensures forall x :: x in Slots(ds, params) <==> x in ds
    decreases |ds|
  {
    if ds != [] {
      var p := ds[..|ds| - 1];
      SlotsKeys(p, params);
      assert ds == p + [ds[|ds| - 1]];
    }
  }

  /** The binder's result, stated on the template as scanned. */
  function Bind(sql: string, params: Obj): (string, seq<Value>) {
    var ds := Distinct(Matches(sql));
    (Render(Tokenize(sql), Slots(ds, params)), BoundValues(ds, params))
  }

  /** Appending one more distinct name extends the values and the slot map by that name only. */
  lemma {:induction false} SlotsExtend(ds: seq<string>, x: string, params: Obj)
    ensures BoundValues(ds + [x], params) ==
      BoundValues(ds, params) + (if Supplied(Get(params, x)) then [Get(params, x)] else [])
    ensures Slots(ds + [x], params) ==
      Slots(ds, params)[x := if Supplied(Get(params, x)) then Positional(|BoundValues(ds, params)| + 1) else Wildcard]
  {
    assert (ds + [x])[..|ds|] == ds;
  }

  /** A name is the wildcard exactly when its value is missing, null or empty. */
  lemma {:induction false} SlotsWildcard(ds: seq<string>, params: Obj)
    ensures forall n :: n in Slots(ds, params) ==> (Slots(ds, params)[n].Wildcard? <==> !Supplied(Get(params, n)))
    decreases |ds|
  {
    if ds != [] {
      SlotsWildcard(ds[..|ds| - 1], params);
    }
  }

  /** A name's positional index lies in 1..|values| and the value there is the name's own. */
  lemma {:induction false} SlotInRange(ds: seq<string>, params: Obj, n: string)
    requires n in Slots(ds, params) && Slots(ds, params)[n].Positional?
    ensures var i, vs := Slots(ds, params)[n].index, BoundValues(ds, params);
      1 <= i <= |vs| && vs[i - 1] == Get(params, n)
    decreases |ds|
  {
    var p := ds[..|ds| - 1];
    var x := ds[|ds| - 1];
    var ws := BoundValues(p, params);
    assert BoundValues(ds, params) == ws + (if Supplied(Get(params, x)) then [Get(params, x)] else []);
    if n != x {
      SlotInRange(p, params, n);
    }
  }

  predicate NoRepeats(ds: seq<string>) {
    forall i, j :: 0 <= i < j < |ds| ==> ds[i] != ds[j]
  }

  lemma {:induction false} LastNotInPrefix(ds: seq<string>)
    requires ds != [] && NoRepeats(ds)
    ensures ds[|ds| - 1] !in ds[..|ds| - 1]
  {
    var p := ds[..|ds| - 1];
    forall i | 0 <= i < |p| ensures p[i] != ds[|ds| - 1] {
      assert p[i] == ds[i];
    }
  }

  /** Every index in 1..|values| is the slot of some name; `n` is that name. */
  lemma {:induction false} SlotOwner(ds: seq<string>, params: Obj, i: nat) returns (n: string)
    requires NoRepeats(ds)
    requires 1 <= i <= |BoundValues(ds, params)|
    ensures n in Slots(ds, params) && Slots(ds, params)[n] == Positional(i)
    decreases |ds|
  {
    var p := ds[..|ds| - 1];
    var x := ds[|ds| - 1];
    var ws := BoundValues(p, params);
    assert BoundValues(ds, params) == ws + (if Supplied(Get(params, x)) then [Get(params, x)] else []);
    if i == |ws| + 1 {
      n := x;
    } else {
      LastNotInPrefix(ds);
      SlotsKeys(p, params);
      n := SlotOwner(p, params, i);
      assert n != x;
    }
  }

  /** No two names share a positional index. */
  lemma {:induction false} SlotsInjective(ds: seq<string>, params: Obj, n: string, m: string)
    requires n in Slots(ds, params) && m in Slots(ds, params) && n != m
    requires Slots(ds, params)[n].Positional?
    ensures Slots(ds, params)[n] != Slots(ds, params)[m]
    decreases |ds|
  {
    var p := ds[..|ds| - 1];
    var x := ds[|ds| - 1];
    var g, f := Slots(p, params), Slots(ds, params);
    var ws := BoundValues(p, params);
    assert f == g[x := if Supplied(Get(params, x)) then Positional(|ws| + 1) else Wildcard];
    if n != x && m != x {
      SlotsInjective(p, params, n, m);
    } else if n != x {
      SlotInRange(p, params, n);
    } else if g[m].Positional? {
      SlotInRange(p, params, m);
    }
  }

  /** The slot of the k-th distinct name: its index counts the supplied names before it. */
  lemma {:induction false} SlotsAt(ds: seq<string>, params: Obj, k: nat)
    requires NoRepeats(ds)
    requires k < |ds|
    ensures ds[k] in Slots(ds, params)
    ensures Slots(ds, params)[ds[k]] ==
      if Supplied(Get(params, ds[k])) then Positional(|BoundValues(ds[..k], params)| + 1) else Wildcard
    decreases |ds|
  {
    var p := ds[..|ds| - 1];
    if k < |ds| - 1 {
      SlotsAt(p, params, k);
      assert p[..k] == ds[..k];
      assert ds[k] != ds[|ds| - 1];
    } else {
      assert p == ds[..k];
    }
  }

  lemma {:induction false} BoundValuesGrow(ds: seq<string>, params: Obj, j: nat, k: nat)
    requires j <= k <= |ds|
    ensures |BoundValues(ds[..j], params)| <= |BoundValues(ds[..k], params)|
    decreases k - j
  {
    if j < k {
      BoundValuesGrow(ds, params, j, k - 1);
      BoundValuesPrefixStep(ds, params, k - 1);
    }
  }

  /** Extending a prefix by one name adds that name's value when it is supplied. */
  lemma {:induction false} BoundValuesPrefixStep(ds: seq<string>, params: Obj, j: nat)
    requires j < |ds|
    ensures |BoundValues(ds[..j + 1], params)| == |BoundValues(ds[..j], params)| + (if Supplied(Get(params, ds[j])) then 1 else 0)
  {
    assert ds[..j + 1][..j] == ds[..j];
    assert ds[..j + 1][j] == ds[j];
  }

  /** Earlier names get smaller indices, so `values` follows the order of first appearance. */
  lemma {:induction false} SlotsOrdered(ds: seq<string>, params: Obj, j: nat, k: nat)
    requires NoRepeats(ds)
    requires j < k < |ds|
    requires Supplied(Get(params, ds[j])) && Supplied(Get(params, ds[k]))
    ensures var f := Slots(ds, params);
      ds[j] in f && ds[k] in f && f[ds[j]].Positional? && f[ds[k]].Positional? && f[ds[j]].index < f[ds[k]].index
  {
    SlotsAt(ds, params, j);
    SlotsAt(ds, params, k);
    BoundValuesPrefixStep(ds, params, j);
    BoundValuesGrow(ds, params, j + 1, k);
  }

  // ---------------------------------------------------------------------------
  // Properties of the binder's result

  /**
   * The indices used are exactly 1..|values|: each names one distinct
   * placeholder, whose value sits at that position, and every placeholder
   * whose value is missing, null or empty is the wildcard instead.
   */
  lemma {:induction false} BindIndices(sql: string, params: Obj)
    ensures var f, vs := Slots(Distinct(Matches(sql)), params), Bind(sql, params).1;
      && (forall n :: n in f <==> n in Matches(sql))
      && (forall n :: n in f ==> (f[n].Wildcard? <==> !Supplied(Get(params, n))))
      && (forall i :: 1 <= i <= |vs| ==> exists n :: n in f && f[n] == Positional(i))
      && (forall n, m :: n in f && m in f && f[n].Positional? && n != m ==> f[n] != f[m])
  {
    var ds := Distinct(Matches(sql));
    var f, vs := Slots(ds, params), BoundValues(ds, params);
    SlotsKeys(ds, params);
    SlotsWildcard(ds, params);
    forall i | 1 <= i <= |vs| ensures exists n :: n in f && f[n] == Positional(i) {
      var n := SlotOwner(ds, params, i);
    }
    forall n, m | n in f && m in f && f[n].Positional? && n != m ensures f[n] != f[m] {
      SlotsInjective(ds, params, n, m);
    }
  }

  /** Each positional index is in 1..|values|, and the value there is the one supplied for its name. */
  lemma {:induction false} BindValuesAligned(sql: string, params: Obj, n: string)
    requires var f := Slots(Distinct(Matches(sql)), params); n in f && f[n].Positional?
    ensures var i, vs := Slots(Distinct(Matches(sql)), params)[n].index, Bind(sql, params).1;
      1 <= i <= |vs| && vs[i - 1] == Get(params, n)
  {
    SlotInRange(Distinct(Matches(sql)), params, n);
  }

  /**
   * After binding, no placeholder is left: every `:` in the query is followed
   * by something other than an identifier start.
   */
  lemma {:induction false} BindLeavesNoPlaceholder(sql: string, params: Obj)
    ensures NoPlaceholderLeft(Bind(sql, params).0)
  {
    TokenizeWellFormed(sql);
    SlotsKeys(Distinct(Matches(sql)), params);
    RenderBoundHasNoPlaceholder(Tokenize(sql), Slots(Distinct(Matches(sql)), params));
  }

  lemma {:induction false} NoMatchesWithoutPlaceholder(s: string)
    requires !HasPlaceholder(s)
    ensures Matches(s) == []
    decreases |s|
  {
    if s != [] {
      var t := s[1..];
      forall i | 0 <= i < |t| - 1 ensures !(t[i] == ':' && IsIdentStart(t[i + 1])) {
        assert t[i] == s[i + 1] && t[i + 1] == s[i + 2];
      }
      NoMatchesWithoutPlaceholder(t);
    }
  }

  /** A template without any `:identifier` comes back unchanged, with no values. */
  lemma {:induction false} BindWithoutPlaceholders(sql: string, params: Obj)
    requires !HasPlaceholder(sql)
    ensures Bind(sql, params) == (sql, [])
  {
    NoMatchesWithoutPlaceholder(sql);
    RenderTokenize(sql);
  }

  /** The second colon of a `::type` cast starts a placeholder. */
  lemma {:induction false} CastColonIsPlaceholder()
    ensures Tokenize("x::int") == [Text('x'), Text(':'), Param("int")]
  {
    var s := "x::int";
    assert s[1..] == "::int" && s[2..] == ":int";
    TypeNameIsParam();
    assert Tokenize("::int") == [Text(':')] + Tokenize(":int");
    assert Tokenize(s) == [Text('x')] + Tokenize("::int");
  }

  /** `:int` on its own is one placeholder named `int`. */
  lemma {:induction false} TypeNameIsParam()
    ensures Tokenize(":int") == [Param("int")]
  {
    var t := ":int";
    assert t[1..] == "int" && t[4..] == "";
    assert WordRun("int") == "int" by {
      assert "int"[1..] == "nt" && "nt"[1..] == "t" && "t"[1..] == "";
    }
    assert Tokenize(t) == [Param("int")] + Tokenize("");
  }

  // ---------------------------------------------------------------------------
  // The source's loop

  /** One step of the scan: a repeated name leaves the distinct list as it is, a new one is appended. */
  lemma {:induction false} DistinctStep(ms: seq<string>, k: nat, ds: seq<string>)
    requires k < |ms| && DistinctPrefix(ms, k, ds)
    ensures ms[k] in ds ==> DistinctPrefix(ms, k + 1, ds)
    ensures ms[k] !in ds ==> DistinctPrefix(ms, k + 1, ds + [ms[k]])
  {
    assert ms[..k + 1][..k] == ms[..k];
  }

  /** `ds` lists the distinct names among the first `k` matches. */
  ghost predicate DistinctPrefix(ms: seq<string>, k: nat, ds: seq<string>) {
    k <= |ms| && ds == Distinct(ms[..k])
  }

  /** The query and the values once the names of `ds` have been handled. */
  ghost predicate BoundSoFar(toks: seq<Token>, ds: seq<string>, params: Obj, q: string, vs: seq<Value>) {
    q == Render(toks, Slots(ds, params)) && vs == BoundValues(ds, params)
  }

  /**
   * Handling a name not seen before: its supplied value is appended and its
   * matches become the next `$N`, or its matches become the wildcard.
   */
  lemma {:induction false} BindStep(toks: seq<Token>, ds: seq<string>, x: string, params: Obj, vs: seq<Value>, q: string)
    requires WellFormed(toks) && x in ParamNames(toks) && x !in ds
    requires BoundSoFar(toks, ds, params, q, vs)
    ensures Supplied(Get(params, x)) ==>
      BoundSoFar(toks, ds + [x], params, ReplaceWord(q, x, "$" + NatToString(|vs| + 1)), vs + [Get(params, x)])
    ensures !Supplied(Get(params, x)) ==>
      BoundSoFar(toks, ds + [x], params, ReplaceWord(q, x, "'%'"), vs)
  {
    SlotsExtend(ds, x, params);
    SlotsKeys(ds, params);
    ParamsAreIdentifiers(toks, x);
    var v := Get(params, x);
    ReplaceRender(toks, Slots(ds, params), x, if Supplied(v) then Positional(|vs| + 1) else Wildcard);
  }

  method SubstituteParameters(sql: string, params: Obj) returns (query: string, values: seq<Value>)
    ensures (query, values) == Bind(sql, params)
  {
    values := [];
    var paramIndex := 1;
    var processedSql := sql;
    var matches := Matches(sql);
    var processed: set<string> := {};
    ghost var toks := Tokenize(sql);
    ghost var ds: seq<string> := [];
    BindStart(sql, params);
    for k := 0 to |matches|
      invariant DistinctPrefix(matches, k, ds)
      invariant SameNames(processed, ds)
      invariant paramIndex == |values| + 1
      invariant BoundSoFar(toks, ds, params, processedSql, values)
    {
      var paramName := matches[k];
      if paramName in processed {
        DistinctStep(matches, k, ds);
        continue;
      }
      DistinctStep(matches, k, ds);
      BindStep(toks, ds, paramName, params, values, processedSql);
      SameNamesAdd(processed, ds, paramName);
      processed := processed + {paramName};
      var paramValue := Get(params, paramName);
      if Supplied(paramValue) {
        processedSql := ReplaceWord(processedSql, paramName, "$" + NatToString(paramIndex));
        values := values + [paramValue];
        paramIndex := paramIndex + 1;
      } else {
        processedSql := ReplaceWord(processedSql, paramName, "'%'");
      }
      ds := ds + [paramName];
    }
    BindFinish(sql, params, ds, processedSql, values);
    query := processedSql;
  }

  /** The set of names handled so far holds exactly the names of `ds`. */
  ghost predicate SameNames(processed: set<string>, ds: seq<string>) {
    forall n :: n in processed <==> n in ds
  }

  lemma {:induction false} SameNamesAdd(processed: set<string>, ds: seq<string>, x: string)
    requires SameNames(processed, ds)
    ensures SameNames(processed + {x}, ds + [x])
  {
  }

  /** Before the loop: the tokens are well formed, no name is handled and the query is the template. */
  lemma {:induction false} BindStart(sql: string, params: Obj)
    ensures WellFormed(Tokenize(sql)) && Matches(sql) == ParamNames(Tokenize(sql))
    ensures DistinctPrefix(Matches(sql), 0, [])
    ensures BoundSoFar(Tokenize(sql), [], params, sql, [])
  {
    TokenizeWellFormed(sql);
    RenderTokenize(sql);
    assert Matches(sql)[..0] == [];
  }

  /** After the loop: every match has been scanned, so the result is the reference binding. */
  lemma {:induction false} BindFinish(sql: string, params: Obj, ds: seq<string>, q: string, vs: seq<Value>)
    requires DistinctPrefix(Matches(sql), |Matches(sql)|, ds)
    requires BoundSoFar(Tokenize(sql), ds, params, q, vs)
    ensures (q, vs) == Bind(sql, params)
  {
    assert Matches(sql)[..|Matches(sql)|] == Matches(sql);
  }

  lemma {:induction false} ParamsAreIdentifiers(ts: seq<Token>, n: string)
    requires WellFormed(ts)
    requires n in ParamNames(ts)
    ensures IsIdentifier(n)
    decreases |ts|
  {
    if ts[0] != Param(n) {
      assert n in ParamNames(ts[1..]);
      ParamsAreIdentifiers(ts[1..], n);
    }
  }
}
