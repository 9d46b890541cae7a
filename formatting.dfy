/**
 * Conditional cell formatting shared by the rowset table and the pivot table:
 * a rule names a column, a comparison and a threshold, and a cell whose value
 * satisfies the first rule for its column is painted with the rule's colours.
 */
module Formatting {
  import opened Wrappers
  import opened Js

  /** The rule's `operator`; any string other than the four known ones is `Unknown`. */
  datatype Operator = Greater | Less | Equals | Between | Unknown

  /** The rule's `value`: a number or an array of numbers. */
  datatype RuleValue = Scalar(t: real) | List(ts: seq<real>)

  datatype Rule = Rule(column: string, op: Operator, value: RuleValue, bgColor: string, textColor: string)

  /**
   * The number a threshold becomes when compared with `>` or `<`: an array is
   * converted through its string form, so `[]` is 0, `[t]` is `t` and a longer
   * array is NaN (`None`).
   */
  function AsNumber(v: RuleValue): (r: Option<real>)
    ensures v.Scalar? ==> r == Some(v.t)
    ensures v.List? && |v.ts| >= 2 ==> r == None
  {
    match v
    case Scalar(t) => Some(t)
    case List(ts) => if ts == [] then Some(0.0) else if |ts| == 1 then Some(ts[0]) else None
  }

  /**
   * `shouldApplyRule`: `x` is the cell value already converted to a number,
   * `None` standing for NaN. Comparisons are strict, `equals` is `===` (never
   * true against an array) and `between` is inclusive on a two-element array.
   */
  function ShouldApplyRule(x: Option<real>, rule: Rule): (b: bool)
    ensures b ==> x.Some? && !rule.op.Unknown?
  {
    match x
    case None => false
    case Some(n) =>
      match rule.op
      case Greater => (match AsNumber(rule.value) case Some(t) => n > t case None => false)
      case Less => (match AsNumber(rule.value) case Some(t) => n < t case None => false)
      case Equals => (match rule.value case Scalar(t) => n == t case List(_) => false)
      case Between =>
        (match rule.value
         case List(ts) => |ts| == 2 && ts[0] <= n && n <= ts[1]
         case Scalar(_) => false)
      case Unknown => false
  }

  /** A non-numeric value never triggers a rule, and an unknown operator never does. */
  lemma {:induction false} NeverAppliesToNaN(rule: Rule, x: Option<real>)
    ensures x == None ==> !ShouldApplyRule(x, rule)
    ensures rule.op == Unknown ==> !ShouldApplyRule(x, rule)
  {
  }

  /** Against a numeric threshold, exactly one of greater, less and equals applies. */
  lemma {:induction false} ScalarTrichotomy(n: real, t: real, column: string, bg: string, fg: string)
    ensures var g := ShouldApplyRule(Some(n), Rule(column, Greater, Scalar(t), bg, fg));
            var l := ShouldApplyRule(Some(n), Rule(column, Less, Scalar(t), bg, fg));
            var e := ShouldApplyRule(Some(n), Rule(column, Equals, Scalar(t), bg, fg));
            (g || l || e) && !(g && l) && !(g && e) && !(l && e)
  {
  }

  /** `between [lo, hi]` holds exactly when the value is neither below `lo` nor above `hi`. */
  lemma {:induction false} BetweenIsClosedInterval(n: real, lo: real, hi: real, column: string, bg: string, fg: string)
    ensures ShouldApplyRule(Some(n), Rule(column, Between, List([lo, hi]), bg, fg))
        <==> !ShouldApplyRule(Some(n), Rule(column, Less, Scalar(lo), bg, fg))
             && !ShouldApplyRule(Some(n), Rule(column, Greater, Scalar(hi), bg, fg))
  {
  }

  /** `between` with anything but a two-element array, or `equals` with an array, never applies. */
  lemma {:induction false} MalformedThresholds(x: Option<real>, rule: Rule)
    ensures rule.op == Between && !(rule.value.List? && |rule.value.ts| == 2) ==> !ShouldApplyRule(x, rule)
    ensures rule.op == Equals && rule.value.List? ==> !ShouldApplyRule(x, rule)
    ensures rule.op in {Greater, Less} && rule.value.List? && |rule.value.ts| >= 2 ==> !ShouldApplyRule(x, rule)
  {
  }

  /** `rules.find(r => r.column === column)`. */
  function FindRule(rules: seq<Rule>, column: string): (r: Option<Rule>)
    ensures r.Some? ==> r.value in rules && r.value.column == column
    ensures r.None? <==> forall i :: 0 <= i < |rules| ==> rules[i].column != column
  {
    if rules == [] then None
    else if rules[0].column == column then Some(rules[0])
    else FindRule(rules[1..], column)
  }

  /** The rule found is the first one for the column: every earlier rule names another column. */
  lemma {:induction false} FindRuleIsFirst(rules: seq<Rule>, column: string, i: nat)
    requires i < |rules| && rules[i].column == column
    requires forall j :: 0 <= j < i ==> rules[j].column != column
    ensures FindRule(rules, column) == Some(rules[i])
  {
    if i > 0 {
      assert rules[0].column != column;
      forall j | 0 <= j < i - 1 ensures rules[1..][j].column != column {
        assert rules[1..][j] == rules[j + 1];
      }
      FindRuleIsFirst(rules[1..], column, i - 1);
    }
  }

  /**
   * `Number(v)` as the rowset table converts a cell: `null` and `false` are 0,
   * `true` is 1, `undefined` is NaN, and a string goes through `numberParse`,
   * except that the empty string is 0.
   */
  function TableNumber(v: Value, numberParse: string -> Option<real>): Option<real> {
    match v
    case Undefined => None
    case Null => Some(0.0)
    case Bool(b) => Some(if b then 1.0 else 0.0)
    case Num(n) => Some(n as real)
    case Str(s) => if s == "" then Some(0.0) else numberParse(s)
  }

  /**
   * The pivot table's conversion: numbers as they are, strings through
   * `floatParse` (the empty string has no numeric prefix, so it is NaN), and
   * everything else NaN.
   */
  function PivotNumber(v: Value, floatParse: string -> Option<real>): Option<real> {
    match v
    case Num(n) => Some(n as real)
    case Str(s) => if s == "" then None else floatParse(s)
    case _ => None
  }

  /**
   * The two conversions agree on numbers and on `undefined`; they differ on
   * `null`, on booleans and on the empty string, which only `Number` reads as
   * a number; other strings go through two different parsers.
   */
  lemma {:induction false} NumberConversions(v: Value, numberParse: string -> Option<real>, floatParse: string -> Option<real>)
    ensures v.Num? ==> TableNumber(v, numberParse) == PivotNumber(v, floatParse) == Some(v.n as real)
    ensures v.Undefined? ==> TableNumber(v, numberParse) == PivotNumber(v, floatParse) == None
    ensures v.Null? || v == Str("") ==> TableNumber(v, numberParse) == Some(0.0) && PivotNumber(v, floatParse) == None
    ensures v.Bool? ==> TableNumber(v, numberParse).Some? && PivotNumber(v, floatParse) == None
    ensures v.Str? && v.s != "" ==> TableNumber(v, numberParse) == numberParse(v.s) && PivotNumber(v, floatParse) == floatParse(v.s)
  {
  }

  /**
   * Consequence: an empty cell under a `less than t` rule with positive `t` is
   * painted by the table and left plain by the pivot.
   */
  lemma {:induction false} EmptyCellColouredOnlyByTable(t: real, column: string, bg: string, fg: string,
                                     numberParse: string -> Option<real>, floatParse: string -> Option<real>)
    requires t > 0.0
    ensures var rule := Rule(column, Less, Scalar(t), bg, fg);
            ShouldApplyRule(TableNumber(Str(""), numberParse), rule)
            && !ShouldApplyRule(PivotNumber(Str(""), floatParse), rule)
  {
  }

  /** The table cell's style object: `{padding: "8px"}`, painted in place when the first rule applies. */
  function TableCellStyle(v: Value, rules: seq<Rule>, column: string, numberParse: string -> Option<real>): Obj {
    var style := [("padding", Str("8px"))];
    if |rules| > 0 then
      match FindRule(rules, column)
      case Some(rule) =>
        if ShouldApplyRule(TableNumber(v, numberParse), rule) then
          Put(Put(Put(style, "backgroundColor", Str(rule.bgColor)), "color", Str(rule.textColor)), "fontWeight", Str("500"))
        else style
      case None => style
    else style
  }

  /** `getCellStyle`: the base style, or a copy of it with the first rule's colours spread over it. */
  function PivotCellStyle(column: string, v: Value, base: Obj, rules: seq<Rule>, floatParse: string -> Option<real>): Obj {
    if |rules| == 0 then base
    else
      match FindRule(rules, column)
      case Some(rule) =>
        if ShouldApplyRule(PivotNumber(v, floatParse), rule) then
          Spread(base, [("backgroundColor", Str(rule.bgColor)), ("color", Str(rule.textColor)), ("fontWeight", Num(500))])
        else base
      case None => base
  }

  /** The pivot's painted style carries the rule's colours and weight 500 and keeps every other base property. */
  lemma {:induction false} PivotCellStyleSpec(column: string, v: Value, base: Obj, rules: seq<Rule>, floatParse: string -> Option<real>)
    ensures var style := PivotCellStyle(column, v, base, rules, floatParse);
            match FindRule(rules, column)
            case None => style == base
            case Some(rule) =>
              if ShouldApplyRule(PivotNumber(v, floatParse), rule) then
                Get(style, "backgroundColor") == Str(rule.bgColor)
                && Get(style, "color") == Str(rule.textColor)
                && Get(style, "fontWeight") == Num(500)
                && forall k :: k != "backgroundColor" && k != "color" && k != "fontWeight" ==> Get(style, k) == Get(base, k)
              else style == base
  {
    match FindRule(rules, column)
    case None =>
    case Some(rule) =>
      if ShouldApplyRule(PivotNumber(v, floatParse), rule) {
        var paint := [("backgroundColor", Str(rule.bgColor)), ("color", Str(rule.textColor)), ("fontWeight", Num(500))];
        assert Keys(paint) == ["backgroundColor", "color", "fontWeight"];
        assert UniqueKeys(paint);
        GetAt(paint, 0);
        GetAt(paint, 1);
        GetAt(paint, 2);
        forall k ensures Get(Spread(base, paint), k) == if HasKey(paint, k) then Get(paint, k) else Get(base, k) {
          SpreadGet(base, paint, k);
        }
      }
  }

  /** The table's painted style carries the rule's colours and weight "500" over the padding. */
  lemma {:induction false} TableCellStyleSpec(v: Value, rules: seq<Rule>, column: string, numberParse: string -> Option<real>)
    ensures var style := TableCellStyle(v, rules, column, numberParse);
            Get(style, "padding") == Str("8px")
            && match FindRule(rules, column)
               case None => style == [("padding", Str("8px"))]
               case Some(rule) =>
                 if ShouldApplyRule(TableNumber(v, numberParse), rule) then
                   Keys(style) == ["padding", "backgroundColor", "color", "fontWeight"]
                   && Get(style, "backgroundColor") == Str(rule.bgColor)
                   && Get(style, "color") == Str(rule.textColor)
                   && Get(style, "fontWeight") == Str("500")
                 else style == [("padding", Str("8px"))]
  {
    match FindRule(rules, column)
    case None =>
    case Some(rule) =>
      var pad := [("padding", Str("8px"))];
      var bg := ("backgroundColor", Str(rule.bgColor));
      var fg := ("color", Str(rule.textColor));
      var w := ("fontWeight", Str("500"));
      var s := [pad[0], bg, fg, w];
      assert Keys(pad) == ["padding"];
      PutNew(pad, bg.0, bg.1);
      assert Keys(pad + [bg]) == ["padding", "backgroundColor"];
      PutNew(pad + [bg], fg.0, fg.1);
      assert Keys(pad + [bg] + [fg]) == ["padding", "backgroundColor", "color"];
      PutNew(pad + [bg] + [fg], w.0, w.1);
      assert pad + [bg] + [fg] + [w] == s;
      assert Keys(s) == ["padding", "backgroundColor", "color", "fontWeight"];
      assert UniqueKeys(s);
      GetAt(s, 0);
      GetAt(s, 1);
      GetAt(s, 2);
      GetAt(s, 3);
  }
}
