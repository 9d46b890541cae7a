/**
 * The slice of JavaScript's value model that the dashboard's logic relies on:
 * JSON-like values, plain objects as ordered association lists (the order of
 * `Object.keys`, taken to be insertion order: JavaScript's rule that array-index
 * keys such as "0" or "2024" come first is not modelled), truthiness, property
 * assignment, object spread and `String(v)` for integers.
 */
module Js {

  /** A JSON-like value. Numbers are modelled as integers (see README, Left out). */
  datatype Value = Undefined | Null | Bool(b: bool) | Num(n: int) | Str(s: string)

  /** A plain object: its own enumerable properties, in the order they were added. */
  type Obj = seq<(string, Value)>

  /** `Object.keys(o)`. */
  function Keys(o: Obj): (ks: seq<string>)
    ensures |ks| == |o|
  {
    seq(|o|, i requires 0 <= i < |o| => o[i].0)
  }

  predicate HasKey(o: Obj, k: string) {
    k in Keys(o)
  }

  /** No property name occurs twice (true of every object JavaScript builds). */
  predicate UniqueKeys(o: Obj) {
    forall i, j :: 0 <= i < j < |o| ==> o[i].0 != o[j].0
  }

  lemma {:induction false} UniqueCons(x: (string, Value), o: Obj)
    ensures UniqueKeys([x] + o) <==> x.0 !in Keys(o) && UniqueKeys(o)
  {
    var xo := [x] + o;
    if UniqueKeys(xo) {
      forall i, j | 0 <= i < j < |o| ensures o[i].0 != o[j].0 {
        assert o[i] == xo[i + 1] && o[j] == xo[j + 1];
      }
      forall i | 0 <= i < |o| ensures Keys(o)[i] != x.0 {
        assert xo[0] == x && o[i] == xo[i + 1];
      }
    }
    if x.0 !in Keys(o) && UniqueKeys(o) {
      forall i, j | 0 <= i < j < |xo| ensures xo[i].0 != xo[j].0 {
        if i == 0 {
          assert xo[j].0 == Keys(o)[j - 1];
        } else {
          assert xo[i] == o[i - 1] && xo[j] == o[j - 1];
        }
      }
    }
  }

  /** `o[k]`: the value stored under `k`, or `undefined` when there is none. */
  function Get(o: Obj, k: string): (v: Value)
    ensures !HasKey(o, k) ==> v == Undefined
  {
    if o == [] then Undefined
    else if o[0].0 == k then assert Keys(o)[0] == k; o[0].1
    else
      assert Keys(o) == [o[0].0] + Keys(o[1..]);
      Get(o[1..], k)
  }

  /** `o[k] = v`: overwrites the property in place when present, appends it otherwise. */
  function Put(o: Obj, k: string, v: Value): (r: Obj)
    ensures |r| == if HasKey(o, k) then |o| else |o| + 1
  {
    if o == [] then [(k, v)]
    else if o[0].0 == k then assert Keys(o)[0] == k; [(k, v)] + o[1..]
    else
      assert Keys(o) == [o[0].0] + Keys(o[1..]);
      [o[0]] + Put(o[1..], k, v)
  }

  lemma {:induction false} KeysCons(o: Obj)
    requires o != []
    ensures Keys(o) == [o[0].0] + Keys(o[1..])
  {
  }

  /** `o[k] = v` keeps the keys and their order, appending `k` when it is new. */
  lemma {:induction false} PutKeys(o: Obj, k: string, v: Value)
    ensures Keys(Put(o, k, v)) == if HasKey(o, k) then Keys(o) else Keys(o) + [k]
  {
    if o != [] {
      KeysCons(o);
      var r := Put(o, k, v);
      KeysCons(r);
      if o[0].0 == k {
        assert r[1..] == o[1..];
      } else {
        PutKeys(o[1..], k, v);
        assert r[1..] == Put(o[1..], k, v);
      }
    }
  }

  /** After `o[k] = v`, `k` reads `v` and every other key reads as before. */
  lemma {:induction false} PutGet(o: Obj, k: string, v: Value, j: string)
    ensures Get(Put(o, k, v), j) == if j == k then v else Get(o, j)
  {
    if o != [] && o[0].0 != k {
      PutGet(o[1..], k, v, j);
      assert Put(o, k, v)[1..] == Put(o[1..], k, v);
    }
  }

  /** `o[k] = v` never introduces a duplicate key. */
  lemma {:induction false} PutUnique(o: Obj, k: string, v: Value)
    requires UniqueKeys(o)
    ensures UniqueKeys(Put(o, k, v))
  {
    if o != [] {
      var r := Put(o, k, v);
      UniqueCons(o[0], o[1..]);
      assert o == [o[0]] + o[1..];
      if o[0].0 == k {
        assert r == [(k, v)] + o[1..];
        UniqueCons((k, v), o[1..]);
      } else {
        PutUnique(o[1..], k, v);
        PutKeys(o[1..], k, v);
        KeysCons(o);
        assert r == [o[0]] + Put(o[1..], k, v);
        UniqueCons(o[0], Put(o[1..], k, v));
      }
    }
  }

  /** Assigning a new key appends the property at the end. */
  lemma {:induction false} PutNew(o: Obj, k: string, v: Value)
    requires !HasKey(o, k)
    ensures Put(o, k, v) == o + [(k, v)]
  {
    if o != [] {
      KeysCons(o);
      PutNew(o[1..], k, v);
      assert o == [o[0]] + o[1..];
    }
  }

  /** In an object without duplicate keys, the `i`-th property's name reads its value. */
  lemma {:induction false} GetAt(o: Obj, i: nat)
    requires UniqueKeys(o) && i < |o|
    ensures Get(o, o[i].0) == o[i].1
  {
    if i > 0 {
      assert o[0].0 != o[i].0;
      UniqueCons(o[0], o[1..]);
      assert o == [o[0]] + o[1..];
      GetAt(o[1..], i - 1);
    }
  }

  /** The three facts about `o[k] = v` together. */
  lemma {:induction false} PutSpec(o: Obj, k: string, v: Value)
    ensures Keys(Put(o, k, v)) == if HasKey(o, k) then Keys(o) else Keys(o) + [k]
    ensures Get(Put(o, k, v), k) == v
    ensures forall j :: j != k ==> Get(Put(o, k, v), j) == Get(o, j)
    ensures UniqueKeys(o) ==> UniqueKeys(Put(o, k, v))
  {
    PutKeys(o, k, v);
    PutGet(o, k, v, k);
    forall j | j != k ensures Get(Put(o, k, v), j) == Get(o, j) {
      PutGet(o, k, v, j);
    }
    if UniqueKeys(o) {
      PutUnique(o, k, v);
    }
  }

  /** `{...a, ...b}`: the properties of `b` assigned, in order, onto a copy of `a`. */
  function Spread(a: Obj, b: Obj): Obj
    decreases |b|
  {
    if b == [] then a else Spread(Put(a, b[0].0, b[0].1), b[1..])
  }

  /** A property of the spread is read from `b` when `b` has it and from `a` otherwise. */
  lemma {:induction false} SpreadGet(a: Obj, b: Obj, k: string)
    requires UniqueKeys(b)
    ensures Get(Spread(a, b), k) == if HasKey(b, k) then Get(b, k) else Get(a, k)
    decreases |b|
  {
    if b != [] {
      var a' := Put(a, b[0].0, b[0].1);
      PutGet(a, b[0].0, b[0].1, k);
      KeysCons(b);
      assert b == [b[0]] + b[1..];
      UniqueCons(b[0], b[1..]);
      SpreadGet(a', b[1..], k);
    }
  }

  /** The spread keeps the keys of `a` in their order and adds those of `b` it lacks, at the end. */
  lemma {:induction false} SpreadKeys(a: Obj, b: Obj)
    ensures Keys(a) <= Keys(Spread(a, b))
    ensures forall k :: HasKey(Spread(a, b), k) <==> HasKey(a, k) || HasKey(b, k)
    decreases |b|
  {
    if b != [] {
      var a' := Put(a, b[0].0, b[0].1);
      PutKeys(a, b[0].0, b[0].1);
      KeysCons(b);
      SpreadKeys(a', b[1..]);
    }
  }

  /** JavaScript truthiness (numbers are integers here, so NaN does not arise). */
  predicate Truthy(v: Value) {
    match v
    case Undefined => false
    case Null => false
    case Bool(b) => b
    case Num(n) => n != 0
    case Str(s) => s != ""
  }

  function DigitChar(d: nat): (c: char)
    requires d < 10
    ensures '0' <= c <= '9'
  {
    "0123456789"[d]
  }

  /** Decimal notation of a natural number, as `String(n)` prints it. */
  function NatToString(n: nat): (s: string)
    ensures |s| > 0
    ensures forall i :: 0 <= i < |s| ==> '0' <= s[i] <= '9'
  {
    if n < 10 then [DigitChar(n)] else NatToString(n / 10) + [DigitChar(n % 10)]
  }

  function IntToString(n: int): string {
    if n < 0 then "-" + NatToString(-n) else NatToString(n)
  }

  /** `String(v)`. */
  function ToString(v: Value): string {
    match v
    case Undefined => "undefined"
    case Null => "null"
    case Bool(b) => if b then "true" else "false"
    case Num(n) => IntToString(n)
    case Str(s) => s
  }

  /** `parts.join(sep)`. */
  function Join(parts: seq<string>, sep: string): string {
    if parts == [] then ""
    else if |parts| == 1 then parts[0]
    else parts[0] + sep + Join(parts[1..], sep)
  }
}
