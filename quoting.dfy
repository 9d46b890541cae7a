/**
 * Quoted text in the style SQL string literals and CSV fields share: inside
 * the quotes every quote character of the text is written twice, and a
 * single quote character closes the text.
 */
module Quoting {
  import opened Wrappers

  /** `s.replace(/q/g, qq)`: every `q` in `s` written twice. */
  function Doubled(s: string, q: char): (r: string)
    ensures |r| >= |s|
  {
    if s == [] then ""
    else (if s[0] == q then [q, q] else [s[0]]) + Doubled(s[1..], q)
  }

  /**
   * Reads quoted text whose opening quote has been consumed: `qq` stands for
   * one `q` and a lone `q` closes the text. Gives the text and what follows
   * the closing quote, or nothing when the quote is never closed.
   */
  function ReadDoubled(t: string, q: char): (r: Option<(string, string)>)
    ensures r.Some? ==> |r.value.1| < |t|
    decreases |t|
  {
    if t == [] then None
    else if t[0] == q then
      if |t| > 1 && t[1] == q then
        match ReadDoubled(t[2..], q)
        case None => None
        case Some((s, rest)) => Some(([q] + s, rest))
      else Some(("", t[1..]))
    else
      match ReadDoubled(t[1..], q)
      case None => None
      case Some((s, rest)) => Some(([t[0]] + s, rest))
  }

  /**
   * Doubling is undone by reading: the text comes back whole and the reader
   * stops right after the closing quote, whatever the text holds.
   */
  lemma {:induction false} ReadDoubledRoundTrip(s: string, q: char, rest: string)
    requires rest == [] || rest[0] != q
    ensures ReadDoubled(Doubled(s, q) + [q] + rest, q) == Some((s, rest))
    decreases |s|
  {
    if s == [] {
      assert Doubled(s, q) + [q] + rest == [q] + rest;
    } else {
      ReadDoubledRoundTrip(s[1..], q, rest);
      ReadDoubledStep(s, q, rest);
    }
  }

  /** The text's first character read back in front of the rest of the text. */
  lemma {:induction false} ReadDoubledStep(s: string, q: char, rest: string)
    requires s != [] && ReadDoubled(Doubled(s[1..], q) + [q] + rest, q) == Some((s[1..], rest))
    ensures ReadDoubled(Doubled(s, q) + [q] + rest, q) == Some((s, rest))
  {
    if s[0] == q {
      ReadPairStep(s, q, rest);
    } else {
      ReadCharStep(s, q, rest);
    }
  }

  /** A quote character of the text is written as a pair and read back as one. */
  lemma {:induction false} ReadPairStep(s: string, q: char, rest: string)
    requires s != [] && s[0] == q
    requires ReadDoubled(Doubled(s[1..], q) + [q] + rest, q) == Some((s[1..], rest))
    ensures ReadDoubled(Doubled(s, q) + [q] + rest, q) == Some((s, rest))
  {
    var tail := Doubled(s[1..], q) + [q] + rest;
    assert Doubled(s, q) == [q, q] + Doubled(s[1..], q);
    assert Doubled(s, q) + [q] + rest == [q, q] + tail;
    assert ([q, q] + tail)[2..] == tail;
    assert [q] + s[1..] == s;
  }

  /** Any other character of the text is written and read back as itself. */
  lemma {:induction false} ReadCharStep(s: string, q: char, rest: string)
    requires s != [] && s[0] != q
    requires ReadDoubled(Doubled(s[1..], q) + [q] + rest, q) == Some((s[1..], rest))
    ensures ReadDoubled(Doubled(s, q) + [q] + rest, q) == Some((s, rest))
  {
    var tail := Doubled(s[1..], q) + [q] + rest;
    assert Doubled(s, q) == [s[0]] + Doubled(s[1..], q);
    assert Doubled(s, q) + [q] + rest == [s[0]] + tail;
    assert ([s[0]] + tail)[1..] == tail;
    assert [s[0]] + s[1..] == s;
  }
}
