/**
 * The small part of PHP's value semantics that the Geobounds field relies on:
 * scalar values, loose truthiness (`if ($x)`), string conversion by the
 * concatenation operator `.`, and `explode` / `implode` on a one-character
 * separator.
 */
module Php {

  /** A PHP scalar. Integers and floats are both `Num`; their difference is not modelled. */
  datatype Value = Null | Bool(b: bool) | Num(x: real) | Str(s: string)

  /** PHP string truthiness: only `""` and `"0"` are falsy. */
  predicate StringTruthy(s: string)
  {
    s != "" && s != "0"
  }

  /** PHP truthiness of a scalar, as used by `if ($x)` and `&&`. */
  predicate Truthy(v: Value)
  {
    match v
    case Null => false
    case Bool(b) => b
    case Num(x) => x != 0.0
    case Str(s) => StringTruthy(s)
  }

  /**
   * The string a value turns into under `.`; `fmt` is PHP's float formatting,
   * which this model keeps abstract.
   */
  function ToText(v: Value, fmt: real -> string): (t: string)
    ensures v.Str? ==> t == v.s
    ensures v == Null || v == Bool(false) ==> t == ""
    ensures v == Bool(true) ==> t == "1"
  {
    match v
    case Null => ""
    case Bool(b) => if b then "1" else ""
    case Num(x) => fmt(x)
    case Str(s) => s
  }

  /** Number of occurrences of `c` in `s`. */
  function Count(c: char, s: string): nat
  {
    if |s| == 0 then 0 else (if s[0] == c then 1 else 0) + Count(c, s[1..])
  }

  /**
   * `explode(sep, s)` for a one-character separator: the maximal pieces of `s`
   * between occurrences of `sep`. There is always at least one piece, and one
   * more than there are separators.
   */
  function Explode(sep: char, s: string): (parts: seq<string>)
    ensures |parts| == Count(sep, s) + 1
    ensures forall i :: 0 <= i < |parts| ==> sep !in parts[i]
  {
    if |s| == 0 then [""]
    else
      var rest := Explode(sep, s[1..]);
      if s[0] == sep then [""] + rest
      else [[s[0]] + rest[0]] + rest[1..]
  }

  /** `implode(sep, parts)`: the parts joined with `sep` between neighbours. */
  function Implode(sep: char, parts: seq<string>): string
  {
    if |parts| == 0 then ""
    else if |parts| == 1 then parts[0]
    else parts[0] + [sep] + Implode(sep, parts[1..])
  }

  /** Splitting a text that starts with a separator-free piece `p`: `p` fuses with the first piece of the rest. */
  lemma {:induction false} ExplodeAfterPiece(sep: char, p: string, t: string)
    requires sep !in p
    ensures Explode(sep, p + t) == [p + Explode(sep, t)[0]] + Explode(sep, t)[1..]
  {
    if |p| == 0 {
      assert p + t == t;
      assert p + Explode(sep, t)[0] == Explode(sep, t)[0];
    } else {
      assert (p + t)[0] == p[0];
      assert (p + t)[1..] == p[1..] + t;
      ExplodeAfterPiece(sep, p[1..], t);
      assert [p[0]] + (p[1..] + Explode(sep, t)[0]) == p + Explode(sep, t)[0];
    }
  }

  /** A separator-free piece followed by the separator splits off as one piece. */
  lemma ExplodeLeadingPiece(sep: char, p: string, t: string)
    requires sep !in p
    ensures Explode(sep, p + [sep] + t) == [p] + Explode(sep, t)
  {
    assert p + [sep] + t == p + ([sep] + t);
    ExplodeAfterPiece(sep, p, [sep] + t);
    assert ([sep] + t)[1..] == t;
    assert p + "" == p;
  }

  /** Splitting undoes joining, for a non-empty list of parts none of which contains the separator. */
  lemma {:induction false} ExplodeImplode(sep: char, parts: seq<string>)
    requires |parts| > 0
    requires forall i :: 0 <= i < |parts| ==> sep !in parts[i]
    ensures Explode(sep, Implode(sep, parts)) == parts
  {
    if |parts| == 1 {
      assert parts[0] == parts[0] + "";
      ExplodeAfterPiece(sep, parts[0], "");
    } else {
      var tail := Implode(sep, parts[1..]);
      ExplodeImplode(sep, parts[1..]);
      assert parts[0] + [sep] + tail == parts[0] + ([sep] + tail);
      ExplodeAfterPiece(sep, parts[0], [sep] + tail);
      assert ([sep] + tail)[1..] == tail;
      assert Explode(sep, [sep] + tail) == [""] + parts[1..];
      assert parts[0] + "" == parts[0];
    }
  }

  /** Joining undoes splitting, for every text. */
  lemma {:induction false} ImplodeExplode(sep: char, s: string)
    ensures Implode(sep, Explode(sep, s)) == s
  {
    if |s| > 0 {
      var rest := Explode(sep, s[1..]);
      ImplodeExplode(sep, s[1..]);
      if s[0] == sep {
        assert ([""] + rest)[1..] == rest;
        assert "" + [sep] + s[1..] == s;
      } else {
        var parts := [[s[0]] + rest[0]] + rest[1..];
        if |rest| == 1 {
          assert [s[0]] + rest[0] == s;
        } else {
          assert parts[1..] == rest[1..];
          assert Implode(sep, rest) == rest[0] + [sep] + Implode(sep, rest[1..]);
          assert [s[0]] + rest[0] + [sep] + Implode(sep, rest[1..]) == [s[0]] + s[1..];
          assert [s[0]] + s[1..] == s;
        }
      }
    }
  }

  /** Joining two pieces with `sep` is PHP's `a . sep . b`. */
  lemma ImplodePair(sep: char, a: string, b: string)
    ensures Implode(sep, [a, b]) == a + [sep] + b
  {
  }
}
