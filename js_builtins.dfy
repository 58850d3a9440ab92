/**
 * The JavaScript built-ins that the core's expressions are made of:
 * Array.prototype.includes, Array.prototype.every and String.prototype.split
 * with a one-character separator.
 */
module JsBuiltins {

  /** `xs.includes(x)`: a strict-equality search from the front. */
  function Includes<T(==)>(xs: seq<T>, x: T): (b: bool)
    ensures b <==> x in xs
  {
    if |xs| == 0 then false
    else
      assert xs == [xs[0]] + xs[1..];
      xs[0] == x || Includes(xs[1..], x)
  }

  /** `xs.every(p)`: true when `p` holds of every element, checked from the front. */
  function Every<T>(xs: seq<T>, p: T -> bool): (b: bool)
    ensures b <==> forall i :: 0 <= i < |xs| ==> p(xs[i])
  {
    if |xs| == 0 then true
    else p(xs[0]) && Every(xs[1..], p)
  }

  /**
   * `s.split(sep)` for a one-character separator: the maximal pieces between
   * separators, so there is always at least one piece and `"".split(sep)` is `[""]`.
   */
  function Split(s: string, sep: char): (parts: seq<string>)
    ensures |parts| >= 1
  {
    if |s| == 0 then [""]
    else
      var rest := Split(s[1..], sep);
      if s[0] == sep then [""] + rest
      else [[s[0]] + rest[0]] + rest[1..]
  }

  /** No piece of a split contains the separator. */
  lemma {:induction false} SplitPiecesLackSeparator(s: string, sep: char)
    ensures forall i :: 0 <= i < |Split(s, sep)| ==> sep !in Split(s, sep)[i]
  {
    if |s| > 0 {
      SplitPiecesLackSeparator(s[1..], sep);
    }
  }

  /** `parts.join(sep)`: the inverse of Split. */
  function Join(parts: seq<string>, sep: char): string
  {
    if |parts| == 0 then ""
    else if |parts| == 1 then parts[0]
    else parts[0] + [sep] + Join(parts[1..], sep)
  }

  /** Splitting loses nothing: joining the pieces gives the original string back. */
  lemma {:induction false} JoinSplit(s: string, sep: char)
    ensures Join(Split(s, sep), sep) == s
  {
    if |s| > 0 {
      JoinSplit(s[1..], sep);
      var rest := Split(s[1..], sep);
      if s[0] != sep {
        assert Split(s, sep)[1..] == rest[1..];
      }
      assert s == [s[0]] + s[1..];
    }
  }

  /** A string without the separator is a single piece. */
  lemma {:induction false} SplitWithoutSeparator(s: string, sep: char)
    requires sep !in s
    ensures Split(s, sep) == [s]
  {
    if |s| > 0 {
      assert sep !in s[1..];
      SplitWithoutSeparator(s[1..], sep);
      assert s == [s[0]] + s[1..];
    }
  }

  /** Split on a string that starts with the character `c`, one step of the definition. */
  lemma SplitCons(c: char, s: string, sep: char)
    ensures Split([c] + s, sep) ==
      if c == sep then [""] + Split(s, sep) else [[c] + Split(s, sep)[0]] + Split(s, sep)[1..]
  {
    assert ([c] + s)[1..] == s;
  }

  /** Gluing a prefix onto the first piece commutes with appending more pieces. */
  lemma GlueFirst(c: string, ra: seq<string>, rb: seq<string>)
    requires |ra| >= 1
    ensures [c + (ra + rb)[0]] + (ra + rb)[1..] == ([c + ra[0]] + ra[1..]) + rb
  {
    assert (ra + rb)[0] == ra[0];
    assert (ra + rb)[1..] == ra[1..] + rb;
  }

  /** The inductive step of SplitAtSeparator, when the first character is an ordinary one. */
  lemma SplitAtSeparatorGlue(c: char, t: string, b: string, sep: char)
    requires c != sep
    requires Split(t + [sep] + b, sep) == Split(t, sep) + Split(b, sep)
    ensures Split([c] + (t + [sep] + b), sep) == Split([c] + t, sep) + Split(b, sep)
  {
    SplitCons(c, t + [sep] + b, sep);
    SplitCons(c, t, sep);
    GlueFirst([c], Split(t, sep), Split(b, sep));
  }

  /** The inductive step of SplitAtSeparator, when the first character is the separator. */
  lemma SplitAtSeparatorCut(t: string, b: string, sep: char)
    requires Split(t + [sep] + b, sep) == Split(t, sep) + Split(b, sep)
    ensures Split([sep] + (t + [sep] + b), sep) == Split([sep] + t, sep) + Split(b, sep)
  {
    SplitCons(sep, t + [sep] + b, sep);
    SplitCons(sep, t, sep);
    assert [""] + (Split(t, sep) + Split(b, sep)) == ([""] + Split(t, sep)) + Split(b, sep);
  }

  /** A separator cuts the string into the pieces of its two sides. */
  lemma {:induction false} SplitAtSeparator(a: string, b: string, sep: char)
    ensures Split(a + [sep] + b, sep) == Split(a, sep) + Split(b, sep)
  {
    if |a| == 0 {
      assert a + [sep] + b == [sep] + b;
      SplitCons(sep, b, sep);
    } else {
      var t := a[1..];
      SplitAtSeparator(t, b, sep);
      assert a == [a[0]] + t;
      assert a + [sep] + b == [a[0]] + (t + [sep] + b);
      if a[0] == sep {
        SplitAtSeparatorCut(t, b, sep);
      } else {
        SplitAtSeparatorGlue(a[0], t, b, sep);
      }
    }
  }
}
