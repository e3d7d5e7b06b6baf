/**
 * The string primitives the weight store is built from: `String.prototype.trim`,
 * `split` on a one-character separator and `Array.prototype.join`.
 */
module Text {

  /** The characters ECMAScript counts as white space or line terminators
      (the set `trim` and `Number` strip from both ends). */
  predicate IsSpace(ch: char) {
    || ch == ' ' || ch == '\t' || ch == '\n' || ch == '\r'
    || ch == '\U{000B}' || ch == '\U{000C}' || ch == '\U{00A0}' || ch == '\U{1680}'
    || ('\U{2000}' <= ch <= '\U{200A}')
    || ch == '\U{2028}' || ch == '\U{2029}' || ch == '\U{202F}' || ch == '\U{205F}'
    || ch == '\U{3000}' || ch == '\U{FEFF}'
  }

  predicate AllSpace(s: string) {
    forall i :: 0 <= i < |s| ==> IsSpace(s[i])
  }

  /** Removes leading white space. */
  function TrimStart(s: string): string
    decreases |s|
  {
    if |s| > 0 && IsSpace(s[0]) then TrimStart(s[1..]) else s
  }

  /** Removes trailing white space. */
  function TrimEnd(s: string): string
    decreases |s|
  {
    if |s| > 0 && IsSpace(s[|s| - 1]) then TrimEnd(s[..|s| - 1]) else s
  }

  /** `TrimStart` keeps the suffix that starts at the first non-space character and
      drops only white space. */
  lemma {:induction false} TrimStartFacts(s: string)
    ensures var r := TrimStart(s);
      |r| <= |s| && r == s[|s| - |r|..] && (r != [] ==> !IsSpace(r[0])) && AllSpace(s[..|s| - |r|])
    decreases |s|
  {
    if |s| > 0 && IsSpace(s[0]) {
      TrimStartFacts(s[1..]);
      var r := TrimStart(s);
      assert s[1..][..|s| - 1 - |r|] == s[1..|s| - |r|];
    }
  }

  /** `TrimEnd` keeps the prefix that ends at the last non-space character and drops
      only white space. */
  lemma {:induction false} TrimEndFacts(s: string)
    ensures var r := TrimEnd(s);
      |r| <= |s| && r == s[..|r|] && (r != [] ==> !IsSpace(r[|r| - 1])) && AllSpace(s[|r|..])
    decreases |s|
  {
    if |s| > 0 && IsSpace(s[|s| - 1]) {
      TrimEndFacts(s[..|s| - 1]);
      var r := TrimEnd(s);
      assert s[..|s| - 1][|r|..] == s[|r|..|s| - 1];
    }
  }

  /** `s.trim()`: no white space is left at either end. */
  function Trim(s: string): (r: string)
    ensures r != [] ==> !IsSpace(r[0]) && !IsSpace(r[|r| - 1])
  {
    TrimEndFacts(s);
    TrimStartFacts(TrimEnd(s));
    TrimStart(TrimEnd(s))
  }

  /** Trimming only removes characters. */
  lemma TrimKeepsCharacters(s: string)
    ensures forall ch :: ch in Trim(s) ==> ch in s
  {
    var e := TrimEnd(s);
    var r := TrimStart(e);
    TrimEndFacts(s);
    TrimStartFacts(e);
    forall ch | ch in r ensures ch in s {
      var i :| 0 <= i < |r| && r[i] == ch;
      assert e[|e| - |r| + i] == ch;
      assert s[|e| - |r| + i] == ch;
    }
  }

  /** A line trims to nothing exactly when it is all white space. */
  lemma TrimEmpty(s: string)
    ensures Trim(s) == [] <==> AllSpace(s)
  {
    var e := TrimEnd(s);
    var r := TrimStart(e);
    TrimEndFacts(s);
    TrimStartFacts(e);
    if r == [] {
      assert |e| == 0;
      assert s[|e|..] == s;
    }
  }

  /** A string that neither starts nor ends with white space is its own trim. */
  lemma TrimNoEdgeSpace(s: string)
    requires s != [] && !IsSpace(s[0]) && !IsSpace(s[|s| - 1])
    ensures Trim(s) == s
  {
  }

  /** Trailing white space after a non-space character does not survive the trim. */
  lemma TrimEndAppendSpace(s: string, ch: char)
    requires IsSpace(ch)
    ensures TrimEnd(s + [ch]) == TrimEnd(s)
  {
    assert (s + [ch])[..|s + [ch]| - 1] == s;
  }

  /** `s.split(sep)` for a one-character separator. Defined from the end of the
      string, so extending the string by one character extends the result. Every
      piece is free of the separator. */
  function Split(s: string, sep: char): (r: seq<string>)
    ensures |r| >= 1
    decreases |s|
  {
    if s == [] then [[]]
    else
      var r := Split(s[..|s| - 1], sep);
      if s[|s| - 1] == sep then r + [[]]
      else r[..|r| - 1] + [r[|r| - 1] + [s[|s| - 1]]]
  }

  /** No piece of a split contains the separator. */
  lemma {:induction false} SplitPieces(s: string, sep: char)
    ensures forall i :: 0 <= i < |Split(s, sep)| ==> sep !in Split(s, sep)[i]
    decreases |s|
  {
    if s != [] {
      SplitPieces(s[..|s| - 1], sep);
    }
  }

  /** Appending the separator opens a new, empty, last piece. */
  lemma SplitSnocSeparator(s: string, sep: char)
    ensures Split(s + [sep], sep) == Split(s, sep) + [[]]
  {
    assert (s + [sep])[..|s|] == s;
  }

  /** Appending another character extends the last piece. */
  lemma SplitSnoc(s: string, ch: char, sep: char)
    requires ch != sep
    ensures Split(s + [ch], sep)
            == Split(s, sep)[..|Split(s, sep)| - 1] + [Split(s, sep)[|Split(s, sep)| - 1] + [ch]]
  {
    assert (s + [ch])[..|s|] == s;
  }

  /** `xs.join(sep)`: the empty list joins to the empty string. */
  function Join(xs: seq<string>, sep: char): (r: string)
    ensures |xs| >= 1 ==> xs[0] <= r
  {
    if |xs| == 0 then []
    else if |xs| == 1 then xs[0]
    else xs[0] + [sep] + Join(xs[1..], sep)
  }

  /** A string without the separator splits into itself alone. */
  lemma {:induction false} SplitNoSeparator(s: string, sep: char)
    requires sep !in s
    ensures Split(s, sep) == [s]
    decreases |s|
  {
    if s != [] {
      assert sep !in s[..|s| - 1];
      SplitNoSeparator(s[..|s| - 1], sep);
      assert s[..|s| - 1] + [s[|s| - 1]] == s;
    }
  }

  /** Splitting distributes over a separator: the pieces of `a + sep + b` are the
      pieces of `a` followed by the pieces of `b`. */
  lemma {:induction false} SplitConcat(a: string, b: string, sep: char)
    ensures Split(a + [sep] + b, sep) == Split(a, sep) + Split(b, sep)
    decreases |b|
  {
    var s := a + [sep] + b;
    if b == [] {
      assert s[..|s| - 1] == a;
    } else {
      var b', last := b[..|b| - 1], b[|b| - 1];
      assert s[..|s| - 1] == a + [sep] + b';
      assert s[|s| - 1] == last;
      SplitConcat(a, b', sep);
      var x, y := Split(a, sep), Split(b', sep);
      assert Split(a + [sep] + b', sep) == x + y;
      if last == sep {
        assert Split(s, sep) == (x + y) + [[]];
        assert Split(b, sep) == y + [[]];
      } else {
        assert Split(s, sep) == (x + y)[..|x + y| - 1] + [(x + y)[|x + y| - 1] + [last]];
        assert Split(b, sep) == y[..|y| - 1] + [y[|y| - 1] + [last]];
        assert (x + y)[..|x + y| - 1] == x + y[..|y| - 1];
      }
    }
  }

  /** The split has more than one piece exactly when the separator occurs. */
  lemma {:induction false} SplitSeveral(s: string, sep: char)
    ensures (sep in s) == (|Split(s, sep)| > 1)
    decreases |s|
  {
    if s != [] {
      var s' := s[..|s| - 1];
      SplitSeveral(s', sep);
      assert s == s' + [s[|s| - 1]];
      assert (sep in s) == (sep in s' || s[|s| - 1] == sep);
    }
  }

  /** The first piece of a split is the longest separator-free prefix. */
  lemma {:induction false} SplitFirst(s: string, sep: char)
    ensures Split(s, sep)[0] <= s
    ensures |Split(s, sep)[0]| < |s| ==> s[|Split(s, sep)[0]|] == sep
    ensures sep !in Split(s, sep)[0]
    decreases |s|
  {
    SplitPieces(s, sep);
    if s != [] {
      var s', last := s[..|s| - 1], s[|s| - 1];
      assert s == s' + [last];
      SplitFirst(s', sep);
      SplitSeveral(s', sep);
      SplitPieces(s', sep);
      var r := Split(s', sep);
      var f := r[0];
      assert f <= s';
      if |f| < |s'| {
        assert s'[|f|] == sep;
        assert |r| > 1;
      } else {
        assert f == s';
        assert |r| == 1;
      }
      if last == sep {
        assert Split(s, sep) == r + [[]];
        assert Split(s, sep)[0] == f;
      } else if |r| == 1 {
        assert Split(s, sep) == [f + [last]];
      } else {
        assert Split(s, sep)[0] == f;
      }
    }
  }

  /** Splitting a join of separator-free parts gives the parts back. */
  lemma {:induction false} SplitJoin(xs: seq<string>, sep: char)
    requires |xs| >= 1
    requires forall i :: 0 <= i < |xs| ==> sep !in xs[i]
    ensures Split(Join(xs, sep), sep) == xs
    decreases |xs|
  {
    if |xs| == 1 {
      SplitNoSeparator(xs[0], sep);
    } else {
      SplitJoin(xs[1..], sep);
      SplitConcat(xs[0], Join(xs[1..], sep), sep);
      SplitNoSeparator(xs[0], sep);
      assert [xs[0]] + xs[1..] == xs;
    }
  }

  lemma {:induction false} JoinAppend(xs: seq<string>, y: string, sep: char)
    requires |xs| >= 1
    ensures Join(xs + [y], sep) == Join(xs, sep) + [sep] + y
    decreases |xs|
  {
    if |xs| == 1 {
      assert (xs + [y])[1..] == [y];
    } else {
      assert (xs + [y])[1..] == xs[1..] + [y];
      JoinAppend(xs[1..], y, sep);
    }
  }

  lemma {:induction false} JoinExtendLast(xs: seq<string>, ch: char, sep: char)
    requires |xs| >= 1
    ensures Join(xs[..|xs| - 1] + [xs[|xs| - 1] + [ch]], sep) == Join(xs, sep) + [ch]
    decreases |xs|
  {
    if |xs| > 1 {
      var ys := xs[..|xs| - 1] + [xs[|xs| - 1] + [ch]];
      assert ys[1..] == xs[1..][..|xs[1..]| - 1] + [xs[1..][|xs[1..]| - 1] + [ch]];
      JoinExtendLast(xs[1..], ch, sep);
    }
  }

  /** Joining the pieces of a split gives the original string back. */
  lemma {:induction false} JoinSplit(s: string, sep: char)
    ensures Join(Split(s, sep), sep) == s
    decreases |s|
  {
    if s != [] {
      var s' := s[..|s| - 1];
      JoinSplit(s', sep);
      if s[|s| - 1] == sep {
        JoinAppend(Split(s', sep), [], sep);
      } else {
        JoinExtendLast(Split(s', sep), s[|s| - 1], sep);
      }
      assert s' + [s[|s| - 1]] == s;
    }
  }
}
