/** String splitting and joining as the argument helpers use them. */
module Text {

  /**
   * The pieces of `s` between occurrences of `sep`, empty pieces included:
   * `k` separators always give `k + 1` pieces.
   */
  function SplitOn(s: string, sep: char): (parts: seq<string>)
    ensures |parts| >= 1
    decreases |s|
  {
    if s == [] then [[]]
    else
      var init := SplitOn(s[..|s| - 1], sep);
      var c := s[|s| - 1];
      if c == sep then init + [[]]
      else init[..|init| - 1] + [init[|init| - 1] + [c]]
  }

  /** `parts` with every empty piece at its end removed. */
  function DropTrailingEmpty(parts: seq<string>): (r: seq<string>)
    ensures r <= parts
    ensures r != [] ==> r[|r| - 1] != []
    ensures forall k :: |r| <= k < |parts| ==> parts[k] == []
    decreases |parts|
  {
    if |parts| > 0 && parts[|parts| - 1] == [] then DropTrailingEmpty(parts[..|parts| - 1])
    else parts
  }

  /**
   * Java's `String.split` on a single literal character: the full split with
   * trailing empty pieces removed, except that the empty string splits into
   * one empty piece.
   */
  function JavaSplit(s: string, sep: char): seq<string>
  {
    if s == [] then [[]] else DropTrailingEmpty(SplitOn(s, sep))
  }

  /** The pieces joined with `sep` between consecutive pieces. */
  function Join(parts: seq<string>, sep: char): string
    decreases |parts|
  {
    if |parts| == 0 then []
    else if |parts| == 1 then parts[0]
    else Join(parts[..|parts| - 1], sep) + [sep] + parts[|parts| - 1]
  }

  lemma SplitOnAppendSep(s: string, sep: char)
    ensures SplitOn(s + [sep], sep) == SplitOn(s, sep) + [[]]
  {
    assert (s + [sep])[..|s|] == s;
  }

  lemma SplitOnAppendOther(s: string, c: char, sep: char)
    requires c != sep
    ensures var init := SplitOn(s, sep);
      SplitOn(s + [c], sep) == init[..|init| - 1] + [init[|init| - 1] + [c]]
  {
    assert (s + [c])[..|s|] == s;
  }

  lemma ExtendLast<T>(a: seq<seq<T>>, b: seq<seq<T>>, c: T)
    requires |b| >= 1
    ensures var ab := a + b;
      ab[..|ab| - 1] + [ab[|ab| - 1] + [c]] == a + (b[..|b| - 1] + [b[|b| - 1] + [c]])
  {
    var ab := a + b;
    assert ab[..|ab| - 1] == a + b[..|b| - 1];
  }

  /** Splitting at a separator splits the two sides independently. */
  lemma {:induction false} SplitOnAppend(x: string, y: string, sep: char)
    ensures SplitOn(x + [sep] + y, sep) == SplitOn(x, sep) + SplitOn(y, sep)
    decreases |y|
  {
    if y == [] {
      assert x + [sep] + y == x + [sep];
      SplitOnAppendSep(x, sep);
    } else {
      var y0, c := y[..|y| - 1], y[|y| - 1];
      var left := x + [sep] + y0;
      assert y == y0 + [c];
      assert x + [sep] + y == left + [c];
      SplitOnAppend(x, y0, sep);
      var a, b := SplitOn(x, sep), SplitOn(y0, sep);
      assert SplitOn(left, sep) == a + b;
      if c == sep {
        SplitOnAppendSep(left, sep);
        SplitOnAppendSep(y0, sep);
        assert SplitOn(left + [c], sep) == a + b + [[]];
        assert SplitOn(y, sep) == b + [[]];
        assert SplitOn(x + [sep] + y, sep) == a + (b + [[]]);
      } else {
        SplitOnAppendOther(left, c, sep);
        SplitOnAppendOther(y0, c, sep);
        ExtendLast(a, b, c);
      }
    }
  }

  /** A string without the separator is a single piece. */
  lemma {:induction false} SplitOnWithoutSep(w: string, sep: char)
    requires sep !in w
    ensures SplitOn(w, sep) == [w]
    decreases |w|
  {
    if w != [] {
      var w0 := w[..|w| - 1];
      assert sep !in w0 by {
        forall k | 0 <= k < |w0| ensures w0[k] != sep { assert w0[k] == w[k]; }
      }
      SplitOnWithoutSep(w0, sep);
      assert w == w0 + [w[|w| - 1]];
      SplitOnAppendOther(w0, w[|w| - 1], sep);
    }
  }

  /**
   * Joining with a separator that no piece contains is undone by splitting:
   * the separator-joined string determines the pieces.
   */
  lemma {:induction false} SplitJoin(parts: seq<string>, sep: char)
    requires |parts| >= 1
    requires forall k :: 0 <= k < |parts| ==> sep !in parts[k]
    ensures SplitOn(Join(parts, sep), sep) == parts
    decreases |parts|
  {
    if |parts| == 1 {
      SplitOnWithoutSep(parts[0], sep);
    } else {
      var init := parts[..|parts| - 1];
      SplitJoin(init, sep);
      SplitOnAppend(Join(init, sep), parts[|parts| - 1], sep);
      SplitOnWithoutSep(parts[|parts| - 1], sep);
      assert parts == init + [parts[|parts| - 1]];
    }
  }

  /** A string made only of separators splits into nothing but empty pieces. */
  lemma {:induction false} SplitOnOnlySeps(s: string, sep: char)
    requires forall k :: 0 <= k < |s| ==> s[k] == sep
    ensures forall k :: 0 <= k < |SplitOn(s, sep)| ==> SplitOn(s, sep)[k] == []
    decreases |s|
  {
    if s != [] {
      var s0 := s[..|s| - 1];
      assert s == s0 + [sep];
      SplitOnOnlySeps(s0, sep);
      SplitOnAppendSep(s0, sep);
    }
  }

  lemma JoinAppend(parts: seq<string>, last: string, sep: char)
    requires |parts| >= 1
    ensures Join(parts + [last], sep) == Join(parts, sep) + [sep] + last
  {
    assert (parts + [last])[..|parts|] == parts;
  }

  /** A trailing separator does not change Java's split of a non-empty string. */
  lemma JavaSplitTrailingSep(s: string, sep: char)
    requires s != []
    ensures JavaSplit(s + [sep], sep) == JavaSplit(s, sep)
  {
    var parts := SplitOn(s, sep);
    SplitOnAppendSep(s, sep);
    assert (parts + [[]])[..|parts|] == parts;
  }
}
