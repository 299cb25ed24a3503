/** The two pieces of Go's `strings` package that the command core relies on:
    splitting at a one-character separator (`strings.Split`) and trimming
    white space at both ends (`strings.TrimSpace`). */
module Strings {
  import opened Sequences

  /** Number of occurrences of `d` in `s`. */
  function Count(s: string, d: char): nat
    decreases |s|
  {
    if s == [] then 0 else Count(s[..|s| - 1], d) + (if s[|s| - 1] == d then 1 else 0)
  }

  /** The pieces of `s` between occurrences of `d`, as `strings.Split(s, d)`
      returns them: one more piece than there are separators, empty pieces
      included (so the empty string gives one empty piece). */
  function SplitOn(s: string, d: char): (pieces: seq<string>)
    ensures |pieces| == Count(s, d) + 1
    decreases |s|
  {
    if s == [] then [[]]
    else
      var rest := SplitOn(s[..|s| - 1], d);
      var c := s[|s| - 1];
      if c == d then rest + [[]]
      else rest[..|rest| - 1] + [rest[|rest| - 1] + [c]]
  }

  /** The pieces glued back together with `d` between neighbours. */
  function Join(pieces: seq<string>, d: char): string
    requires |pieces| >= 1
    decreases |pieces|
  {
    if |pieces| == 1 then pieces[0]
    else Join(pieces[..|pieces| - 1], d) + [d] + pieces[|pieces| - 1]
  }

  /** Splitting loses nothing: joining the pieces gives the input back. */
  lemma {:induction false} JoinSplit(s: string, d: char)
    ensures Join(SplitOn(s, d), d) == s
    decreases |s|
  {
    if s != [] {
      var p, c := s[..|s| - 1], s[|s| - 1];
      var rest := SplitOn(p, d);
      JoinSplit(p, d);
      assert s == p + [c];
      if c == d {
        assert (rest + [[]])[..|rest|] == rest;
      } else {
        var pieces := rest[..|rest| - 1] + [rest[|rest| - 1] + [c]];
        assert pieces[..|pieces| - 1] == rest[..|rest| - 1];
        if |rest| > 1 {
          assert Join(rest, d) == Join(rest[..|rest| - 1], d) + [d] + rest[|rest| - 1];
        }
      }
    }
  }

  /** No piece holds the separator, and every character of a piece is a
      character of the input. */
  lemma {:induction false} SplitOnPieces(s: string, d: char)
    ensures forall i :: 0 <= i < |SplitOn(s, d)| ==> d !in SplitOn(s, d)[i]
    ensures forall i, c :: 0 <= i < |SplitOn(s, d)| && c in SplitOn(s, d)[i] ==> c in s
    decreases |s|
  {
    if s != [] {
      var p := s[..|s| - 1];
      SplitOnPieces(p, d);
      assert forall x :: x in p ==> x in s;
      assert s[|s| - 1] in s;
    }
  }

  /** A string without the separator is a single piece. */
  lemma {:induction false} SplitWithoutSeparator(s: string, d: char)
    requires d !in s
    ensures SplitOn(s, d) == [s]
    decreases |s|
  {
    if s != [] {
      var p := s[..|s| - 1];
      assert d !in p by {
        forall i | 0 <= i < |p| ensures p[i] != d { assert p[i] == s[i]; }
      }
      SplitWithoutSeparator(p, d);
      assert s == p + [s[|s| - 1]];
    }
  }

  /** One more character either opens a new piece or extends the last one. */
  lemma SplitSnoc(p: string, c: char, d: char)
    ensures var rest := SplitOn(p, d);
      SplitOn(p + [c], d) == if c == d then rest + [[]] else rest[..|rest| - 1] + [rest[|rest| - 1] + [c]]
  {
    assert (p + [c])[..|p|] == p;
  }

  /** A separator cuts the input in two: the pieces of each side, in order. */
  lemma {:induction false} SplitAtSeparator(a: string, b: string, d: char)
    ensures SplitOn(a + [d] + b, d) == SplitOn(a, d) + SplitOn(b, d)
    decreases |b|
  {
    var left := SplitOn(a, d);
    if b == [] {
      SplitSnoc(a, d, d);
      assert a + [d] + b == a + [d];
    } else {
      var init, c := b[..|b| - 1], b[|b| - 1];
      SplitAtSeparator(a, init, d);
      var right := SplitOn(init, d);
      var t := a + [d] + init;
      var rest := SplitOn(t, d);
      assert rest == left + right;
      SplitSnoc(t, c, d);
      SplitSnoc(init, c, d);
      SnocLast(b);
      AppendSnoc(a + [d], init, c);
      assert SplitOn(a + [d] + b, d) == SplitOn(t + [c], d);
      assert SplitOn(b, d) == SplitOn(init + [c], d);
      if c == d {
        AppendSnoc(left, right, []);
      } else {
        var last := right[|right| - 1] + [c];
        SnocLast(right);
        AppendSnoc(left, right[..|right| - 1], right[|right| - 1]);
        assert rest[..|rest| - 1] == left + right[..|right| - 1];
        AppendSnoc(left, right[..|right| - 1], last);
      }
    }
  }

  /** White space as Go's `unicode.IsSpace` defines it. */
  predicate IsSpace(c: char)
  {
    || c == ' ' || c == '\t' || c == '\n' || c == '\r' || c == '\U{B}' || c == '\U{C}'
    || c == '\U{85}' || c == '\U{A0}' || c == '\U{1680}'
    || ('\U{2000}' <= c <= '\U{200A}')
    || c == '\U{2028}' || c == '\U{2029}' || c == '\U{202F}' || c == '\U{205F}' || c == '\U{3000}'
  }

  /** `s` without its leading white space. */
  function TrimLeft(s: string): (r: string)
    ensures |r| <= |s|
    decreases |s|
  {
    if s != [] && IsSpace(s[0]) then TrimLeft(s[1..]) else s
  }

  /** `s` without its trailing white space. */
  function TrimRight(s: string): (r: string)
    ensures |r| <= |s|
    decreases |s|
  {
    if s != [] && IsSpace(s[|s| - 1]) then TrimRight(s[..|s| - 1]) else s
  }

  /** `strings.TrimSpace`: `s` without white space at either end. */
  function Trim(s: string): string
  {
    TrimRight(TrimLeft(s))
  }

  /** `TrimLeft` cuts a prefix of white space and stops at the first other
      character. */
  lemma {:induction false} TrimLeftCuts(s: string)
    ensures var r := TrimLeft(s);
      && |r| <= |s| && r == s[|s| - |r|..]
      && (forall i :: 0 <= i < |s| - |r| ==> IsSpace(s[i]))
      && (r != [] ==> !IsSpace(r[0]))
    decreases |s|
  {
    if s != [] && IsSpace(s[0]) {
      TrimLeftCuts(s[1..]);
    }
  }

  /** `TrimRight` cuts a suffix of white space and stops at the last other
      character. */
  lemma {:induction false} TrimRightCuts(s: string)
    ensures var r := TrimRight(s);
      && |r| <= |s| && r == s[..|r|]
      && (forall i :: |r| <= i < |s| ==> IsSpace(s[i]))
      && (r != [] ==> !IsSpace(r[|r| - 1]))
    decreases |s|
  {
    if s != [] && IsSpace(s[|s| - 1]) {
      TrimRightCuts(s[..|s| - 1]);
    }
  }

  /** The trimmed string is the slice `s[lo..lo + |r|]`, every character cut
      off is white space, and what is left neither starts nor ends with white
      space. */
  lemma TrimCuts(s: string)
    ensures var r, lo := Trim(s), |s| - |TrimLeft(s)|;
      && lo + |r| <= |s|
      && r == s[lo..lo + |r|]
      && (forall i :: 0 <= i < lo ==> IsSpace(s[i]))
      && (forall i :: lo + |r| <= i < |s| ==> IsSpace(s[i]))
      && (r != [] ==> !IsSpace(r[0]) && !IsSpace(r[|r| - 1]))
  {
    var l := TrimLeft(s);
    TrimLeftCuts(s);
    TrimRightCuts(l);
    var r := TrimRight(l);
    assert r != [] ==> r[0] == l[0];
  }

  /** Trimming twice is trimming once. */
  lemma TrimIdempotent(s: string)
    ensures Trim(Trim(s)) == Trim(s)
  {
    var t := Trim(s);
    TrimCuts(s);
    TrimLeftNoop(t);
    TrimRightNoop(t);
  }

  lemma TrimLeftNoop(s: string)
    requires s != [] ==> !IsSpace(s[0])
    ensures TrimLeft(s) == s
  {
  }

  lemma TrimRightNoop(s: string)
    requires s != [] ==> !IsSpace(s[|s| - 1])
    ensures TrimRight(s) == s
  {
  }
}
