/** The stock Option type the modules below share. */
module Wrappers {

  datatype Option<+T> = None | Some(value: T)
}

/** The Python `str` operations the result handler calls, as functions on
    `seq<char>`: `sep.join(xs)`, `s.replace(pat, rep)` and `s.strip()`.
    `s.split(sep)` and the substring test `t in s` are not called by the
    handler; they are here to state what the others produce. */
module Text {

  /** `t` occurs in `s` starting at index `i`. */
  predicate OccursAt(s: string, t: string, i: int) {
    0 <= i && i + |t| <= |s| && s[i..i + |t|] == t
  }

  /** Python's `t in s`. */
  predicate Contains(s: string, t: string) {
    exists i | 0 <= i <= |s| - |t| :: OccursAt(s, t, i)
  }

  lemma ContainsMiddle(a: string, t: string, b: string)
    ensures Contains(a + t + b, t)
  {
    assert (a + t + b)[|a|..|a| + |t|] == t;
    assert OccursAt(a + t + b, t, |a|);
  }

  /** Where `t` occurs, every prefix of `t` occurs too. */
  lemma OccursPrefix(s: string, t: string, u: string, i: int)
    requires OccursAt(s, t, i) && |u| <= |t| && t[..|u|] == u
    ensures OccursAt(s, u, i)
  {
    assert s[i..i + |u|] == s[i..i + |t|][..|u|];
  }

  /** An occurrence inside a slice is an occurrence in the whole string. */
  lemma ContainsSlice(s: string, a: int, b: int, t: string)
    requires 0 <= a <= b <= |s| && Contains(s[a..b], t)
    ensures Contains(s, t)
  {
    var i :| 0 <= i <= b - a - |t| && OccursAt(s[a..b], t, i);
    forall j | 0 <= j < |t| ensures s[a + i..a + i + |t|][j] == t[j] {
      assert t[j] == s[a..b][i..i + |t|][j] == s[a..b][i + j];
    }
    assert OccursAt(s, t, a + i);
  }

  /** A string is its prefix followed by the rest. */
  lemma Halves(s: string, n: nat)
    requires n <= |s|
    ensures s[..n] + s[n..] == s
  {
  }

  /** A character put in front of a string that does not contain `t` can
      only start an occurrence of `t`. */
  lemma ConsAbsent(c: char, s: string, t: string)
    requires !Contains(s, t) && !OccursAt([c] + s, t, 0)
    ensures !Contains([c] + s, t)
  {
    forall i | 1 <= i <= |s| + 1 - |t| ensures !OccursAt([c] + s, t, i) {
      assert ([c] + s)[i..i + |t|] == s[i - 1..i - 1 + |t|];
      assert !OccursAt(s, t, i - 1);
    }
  }

  /** A non-empty string is its first character followed by the rest. */
  lemma FirstAndRest(s: string)
    requires s != ""
    ensures [s[0]] + s[1..] == s
  {
  }

  lemma EmptyFront(a: string, b: string)
    ensures "" + a + b == a + b
  {
    assert "" + a == a;
  }

  // ---------------------------------------------------------------------
  // sep.join(xs) and s.split(sep)
  // ---------------------------------------------------------------------

  /** Python's `sep.join(xs)`. */
  function Join(sep: string, xs: seq<string>): string
  {
    if |xs| == 0 then ""
    else if |xs| == 1 then xs[0]
    else xs[0] + sep + Join(sep, xs[1..])
  }

  /** Python's `s.split(sep)` for a non-empty separator: the pieces between
      the leftmost non-overlapping occurrences of `sep`; `"".split(sep)` is
      `[""]`. */
  function Split(sep: string, s: string): (r: seq<string>)
    requires sep != ""
    ensures |r| >= 1
    decreases |s|
  {
    if |sep| <= |s| && s[..|sep|] == sep then [""] + Split(sep, s[|sep|..])
    else if s == "" then [""]
    else
      var rest := Split(sep, s[1..]);
      [[s[0]] + rest[0]] + rest[1..]
  }

  /** Joining in front of a non-empty list puts one separator in between. */
  lemma JoinCons(sep: string, x: string, ys: seq<string>)
    requires |ys| >= 1
    ensures Join(sep, [x] + ys) == x + sep + Join(sep, ys)
  {
    assert ([x] + ys)[0] == x && ([x] + ys)[1..] == ys;
  }

  /** Prefixing the first entry prefixes the join. */
  lemma JoinGlue(sep: string, c: string, ys: seq<string>)
    requires |ys| >= 1
    ensures Join(sep, [c + ys[0]] + ys[1..]) == c + Join(sep, ys)
  {
    if |ys| == 1 {
      assert [c + ys[0]] + ys[1..] == [c + ys[0]];
    } else {
      JoinCons(sep, c + ys[0], ys[1..]);
      JoinCons(sep, ys[0], ys[1..]);
      assert [ys[0]] + ys[1..] == ys;
    }
  }

  /** Joining the pieces of a split gives back the string, whatever it holds. */
  lemma {:induction false} JoinSplit(sep: string, s: string)
    requires sep != ""
    ensures Join(sep, Split(sep, s)) == s
    decreases |s|
  {
    if |sep| <= |s| && s[..|sep|] == sep {
      JoinSplit(sep, s[|sep|..]);
      JoinSplitAtSep(sep, s);
    } else if s != "" {
      JoinSplit(sep, s[1..]);
      JoinSplitAtChar(sep, s);
    }
  }

  /** The step of `JoinSplit` for a string that starts with the separator. */
  lemma JoinSplitAtSep(sep: string, s: string)
    requires sep != "" && |sep| <= |s| && s[..|sep|] == sep
    requires Join(sep, Split(sep, s[|sep|..])) == s[|sep|..]
    ensures Join(sep, Split(sep, s)) == s
  {
    var t := s[|sep|..];
    var rest := Split(sep, t);
    assert Split(sep, s) == [""] + rest;
    JoinCons(sep, "", rest);
    assert Join(sep, Split(sep, s)) == "" + sep + t;
    Halves(s, |sep|);
    EmptyFront(sep, t);
  }

  /** The step of `JoinSplit` for a string that starts with anything else. */
  lemma JoinSplitAtChar(sep: string, s: string)
    requires sep != "" && s != "" && !(|sep| <= |s| && s[..|sep|] == sep)
    requires Join(sep, Split(sep, s[1..])) == s[1..]
    ensures Join(sep, Split(sep, s)) == s
  {
    var rest := Split(sep, s[1..]);
    assert Split(sep, s) == [[s[0]] + rest[0]] + rest[1..];
    JoinGlue(sep, [s[0]], rest);
    Halves(s, 1);
    assert s[..1] == [s[0]];
  }

  /** A string in which the separator's first character never appears is
      one piece, glued to the first piece of whatever follows it. */
  lemma {:induction false} SplitPrefix(sep: string, x: string, t: string)
    requires sep != "" && sep[0] !in x
    ensures Split(sep, x + t) == [x + Split(sep, t)[0]] + Split(sep, t)[1..]
    decreases |x|
  {
    if x != "" {
      var s := x + t;
      assert s[0] == x[0] != sep[0];
      assert s[1..] == x[1..] + t;
      SplitPrefix(sep, x[1..], t);
      assert [x[0]] + (x[1..] + Split(sep, t)[0]) == x + Split(sep, t)[0];
    } else {
      var r := Split(sep, t);
      assert x + t == t && x + r[0] == r[0];
      assert r == [r[0]] + r[1..];
    }
  }

  /** Splitting a join of a non-empty list gives back the entries, in order,
      as long as no entry holds the separator's first character.  (An empty
      list joins to "", which splits into [""].) */
  lemma {:induction false} SplitJoin(sep: string, xs: seq<string>)
    requires sep != "" && |xs| >= 1
    requires forall k :: 0 <= k < |xs| ==> sep[0] !in xs[k]
    ensures Split(sep, Join(sep, xs)) == xs
    decreases |xs|
  {
    if |xs| == 1 {
      SplitPrefix(sep, xs[0], "");
      assert xs[0] + "" == xs[0];
    } else {
      var tail := Join(sep, xs[1..]);
      SplitJoin(sep, xs[1..]);
      assert sep[..|sep|] == sep;
      assert (sep + tail)[..|sep|] == sep && (sep + tail)[|sep|..] == tail;
      assert Split(sep, sep + tail) == [""] + xs[1..];
      SplitPrefix(sep, xs[0], sep + tail);
      assert xs[0] + sep + tail == xs[0] + (sep + tail);
      assert ([""] + xs[1..])[0] == "" && ([""] + xs[1..])[1..] == xs[1..];
      assert xs[0] + "" == xs[0];
      assert xs == [xs[0]] + xs[1..];
    }
  }

  /** With a non-empty separator the join is empty exactly when there is
      nothing to join or a single empty entry. */
  lemma {:induction false} JoinEmpty(sep: string, xs: seq<string>)
    requires sep != ""
    ensures Join(sep, xs) == "" <==> |xs| == 0 || xs == [""]
  {
    if |xs| >= 2 {
      assert |Join(sep, xs)| >= |sep|;
    }
  }

  // ---------------------------------------------------------------------
  // s.replace(pat, rep)
  // ---------------------------------------------------------------------

  /** Python's `s.replace(pat, rep)` for a non-empty `pat`: scanning from the
      left, every occurrence not overlapping an earlier replaced one is
      replaced. */
  function ReplaceAll(s: string, pat: string, rep: string): string
    requires pat != ""
    decreases |s|
  {
    if |s| < |pat| then s
    else if s[..|pat|] == pat then rep + ReplaceAll(s[|pat|..], pat, rep)
    else [s[0]] + ReplaceAll(s[1..], pat, rep)
  }

  /** A string without any occurrence of `pat` is left as it is. */
  lemma {:induction false} ReplaceAbsent(s: string, pat: string, rep: string)
    requires pat != "" && !Contains(s, pat)
    ensures ReplaceAll(s, pat, rep) == s
    decreases |s|
  {
    if |s| >= |pat| {
      assert !OccursAt(s, pat, 0);
      assert s[..|pat|] == s[0..|pat|];
      if Contains(s[1..], pat) {
        assert s[1..] == s[1..|s|];
        ContainsSlice(s, 1, |s|, pat);
      }
      ReplaceAbsent(s[1..], pat, rep);
    }
  }

  // ---------------------------------------------------------------------
  // s.strip()
  // ---------------------------------------------------------------------

  /** Python's `str.isspace` on one character: the Unicode white space
      characters (bidirectional class WS, B or S, or category Zs). */
  predicate IsSpace(c: char) {
    ('\t' <= c <= '\r') || ('\U{1c}' <= c <= ' ') || c == '\U{85}' || c == '\U{a0}'
    || c == '\U{1680}' || ('\U{2000}' <= c <= '\U{200a}') || c == '\U{2028}' || c == '\U{2029}'
    || c == '\U{202f}' || c == '\U{205f}' || c == '\U{3000}'
  }

  /** Python's `s.lstrip()`: the suffix left after the longest run of
      white space at the front. */
  function StripStart(s: string): (r: string)
    ensures |r| <= |s| && r == s[|s| - |r|..]
    ensures forall k :: 0 <= k < |s| - |r| ==> IsSpace(s[k])
    ensures r == "" || !IsSpace(r[0])
    decreases |s|
  {
    if |s| > 0 && IsSpace(s[0]) then StripStart(s[1..]) else s
  }

  /** Python's `s.rstrip()`: the prefix left after the longest run of
      white space at the back. */
  function StripEnd(s: string): (r: string)
    ensures |r| <= |s| && r == s[..|r|]
    ensures forall k :: |r| <= k < |s| ==> IsSpace(s[k])
    ensures r == "" || !IsSpace(r[|r| - 1])
    decreases |s|
  {
    if |s| > 0 && IsSpace(s[|s| - 1]) then StripEnd(s[..|s| - 1]) else s
  }

  /** Python's `s.strip()`. */
  function Strip(s: string): string
  {
    StripEnd(StripStart(s))
  }

  /** `strip()` cuts a slice out of its argument, only white space is cut
      away, and what is left neither starts nor ends with white space. */
  lemma StripSlice(s: string) returns (a: nat, b: nat)
    ensures a <= b <= |s| && Strip(s) == s[a..b]
    ensures forall k :: 0 <= k < a ==> IsSpace(s[k])
    ensures forall k :: b <= k < |s| ==> IsSpace(s[k])
    ensures Strip(s) == "" || (!IsSpace(Strip(s)[0]) && !IsSpace(Strip(s)[|Strip(s)| - 1]))
  {
    var t := StripStart(s);
    var r := StripEnd(t);
    a, b := |s| - |t|, |s| - |t| + |r|;
    PrefixOfSuffix(s, a, |r|);
    TrailingSpaces(s, t, |r|);
  }

  /** White space at the back of a suffix is white space at the back of the
      whole string. */
  lemma TrailingSpaces(s: string, t: string, n: nat)
    requires |t| <= |s| && t == s[|s| - |t|..] && n <= |t|
    requires forall k :: n <= k < |t| ==> IsSpace(t[k])
    ensures forall k :: |s| - |t| + n <= k < |s| ==> IsSpace(s[k])
  {
    forall k | |s| - |t| + n <= k < |s| ensures IsSpace(s[k]) {
      assert s[k] == t[k - (|s| - |t|)];
    }
  }

  /** A prefix of a suffix is a slice. */
  lemma PrefixOfSuffix(s: string, a: nat, n: nat)
    requires a + n <= |s|
    ensures s[a..][..n] == s[a..a + n]
  {
  }

  /** A string that neither starts nor ends with white space is its own
      `strip()`. */
  lemma StripUnchanged(s: string)
    requires s == "" || (!IsSpace(s[0]) && !IsSpace(s[|s| - 1]))
    ensures Strip(s) == s
  {
  }
}
