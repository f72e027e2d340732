/** Python string and list primitives that the summarizer's code relies on,
    stated over `string` (= seq<char>) with Python's own edge cases:
    `str.split` with an explicit separator, `str.join`, `str.strip`,
    `str.lower`, `in` on strings, slices with negative or out-of-range
    bounds, and the left-to-right non-overlapping rewriting done by
    `re.sub` and `str.replace`. */
module Text {

  // ---------------------------------------------------------------------
  // Slices
  // ---------------------------------------------------------------------

  /** The index Python uses for a slice bound `k` on a sequence of length `n`:
      negative bounds count from the end, and every bound is clamped. */
  function SliceBound(n: nat, k: int): (b: nat)
    ensures b <= n
    ensures 0 <= k <= n ==> b == k
    ensures k > n ==> b == n
    ensures k < 0 ==> b == if n + k >= 0 then n + k else 0
  {
    if k >= 0 then (if k <= n then k else n)
    else if n + k >= 0 then n + k else 0
  }

  /** `s[:k]` */
  function PyTake<T>(s: seq<T>, k: int): (r: seq<T>)
    ensures |r| <= |s| && r == s[..|r|]
    ensures k >= 0 ==> |r| == if k <= |s| then k else |s|
  {
    s[..SliceBound(|s|, k)]
  }

  /** `s[k:]` */
  function PyDrop<T>(s: seq<T>, k: int): (r: seq<T>)
    ensures |r| <= |s| && r == s[|s| - |r|..]
    ensures 0 <= k <= |s| ==> |r| == |s| - k
  {
    s[SliceBound(|s|, k)..]
  }

  /** Concatenation is associative (stated once, so that callers need not
      prove sequence equality element by element). */
  lemma AppendAssoc<T>(a: seq<T>, b: seq<T>, c: seq<T>)
    ensures a + b + c == a + (b + c)
  {
  }

  // ---------------------------------------------------------------------
  // Characters
  // ---------------------------------------------------------------------

  /** `str.isspace()` for one character (also what `\s` matches in a `str` pattern). */
  predicate IsSpace(c: char)
  {
    c == ' ' || '\t' <= c <= '\r' || '\U{1C}' <= c <= '\U{1F}' || c == '\U{85}' || c == '\U{A0}'
    || c == '\U{1680}' || '\U{2000}' <= c <= '\U{200A}' || c == '\U{2028}' || c == '\U{2029}'
    || c == '\U{202F}' || c == '\U{205F}' || c == '\U{3000}'
  }

  predicate IsAsciiUpper(c: char) { 'A' <= c <= 'Z' }
  predicate IsAsciiLower(c: char) { 'a' <= c <= 'z' }
  predicate IsAsciiDigit(c: char) { '0' <= c <= '9' }

  function LowerChar(c: char): char
  {
    if IsAsciiUpper(c) then (c as int + 32) as char else c
  }

  function UpperChar(c: char): char
  {
    if IsAsciiLower(c) then (c as int - 32) as char else c
  }

  /** `str.lower()` (ASCII letters). */
  function Lower(s: string): (r: string)
    ensures |r| == |s|
    ensures forall i :: 0 <= i < |s| ==> r[i] == LowerChar(s[i])
  {
    seq(|s|, i requires 0 <= i < |s| => LowerChar(s[i]))
  }

  /** `str.capitalize()`: the first character upper-cased, all others lower-cased (ASCII letters). */
  function Capitalize(s: string): (r: string)
    ensures |r| == |s|
    ensures |s| > 0 ==> r[0] == UpperChar(s[0]) && r[1..] == Lower(s[1..])
  {
    if |s| == 0 then "" else [UpperChar(s[0])] + Lower(s[1..])
  }

  predicate AllSpace(s: string)
  {
    forall i :: 0 <= i < |s| ==> IsSpace(s[i])
  }

  // ---------------------------------------------------------------------
  // Searching
  // ---------------------------------------------------------------------

  predicate StartsWith(s: string, p: string)
  {
    |p| <= |s| && s[..|p|] == p
  }

  predicate EndsWith(s: string, p: string)
  {
    |p| <= |s| && s[|s| - |p|..] == p
  }

  /** A concatenation starts with its first part and ends with its second. */
  lemma ConcatEnds(a: string, b: string)
    ensures StartsWith(a + b, a) && EndsWith(a + b, b)
  {
    assert (a + b)[..|a|] == a;
    assert (a + b)[|a + b| - |b|..] == b;
  }

  /** `t in s` for strings. */
  predicate Contains(s: string, t: string)
    decreases |s|
  {
    StartsWith(s, t) || (|s| > 0 && Contains(s[1..], t))
  }

  /** Number of occurrences of `c` in `s`. */
  function CountChar(s: string, c: char): nat
  {
    if |s| == 0 then 0 else (if s[0] == c then 1 else 0) + CountChar(s[1..], c)
  }

  /** `s.replace(c, "")` for one character. */
  function RemoveChar(s: string, c: char): (r: string)
    ensures c !in r
    ensures |r| == |s| - CountChar(s, c)
  {
    if |s| == 0 then "" else (if s[0] == c then "" else [s[0]]) + RemoveChar(s[1..], c)
  }

  // ---------------------------------------------------------------------
  // split / join
  // ---------------------------------------------------------------------

  /** `s.split(sep)` for a one-character separator: there is always at least
      one piece, and `"".split(sep) == [""]`. */
  function Split(s: string, sep: char): (r: seq<string>)
    ensures |r| >= 1
    ensures forall k :: 0 <= k < |r| ==> sep !in r[k]
    decreases |s|
  {
    if |s| == 0 then [""]
    else
      var rest := Split(s[1..], sep);
      if s[0] == sep then [""] + rest else [[s[0]] + rest[0]] + rest[1..]
  }

  /** `sep.join(parts)`; joining nothing gives "". */
  function Join(parts: seq<string>, sep: char): string
  {
    if |parts| == 0 then ""
    else if |parts| == 1 then parts[0]
    else parts[0] + [sep] + Join(parts[1..], sep)
  }

  /** Splitting is one piece more than the number of separators. */
  lemma {:induction false} SplitCount(s: string, sep: char)
    ensures |Split(s, sep)| == CountChar(s, sep) + 1
    decreases |s|
  {
    if |s| > 0 {
      SplitCount(s[1..], sep);
    }
  }

  /** A character occurs exactly when it is counted at least once. */
  lemma {:induction false} CountCharPositive(s: string, c: char)
    ensures CountChar(s, c) > 0 <==> c in s
    decreases |s|
  {
    if |s| > 0 {
      CountCharPositive(s[1..], c);
      assert s == [s[0]] + s[1..];
    }
  }

  /** `s.split(sep)` has a second piece exactly when `sep` occurs in `s`. */
  lemma SplitHasSecond(s: string, sep: char)
    ensures |Split(s, sep)| >= 2 <==> sep in s
  {
    SplitCount(s, sep);
    CountCharPositive(s, sep);
  }

  /** The first piece of a split is the part of `s` before the first separator. */
  lemma {:induction false} SplitFirstPrefix(s: string, sep: char)
    ensures var h := Split(s, sep)[0];
            |h| <= |s| && s[..|h|] == h && (|h| < |s| ==> s[|h|] == sep)
    decreases |s|
  {
    if |s| > 0 {
      SplitFirstPrefix(s[1..], sep);
    }
  }

  /** Joining the pieces of a split gives back the string. */
  lemma {:induction false} JoinSplit(s: string, sep: char)
    ensures Join(Split(s, sep), sep) == s
    decreases |s|
  {
    if |s| > 0 {
      JoinSplit(s[1..], sep);
      var rest := Split(s[1..], sep);
      if s[0] == sep {
        assert Split(s, sep) == [""] + rest;
      } else {
        var r := [[s[0]] + rest[0]] + rest[1..];
        assert Split(s, sep) == r;
        if |rest| == 1 {
          assert Join(r, sep) == [s[0]] + rest[0];
        } else {
          assert r[1..] == rest[1..];
          assert Join(r, sep) == [s[0]] + rest[0] + [sep] + Join(rest[1..], sep);
        }
      }
    }
  }

  /** Splitting a join of separator-free pieces gives back the pieces. */
  lemma {:induction false} SplitJoin(parts: seq<string>, sep: char)
    requires |parts| >= 1
    requires forall k :: 0 <= k < |parts| ==> sep !in parts[k]
    ensures Split(Join(parts, sep), sep) == parts
    decreases |parts|, |parts[0]|
  {
    var p := parts[0];
    if |p| == 0 {
      if |parts| > 1 {
        SplitJoin(parts[1..], sep);
        assert Join(parts, sep) == [sep] + Join(parts[1..], sep);
        assert ([sep] + Join(parts[1..], sep))[1..] == Join(parts[1..], sep);
      }
    } else {
      var parts' := [p[1..]] + parts[1..];
      assert sep !in parts'[0] by {
        assert forall c :: c in p[1..] ==> c in p;
      }
      SplitJoin(parts', sep);
      if |parts| == 1 {
        assert Join(parts, sep) == p;
        assert p[1..] == Join(parts', sep);
      } else {
        assert Join(parts', sep) == p[1..] + [sep] + Join(parts[1..], sep);
        assert Join(parts, sep) == [p[0]] + Join(parts', sep);
        assert (Join(parts, sep))[1..] == Join(parts', sep);
      }
      assert p[0] != sep by { assert p[0] in p; }
      assert parts'[1..] == parts[1..];
      assert [p[0]] + p[1..] == p;
      assert [[p[0]] + p[1..]] + parts'[1..] == parts;
    }
  }

  // ---------------------------------------------------------------------
  // strip
  // ---------------------------------------------------------------------

  /** The number of whitespace characters `s` starts with. */
  function LeadingSpace(s: string): (k: nat)
    ensures k <= |s|
    decreases |s|
  {
    if |s| > 0 && IsSpace(s[0]) then 1 + LeadingSpace(s[1..]) else 0
  }

  /** The number of whitespace characters `s` ends with. */
  function TrailingSpace(s: string): (k: nat)
    ensures k <= |s|
    decreases |s|
  {
    if |s| > 0 && IsSpace(s[|s| - 1]) then 1 + TrailingSpace(s[..|s| - 1]) else 0
  }

  /** `LeadingSpace` counts the whole leading run of whitespace. */
  lemma {:induction false} LeadingSpaceRun(s: string)
    ensures AllSpace(s[..LeadingSpace(s)])
    ensures LeadingSpace(s) < |s| ==> !IsSpace(s[LeadingSpace(s)])
    decreases |s|
  {
    if |s| > 0 && IsSpace(s[0]) {
      LeadingSpaceRun(s[1..]);
      var k := LeadingSpace(s[1..]);
      assert s[..k + 1] == [s[0]] + s[1..][..k];
    }
  }

  /** `TrailingSpace` counts the whole trailing run of whitespace. */
  lemma {:induction false} TrailingSpaceRun(s: string)
    ensures AllSpace(s[|s| - TrailingSpace(s)..])
    ensures TrailingSpace(s) < |s| ==> !IsSpace(s[|s| - TrailingSpace(s) - 1])
    decreases |s|
  {
    if |s| > 0 && IsSpace(s[|s| - 1]) {
      var t := s[..|s| - 1];
      TrailingSpaceRun(t);
      var k := TrailingSpace(t);
      assert s[|s| - (k + 1)..] == t[|t| - k..] + [s[|s| - 1]];
    }
  }

  /** `s.strip()`: `s` without leading and trailing whitespace (when `s` is
      all whitespace the two runs overlap and nothing is left). */
  function Strip(s: string): string
  {
    var i := LeadingSpace(s);
    var e := |s| - TrailingSpace(s);
    if e <= i then "" else s[i..e]
  }

  /** `strip` removes whitespace only, from both ends, up to the first and
      last other character; the result neither starts nor ends with
      whitespace. */
  lemma StripSpec(s: string)
    ensures var r := Strip(s);
            exists i :: 0 <= i <= |s| - |r| && r == s[i..i + |r|] && AllSpace(s[..i]) && AllSpace(s[i + |r|..])
    ensures var r := Strip(s);
            r == "" || (!IsSpace(r[0]) && !IsSpace(r[|r| - 1]))
  {
    var i := LeadingSpace(s);
    var e := |s| - TrailingSpace(s);
    LeadingSpaceRun(s);
    TrailingSpaceRun(s);
    var r := Strip(s);
    if e <= i {
      assert AllSpace(s[..|s|]) by {
        assert s[..|s|] == s;
        forall j | 0 <= j < |s| ensures IsSpace(s[j]) {
          if j < i {
            assert s[..i][j] == s[j];
          } else {
            assert false;
          }
        }
      }
      assert r == s[|s|..|s|];
    } else {
      assert r == s[i..e];
      assert r[0] == s[i];
      assert r[|r| - 1] == s[e - 1];
    }
  }

  // ---------------------------------------------------------------------
  // re.sub / str.replace
  // ---------------------------------------------------------------------

  /** The scan shared by `re.sub` and `str.replace`: at each position, `m`
      gives the length of the match starting there (0 for none); a match is
      replaced by `rep` and the scan resumes after it, otherwise the character
      is kept and the scan moves one position on. */
  function SubAll(s: string, m: string -> nat, rep: string): string
    decreases |s|
  {
    if |s| == 0 then ""
    else if 0 < m(s) <= |s| then rep + SubAll(s[m(s)..], m, rep)
    else [s[0]] + SubAll(s[1..], m, rep)
  }

  /** Some position of `s` starts a match of `m`. */
  predicate MatchesAt(s: string, m: string -> nat, i: nat)
    requires i <= |s|
  {
    0 < m(s[i..]) <= |s| - i
  }

  predicate MatchesSomewhere(s: string, m: string -> nat)
  {
    exists i :: 0 <= i < |s| && MatchesAt(s, m, i)
  }

  /** A string with one more character in front has a match somewhere exactly
      when it has one at its start or its tail has one. */
  lemma MatchesSomewhereCons(c: char, r: string, m: string -> nat)
    ensures MatchesSomewhere([c] + r, m) <==> MatchesAt([c] + r, m, 0) || MatchesSomewhere(r, m)
  {
    var s := [c] + r;
    forall i | 1 <= i <= |s|
      ensures s[i..] == r[i - 1..]
    {
    }
    if MatchesSomewhere(r, m) {
      var i :| 0 <= i < |r| && MatchesAt(r, m, i);
      assert MatchesAt(s, m, i + 1);
    }
    if MatchesSomewhere(s, m) {
      var i :| 0 <= i < |s| && MatchesAt(s, m, i);
      if i > 0 {
        assert MatchesAt(r, m, i - 1);
      }
    }
  }

  /** When every match is longer than its replacement, rewriting never
      lengthens the text, and it leaves the text unchanged exactly when
      no position of it starts a match. */
  lemma {:induction false} SubAllShrinks(s: string, m: string -> nat, rep: string)
    requires forall t :: m(t) == 0 || |rep| < m(t)
    ensures |SubAll(s, m, rep)| <= |s|
    ensures SubAll(s, m, rep) == s <==> !MatchesSomewhere(s, m)
    decreases |s|
  {
    if |s| == 0 {
    } else if 0 < m(s) <= |s| {
      SubAllShrinks(s[m(s)..], m, rep);
      assert MatchesAt(s, m, 0) by { assert s[0..] == s; }
    } else {
      SubAllShrinks(s[1..], m, rep);
      assert !MatchesAt(s, m, 0) by { assert s[0..] == s; }
      forall i | 1 <= i <= |s|
        ensures s[1..][i - 1..] == s[i..]
      {
      }
      if MatchesSomewhere(s[1..], m) {
        var i :| 0 <= i < |s[1..]| && MatchesAt(s[1..], m, i);
        assert MatchesAt(s, m, i + 1);
      }
      if MatchesSomewhere(s, m) {
        var i :| 0 <= i < |s| && MatchesAt(s, m, i);
        assert MatchesAt(s[1..], m, i - 1);
      }
    }
  }

  /** The matcher of `str.replace(pat, ...)`: `pat` itself, where it occurs. */
  function Literal(pat: string): string -> nat
  {
    (t: string) => if |pat| > 0 && StartsWith(t, pat) then |pat| else 0
  }

  /** `s.replace(pat, rep)` for a non-empty `pat`. */
  function Replace(s: string, pat: string, rep: string): string
  {
    SubAll(s, Literal(pat), rep)
  }

  /** `str.replace` leaves a string without `pat` unchanged, and deleting an
      occurring `pat` always shortens the string. */
  lemma ReplaceDeletes(s: string, pat: string)
    requires |pat| > 0
    ensures Replace(s, pat, "") == s <==> !MatchesSomewhere(s, Literal(pat))
  {
    SubAllShrinks(s, Literal(pat), "");
  }
}
