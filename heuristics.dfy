/** The sentence clean-up of the summary generator: the regular-expression
    rewrites applied to a candidate sentence, the removal of a trailing
    attribution clause from an output line, and the token-level removal of
    adverbs. Each pattern is modelled by a matcher (`string -> nat`, the
    length of the match at the start of its argument, 0 for none) that
    reproduces how Python's `re` engine resolves that pattern: lazy `.*?`
    takes the nearest end, greedy `.*` the farthest, and `.` does not match
    a newline. Each matcher is proved equal to a plain description of the
    text it matches. */
module SentenceHeuristics {
  import opened Text
  import opened Collections

  // ---------------------------------------------------------------------
  // `[\(\[].*?[\)\]]` -> " "
  // ---------------------------------------------------------------------

  predicate IsOpener(c: char) { c == '(' || c == '[' }
  predicate IsCloser(c: char) { c == ')' || c == ']' }

  /** The nearest `)` or `]` of `t`, provided no newline comes before it. */
  function FindCloser(t: string): (r: Option<nat>)
    ensures r.Some? ==> r.value < |t| && IsCloser(t[r.value])
    ensures r.Some? ==> forall q :: 0 <= q < r.value ==> t[q] != '\n' && !IsCloser(t[q])
    ensures r.None? ==> forall k :: 0 <= k < |t| && IsCloser(t[k]) ==> '\n' in t[..k]
    decreases |t|
  {
    if |t| == 0 then None
    else if t[0] == '\n' then None
    else if IsCloser(t[0]) then Some(0)
    else
      match FindCloser(t[1..])
      case None =>
        assert forall k :: 1 <= k < |t| ==> t[1..][..k - 1] == t[1..k];
        None
      case Some(j) => Some(j + 1)
  }

  /** Matcher of `[\(\[].*?[\)\]]`. */
  function BracketMatch(s: string): nat
  {
    if |s| > 0 && IsOpener(s[0]) then
      match FindCloser(s[1..])
      case Some(j) => j + 2
      case None => 0
    else 0
  }

  /** The text `s[..k]` is an opening bracket, then no newline and no closing
      bracket, then a closing bracket: what the lazy pattern matches. */
  predicate BracketShape(s: string, k: nat)
  {
    && 2 <= k <= |s|
    && IsOpener(s[0]) && IsCloser(s[k - 1])
    && forall q :: 1 <= q < k - 1 ==> s[q] != '\n' && !IsCloser(s[q])
  }

  /** The bracket matcher finds exactly the bracketed span that the pattern
      matches, and nothing when there is none. */
  lemma BracketMatchShape(s: string, k: nat)
    ensures BracketMatch(s) == k && k > 0 <==> BracketShape(s, k)
  {
    if |s| > 0 && IsOpener(s[0]) {
      var t := s[1..];
      assert forall q :: 0 <= q < |t| ==> t[q] == s[q + 1];
      assert forall q :: 0 <= q < |t| ==> t[..q] == s[1..q + 1];
    }
  }

  /** `re.sub("[\(\[].*?[\)\]]", " ", s)` */
  function RemoveBrackets(s: string): string
  {
    SubAll(s, BracketMatch, " ")
  }

  /** Removing brackets never creates a closing bracket reachable without a newline. */
  lemma {:induction false} NoCloserPreserved(t: string)
    requires FindCloser(t).None?
    ensures FindCloser(RemoveBrackets(t)).None?
    decreases |t|
  {
    if |t| > 0 && t[0] != '\n' {
      assert !IsCloser(t[0]) && FindCloser(t[1..]).None?;
      assert BracketMatch(t) == 0;
      NoCloserPreserved(t[1..]);
      var r := RemoveBrackets(t[1..]);
      assert RemoveBrackets(t) == [t[0]] + r;
      assert ([t[0]] + r)[1..] == r;
    }
  }

  /** After the bracket pass no bracketed span is left: every opening bracket
      that survives has a newline before any closing bracket. */
  lemma {:induction false} NoBracketLeft(s: string)
    ensures !MatchesSomewhere(RemoveBrackets(s), BracketMatch)
    decreases |s|
  {
    if |s| > 0 {
      if 0 < BracketMatch(s) <= |s| {
        var rest := s[BracketMatch(s)..];
        NoBracketLeft(rest);
        MatchesSomewhereCons(' ', RemoveBrackets(rest), BracketMatch);
        assert ([' '] + RemoveBrackets(rest))[0..] == [' '] + RemoveBrackets(rest);
      } else {
        var r := RemoveBrackets(s[1..]);
        NoBracketLeft(s[1..]);
        MatchesSomewhereCons(s[0], r, BracketMatch);
        var t := [s[0]] + r;
        assert t[0..] == t && t[1..] == r;
        if IsOpener(s[0]) {
          NoCloserPreserved(s[1..]);
        }
      }
    }
  }

  // ---------------------------------------------------------------------
  // `([\-])\1.*\1\1` -> " "
  // ---------------------------------------------------------------------

  /** The first position at or after `j` holding a newline, or `|s|`. */
  function NewlineFrom(s: string, j: nat): (r: nat)
    requires j <= |s|
    ensures j <= r <= |s|
    ensures r < |s| ==> s[r] == '\n'
    ensures forall q :: j <= q < r ==> s[q] != '\n'
    decreases |s| - j
  {
    if j == |s| || s[j] == '\n' then j else NewlineFrom(s, j + 1)
  }

  predicate DashPairAt(s: string, p: nat)
  {
    p + 2 <= |s| && s[p] == '-' && s[p + 1] == '-'
  }

  /** The last `p` in `lo..hi` where `--` starts. */
  function LastDashPair(s: string, lo: nat, hi: nat): (r: Option<nat>)
    ensures r.Some? ==> lo <= r.value <= hi && DashPairAt(s, r.value)
    ensures r.Some? ==> forall p :: r.value < p <= hi ==> !DashPairAt(s, p)
    ensures r.None? ==> forall p :: lo <= p <= hi ==> !DashPairAt(s, p)
    decreases hi
  {
    if hi < lo then None
    else if DashPairAt(s, hi) then Some(hi)
    else if hi == lo then None
    else LastDashPair(s, lo, hi - 1)
  }

  /** Matcher of `([\-])\1.*\1\1`: `--`, then the longest newline-free run
      that is followed by `--`. */
  function DashMatch(s: string): nat
  {
    if DashPairAt(s, 0) then
      match LastDashPair(s, 2, NewlineFrom(s, 2))
      case Some(p) => p + 2
      case None => 0
    else 0
  }

  /** `s[..k]` is `--`, a newline-free run, `--`. */
  predicate DashShape(s: string, k: nat)
  {
    && 4 <= k <= |s|
    && DashPairAt(s, 0) && DashPairAt(s, k - 2)
    && forall q :: 2 <= q < k - 2 ==> s[q] != '\n'
  }

  /** The dash matcher finds the longest span of that shape (greedy `.*`),
      and nothing when there is none. */
  lemma DashMatchShape(s: string)
    ensures DashMatch(s) > 0 ==> DashShape(s, DashMatch(s))
    ensures forall k: nat :: DashShape(s, k) ==> k <= DashMatch(s)
  {
    if DashPairAt(s, 0) {
      var nl := NewlineFrom(s, 2);
      assert nl < |s| ==> s[nl] == '\n';
    }
  }

  /** `re.sub(r"([\-])\1.*\1\1", " ", s)` */
  function RemoveDashed(s: string): string
  {
    SubAll(s, DashMatch, " ")
  }

  // ---------------------------------------------------------------------
  // `, aged \d+,` -> ""
  // ---------------------------------------------------------------------

  /** Length of the run of characters satisfying `p` that starts at `j`. */
  function RunFrom(s: string, j: nat, p: char -> bool): (n: nat)
    requires j <= |s|
    ensures j + n <= |s|
    ensures forall q :: j <= q < j + n ==> p(s[q])
    ensures j + n < |s| ==> !p(s[j + n])
    decreases |s| - j
  {
    if j < |s| && p(s[j]) then 1 + RunFrom(s, j + 1, p) else 0
  }

  /** Matcher of `, aged \d+,` (ASCII digits). */
  function AgeMatch(s: string): nat
  {
    if StartsWith(s, ", aged ") then
      var d := RunFrom(s, 7, IsAsciiDigit);
      if d > 0 && 7 + d < |s| && s[7 + d] == ',' then 8 + d else 0
    else 0
  }

  /** `s[..k]` is `, aged `, one or more digits, `,`. */
  predicate AgeShape(s: string, k: nat)
  {
    && 9 <= k <= |s|
    && StartsWith(s, ", aged ") && s[k - 1] == ','
    && forall q :: 7 <= q < k - 1 ==> IsAsciiDigit(s[q])
  }

  /** The age matcher finds exactly the age clause the pattern matches. */
  lemma AgeMatchShape(s: string, k: nat)
    ensures AgeMatch(s) == k && k > 0 <==> AgeShape(s, k)
  {
    if AgeShape(s, k) {
      var d := RunFrom(s, 7, IsAsciiDigit);
      assert s[..7] == ", aged ";
    }
  }

  /** `re.sub(", aged \d+,", "", s)` */
  function RemoveAges(s: string): string
  {
    SubAll(s, AgeMatch, "")
  }

  // ---------------------------------------------------------------------
  // `, [a-z]+[ing][\sa-zA-Z\d]+,` -> ""
  // ---------------------------------------------------------------------

  /** The class `[\sa-zA-Z\d]` (ASCII letters and digits, Unicode space). */
  predicate InWordClass(c: char)
  {
    IsSpace(c) || IsAsciiLower(c) || IsAsciiUpper(c) || IsAsciiDigit(c)
  }

  predicate IsIng(c: char) { c == 'i' || c == 'n' || c == 'g' }

  /** The letter `s[2 + p]` of `ing` ends a lower-case prefix of length `p`
      of the run of `l` lower-case letters after `, `, and leaves at least one
      character of the class run of length `e` after it. */
  predicate IngSplit(s: string, p: nat, l: nat, e: nat)
  {
    1 <= p < l && p + 2 <= e && 2 + p < |s| && IsIng(s[2 + p])
  }

  /** Matcher of `, [a-z]+[ing][\sa-zA-Z\d]+,`. After `, `, the class run
      must end at a comma, and some letter of `ing` must sit inside the
      initial lower-case run, after at least one letter and before at least
      one more character of the run. */
  function GerundMatch(s: string): nat
  {
    if StartsWith(s, ", ") then
      var e := RunFrom(s, 2, InWordClass);
      var l := RunFrom(s, 2, IsAsciiLower);
      if 2 + e < |s| && s[2 + e] == ',' && exists p: nat | p < l :: IngSplit(s, p, l, e) then e + 3
      else 0
    else 0
  }

  /** `s[..k]` is `, `, lower-case letters `s[2..2+p]` (at least one), a letter
      of `ing`, one or more class characters, `,`. */
  predicate GerundShape(s: string, p: nat, k: nat)
  {
    && 6 <= k <= |s|
    && StartsWith(s, ", ") && s[k - 1] == ','
    && 1 <= p && 2 + p + 1 < k - 1
    && (forall q :: 2 <= q < 2 + p ==> IsAsciiLower(s[q]))
    && IsIng(s[2 + p])
    && (forall q :: 2 + p < q < k - 1 ==> InWordClass(s[q]))
  }

  /** The gerund matcher finds exactly the clause the pattern matches: every
      way of reading the pattern into the text ends at the same comma. */
  lemma GerundMatchShape(s: string, k: nat)
    ensures GerundMatch(s) == k && k > 0 <==> exists p: nat :: GerundShape(s, p, k)
  {
    if GerundMatch(s) == k && k > 0 {
      var p := GerundMatchIsShape(s);
    }
    if exists p: nat :: GerundShape(s, p, k) {
      var p: nat :| GerundShape(s, p, k);
      GerundShapeIsMatch(s, p, k);
    }
  }

  /** A match has the pattern's shape, with some split of the letters. */
  lemma GerundMatchIsShape(s: string) returns (p: nat)
    requires GerundMatch(s) > 0
    ensures GerundShape(s, p, GerundMatch(s))
  {
    var e := RunFrom(s, 2, InWordClass);
    var l := RunFrom(s, 2, IsAsciiLower);
    assert s[..2] == ", ";
    assert l <= e;
    p :| p < l && IngSplit(s, p, l, e);
  }

  /** Any reading of the pattern into the text is the match. */
  lemma GerundShapeIsMatch(s: string, p: nat, k: nat)
    requires GerundShape(s, p, k)
    ensures GerundMatch(s) == k
  {
    var e := RunFrom(s, 2, InWordClass);
    var l := RunFrom(s, 2, IsAsciiLower);
    assert forall q :: 2 <= q < k - 1 ==> InWordClass(s[q]) by {
      forall q | 2 <= q < k - 1 ensures InWordClass(s[q]) {
        if q < 2 + p {
          assert IsAsciiLower(s[q]);
        }
      }
    }
    assert e == k - 3;
    assert IngSplit(s, p, l, e);
  }

  /** `re.sub(", [a-z]+[ing][\sa-zA-Z\d]+,", "", s)` */
  function RemoveGerunds(s: string): string
  {
    SubAll(s, GerundMatch, "")
  }

  // ---------------------------------------------------------------------
  // apply_heuristics_to_sentence
  // ---------------------------------------------------------------------

  /** The fixed phrases deleted from every candidate, in order. */
  function RemovePhrases(s: string): string
  {
    var s1 := Replace(s, "As a matter of fact, ", "");
    var s2 := Replace(s1, "At this point, ", "");
    var s3 := Replace(s2, ", however,", "");
    Replace(s3, ", also, ", "")
  }

  /** The clean-up of one candidate sentence: brackets and dashed asides
      become a space, fixed phrases, age clauses and gerund clauses go, and
      the result carries no leading or trailing whitespace. */
  function ApplyHeuristicsToSentence(s: string): string
  {
    Strip(RemoveGerunds(RemoveAges(RemovePhrases(RemoveDashed(RemoveBrackets(s))))))
  }

  /** The cleaned sentence carries no leading or trailing whitespace. */
  lemma SentenceTrimmed(s: string)
    ensures var r := ApplyHeuristicsToSentence(s);
            r == "" || (!IsSpace(r[0]) && !IsSpace(r[|r| - 1]))
  {
    StripSpec(RemoveGerunds(RemoveAges(RemovePhrases(RemoveDashed(RemoveBrackets(s))))));
  }

  /** The passes after the phrase removal only delete text. */
  lemma SentenceNeverLonger(s: string)
    ensures |ApplyHeuristicsToSentence(s)| <= |RemovePhrases(RemoveDashed(RemoveBrackets(s)))|
  {
    var t := RemovePhrases(RemoveDashed(RemoveBrackets(s)));
    var a := RemoveAges(t);
    var g := RemoveGerunds(a);
    SubAllShrinks(t, AgeMatch, "");
    SubAllShrinks(a, GerundMatch, "");
    StripSpec(g);
    assert ApplyHeuristicsToSentence(s) == Strip(g);
  }

  /** Each deletion pass leaves a sentence alone exactly when the pattern does
      not occur in it, and otherwise shortens it. */
  lemma DeletionsShorten(s: string)
    ensures RemoveAges(s) == s <==> !MatchesSomewhere(s, AgeMatch)
    ensures |RemoveAges(s)| <= |s|
    ensures RemoveGerunds(s) == s <==> !MatchesSomewhere(s, GerundMatch)
    ensures |RemoveGerunds(s)| <= |s|
  {
    SubAllShrinks(s, AgeMatch, "");
    SubAllShrinks(s, GerundMatch, "");
  }

  // ---------------------------------------------------------------------
  // strip_attribution: `[,]([^,'"]*?)[.]$` searched in an output line
  // ---------------------------------------------------------------------

  /** Where `$` matches: at the end, or just before a final newline. */
  predicate EndAnchor(s: string, j: nat)
  {
    j == |s| || (j + 1 == |s| && s[j] == '\n')
  }

  /** A character of the class `[^,'"]`. */
  predicate ClauseChar(c: char)
  {
    c != ',' && c != '\'' && c != '"'
  }

  /** The pattern matches `s[i..k+1]`: a comma, a run free of commas and
      quotes, and a period that `$` may follow. */
  predicate AttributionAt(s: string, i: nat, k: nat)
  {
    && i < k < |s|
    && s[i] == ',' && s[k] == '.' && EndAnchor(s, k + 1)
    && forall q :: i < q < k ==> ClauseChar(s[q])
  }

  /** The period a match must end with, if the line has one. */
  function FinalPeriod(s: string): (r: Option<nat>)
    ensures r.Some? ==> r.value < |s| && s[r.value] == '.' && EndAnchor(s, r.value + 1)
    ensures forall k: nat :: k < |s| && s[k] == '.' && EndAnchor(s, k + 1) ==> r == Some(k)
  {
    if |s| >= 1 && s[|s| - 1] == '.' then Some(|s| - 1)
    else if |s| >= 2 && s[|s| - 1] == '\n' && s[|s| - 2] == '.' then Some(|s| - 2)
    else None
  }

  /** The last comma of `s[..k]`. */
  function LastCommaBefore(s: string, k: nat): (r: Option<nat>)
    requires k <= |s|
    ensures r.Some? ==> r.value < k && s[r.value] == ','
    ensures r.Some? ==> forall q :: r.value < q < k ==> s[q] != ','
    ensures r.None? ==> forall q :: 0 <= q < k ==> s[q] != ','
    decreases k
  {
    if k == 0 then None
    else if s[k - 1] == ',' then Some(k - 1)
    else LastCommaBefore(s, k - 1)
  }

  /** The span `(i, k)` that `attribution_pattern.search` finds in `s`. */
  function AttributionSpan(s: string): Option<(nat, nat)>
  {
    match FinalPeriod(s)
    case None => None
    case Some(k) =>
      match LastCommaBefore(s, k)
      case None => None
      case Some(i) =>
        if forall q :: i < q < k ==> ClauseChar(s[q]) then Some((i, k)) else None
  }

  /** The search finds a span exactly when the pattern matches there; since
      the period is pinned to the end and the clause holds no comma, there is
      at most one such span, so leftmost and lazy matching do not matter. */
  lemma AttributionSpanExact(s: string, i: nat, k: nat)
    ensures AttributionSpan(s) == Some((i, k)) <==> AttributionAt(s, i, k)
  {
    if AttributionAt(s, i, k) {
      assert FinalPeriod(s) == Some(k);
      var c := LastCommaBefore(s, k);
      assert c.Some?;
    }
  }

  /** The clause names its source and is short enough to go. */
  predicate IsAttribution(clause: string, n: int, tokenize: string -> seq<string>)
  {
    && (Contains(clause, "said") || Contains(clause, "stated") || Contains(clause, "according"))
    && |tokenize(clause)| <= n
  }

  /** `strip_attribution(line, n)`: a short trailing ", ... said." clause is
      replaced by a period. `tokenize` is `word_tokenize`. */
  function StripAttribution(line: string, n: int, tokenize: string -> seq<string>): string
  {
    match AttributionSpan(line)
    case None => line
    case Some((i, k)) =>
      if IsAttribution(line[i + 1..k], n, tokenize) then line[..i] + "." + line[k + 1..] else line
  }

  /** The line changes exactly when it ends in an attribution clause. */
  lemma StripAttributionChanges(line: string, n: int, tokenize: string -> seq<string>)
    ensures StripAttribution(line, n, tokenize) != line <==>
            exists i: nat, k: nat :: AttributionAt(line, i, k) && IsAttribution(line[i + 1..k], n, tokenize)
  {
    match AttributionSpan(line)
    case None => {
      forall i: nat, k: nat | AttributionAt(line, i, k) ensures false {
        AttributionSpanExact(line, i, k);
      }
    }
    case Some((i, k)) => {
      AttributionSpanExact(line, i, k);
      forall i': nat, k': nat | AttributionAt(line, i', k') ensures i' == i && k' == k {
        AttributionSpanExact(line, i', k');
      }
      assert |line[..i] + "." + line[k + 1..]| < |line|;
    }
  }

  /** A line ending in an attribution clause becomes the text before the
      clause's comma, a period, and the final newline if there was one. */
  lemma StripAttributionResult(line: string, n: int, tokenize: string -> seq<string>, i: nat, k: nat)
    requires AttributionAt(line, i, k) && IsAttribution(line[i + 1..k], n, tokenize)
    ensures StripAttribution(line, n, tokenize) == line[..i] + "." + line[k + 1..]
  {
    AttributionSpanExact(line, i, k);
  }

  // ---------------------------------------------------------------------
  // apply_heuristics_to_tokens
  // ---------------------------------------------------------------------

  /** Token `j` is popped: its tag contains `RB`, and it is not the
      second-to-last token. */
  predicate Dropped(tags: seq<string>, j: nat)
  {
    j < |tags| && Contains(tags[j], "RB") && j != |tags| - 2
  }

  predicate Increasing(xs: seq<nat>)
  {
    forall a, b :: 0 <= a < b < |xs| ==> xs[a] < xs[b]
  }

  /** `[i for i in range(j, len(tags)) if 'RB' in tags[i]]` */
  function AdverbIndices(tags: seq<string>, j: nat): (r: seq<nat>)
    requires j <= |tags|
    ensures forall x :: x in r <==> j <= x < |tags| && Contains(tags[x], "RB")
    ensures Increasing(r)
    ensures forall t :: 0 <= t < |r| ==> j <= r[t]
    decreases |tags| - j
  {
    if j == |tags| then []
    else (if Contains(tags[j], "RB") then [j] else []) + AdverbIndices(tags, j + 1)
  }

  /** `xs.remove(x)` on a list without repetitions. */
  function RemoveValue(xs: seq<nat>, x: nat): (r: seq<nat>)
    requires Increasing(xs)
    ensures Increasing(r)
    ensures forall y :: y in r <==> y in xs && y != x
  {
    if |xs| == 0 then []
    else
      IncreasingTail(xs);
      if xs[0] == x then xs[1..]
      else
        var rest := RemoveValue(xs[1..], x);
        IncreasingCons(xs, rest);
        [xs[0]] + rest
  }

  /** The tail of an increasing list is increasing, and every element of it
      exceeds the head. */
  lemma IncreasingTail(xs: seq<nat>)
    requires |xs| > 0 && Increasing(xs)
    ensures Increasing(xs[1..])
    ensures forall y :: y in xs <==> y == xs[0] || y in xs[1..]
  {
    assert xs == [xs[0]] + xs[1..];
  }

  /** The head of an increasing list put before an increasing list drawn
      from its tail gives an increasing list. */
  lemma IncreasingCons(xs: seq<nat>, rest: seq<nat>)
    requires |xs| > 0 && Increasing(xs) && Increasing(rest)
    requires forall y :: y in rest ==> y in xs[1..]
    ensures Increasing([xs[0]] + rest)
  {
    forall t | 0 <= t < |rest| ensures xs[0] < rest[t] {
      assert rest[t] in rest;
      var u :| 0 <= u < |xs[1..]| && xs[1..][u] == rest[t];
      assert rest[t] == xs[u + 1];
    }
  }

  /** `adverb_indices` once the second-to-last position is taken out: the
      positions that are popped. */
  function AdverbsToPop(tags: seq<string>): (r: seq<nat>)
    ensures forall x: nat :: x in r <==> Dropped(tags, x)
  {
    var adverbs := AdverbIndices(tags, 0);
    if |tags| >= 2 && |tags| - 2 in adverbs then RemoveValue(adverbs, |tags| - 2) else adverbs
  }

  /** The tokens at positions `j..` that survive, in order. */
  function KeptFrom(tokens: seq<string>, tags: seq<string>, j: nat): (r: seq<string>)
    requires j <= |tokens|
    decreases |tokens| - j
  {
    if j == |tokens| then []
    else (if Dropped(tags, j) then [] else [tokens[j]]) + KeptFrom(tokens, tags, j + 1)
  }

  /** The positions `j..` that survive, in order. */
  function KeptIndices(tags: seq<string>, j: nat): (r: seq<nat>)
    requires j <= |tags|
    decreases |tags| - j
  {
    if j == |tags| then []
    else (if Dropped(tags, j) then [] else [j]) + KeptIndices(tags, j + 1)
  }

  /** Number of popped positions among `j..`. */
  function DroppedCount(tags: seq<string>, j: nat): nat
    requires j <= |tags|
    decreases |tags| - j
  {
    if j == |tags| then 0 else (if Dropped(tags, j) then 1 else 0) + DroppedCount(tags, j + 1)
  }

  /** As many tokens survive as there are kept positions: the tokens less
      the popped ones. */
  lemma {:induction false} KeptLength(tokens: seq<string>, tags: seq<string>, j: nat)
    requires |tags| == |tokens| && j <= |tokens|
    ensures |KeptFrom(tokens, tags, j)| == |KeptIndices(tags, j)| == |tokens| - j - DroppedCount(tags, j)
    decreases |tokens| - j
  {
    if j < |tokens| {
      KeptLength(tokens, tags, j + 1);
    }
  }

  /** The kept positions are the positions not popped. */
  lemma {:induction false} KeptIndicesMembers(tags: seq<string>, j: nat)
    requires j <= |tags|
    ensures forall x: nat :: x in KeptIndices(tags, j) <==> j <= x < |tags| && !Dropped(tags, x)
    decreases |tags| - j
  {
    if j < |tags| {
      KeptIndicesMembers(tags, j + 1);
      var here: seq<nat> := if Dropped(tags, j) then [] else [j];
      assert KeptIndices(tags, j) == here + KeptIndices(tags, j + 1);
    }
  }

  /** The kept positions come in increasing order, from `j` on. */
  lemma {:induction false} KeptIndicesIncreasing(tags: seq<string>, j: nat)
    requires j <= |tags|
    ensures Increasing(KeptIndices(tags, j))
    ensures forall t :: 0 <= t < |KeptIndices(tags, j)| ==> j <= KeptIndices(tags, j)[t]
    decreases |tags| - j
  {
    if j < |tags| {
      KeptIndicesIncreasing(tags, j + 1);
    }
  }

  /** The survivors are the tokens at the kept positions. */
  lemma {:induction false} KeptAt(tokens: seq<string>, tags: seq<string>, j: nat)
    requires |tags| == |tokens| && j <= |tokens|
    ensures |KeptFrom(tokens, tags, j)| == |KeptIndices(tags, j)|
    ensures forall t :: 0 <= t < |KeptIndices(tags, j)| ==>
              KeptIndices(tags, j)[t] < |tokens| && KeptFrom(tokens, tags, j)[t] == tokens[KeptIndices(tags, j)[t]]
    decreases |tokens| - j
  {
    KeptLength(tokens, tags, j);
    if j < |tokens| {
      KeptAt(tokens, tags, j + 1);
    }
  }

  /** `apply_heuristics_to_tokens` as a value: the survivors with the first
      one capitalised; `None` where indexing the first token raises because
      nothing survives. */
  function CleanTokens(tokens: seq<string>, tags: seq<string>): Option<seq<string>>
  {
    var kept := KeptFrom(tokens, tags, 0);
    if |kept| == 0 then None else Some(kept[0 := Capitalize(kept[0])])
  }

  /** `apply_heuristics_to_tokens(tokens)`, with `tags` the tags `pos_tag`
      gives the tokens: collect the adverb positions, keep the second-to-last
      token, pop the rest from the back, capitalise the first token. */
  method ApplyHeuristicsToTokens(tokens: seq<string>, tags: seq<string>) returns (r: Option<seq<string>>)
    requires |tags| == |tokens|
    ensures r == CleanTokens(tokens, tags)
  {
    var adverbs := AdverbsToPop(tags);
    var cur := tokens;
    var i := |tokens|;
    while i > 0
      invariant 0 <= i <= |tokens|
      invariant cur == tokens[..i] + KeptFrom(tokens, tags, i)
    {
      i := i - 1;
      PopStep(tokens, tags, i, cur);
      if i in adverbs {
        cur := cur[..i] + cur[i + 1..];
      }
    }
    assert cur == KeptFrom(tokens, tags, 0);
    if |cur| == 0 {
      return None;
    }
    cur := cur[0 := Capitalize(cur[0])];
    return Some(cur);
  }

  /** One turn of the popping loop, from the back: position `i` goes exactly
      when it is popped. */
  lemma PopStep(tokens: seq<string>, tags: seq<string>, i: nat, cur: seq<string>)
    requires |tags| == |tokens| && i < |tokens|
    requires cur == tokens[..i + 1] + KeptFrom(tokens, tags, i + 1)
    ensures i < |cur|
    ensures Dropped(tags, i) ==> cur[..i] + cur[i + 1..] == tokens[..i] + KeptFrom(tokens, tags, i)
    ensures !Dropped(tags, i) ==> cur == tokens[..i] + KeptFrom(tokens, tags, i)
  {
    var rest := KeptFrom(tokens, tags, i + 1);
    var front := tokens[..i];
    assert |front| == i;
    assert tokens[..i + 1] == front + [tokens[i]];
    AppendAssoc(front, [tokens[i]], rest);
    assert cur == front + ([tokens[i]] + rest);
    if Dropped(tags, i) {
      assert KeptFrom(tokens, tags, i) == rest;
      assert cur[..i] == front;
      assert cur[i + 1..] == rest;
    } else {
      assert KeptFrom(tokens, tags, i) == [tokens[i]] + rest;
    }
  }

  /** What the cleaned token list is: the tokens at the kept positions in
      order, the first capitalised, with the second-to-last token always
      among them; it is missing exactly when every token is popped. */
  lemma CleanTokensSpec(tokens: seq<string>, tags: seq<string>)
    requires |tags| == |tokens|
    ensures var ks := KeptIndices(tags, 0);
            var r := CleanTokens(tokens, tags);
            && (r.None? <==> |ks| == 0)
            && (r.Some? ==> |r.value| == |ks| == |tokens| - DroppedCount(tags, 0))
            && (forall t :: 0 <= t < |ks| ==> ks[t] < |tokens|)
            && (r.Some? ==> r.value[0] == Capitalize(tokens[ks[0]]))
            && (r.Some? ==> forall t :: 1 <= t < |ks| ==> r.value[t] == tokens[ks[t]])
            && (|tokens| >= 2 ==> |tokens| - 2 in ks)
            && (forall x: nat :: x in ks <==> x < |tokens| && !Dropped(tags, x))
            && Increasing(ks)
  {
    KeptLength(tokens, tags, 0);
    KeptIndicesMembers(tags, 0);
    KeptIndicesIncreasing(tags, 0);
    KeptAt(tokens, tags, 0);
  }
}
