/** The topic-term table the three LDA scorers share. An LDA model's topic
    is shown as `w1*"t1" + w2*"t2" + ...`; the scorers split it on `+`, take
    the text left of `*` as the weight and the text right of it, with quotes
    removed and stripped, as the term. A topic's score for a sentence sums
    the topic's weights over the distinct lemmas the sentence shares with
    the topic's terms. */
module TopicTerms {
  import opened Text
  import opened Collections

  // ---------------------------------------------------------------------
  // Parsing a topic string
  // ---------------------------------------------------------------------

  /** One `weight*"term"` piece: the weight text and the term; `None` when the
      piece has no `*` (indexing the split raises). */
  function ParseTermPiece(piece: string): Option<(string, string)>
  {
    var halves := Split(piece, '*');
    if |halves| < 2 then None
    else Some((halves[0], Strip(RemoveChar(halves[1], '"'))))
  }

  /** Every `+` piece of a topic string, parsed in order. */
  function ParsePieces(pieces: seq<string>): (r: Option<seq<(string, string)>>)
    ensures r.Some? ==> |r.value| == |pieces|
  {
    if |pieces| == 0 then Some([])
    else
      match ParseTermPiece(pieces[0])
      case None => None
      case Some(p) =>
        match ParsePieces(pieces[1..])
        case None => None
        case Some(ps) => Some([p] + ps)
  }

  /** The (weight text, term) pairs of a topic string. */
  function ParseTopicTerms(s: string): Option<seq<(string, string)>>
  {
    ParsePieces(Split(s, '+'))
  }

  /** One piece parses exactly when it holds a `*`; the weight text is what
      precedes its first `*`, and the term is free of quotes and of
      surrounding whitespace. */
  lemma ParseTermPieceSpec(piece: string)
    ensures ParseTermPiece(piece).Some? <==> '*' in piece
    ensures ParseTermPiece(piece).Some? ==>
              var p := ParseTermPiece(piece).value;
              && '*' !in p.0 && StartsWith(piece, p.0 + "*")
              && '"' !in p.1 && (p.1 == "" || (!IsSpace(p.1[0]) && !IsSpace(p.1[|p.1| - 1])))
  {
    var halves := Split(piece, '*');
    SplitHasSecond(piece, '*');
    if |halves| >= 2 {
      SplitFirstPrefix(piece, '*');
      var q := RemoveChar(halves[1], '"');
      StripSpec(q);
      StripKeepsOut(q, '"');
      assert piece[..|halves[0]| + 1] == halves[0] + "*";
    }
  }

  /** A parsed topic holds, at each position, the parse of that piece. */
  lemma {:induction false} ParsePiecesAt(pieces: seq<string>)
    ensures ParsePieces(pieces).Some? <==> forall k :: 0 <= k < |pieces| ==> ParseTermPiece(pieces[k]).Some?
    ensures ParsePieces(pieces).Some? ==>
              forall k :: 0 <= k < |pieces| ==> ParsePieces(pieces).value[k] == ParseTermPiece(pieces[k]).value
    decreases |pieces|
  {
    if |pieces| > 0 {
      ParsePiecesAt(pieces[1..]);
      assert forall k :: 1 <= k < |pieces| ==> pieces[k] == pieces[1..][k - 1];
    }
  }

  /** The pieces of a topic string parse exactly when every one holds a `*`,
      and then each pair comes from its own piece as `ParseTermPieceSpec`
      says. */
  lemma ParsePiecesSpec(pieces: seq<string>)
    ensures ParsePieces(pieces).Some? <==> forall k :: 0 <= k < |pieces| ==> '*' in pieces[k]
    ensures ParsePieces(pieces).Some? ==>
              forall k :: 0 <= k < |pieces| ==>
                ParseTermPiece(pieces[k]).Some? && ParsePieces(pieces).value[k] == ParseTermPiece(pieces[k]).value
  {
    ParsePiecesAt(pieces);
    forall k | 0 <= k < |pieces| ensures ParseTermPiece(pieces[k]).Some? <==> '*' in pieces[k] {
      ParseTermPieceSpec(pieces[k]);
    }
  }

  /** Stripping never brings in a character that was not there. */
  lemma StripKeepsOut(s: string, c: char)
    requires c !in s
    ensures c !in Strip(s)
  {
    var i := LeadingSpace(s);
    var e := |s| - TrailingSpace(s);
    if e > i {
      assert Strip(s) == s[i..e];
    }
  }

  // ---------------------------------------------------------------------
  // Round trip
  // ---------------------------------------------------------------------

  /** How a model shows one term: `weight*"term"`. */
  function ShowTerm(p: (string, string)): string
  {
    p.0 + "*\"" + p.1 + "\""
  }

  /** How a model shows a topic: its terms joined by `+`. */
  function ShowTopic(pairs: seq<(string, string)>): string
  {
    Join(seq(|pairs|, i requires 0 <= i < |pairs| => ShowTerm(pairs[i])), '+')
  }

  /** A pair the shown form can carry: no `*` or `+` in the weight text, and a
      term with no `*`, `+` or quote and no surrounding whitespace. */
  predicate Showable(p: (string, string))
  {
    && '*' !in p.0 && '+' !in p.0
    && '*' !in p.1 && '+' !in p.1 && '"' !in p.1
    && (p.1 == "" || (!IsSpace(p.1[0]) && !IsSpace(p.1[|p.1| - 1])))
  }

  lemma {:induction false} RemoveCharAbsent(s: string, c: char)
    requires c !in s
    ensures RemoveChar(s, c) == s
    decreases |s|
  {
    if |s| > 0 {
      RemoveCharAbsent(s[1..], c);
      assert s == [s[0]] + s[1..];
    }
  }

  lemma {:induction false} RemoveCharAppend(a: string, b: string, c: char)
    ensures RemoveChar(a + b, c) == RemoveChar(a, c) + RemoveChar(b, c)
    decreases |a|
  {
    if |a| > 0 {
      RemoveCharAppend(a[1..], b, c);
      assert (a + b)[0] == a[0];
      assert (a + b)[1..] == a[1..] + b;
      var h := if a[0] == c then "" else [a[0]];
      calc {
        RemoveChar(a + b, c);
        h + RemoveChar(a[1..] + b, c);
        h + (RemoveChar(a[1..], c) + RemoveChar(b, c));
        (h + RemoveChar(a[1..], c)) + RemoveChar(b, c);
        RemoveChar(a, c) + RemoveChar(b, c);
      }
    } else {
      assert a + b == b;
    }
  }

  /** A string that neither starts nor ends with whitespace is its own strip. */
  lemma StripTrimmed(s: string)
    requires s == "" || (!IsSpace(s[0]) && !IsSpace(s[|s| - 1]))
    ensures Strip(s) == s
  {
    assert LeadingSpace(s) == 0;
    assert TrailingSpace(s) == 0;
    assert s[0..|s|] == s;
  }

  /** One shown term parses back to itself. */
  lemma ParseShowTerm(p: (string, string))
    requires Showable(p)
    ensures ParseTermPiece(ShowTerm(p)) == Some(p)
  {
    var q := "\"" + p.1 + "\"";
    assert ShowTerm(p) == Join([p.0, q], '*');
    assert '*' !in q;
    SplitJoin([p.0, q], '*');
    Unquote(p.1);
    StripTrimmed(p.1);
  }

  /** Removing the quotes around a quote-free term gives the term back. */
  lemma Unquote(t: string)
    requires '"' !in t
    ensures RemoveChar("\"" + t + "\"", '"') == t
  {
    RemoveCharAppend("\"" + t, "\"", '"');
    RemoveCharAppend("\"", t, '"');
    RemoveCharAbsent(t, '"');
    assert RemoveChar("\"", '"') == "";
  }

  /** Parsing a shown topic gives back its pairs. */
  lemma {:induction false} ParseShowTopic(pairs: seq<(string, string)>)
    requires |pairs| > 0
    requires forall k :: 0 <= k < |pairs| ==> Showable(pairs[k])
    ensures ParseTopicTerms(ShowTopic(pairs)) == Some(pairs)
  {
    var shown := seq(|pairs|, i requires 0 <= i < |pairs| => ShowTerm(pairs[i]));
    forall k | 0 <= k < |shown| ensures '+' !in shown[k] {
      assert shown[k] == pairs[k].0 + ("*\"" + pairs[k].1 + "\"");
    }
    SplitJoin(shown, '+');
    ParseShownPieces(pairs, shown);
  }

  lemma {:induction false} ParseShownPieces(pairs: seq<(string, string)>, shown: seq<string>)
    requires |shown| == |pairs|
    requires forall k :: 0 <= k < |pairs| ==> Showable(pairs[k]) && shown[k] == ShowTerm(pairs[k])
    ensures ParsePieces(shown) == Some(pairs)
    decreases |pairs|
  {
    if |pairs| > 0 {
      ParseShowTerm(pairs[0]);
      ParseShownPieces(pairs[1..], shown[1..]);
      assert pairs == [pairs[0]] + pairs[1..];
    }
  }

  // ---------------------------------------------------------------------
  // The topic-term table
  // ---------------------------------------------------------------------

  /** The pairs `i..` stored into `table` in order, each weight converted
      with `conv`; `None` where a conversion raises (`float()` on a bad
      weight). A term seen again overwrites its weight. */
  function TermTableFrom<W>(pairs: seq<(string, string)>, conv: string -> Option<W>, i: nat, table: map<string, W>): Option<map<string, W>>
    requires i <= |pairs|
    decreases |pairs| - i
  {
    if i == |pairs| then Some(table)
    else
      match conv(pairs[i].0)
      case None => None
      case Some(w) => TermTableFrom(pairs, conv, i + 1, table[pairs[i].1 := w])
  }

  /** The table of one topic. */
  function TermTable<W>(pairs: seq<(string, string)>, conv: string -> Option<W>): Option<map<string, W>>
  {
    TermTableFrom(pairs, conv, 0, map[])
  }

  /** Whether `k` is the last position of `pairs` holding term `t`. */
  predicate LastTermAt(pairs: seq<(string, string)>, t: string, k: nat)
  {
    k < |pairs| && pairs[k].1 == t && forall k' :: k < k' < |pairs| ==> pairs[k'].1 != t
  }

  /** The table exists exactly when every weight converts. */
  lemma {:induction false} TermTableFromSome<W>(pairs: seq<(string, string)>, conv: string -> Option<W>, i: nat, table: map<string, W>)
    requires i <= |pairs|
    ensures TermTableFrom(pairs, conv, i, table).Some? <==> forall k :: i <= k < |pairs| ==> conv(pairs[k].0).Some?
    decreases |pairs| - i
  {
    if i < |pairs| && conv(pairs[i].0).Some? {
      TermTableFromSome(pairs, conv, i + 1, table[pairs[i].1 := conv(pairs[i].0).value]);
    }
  }

  /** The terms of the table are exactly the pairs' terms (and those already
      there), and each holds the weight of its last pair. */
  lemma {:induction false} TermTableFromSpec<W>(pairs: seq<(string, string)>, conv: string -> Option<W>, i: nat, table: map<string, W>)
    requires i <= |pairs| && forall k :: i <= k < |pairs| ==> conv(pairs[k].0).Some?
    ensures TermTableFrom(pairs, conv, i, table).Some?
    ensures var r := TermTableFrom(pairs, conv, i, table).value;
            && (forall t :: t in r <==> t in table || exists k :: i <= k < |pairs| && pairs[k].1 == t)
            && (forall k :: i <= k < |pairs| && LastTermAt(pairs, pairs[k].1, k) ==> r[pairs[k].1] == conv(pairs[k].0).value)
            && (forall t :: t in table && (forall k :: i <= k < |pairs| ==> pairs[k].1 != t) ==> r[t] == table[t])
    decreases |pairs| - i
  {
    if i < |pairs| {
      var table' := table[pairs[i].1 := conv(pairs[i].0).value];
      TermTableFromSpec(pairs, conv, i + 1, table');
    }
  }

  /** For a whole topic, starting from the empty table. */
  lemma TermTableSpec<W>(pairs: seq<(string, string)>, conv: string -> Option<W>)
    ensures TermTable(pairs, conv).Some? <==> forall k :: 0 <= k < |pairs| ==> conv(pairs[k].0).Some?
    ensures TermTable(pairs, conv).Some? ==>
              var r := TermTable(pairs, conv).value;
              && (forall t :: t in r <==> exists k :: 0 <= k < |pairs| && pairs[k].1 == t)
              && (forall k :: 0 <= k < |pairs| && LastTermAt(pairs, pairs[k].1, k) ==> r[pairs[k].1] == conv(pairs[k].0).value)
  {
    TermTableFromSome(pairs, conv, 0, map[]);
    if TermTable(pairs, conv).Some? {
      TermTableFromSpec(pairs, conv, 0, map[]);
    }
  }

  /** The terms of all topics, in order, with repeats (`rel_terms`). */
  function AllTerms(pairs: seq<(string, string)>): (r: seq<string>)
    ensures |r| == |pairs| && forall k :: 0 <= k < |pairs| ==> r[k] == pairs[k].1
  {
    seq(|pairs|, k requires 0 <= k < |pairs| => pairs[k].1)
  }

  /** The table of every topic `show_topics` lists, by topic id, from
      position `i` on, each topic string read with `parse`; a topic id listed
      again is rebuilt from scratch. */
  function TopicTableFrom<W>(topics: seq<(int, string)>, parse: string -> Option<seq<(string, string)>>, conv: string -> Option<W>,
                             i: nat, acc: map<int, map<string, W>>): Option<map<int, map<string, W>>>
    requires i <= |topics|
    decreases |topics| - i
  {
    if i == |topics| then Some(acc)
    else
      match parse(topics[i].1)
      case None => None
      case Some(pairs) =>
        match TermTable(pairs, conv)
        case None => None
        case Some(t) => TopicTableFrom(topics, parse, conv, i + 1, acc[topics[i].0 := t])
  }

  /** `topic_term_dict`, built from `show_topics`. */
  function TopicTable<W>(topics: seq<(int, string)>, conv: string -> Option<W>): Option<map<int, map<string, W>>>
  {
    TopicTableFrom(topics, ParseTopicTerms, conv, 0, map[])
  }

  /** The table exists exactly when every listing parses and converts. */
  lemma {:induction false} TopicTableFromSome<W>(topics: seq<(int, string)>, parse: string -> Option<seq<(string, string)>>, conv: string -> Option<W>,
                                                 i: nat, acc: map<int, map<string, W>>)
    requires i <= |topics|
    ensures TopicTableFrom(topics, parse, conv, i, acc).Some? <==>
              forall k :: i <= k < |topics| ==> parse(topics[k].1).Some? && TermTable(parse(topics[k].1).value, conv).Some?
    decreases |topics| - i
  {
    if i < |topics| {
      var pairs := parse(topics[i].1);
      if pairs.Some? && TermTable(pairs.value, conv).Some? {
        TopicTableFromSome(topics, parse, conv, i + 1, acc[topics[i].0 := TermTable(pairs.value, conv).value]);
      }
    }
  }

  /** The topic ids of the table are those listed; each topic's table is the
      one of its last listing. */
  lemma {:induction false} TopicTableFromSpec<W>(topics: seq<(int, string)>, parse: string -> Option<seq<(string, string)>>, conv: string -> Option<W>,
                                                 i: nat, acc: map<int, map<string, W>>)
    requires i <= |topics|
    requires forall k :: i <= k < |topics| ==> parse(topics[k].1).Some? && TermTable(parse(topics[k].1).value, conv).Some?
    ensures TopicTableFrom(topics, parse, conv, i, acc).Some?
    ensures var r := TopicTableFrom(topics, parse, conv, i, acc).value;
            && (forall id :: id in r <==> id in acc || exists k :: i <= k < |topics| && topics[k].0 == id)
            && (forall k :: i <= k < |topics| && (forall k' :: k < k' < |topics| ==> topics[k'].0 != topics[k].0) ==>
                  r[topics[k].0] == TermTable(parse(topics[k].1).value, conv).value)
            && (forall id :: id in acc && (forall k :: i <= k < |topics| ==> topics[k].0 != id) ==> r[id] == acc[id])
    decreases |topics| - i
  {
    if i < |topics| {
      var pairs := parse(topics[i].1);
      TopicTableFromSpec(topics, parse, conv, i + 1, acc[topics[i].0 := TermTable(pairs.value, conv).value]);
    }
  }

  // ---------------------------------------------------------------------
  // Scores over shared terms
  // ---------------------------------------------------------------------

  /** Some element of a non-empty set. */
  ghost function Pick(s: set<string>): string
    requires s != {}
  {
    var x :| x in s; x
  }

  /** The sum of the weights of a set of terms (Python sums them in the
      iteration order of the set; over reals every order gives this). */
  ghost function SetSum(s: set<string>, w: map<string, real>): real
    requires s <= w.Keys
    decreases |s|
  {
    if s == {} then 0.0 else var x := Pick(s); w[x] + SetSum(s - {x}, w)
  }

  /** Any element can be summed first. */
  lemma {:induction false} SetSumRemove(s: set<string>, w: map<string, real>, y: string)
    requires s <= w.Keys && y in s
    ensures SetSum(s, w) == w[y] + SetSum(s - {y}, w)
    decreases |s|
  {
    var x := Pick(s);
    if x != y {
      SetSumRemove(s - {x}, w, y);
      SetSumRemove(s - {y}, w, x);
      assert s - {x} - {y} == s - {y} - {x};
    }
  }

  /** The distinct lemmas of a sentence that are terms of the table, in
      the order the lemmas first occur. */
  function SharedTerms<W>(lemmas: seq<string>, table: map<string, W>): (r: seq<string>)
    ensures forall t :: t in r <==> t in lemmas && t in table
    ensures forall a, b :: 0 <= a < b < |r| ==> r[a] != r[b]
  {
    SharedFrom(lemmas, table, 0, [])
  }

  function SharedFrom<W>(lemmas: seq<string>, table: map<string, W>, i: nat, acc: seq<string>): (r: seq<string>)
    requires i <= |lemmas|
    requires forall a, b :: 0 <= a < b < |acc| ==> acc[a] != acc[b]
    ensures forall t :: t in r <==> t in acc || (t in lemmas[i..] && t in table)
    ensures forall a, b :: 0 <= a < b < |r| ==> r[a] != r[b]
    decreases |lemmas| - i
  {
    if i == |lemmas| then acc
    else if lemmas[i] in table && lemmas[i] !in acc then SharedFrom(lemmas, table, i + 1, acc + [lemmas[i]])
    else SharedFrom(lemmas, table, i + 1, acc)
  }

  /** The elements of a list, as a set. */
  ghost function ToSet(xs: seq<string>): set<string>
  {
    set t | t in xs
  }

  /** Summing one more, new, element of a list. */
  lemma SetSumSnoc(rel: seq<string>, i: nat, table: map<string, real>)
    requires i < |rel|
    requires forall a, b :: 0 <= a < b < |rel| ==> rel[a] != rel[b]
    requires forall t :: t in rel ==> t in table
    ensures SetSum(ToSet(rel[..i + 1]), table) == SetSum(ToSet(rel[..i]), table) + table[rel[i]]
  {
    var s := ToSet(rel[..i + 1]);
    assert rel[..i + 1] == rel[..i] + [rel[i]];
    assert rel[i] in s;
    SetSumRemove(s, table, rel[i]);
    forall t | t in rel[..i] ensures t != rel[i] {
      var a :| 0 <= a < i && rel[..i][a] == t;
    }
    assert s - {rel[i]} == ToSet(rel[..i]);
  }

  /** The accumulation loop of a topic's score: the weights of the shared
      terms, summed. */
  method SumWeights(rel: seq<string>, table: map<string, real>) returns (score: real)
    requires forall a, b :: 0 <= a < b < |rel| ==> rel[a] != rel[b]
    requires forall t :: t in rel ==> t in table
    ensures score == SetSum(ToSet(rel), table)
  {
    score := 0.0;
    var i := 0;
    while i < |rel|
      invariant i <= |rel|
      invariant score == SetSum(ToSet(rel[..i]), table)
    {
      SetSumSnoc(rel, i, table);
      score := score + table[rel[i]];
      i := i + 1;
    }
    assert rel[..i] == rel;
  }

  /** A topic's score for a sentence: the weights of the distinct lemmas the
      sentence shares with the topic's terms. */
  ghost function TopicScore(lemmas: seq<string>, table: map<string, real>): real
  {
    SetSum((set t | t in lemmas && t in table), table)
  }

  /** A lemma repeated in the sentence does not count twice. */
  lemma RepeatedLemma(lemmas: seq<string>, table: map<string, real>, x: string)
    requires x in lemmas
    ensures TopicScore(lemmas + [x], table) == TopicScore(lemmas, table)
  {
    assert (set t | t in lemmas + [x] && t in table) == (set t | t in lemmas && t in table);
  }

  /** A new lemma adds its weight when it is a term of the topic, and nothing otherwise. */
  lemma NewLemma(lemmas: seq<string>, table: map<string, real>, x: string)
    requires x !in lemmas
    ensures TopicScore(lemmas + [x], table) == TopicScore(lemmas, table) + (if x in table then table[x] else 0.0)
  {
    var s := set t | t in lemmas + [x] && t in table;
    if x in table {
      SetSumRemove(s, table, x);
      assert s - {x} == set t | t in lemmas && t in table;
    } else {
      assert s == set t | t in lemmas && t in table;
    }
  }

  /** The score the scoring loop computes for one topic. */
  method ScoreTopic(lemmas: seq<string>, table: map<string, real>) returns (score: real)
    ensures score == TopicScore(lemmas, table)
  {
    var rel := SharedTerms(lemmas, table);
    score := SumWeights(rel, table);
    assert ToSet(rel) == (set t | t in lemmas && t in table);
  }
}
