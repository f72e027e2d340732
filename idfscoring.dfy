/** The idf-weighted topic scorer of `content_selection/lda_run_test.py`:
    the lemma texts of every cluster, a corpus-wide idf table computed from
    them, and, per cluster, the best LDA topic of each sentence of at least
    ten pieces, scored by the idf-weighted topic weights of its lemmas over
    its length, of which the ten best become candidate records. Fitting the
    model, `math.log` and `float` are parameters. */
module IdfScoring {
  import opened Text
  import opened Collections
  import opened Records
  import opened Sorting
  import opened TopicTerms
  import opened LdaScoring

  // ---------------------------------------------------------------------
  // get_document_collection
  // ---------------------------------------------------------------------

  /** The lemmas of each sentence of a cluster, joined by spaces, in order. */
  function LemmaTexts(c: Cluster): (r: seq<string>)
    requires c.Valid()
    ensures |r| == |c.keys|
    ensures forall j :: 0 <= j < |r| ==> r[j] == Join(c.vals[c.keys[j]].lemmas, ' ')
  {
    seq(|c.keys|, j requires 0 <= j < |c.keys| => Join(c.vals[c.keys[j]].lemmas, ' '))
  }

  /** One list of lemma texts per cluster, in cluster order. */
  function DocumentCollection(d: Collection): (r: seq<seq<string>>)
    requires ClustersValid(d)
    ensures |r| == |d.keys|
    ensures forall i :: 0 <= i < |r| ==> r[i] == LemmaTexts(d.vals[d.keys[i]])
  {
    seq(|d.keys|, i requires 0 <= i < |d.keys| => LemmaTexts(d.vals[d.keys[i]]))
  }

  /** `get_document_collection`: the nested loops that fill `doc_list`. */
  method GetDocumentCollection(d: Collection) returns (docList: seq<seq<string>>)
    requires ClustersValid(d)
    ensures docList == DocumentCollection(d)
  {
    docList := [];
    var i := 0;
    while i < |d.keys|
      invariant i <= |d.keys|
      invariant docList == DocumentCollection(d)[..i]
    {
      var c := d.vals[d.keys[i]];
      var texts: seq<string> := [];
      var j := 0;
      while j < |c.keys|
        invariant j <= |c.keys|
        invariant texts == LemmaTexts(c)[..j]
      {
        texts := texts + [Join(c.vals[c.keys[j]].lemmas, ' ')];
        j := j + 1;
      }
      assert texts == LemmaTexts(c);
      docList := docList + [texts];
      i := i + 1;
    }
  }

  /** Splitting a sentence's text on spaces gives back its lemmas, when it has
      some and none of them holds a space. */
  lemma DocumentCollectionLemmas(d: Collection, i: nat, j: nat)
    requires ClustersValid(d) && i < |d.keys|
    requires j < |d.vals[d.keys[i]].keys|
    requires var c := d.vals[d.keys[i]];
             var lemmas := c.vals[c.keys[j]].lemmas;
             |lemmas| >= 1 && forall k :: 0 <= k < |lemmas| ==> ' ' !in lemmas[k]
    ensures var c := d.vals[d.keys[i]];
            Split(DocumentCollection(d)[i][j], ' ') == c.vals[c.keys[j]].lemmas
  {
    var c := d.vals[d.keys[i]];
    SplitJoin(c.vals[c.keys[j]].lemmas, ' ');
  }

  // ---------------------------------------------------------------------
  // get_idf_scores
  // ---------------------------------------------------------------------

  /** Every space-separated piece of the sentences of one list, in order. */
  function SenTokens(doc: seq<string>): seq<string>
  {
    if |doc| == 0 then [] else SenTokens(doc[..|doc| - 1]) + Split(doc[|doc| - 1], ' ')
  }

  /** Every space-separated piece of every sentence of every list, in order. */
  function Tokens(docList: seq<seq<string>>): seq<string>
  {
    if |docList| == 0 then [] else Tokens(docList[..|docList| - 1]) + SenTokens(docList[|docList| - 1])
  }

  /** One occurrence of `w` counted: a new word starts at one, a known
      word's count goes up by one. */
  function Tally(d: ODict<nat>, w: string): (r: ODict<nat>)
    requires d.Valid()
    ensures r.Valid()
  {
    Put(d, w, if w in d.vals then d.vals[w] + 1 else 1)
  }

  /** The distinct words of `ws`, in order of first occurrence. */
  function FirstOccurrences(ws: seq<string>): seq<string>
  {
    if |ws| == 0 then []
    else
      var init := FirstOccurrences(ws[..|ws| - 1]);
      if ws[|ws| - 1] in init then init else init + [ws[|ws| - 1]]
  }

  /** Each word of `ws` with its number of occurrences. */
  function CountMap(ws: seq<string>): map<string, nat>
  {
    map w | w in ws :: multiset(ws)[w]
  }

  /** The count table of `ws`: each distinct word, in order of first
      occurrence, with its number of occurrences. */
  function Counts(ws: seq<string>): ODict<nat>
  {
    ODict(FirstOccurrences(ws), CountMap(ws))
  }

  /** The words of `ws` in order of first occurrence: each word of `ws`
      exactly once. */
  lemma {:induction false} FirstOccurrencesSpec(ws: seq<string>)
    ensures forall w :: w in FirstOccurrences(ws) <==> w in ws
    ensures Distinct(FirstOccurrences(ws))
  {
    if |ws| > 0 {
      var init := ws[..|ws| - 1];
      FirstOccurrencesSpec(init);
      assert ws == init + [ws[|ws| - 1]];
    }
  }

  /** The count table is a well-formed ordered dict whose counts are all
      positive. */
  lemma CountsValid(ws: seq<string>)
    ensures Counts(ws).Valid()
    ensures forall w :: w in Counts(ws).vals ==> Counts(ws).vals[w] > 0
  {
    FirstOccurrencesSpec(ws);
  }

  /** The count table holds each word of `ws`, and nothing else, with the
      number of times it occurs in `ws`. */
  lemma CountsSpec(ws: seq<string>)
    ensures forall w :: w in Counts(ws).keys <==> w in ws
    ensures forall w :: w in Counts(ws).vals <==> w in ws
    ensures forall w :: w in Counts(ws).vals ==> Counts(ws).vals[w] == multiset(ws)[w]
  {
    FirstOccurrencesSpec(ws);
  }

  lemma CountMapSnoc(ws: seq<string>, w: string)
    ensures CountMap(ws + [w]) == CountMap(ws)[w := if w in ws then CountMap(ws)[w] + 1 else 1]
  {
    assert multiset(ws + [w]) == multiset(ws) + multiset{w};
    var l := CountMap(ws + [w]);
    var r := CountMap(ws)[w := if w in ws then CountMap(ws)[w] + 1 else 1];
    assert forall k :: k in l <==> k in r;
    forall k | k in l ensures l[k] == r[k] {
      if k != w {
        assert multiset(ws + [w])[k] == multiset(ws)[k];
      }
    }
  }

  /** Counting one more word by `Tally` gives the count table of the longer
      list. */
  lemma TallyStep(ws: seq<string>, w: string)
    ensures Counts(ws).Valid() && Tally(Counts(ws), w) == Counts(ws + [w])
  {
    CountsValid(ws);
    FirstOccurrencesSpec(ws);
    assert (ws + [w])[..|ws|] == ws;
    CountMapSnoc(ws, w);
  }

  lemma SenTokensSnoc(doc: seq<string>, s: nat)
    requires s < |doc|
    ensures SenTokens(doc[..s + 1]) == SenTokens(doc[..s]) + Split(doc[s], ' ')
  {
    assert doc[..s + 1][..s] == doc[..s];
  }

  lemma TokensSnoc(docList: seq<seq<string>>, d: nat)
    requires d < |docList|
    ensures Tokens(docList[..d + 1]) == Tokens(docList[..d]) + SenTokens(docList[d])
  {
    assert docList[..d + 1][..d] == docList[..d];
  }

  /** One step of the innermost counting loop. */
  lemma TallyNext(done: seq<string>, pieces: seq<string>, i: nat)
    requires i < |pieces|
    ensures Counts(done + pieces[..i]).Valid()
    ensures Tally(Counts(done + pieces[..i]), pieces[i]) == Counts(done + pieces[..i + 1])
  {
    TallyStep(done + pieces[..i], pieces[i]);
    assert pieces[..i] + [pieces[i]] == pieces[..i + 1];
    AppendAssoc(done, pieces[..i], [pieces[i]]);
  }

  /** The innermost counting loop: the pieces of one sentence. */
  method CountPieces(counts: ODict<nat>, ghost done: seq<string>, pieces: seq<string>) returns (r: ODict<nat>)
    requires counts == Counts(done)
    ensures r == Counts(done + pieces)
  {
    r := counts;
    var i := 0;
    assert done + pieces[..0] == done;
    while i < |pieces|
      invariant i <= |pieces| && r == Counts(done + pieces[..i])
    {
      TallyNext(done, pieces, i);
      r := Tally(r, pieces[i]);
      i := i + 1;
    }
    assert pieces[..i] == pieces;
  }

  /** The middle counting loop: the sentences of one list. */
  method CountSentences(counts: ODict<nat>, ghost done: seq<string>, doc: seq<string>) returns (r: ODict<nat>)
    requires counts == Counts(done)
    ensures r == Counts(done + SenTokens(doc))
  {
    r := counts;
    var s := 0;
    assert done + SenTokens(doc[..0]) == done;
    while s < |doc|
      invariant s <= |doc| && r == Counts(done + SenTokens(doc[..s]))
    {
      var pieces := Split(doc[s], ' ');
      r := CountPieces(r, done + SenTokens(doc[..s]), pieces);
      SenTokensSnoc(doc, s);
      AppendAssoc(done, SenTokens(doc[..s]), pieces);
      s := s + 1;
    }
    assert doc[..s] == doc;
  }

  /** The counting loops of `get_idf_scores`. */
  method CountTokens(docList: seq<seq<string>>) returns (counts: ODict<nat>)
    ensures counts == Counts(Tokens(docList))
  {
    counts := EmptyDict();
    var d := 0;
    while d < |docList|
      invariant d <= |docList| && counts == Counts(Tokens(docList[..d]))
    {
      counts := CountSentences(counts, Tokens(docList[..d]), docList[d]);
      TokensSnoc(docList, d);
      d := d + 1;
    }
    assert docList[..d] == docList;
  }

  /** The rewrite of one count: `math.log(num_docs / value, 10)`. */
  function IdfEach(numDocs: nat, log10: real -> real): (string, nat) --> Option<real>
  {
    (w: string, count: nat) requires count > 0 => Some(log10(numDocs as real / count as real))
  }

  /** `get_idf_scores`: the count table, each count rewritten to its idf. */
  function IdfTable(docList: seq<seq<string>>, log10: real -> real): ODict<real>
  {
    var counts := Counts(Tokens(docList));
    CountsValid(Tokens(docList));
    MapDictFromSome(counts, IdfEach(|docList|, log10), 0, EmptyDict());
    MapDict(counts, IdfEach(|docList|, log10)).value
  }

  /** `get_idf_scores` as written: count every piece, then rewrite each
      count in place, in key order. */
  method GetIdfScores(docList: seq<seq<string>>, log10: real -> real) returns (idf: ODict<real>)
    ensures idf == IdfTable(docList, log10)
  {
    var counts := CountTokens(docList);
    CountsValid(Tokens(docList));
    ghost var f := IdfEach(|docList|, log10);
    MapDictFromSome(counts, f, 0, EmptyDict());
    idf := EmptyDict();
    var i := 0;
    while i < |counts.keys|
      invariant i <= |counts.keys| && idf.Valid()
      invariant MapDictFrom(counts, f, i, idf) == MapDict(counts, f)
    {
      var w := counts.keys[i];
      idf := Put(idf, w, log10(|docList| as real / counts.vals[w] as real));
      i := i + 1;
    }
  }

  /** There are no pieces without lists. */
  lemma TokensEmpty(docList: seq<seq<string>>)
    requires |docList| == 0
    ensures Tokens(docList) == []
  {
  }

  /** The idf table has an entry for exactly the pieces that occur, each
      `log10` of the number of lists over the piece's number of occurrences,
      a positive ratio: the count is never zero. */
  lemma IdfTableSpec(docList: seq<seq<string>>, log10: real -> real, w: string)
    ensures w in IdfTable(docList, log10).vals <==> w in Tokens(docList)
    ensures w in IdfTable(docList, log10).vals ==>
              var count := multiset(Tokens(docList))[w];
              && |docList| > 0 && count > 0
              && IdfTable(docList, log10).vals[w] == log10(|docList| as real / count as real)
  {
    var counts := Counts(Tokens(docList));
    var f := IdfEach(|docList|, log10);
    CountsValid(Tokens(docList));
    CountsSpec(Tokens(docList));
    MapDictFromSome(counts, f, 0, EmptyDict());
    MapDictEntry(counts, f, w);
    if |docList| == 0 {
      TokensEmpty(docList);
    }
  }

  // ---------------------------------------------------------------------
  // The topic of one sentence
  // ---------------------------------------------------------------------

  /** The number of topics the script fits per cluster. */
  const NumTopics: nat := 3

  /** Whether a sentence is scored: it splits into at least ten pieces. */
  predicate Long(sen: string)
  {
    SentenceLength(sen) >= 10
  }

  /** Each term's topic weight times its idf. */
  function Weighted(weights: map<string, real>, idf: ODict<real>): map<string, real>
  {
    map t | t in weights && t in idf.vals :: idf.vals[t] * weights[t]
  }

  /** Every lemma the sentence shares with the topic has an idf (otherwise
      `idf_scores[term]` raises). */
  predicate IdfCovers(lemmas: seq<string>, weights: map<string, real>, idf: ODict<real>)
  {
    forall t | t in lemmas :: t in weights ==> t in idf.vals
  }

  /** `sen_topic`: each topic with its score for the sentence, divided by
      the sentence's length; `None` where a topic or an idf is missing. */
  ghost function IdfTopicScores(lemmas: seq<string>, table: TermWeights, idf: ODict<real>, len: nat): (r: Option<seq<(int, real)>>)
    requires len > 0
    ensures r.Some? <==> forall t :: 0 <= t < NumTopics ==> t in table && IdfCovers(lemmas, table[t], idf)
    ensures r.Some? ==> |r.value| == NumTopics
    ensures r.Some? ==> forall t :: 0 <= t < NumTopics ==> r.value[t] == (t, TopicScore(lemmas, Weighted(table[t], idf)) / len as real)
  {
    if forall t :: 0 <= t < NumTopics ==> t in table && IdfCovers(lemmas, table[t], idf) then
      Some(seq(NumTopics, t requires 0 <= t < NumTopics => (t, TopicScore(lemmas, Weighted(table[t], idf)) / len as real)))
    else None
  }

  /** `sorted(sen_topic, key=score, reverse=True)[0]` */
  ghost function BestIdfTopic(lemmas: seq<string>, table: TermWeights, idf: ODict<real>, len: nat): Option<(int, real)>
    requires len > 0
  {
    match IdfTopicScores(lemmas, table, idf, len)
    case None => None
    case Some(s) => Some(SortDesc(s, ScoreOf)[0])
  }

  /** The chosen topic exists exactly when every topic is listed and every
      shared lemma has an idf. */
  lemma BestIdfTopicSome(lemmas: seq<string>, table: TermWeights, idf: ODict<real>, len: nat)
    requires len > 0
    ensures BestIdfTopic(lemmas, table, idf, len).Some? <==>
              forall t :: 0 <= t < NumTopics ==> t in table && IdfCovers(lemmas, table[t], idf)
  {
  }

  /** The chosen topic has the highest score, and every topic with a lower
      id scores strictly less. */
  lemma BestIdfTopicMax(lemmas: seq<string>, table: TermWeights, idf: ODict<real>, len: nat)
    requires len > 0 && BestIdfTopic(lemmas, table, idf, len).Some?
    ensures var b := BestIdfTopic(lemmas, table, idf, len).value;
              && 0 <= b.0 < NumTopics && b.0 in table
              && b.1 == TopicScore(lemmas, Weighted(table[b.0], idf)) / len as real
              && (forall t :: 0 <= t < NumTopics ==> TopicScore(lemmas, Weighted(table[t], idf)) / len as real <= b.1)
              && (forall t :: 0 <= t < b.0 ==> TopicScore(lemmas, Weighted(table[t], idf)) / len as real < b.1)
  {
    var s := IdfTopicScores(lemmas, table, idf, len).value;
    SortDescHead(s, ScoreOf);
    var i := FirstMaxIndex(s, ScoreOf);
    assert s[i].0 == i;
    forall t | 0 <= t < NumTopics ensures ScoreOf(s[t]) <= ScoreOf(s[i]) {
    }
    forall t | 0 <= t < i ensures ScoreOf(s[t]) < ScoreOf(s[i]) {
    }
  }

  /** The loop over topics that scores one sentence, then the pick. */
  method ChooseIdfTopic(lemmas: seq<string>, table: TermWeights, idf: ODict<real>, len: nat) returns (r: Option<(int, real)>)
    requires len > 0
    ensures r == BestIdfTopic(lemmas, table, idf, len)
  {
    var senTopic: seq<(int, real)> := [];
    var topic := 0;
    while topic < NumTopics
      invariant topic <= NumTopics
      invariant forall t :: 0 <= t < topic ==> t in table && IdfCovers(lemmas, table[t], idf)
      invariant |senTopic| == topic
      invariant forall t :: 0 <= t < topic ==> senTopic[t] == (t, TopicScore(lemmas, Weighted(table[t], idf)) / len as real)
    {
      if topic !in table || !IdfCovers(lemmas, table[topic], idf) {
        return None;
      }
      var score := ScoreTopic(lemmas, Weighted(table[topic], idf));
      senTopic := senTopic + [(topic, score / len as real)];
      topic := topic + 1;
    }
    assert IdfTopicScores(lemmas, table, idf, len).value == senTopic;
    r := Some(SortDesc(senTopic, ScoreOf)[0]);
  }

  // ---------------------------------------------------------------------
  // The picks of one cluster
  // ---------------------------------------------------------------------

  /** A `sen_ranker` entry: sentence, topic, score and document id. */
  datatype IdfPick = IdfPick(sen: string, topic: int, score: real, docId: string)

  function PickScore(p: IdfPick): real
  {
    p.score
  }

  /** The entry of a scored sentence; `None` where its topic choice raises. */
  ghost function PickFor(c: Cluster, table: TermWeights, idf: ODict<real>, sen: string): Option<IdfPick>
    requires sen in c.vals && Long(sen)
  {
    match BestIdfTopic(c.vals[sen].lemmas, table, idf, SentenceLength(sen))
    case None => None
    case Some(b) => Some(IdfPick(sen, b.0, b.1, c.vals[sen].docId))
  }

  /** `pre + rest` where `rest` exists. */
  function Prepend<T>(pre: seq<T>, o: Option<seq<T>>): Option<seq<T>>
  {
    if o.None? then None else Some(pre + o.value)
  }

  /** `sen_ranker` over the sentences from position `i` on. */
  ghost function RankerFrom(c: Cluster, table: TermWeights, idf: ODict<real>, i: nat): Option<seq<IdfPick>>
    requires c.Valid() && i <= |c.keys|
    decreases |c.keys| - i
  {
    if i == |c.keys| then Some([])
    else
      var k := c.keys[i];
      if !Long(k) then RankerFrom(c, table, idf, i + 1)
      else
        match PickFor(c, table, idf, k)
        case None => None
        case Some(p) => Prepend([p], RankerFrom(c, table, idf, i + 1))
  }

  /** One turn of the ranking loop: a short sentence is skipped, a scored
      one adds its entry or ends the ranking where its choice raises. */
  lemma RankerStep(c: Cluster, table: TermWeights, idf: ODict<real>, i: nat, ranker: seq<IdfPick>)
    requires c.Valid() && i < |c.keys|
    requires Prepend(ranker, RankerFrom(c, table, idf, i)) == RankerFrom(c, table, idf, 0)
    ensures !Long(c.keys[i]) ==> Prepend(ranker, RankerFrom(c, table, idf, i + 1)) == RankerFrom(c, table, idf, 0)
    ensures Long(c.keys[i]) && PickFor(c, table, idf, c.keys[i]).None? ==> RankerFrom(c, table, idf, 0).None?
    ensures Long(c.keys[i]) && PickFor(c, table, idf, c.keys[i]).Some? ==>
              Prepend(ranker + [PickFor(c, table, idf, c.keys[i]).value], RankerFrom(c, table, idf, i + 1)) == RankerFrom(c, table, idf, 0)
  {
    var k := c.keys[i];
    if Long(k) && PickFor(c, table, idf, k).Some? && RankerFrom(c, table, idf, i + 1).Some? {
      var p := PickFor(c, table, idf, k).value;
      assert ranker + ([p] + RankerFrom(c, table, idf, i + 1).value) == (ranker + [p]) + RankerFrom(c, table, idf, i + 1).value;
    }
  }

  /** The loop that fills `sen_ranker`. */
  method RankIdfCluster(c: Cluster, table: TermWeights, idf: ODict<real>) returns (r: Option<seq<IdfPick>>)
    requires c.Valid()
    ensures r == RankerFrom(c, table, idf, 0)
  {
    var ranker: seq<IdfPick> := [];
    if RankerFrom(c, table, idf, 0).Some? {
      assert [] + RankerFrom(c, table, idf, 0).value == RankerFrom(c, table, idf, 0).value;
    }
    var i := 0;
    while i < |c.keys|
      invariant i <= |c.keys|
      invariant Prepend(ranker, RankerFrom(c, table, idf, i)) == RankerFrom(c, table, idf, 0)
    {
      var k := c.keys[i];
      RankerStep(c, table, idf, i, ranker);
      var len := SentenceLength(k);
      if len >= 10 {
        var b := ChooseIdfTopic(c.vals[k].lemmas, table, idf, len);
        if b.None? {
          return None;
        }
        ranker := ranker + [IdfPick(k, b.value.0, b.value.1, c.vals[k].docId)];
      }
      i := i + 1;
    }
    assert ranker + [] == ranker;
    r := Some(ranker);
  }

  /** The ranking exists exactly when every scored sentence gets a topic; it
      then holds one entry per scored sentence, in cluster order, with that
      sentence's topic choice. */
  lemma {:induction false} RankerFromSome(c: Cluster, table: TermWeights, idf: ODict<real>, i: nat)
    requires c.Valid() && i <= |c.keys|
    ensures RankerFrom(c, table, idf, i).Some? <==>
              forall j :: i <= j < |c.keys| && Long(c.keys[j]) ==> PickFor(c, table, idf, c.keys[j]).Some?
    decreases |c.keys| - i
  {
    if i < |c.keys| {
      RankerFromSome(c, table, idf, i + 1);
    }
  }

  lemma {:induction false} RankerFromEntries(c: Cluster, table: TermWeights, idf: ODict<real>, i: nat, p: IdfPick)
    requires c.Valid() && i <= |c.keys| && RankerFrom(c, table, idf, i).Some?
    ensures p in RankerFrom(c, table, idf, i).value <==>
              p.sen in c.keys[i..] && Long(p.sen) && PickFor(c, table, idf, p.sen) == Some(p)
    decreases |c.keys| - i
  {
    if i < |c.keys| {
      RankerFromEntries(c, table, idf, i + 1, p);
      assert c.keys[i..] == [c.keys[i]] + c.keys[i + 1..];
    }
  }

  /** No sentence is ranked twice. */
  lemma {:induction false} RankerFromDistinct(c: Cluster, table: TermWeights, idf: ODict<real>, i: nat)
    requires c.Valid() && i <= |c.keys| && RankerFrom(c, table, idf, i).Some?
    ensures Distinct(RankerFrom(c, table, idf, i).value)
    decreases |c.keys| - i
  {
    if i < |c.keys| {
      RankerFromDistinct(c, table, idf, i + 1);
      var k := c.keys[i];
      if Long(k) {
        var rest := RankerFrom(c, table, idf, i + 1).value;
        forall q | q in rest ensures q.sen != k {
          RankerFromLater(c, table, idf, i, q);
        }
      }
    }
  }

  /** The entries ranked after position `i` are not the sentence at `i`. */
  lemma RankerFromLater(c: Cluster, table: TermWeights, idf: ODict<real>, i: nat, q: IdfPick)
    requires c.Valid() && i < |c.keys| && RankerFrom(c, table, idf, i + 1).Some?
    requires q in RankerFrom(c, table, idf, i + 1).value
    ensures q.sen != c.keys[i]
  {
    RankerFromEntries(c, table, idf, i + 1, q);
    var m :| i + 1 <= m < |c.keys| && c.keys[m] == q.sen;
  }

  /** A picked sentence's record in `picked_sentences`. */
  datatype Candidate = Candidate(ldaTopicId: int, ldaScore: real, docId: string)

  function PickSens(ps: seq<IdfPick>): (r: seq<string>)
    ensures |r| == |ps| && forall j :: 0 <= j < |ps| ==> r[j] == ps[j].sen
  {
    seq(|ps|, j requires 0 <= j < |ps| => ps[j].sen)
  }

  function Candidates(ps: seq<IdfPick>): (r: seq<Candidate>)
    ensures |r| == |ps| && forall j :: 0 <= j < |ps| ==> r[j] == Candidate(ps[j].topic, ps[j].score, ps[j].docId)
  {
    seq(|ps|, j requires 0 <= j < |ps| => Candidate(ps[j].topic, ps[j].score, ps[j].docId))
  }

  /** `picked_sentences[key]`: the ten best entries of the ranking, each
      sentence with its topic, score and document id. */
  ghost function PickedCandidates(c: Cluster, table: TermWeights, idf: ODict<real>): Option<ODict<Candidate>>
    requires c.Valid()
  {
    match RankerFrom(c, table, idf, 0)
    case None => None
    case Some(ranker) =>
      var top := TopK(ranker, PickScore, 10);
      Some(PutAll(EmptyDict(), PickSens(top), Candidates(top)))
  }

  /** One cluster of the script: rank, sort, keep ten, record. */
  method PickIdfCluster(c: Cluster, table: TermWeights, idf: ODict<real>) returns (r: Option<ODict<Candidate>>)
    requires c.Valid()
    ensures r == PickedCandidates(c, table, idf)
  {
    var ranker := RankIdfCluster(c, table, idf);
    if ranker.None? {
      return None;
    }
    var top := PyTake(SortDesc(ranker.value, PickScore), 10);
    ghost var ks := PickSens(top);
    ghost var vs := Candidates(top);
    var picked: ODict<Candidate> := EmptyDict();
    var i := 0;
    while i < |top|
      invariant i <= |top| && picked.Valid()
      invariant PutAll(picked, ks[i..], vs[i..]) == PutAll(EmptyDict(), ks, vs)
    {
      var p := top[i];
      assert ks[i..][0] == p.sen && ks[i..][1..] == ks[i + 1..];
      assert vs[i..][0] == Candidate(p.topic, p.score, p.docId) && vs[i..][1..] == vs[i + 1..];
      picked := Put(picked, p.sen, Candidate(p.topic, p.score, p.docId));
      i := i + 1;
    }
    r := Some(picked);
  }

  /** The sentences picked from a cluster: those of the ten best entries,
      in order, none twice. */
  lemma PickedCandidatesKeys(c: Cluster, table: TermWeights, idf: ODict<real>)
    requires c.Valid() && PickedCandidates(c, table, idf).Some?
    ensures var top := TopK(RankerFrom(c, table, idf, 0).value, PickScore, 10);
            && PickedCandidates(c, table, idf).value.keys == PickSens(top)
            && |PickSens(top)| <= 10
  {
    var ranker := RankerFrom(c, table, idf, 0).value;
    var top := TopK(ranker, PickScore, 10);
    TopKSelects(ranker, PickScore, 10);
    var ks := PickSens(top);
    TopSensDistinct(c, table, idf);
    PutAllFresh(EmptyDict(), ks, Candidates(top));
  }

  /** The ten best entries are of ten different sentences. */
  lemma TopSensDistinct(c: Cluster, table: TermWeights, idf: ODict<real>)
    requires c.Valid() && RankerFrom(c, table, idf, 0).Some?
    ensures Distinct(PickSens(TopK(RankerFrom(c, table, idf, 0).value, PickScore, 10)))
  {
    var ranker := RankerFrom(c, table, idf, 0).value;
    var top := TopK(ranker, PickScore, 10);
    RankerFromDistinct(c, table, idf, 0);
    TopKDistinct(ranker, PickScore, 10);
    var ks := PickSens(top);
    forall a, b | 0 <= a < b < |ks| ensures ks[a] != ks[b] {
      TopKIn(ranker, PickScore, 10, top[a]);
      RankerFromEntries(c, table, idf, 0, top[a]);
      TopKIn(ranker, PickScore, 10, top[b]);
      RankerFromEntries(c, table, idf, 0, top[b]);
    }
  }

  /** Each picked sentence is a sentence of the cluster of at least ten
      pieces, recorded with its best topic, that topic's score and its
      document id. */
  lemma PickedCandidatesRecord(c: Cluster, table: TermWeights, idf: ODict<real>, k: string)
    requires c.Valid() && PickedCandidates(c, table, idf).Some?
    requires k in PickedCandidates(c, table, idf).value.vals
    ensures k in c.vals && Long(k) && PickFor(c, table, idf, k).Some?
    ensures var p := PickFor(c, table, idf, k).value;
            PickedCandidates(c, table, idf).value.vals[k] == Candidate(p.topic, p.score, c.vals[k].docId)
  {
    var ranker := RankerFrom(c, table, idf, 0).value;
    var top := TopK(ranker, PickScore, 10);
    var ks := PickSens(top);
    var vs := Candidates(top);
    PutAllMembers(EmptyDict(), ks, vs, k);
    var j := LastIndex(ks, k);
    TopKIn(ranker, PickScore, 10, top[j]);
    RankerFromEntries(c, table, idf, 0, top[j]);
    assert c.keys[0..] == c.keys;
    PutAllLast(EmptyDict(), ks, vs, j);
  }

  /** A scored sentence left out has no higher score than any picked one. */
  lemma PickedCandidatesBest(c: Cluster, table: TermWeights, idf: ODict<real>, k: string, k': string)
    requires c.Valid() && PickedCandidates(c, table, idf).Some?
    requires k in PickedCandidates(c, table, idf).value.vals
    requires k' in c.vals && Long(k') && k' !in PickedCandidates(c, table, idf).value.vals
    ensures PickFor(c, table, idf, k').Some?
    ensures PickFor(c, table, idf, k').value.score <= PickedCandidates(c, table, idf).value.vals[k].ldaScore
  {
    var ranker := RankerFrom(c, table, idf, 0).value;
    var top := TopK(ranker, PickScore, 10);
    var sens := PickSens(top);
    PickedCandidatesKeys(c, table, idf);
    PickedCandidatesRecord(c, table, idf, k);
    RankerFromSome(c, table, idf, 0);
    assert c.keys[0..] == c.keys;
    var p' := PickFor(c, table, idf, k').value;
    RankerFromEntries(c, table, idf, 0, p');
    var j :| 0 <= j < |sens| && sens[j] == k;
    TopKIn(ranker, PickScore, 10, top[j]);
    RankerFromEntries(c, table, idf, 0, top[j]);
    forall n | 0 <= n < |top| ensures top[n] != p' {
      assert sens[n] == top[n].sen;
    }
    TopKBest(ranker, PickScore, 10, top[j], p');
  }

  // ---------------------------------------------------------------------
  // The script's loop over clusters
  // ---------------------------------------------------------------------

  /** One turn of the loop over clusters: parse the topic terms of the
      cluster's fitted model, then pick. */
  ghost function ClusterEach(showTopics: string -> seq<(int, string)>, toReal: string -> Option<real>, idf: ODict<real>)
    : (string, Cluster) --> Option<ODict<Candidate>>
  {
    (key: string, c: Cluster) requires c.Valid() =>
      match TopicTable(showTopics(key), toReal)
      case None => None
      case Some(table) => PickedCandidates(c, table, idf)
  }

  /** The loop over clusters with a given idf table. */
  method PickClusters(inputData: Collection, showTopics: string -> seq<(int, string)>, toReal: string -> Option<real>,
                      idf: ODict<real>) returns (r: Option<ODict<ODict<Candidate>>>)
    requires ClustersValid(inputData)
    ensures r == MapDict(inputData, ClusterEach(showTopics, toReal, idf))
  {
    ghost var f := ClusterEach(showTopics, toReal, idf);
    var picked: ODict<ODict<Candidate>> := EmptyDict();
    var i := 0;
    while i < |inputData.keys|
      invariant i <= |inputData.keys| && picked.Valid()
      invariant MapDictFrom(inputData, f, i, picked) == MapDict(inputData, f)
    {
      var key := inputData.keys[i];
      var table := TopicTable(showTopics(key), toReal);
      if table.None? {
        return None;
      }
      var summary := PickIdfCluster(inputData.vals[key], table.value, idf);
      if summary.None? {
        return None;
      }
      picked := Put(picked, key, summary.value);
      i := i + 1;
    }
    return Some(picked);
  }

  /** The script's main block without its file output: the document
      collection, the idf table, then the candidates of every cluster. */
  method SelectCandidates(inputData: Collection, showTopics: string -> seq<(int, string)>, toReal: string -> Option<real>,
                          log10: real -> real) returns (r: Option<ODict<ODict<Candidate>>>)
    requires ClustersValid(inputData)
    ensures r == MapDict(inputData, ClusterEach(showTopics, toReal, IdfTable(DocumentCollection(inputData), log10)))
  {
    var docList := GetDocumentCollection(inputData);
    var idf := GetIdfScores(docList, log10);
    r := PickClusters(inputData, showTopics, toReal, idf);
  }
}
