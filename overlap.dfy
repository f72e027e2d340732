/** The earlier content selector of `content_selection/lda.py`: each
    cluster's sentences are scored by how many distinct lemmas they share
    with the terms of the cluster's LDA topics, and the ten best are picked,
    each with that count as its `LDAscore`. Fitting the model is outside the
    model: the topic strings `show_topics` lists for a cluster are given. */
module OverlapSelection {
  import opened Text
  import opened Collections
  import opened Records
  import opened Sorting
  import opened TopicTerms

  // ---------------------------------------------------------------------
  // The terms of the topics
  // ---------------------------------------------------------------------

  /** A topic string parser: `ParseTopicTerms` in the model, passed as a
      value so that the lemmas below reason about its result only. */
  type TermParser = string -> Option<seq<(string, string)>>

  /** `rel_terms`: the terms of every listed topic from position `i` on, in
      order and with repeats; `None` where a piece has no `*`. */
  function RelTermsFrom(topics: seq<(int, string)>, parse: TermParser, i: nat): Option<seq<string>>
    requires i <= |topics|
    decreases |topics| - i
  {
    if i == |topics| then Some([])
    else
      match parse(topics[i].1)
      case None => None
      case Some(pairs) =>
        match RelTermsFrom(topics, parse, i + 1)
        case None => None
        case Some(rest) => Some(AllTerms(pairs) + rest)
  }

  function RelTerms(topics: seq<(int, string)>): Option<seq<string>>
  {
    RelTermsFrom(topics, ParseTopicTerms, 0)
  }

  /** The terms exist exactly when every topic string parses. */
  lemma {:induction false} RelTermsFromSome(topics: seq<(int, string)>, parse: TermParser, i: nat)
    requires i <= |topics|
    ensures RelTermsFrom(topics, parse, i).Some? <==> forall k :: i <= k < |topics| ==> parse(topics[k].1).Some?
    decreases |topics| - i
  {
    if i < |topics| {
      RelTermsFromSome(topics, parse, i + 1);
    }
  }

  /** The terms are those of the listed topics. */
  lemma {:induction false} RelTermsFromMembers(topics: seq<(int, string)>, parse: TermParser, i: nat, t: string)
    requires i <= |topics| && RelTermsFrom(topics, parse, i).Some?
    ensures t in RelTermsFrom(topics, parse, i).value <==>
              exists k :: i <= k < |topics| && TermOf(parse, topics[k].1, t)
    decreases |topics| - i
  {
    if i < |topics| {
      RelTermsFromMembers(topics, parse, i + 1, t);
      var rest := RelTermsFrom(topics, parse, i + 1).value;
      assert RelTermsFrom(topics, parse, i).value == AllTerms(parse(topics[i].1).value) + rest;
      if TermOf(parse, topics[i].1, t) {
        assert i <= i < |topics| && TermOf(parse, topics[i].1, t);
      }
    }
  }

  /** `t` is a term of the topic string `s`. */
  predicate TermOf(parse: TermParser, s: string, t: string)
  {
    parse(s).Some? && t in AllTerms(parse(s).value)
  }

  /** `topic_term_dict[topic_id][topic_term] = topic_term_prob`: the weight
      text is stored as it is, never converted. */
  function KeepText(s: string): Option<string>
  {
    Some(s)
  }

  /** Since the weights stay text, building `topic_term_dict` raises exactly
      where collecting the terms does: when a topic string does not parse. */
  lemma StringWeights(topics: seq<(int, string)>)
    ensures TopicTable(topics, KeepText).Some? <==> RelTerms(topics).Some?
  {
    TopicTableFromSome(topics, ParseTopicTerms, KeepText, 0, map[]);
    RelTermsFromSome(topics, ParseTopicTerms, 0);
    forall k | 0 <= k < |topics| && ParseTopicTerms(topics[k].1).Some?
      ensures TermTable(ParseTopicTerms(topics[k].1).value, KeepText).Some?
    {
      TermTableSpec(ParseTopicTerms(topics[k].1).value, KeepText);
    }
  }

  // ---------------------------------------------------------------------
  // Scoring and picking within a cluster
  // ---------------------------------------------------------------------

  /** `len(set(lemmas) & set(rel_terms))` */
  function OverlapScore(lemmas: seq<string>, rel: seq<string>): nat
  {
    |set t | t in lemmas && t in rel|
  }

  /** One more lemma raises the score by one exactly when it is a topic
      term the sentence did not have yet. */
  lemma OverlapStep(lemmas: seq<string>, rel: seq<string>, x: string)
    ensures OverlapScore(lemmas + [x], rel) == OverlapScore(lemmas, rel) + (if x !in lemmas && x in rel then 1 else 0)
  {
    var before := set t | t in lemmas && t in rel;
    var after := set t | t in lemmas + [x] && t in rel;
    if x !in lemmas && x in rel {
      assert after == before + {x};
    } else {
      assert after == before;
    }
  }

  /** The score counts distinct lemmas: it is at most the number of lemmas. */
  lemma {:induction false} OverlapBound(lemmas: seq<string>, rel: seq<string>)
    ensures OverlapScore(lemmas, rel) <= |lemmas|
    decreases |lemmas|
  {
    if |lemmas| > 0 {
      var init := lemmas[..|lemmas| - 1];
      assert lemmas == init + [lemmas[|lemmas| - 1]];
      OverlapBound(init, rel);
      OverlapStep(init, rel, lemmas[|lemmas| - 1]);
    }
  }

  /** A `sen_ranker` entry: the score and the sentence. */
  type Rank = (nat, string)

  function RankScore(p: Rank): real
  {
    p.0 as real
  }

  /** `sen_ranker`: every sentence of the cluster with its score, in cluster order. */
  function Ranking(c: Cluster, rel: seq<string>): (r: seq<Rank>)
    requires c.Valid()
    ensures |r| == |c.keys|
    ensures forall j :: 0 <= j < |r| ==> r[j].1 == c.keys[j] && r[j].0 == OverlapScore(c.vals[c.keys[j]].lemmas, rel)
  {
    seq(|c.keys|, j requires 0 <= j < |c.keys| => (OverlapScore(c.vals[c.keys[j]].lemmas, rel), c.keys[j]))
  }

  /** The loop that fills `sen_ranker`. */
  method RankSentences(c: Cluster, rel: seq<string>) returns (ranker: seq<Rank>)
    requires c.Valid()
    ensures ranker == Ranking(c, rel)
  {
    ranker := [];
    var i := 0;
    while i < |c.keys|
      invariant i <= |c.keys|
      invariant ranker == Ranking(c, rel)[..i]
    {
      var k := c.keys[i];
      ranker := ranker + [(OverlapScore(c.vals[k].lemmas, rel), k)];
      i := i + 1;
    }
  }

  /** `sorted(sen_ranker, key=score, reverse=True)[0:10]` */
  function Top(c: Cluster, rel: seq<string>): seq<Rank>
    requires c.Valid()
  {
    TopK(Ranking(c, rel), RankScore, 10)
  }

  function RankSens(ps: seq<Rank>): (r: seq<string>)
    ensures |r| == |ps| && forall j :: 0 <= j < |ps| ==> r[j] == ps[j].1
  {
    seq(|ps|, j requires 0 <= j < |ps| => ps[j].1)
  }

  /** A ranked entry is a sentence of the cluster with its own score. */
  lemma TopEntry(c: Cluster, rel: seq<string>, p: Rank)
    requires c.Valid() && p in Top(c, rel)
    ensures p.1 in c.vals && p.0 == OverlapScore(c.vals[p.1].lemmas, rel)
  {
    TopKIn(Ranking(c, rel), RankScore, 10, p);
  }

  /** The records written for the picks: each the sentence's record with its
      score as `LDAscore`. */
  function TopRecords(c: Cluster, ps: seq<Rank>): (r: seq<SentenceInfo>)
    requires c.Valid() && forall j :: 0 <= j < |ps| ==> ps[j].1 in c.vals
    ensures |r| == |ps|
    ensures forall j :: 0 <= j < |ps| ==> r[j] == c.vals[ps[j].1].(ldaScore := Some(ps[j].0 as real))
  {
    seq(|ps|, j requires 0 <= j < |ps| => c.vals[ps[j].1].(ldaScore := Some(ps[j].0 as real)))
  }

  /** `summary_sentences` for one cluster. */
  function PickedCluster(c: Cluster, rel: seq<string>): (r: Cluster)
    requires c.Valid()
  {
    var top := Top(c, rel);
    assert forall j :: 0 <= j < |top| ==> top[j].1 in c.vals by {
      forall j | 0 <= j < |top| ensures top[j].1 in c.vals {
        TopEntry(c, rel, top[j]);
      }
    }
    PutAll(EmptyDict(), RankSens(top), TopRecords(c, top))
  }

  /** The picking loop of one cluster: rank, sort, cut at ten, write. */
  method PickCluster(c: Cluster, rel: seq<string>) returns (r: Cluster)
    requires c.Valid()
    ensures r == PickedCluster(c, rel)
  {
    var ranker := RankSentences(c, rel);
    var top := PyTake(SortDesc(ranker, RankScore), 10);
    assert top == Top(c, rel);
    assert forall j :: 0 <= j < |top| ==> top[j].1 in c.vals by {
      forall j | 0 <= j < |top| ensures top[j].1 in c.vals {
        TopEntry(c, rel, top[j]);
      }
    }
    r := WriteTop(c, top);
  }

  /** The loop writing each pick's record, its score as `LDAscore`, into a
      fresh dict. */
  method WriteTop(c: Cluster, top: seq<Rank>) returns (r: Cluster)
    requires c.Valid() && forall j :: 0 <= j < |top| ==> top[j].1 in c.vals
    ensures r == PutAll(EmptyDict(), RankSens(top), TopRecords(c, top))
  {
    ghost var ks := RankSens(top);
    ghost var vs := TopRecords(c, top);
    r := EmptyDict();
    var i := 0;
    while i < |top|
      invariant i <= |top| && r.Valid()
      invariant PutAll(r, ks[i..], vs[i..]) == PutAll(EmptyDict(), ks, vs)
    {
      var p := top[i];
      PutAllStep(r, ks, vs, i);
      r := Put(r, p.1, c.vals[p.1].(ldaScore := Some(p.0 as real)));
      i := i + 1;
    }
  }

  /** No sentence is picked twice: the picks are distinct entries of the
      ranking, whose sentences are distinct. */
  lemma TopDistinct(c: Cluster, rel: seq<string>)
    requires c.Valid()
    ensures Distinct(RankSens(Top(c, rel)))
  {
    var xs := Ranking(c, rel);
    var top := Top(c, rel);
    assert Distinct(xs) by {
      forall i, j | 0 <= i < j < |xs| ensures xs[i] != xs[j] {
        assert xs[i].1 == c.keys[i] && xs[j].1 == c.keys[j];
      }
    }
    TopKDistinct(xs, RankScore, 10);
    var sens := RankSens(top);
    forall a, b | 0 <= a < b < |sens| ensures sens[a] != sens[b] {
      TopEntry(c, rel, top[a]);
      TopEntry(c, rel, top[b]);
    }
  }

  /** The sentences `lda_analysis` keeps of a cluster: ten, or all of them
      when there are fewer, those of the picks in order. */
  lemma PickedKeys(c: Cluster, rel: seq<string>)
    requires c.Valid()
    ensures PickedCluster(c, rel).keys == RankSens(Top(c, rel))
    ensures |PickedCluster(c, rel).keys| == (if |c.keys| < 10 then |c.keys| else 10)
  {
    var top := Top(c, rel);
    forall j | 0 <= j < |top| ensures top[j].1 in c.vals {
      TopEntry(c, rel, top[j]);
    }
    TopDistinct(c, rel);
    PutAllFresh(EmptyDict(), RankSens(top), TopRecords(c, top));
  }

  /** The picks come in descending score. */
  lemma PickedOrder(c: Cluster, rel: seq<string>)
    requires c.Valid()
    ensures var ks := PickedCluster(c, rel).keys;
            forall i, j :: 0 <= i < j < |ks| ==>
              && ks[i] in c.vals && ks[j] in c.vals
              && OverlapScore(c.vals[ks[i]].lemmas, rel) >= OverlapScore(c.vals[ks[j]].lemmas, rel)
  {
    var top := Top(c, rel);
    PickedKeys(c, rel);
    TopKSelects(Ranking(c, rel), RankScore, 10);
    forall j | 0 <= j < |top| ensures top[j].1 in c.vals && top[j].0 == OverlapScore(c.vals[top[j].1].lemmas, rel) {
      TopEntry(c, rel, top[j]);
    }
  }

  /** Each kept sentence is a sentence of the cluster and holds its own
      record with its score as `LDAscore`. */
  lemma PickedRecord(c: Cluster, rel: seq<string>, k: string)
    requires c.Valid() && k in PickedCluster(c, rel).vals
    ensures k in c.vals
    ensures PickedCluster(c, rel).vals[k] == c.vals[k].(ldaScore := Some(OverlapScore(c.vals[k].lemmas, rel) as real))
  {
    var top := Top(c, rel);
    var ks := RankSens(top);
    forall j | 0 <= j < |top| ensures top[j].1 in c.vals && top[j].0 == OverlapScore(c.vals[top[j].1].lemmas, rel) {
      TopEntry(c, rel, top[j]);
    }
    var vs := TopRecords(c, top);
    PutAllMembers(EmptyDict(), ks, vs, k);
    var j := LastIndex(ks, k);
    PutAllLast(EmptyDict(), ks, vs, j);
  }

  /** Nothing left out scores higher than anything picked. */
  lemma PickedBest(c: Cluster, rel: seq<string>, k: string, k': string)
    requires c.Valid()
    requires k in PickedCluster(c, rel).vals && k' in c.vals && k' !in PickedCluster(c, rel).vals
    ensures k in c.vals && OverlapScore(c.vals[k'].lemmas, rel) <= OverlapScore(c.vals[k].lemmas, rel)
  {
    var xs := Ranking(c, rel);
    var top := Top(c, rel);
    var ks := RankSens(top);
    PickedKeys(c, rel);
    var j :| 0 <= j < |ks| && ks[j] == k;
    TopEntry(c, rel, top[j]);
    var i :| 0 <= i < |c.keys| && c.keys[i] == k';
    TopKBest(xs, RankScore, 10, top[j], xs[i]);
  }

  /** Ties keep cluster order: among the sentences with score `s`, the ones
      picked are the first ones of the cluster, in cluster order. */
  lemma PickedTies(c: Cluster, rel: seq<string>, s: nat)
    requires c.Valid()
    ensures RankSens(WithKey(Top(c, rel), RankScore, s as real)) <= RankSens(WithKey(Ranking(c, rel), RankScore, s as real))
  {
    TopKStable(Ranking(c, rel), RankScore, 10, s as real);
  }

  // ---------------------------------------------------------------------
  // The loop over clusters
  // ---------------------------------------------------------------------

  /** One turn of the loop over clusters: collect the terms of the topics the
      cluster's model lists, then pick. */
  function PickEach(showTopics: string -> seq<(int, string)>): (string, Cluster) --> Option<Cluster>
  {
    (key: string, c: Cluster) requires c.Valid() =>
      match RelTerms(showTopics(key))
      case None => None
      case Some(rel) => Some(PickedCluster(c, rel))
  }

  /** `lda_analysis` without its file cache: the picks of every cluster, in
      cluster order; `None` where a topic string does not parse. */
  method LdaAnalysis(inputData: Collection, showTopics: string -> seq<(int, string)>) returns (r: Option<Collection>)
    requires inputData.Valid() && forall k :: k in inputData.vals ==> inputData.vals[k].Valid()
    ensures r == MapDict(inputData, PickEach(showTopics))
  {
    ghost var f := PickEach(showTopics);
    var picked: Collection := EmptyDict();
    var i := 0;
    while i < |inputData.keys|
      invariant i <= |inputData.keys| && picked.Valid()
      invariant MapDictFrom(inputData, f, i, picked) == MapDict(inputData, f)
    {
      var key := inputData.keys[i];
      var rel := RelTerms(showTopics(key));
      if rel.None? {
        return None;
      }
      var summary := PickCluster(inputData.vals[key], rel.value);
      picked := Put(picked, key, summary);
      i := i + 1;
    }
    return Some(picked);
  }
}
