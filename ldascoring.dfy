/** Topic-based sentence scoring and diversity selection over the sentence
    records of each topic (cluster): the per-sentence LDA topic choice, the
    normalisation of tf-idf and concreteness into a fused `total`, and the
    three-way selection by LDA topic. Fitting the LDA model is outside the
    model: each cluster's topic-term weights are given. */
module LdaScoring {
  import opened Text
  import opened Collections
  import opened Records
  import opened Sorting
  import opened TopicTerms

  /** The parsed topic-term weights of one cluster's LDA model, by topic id. */
  type TermWeights = map<int, map<string, real>>

  /** `len(sen.split(' '))` */
  function SentenceLength(sen: string): nat
  {
    |Split(sen, ' ')|
  }

  /** Whether a sentence is scored: it splits into more than seven pieces. */
  predicate Scored(sen: string)
  {
    SentenceLength(sen) > 7
  }

  // ---------------------------------------------------------------------
  // The topic of one sentence
  // ---------------------------------------------------------------------

  /** The score key of a `(topic, score)` pair. */
  function ScoreOf(p: (int, real)): real
  {
    p.1
  }

  /** `sen_topic`: each topic `0..n-1` with its score for the lemmas; `None`
      where a topic id is missing from the table (`KeyError`). */
  ghost function TopicScores(lemmas: seq<string>, table: TermWeights, n: nat): (r: Option<seq<(int, real)>>)
    ensures r.Some? <==> forall t :: 0 <= t < n ==> t in table
    ensures r.Some? ==> |r.value| == n && forall t :: 0 <= t < n ==> r.value[t] == (t, TopicScore(lemmas, table[t]))
  {
    if forall t :: 0 <= t < n ==> t in table then
      Some(seq(n, t requires 0 <= t < n => (t, TopicScore(lemmas, table[t]))))
    else None
  }

  /** `sorted(sen_topic, key=score, reverse=True)[0]`; `None` where no topic
      is listed (`IndexError`) or a topic is missing. */
  ghost function BestTopic(lemmas: seq<string>, table: TermWeights, n: nat): Option<(int, real)>
  {
    match TopicScores(lemmas, table, n)
    case None => None
    case Some(s) => if n == 0 then None else Some(SortDesc(s, ScoreOf)[0])
  }

  /** The chosen topic exists exactly when there is a topic and every topic
      `0..n-1` has weights; it then has the highest score, and every topic
      with a lower id scores strictly less (the lowest id wins a tie). */
  lemma BestTopicSpec(lemmas: seq<string>, table: TermWeights, n: nat)
    ensures BestTopic(lemmas, table, n).Some? <==> n > 0 && forall t :: 0 <= t < n ==> t in table
    ensures BestTopic(lemmas, table, n).Some? ==>
              var b := BestTopic(lemmas, table, n).value;
              && 0 <= b.0 < n
              && b.1 == TopicScore(lemmas, table[b.0])
              && (forall t :: 0 <= t < n ==> TopicScore(lemmas, table[t]) <= b.1)
              && (forall t :: 0 <= t < b.0 ==> TopicScore(lemmas, table[t]) < b.1)
  {
    var s := TopicScores(lemmas, table, n);
    if s.Some? && n > 0 {
      SortDescHead(s.value, ScoreOf);
      var i := FirstMaxIndex(s.value, ScoreOf);
      assert s.value[i] == (i, TopicScore(lemmas, table[i]));
      forall t | 0 <= t < n ensures TopicScore(lemmas, table[t]) <= TopicScore(lemmas, table[i]) {
        assert ScoreOf(s.value[t]) <= ScoreOf(s.value[i]);
      }
      forall t | 0 <= t < i ensures TopicScore(lemmas, table[t]) < TopicScore(lemmas, table[i]) {
        assert ScoreOf(s.value[t]) < ScoreOf(s.value[i]);
      }
    }
  }

  /** The loop over topics that scores one sentence, then the pick. */
  method ChooseTopic(lemmas: seq<string>, table: TermWeights, n: nat) returns (r: Option<(int, real)>)
    ensures r == BestTopic(lemmas, table, n)
  {
    var senTopic: seq<(int, real)> := [];
    var topic := 0;
    while topic < n
      invariant topic <= n
      invariant forall t :: 0 <= t < topic ==> t in table
      invariant |senTopic| == topic
      invariant forall t :: 0 <= t < topic ==> senTopic[t] == (t, TopicScore(lemmas, table[t]))
    {
      if topic !in table {
        return None;
      }
      var score := ScoreTopic(lemmas, table[topic]);
      senTopic := senTopic + [(topic, score)];
      topic := topic + 1;
    }
    assert TopicScores(lemmas, table, n).value == senTopic;
    if |senTopic| == 0 {
      return None;
    }
    r := Some(SortDesc(senTopic, ScoreOf)[0]);
  }

  // ---------------------------------------------------------------------
  // The topics of one cluster
  // ---------------------------------------------------------------------

  /** One entry of `sen_ranker`: a sentence with its topic and score. */
  datatype TopicPick = TopicPick(sen: string, topic: int, score: real)

  /** A record with its LDA score and topic set. */
  function Annotated(info: SentenceInfo, topic: int, score: real): SentenceInfo
  {
    info.(ldaScore := Some(score), ldaTopicId := Some(topic))
  }

  /** Whether every scored sentence of the cluster gets a topic. */
  ghost predicate Rankable(c: Cluster, table: TermWeights, n: nat)
    requires c.Valid()
  {
    forall k :: k in c.vals && Scored(k) ==> BestTopic(c.vals[k].lemmas, table, n).Some?
  }

  /** The sentences of a list of picks. */
  function SensOf(picks: seq<TopicPick>): (r: seq<string>)
    ensures |r| == |picks| && forall j :: 0 <= j < |r| ==> r[j] == picks[j].sen
  {
    seq(|picks|, j requires 0 <= j < |picks| => picks[j].sen)
  }

  /** The records of the picked sentences, each with its pick written in. */
  function PickedRecords(c: Cluster, picks: seq<TopicPick>): (r: seq<SentenceInfo>)
    requires forall j :: 0 <= j < |picks| ==> picks[j].sen in c.vals
    ensures |r| == |picks|
    ensures forall j :: 0 <= j < |r| ==> r[j] == Annotated(c.vals[picks[j].sen], picks[j].topic, picks[j].score)
  {
    seq(|picks|, j requires 0 <= j < |picks| => Annotated(c.vals[picks[j].sen], picks[j].topic, picks[j].score))
  }

  /** The cluster with each pick written into its sentence's record. */
  function ApplyPicks(c: Cluster, picks: seq<TopicPick>): Cluster
    requires c.Valid()
    requires forall j :: 0 <= j < |picks| ==> picks[j].sen in c.vals
  {
    PutAll(c, SensOf(picks), PickedRecords(c, picks))
  }

  /** The pick of a scored sentence. */
  ghost function PickOf(c: Cluster, table: TermWeights, n: nat, sen: string): TopicPick
    requires c.Valid() && Rankable(c, table, n) && sen in c.vals && Scored(sen)
  {
    var b := BestTopic(c.vals[sen].lemmas, table, n).value;
    TopicPick(sen, b.0, b.1)
  }

  /** `sen_ranker`: the pick of every scored sentence, in cluster order. */
  ghost function SenRanker(c: Cluster, table: TermWeights, n: nat): (r: seq<TopicPick>)
    requires c.Valid() && Rankable(c, table, n)
    ensures forall j :: 0 <= j < |r| ==> r[j].sen in c.vals
  {
    var sens := Filter(c.keys, Scored);
    FilterSubset(c.keys, Scored);
    seq(|sens|, j requires 0 <= j < |sens| => PickOf(c, table, n, sens[j]))
  }

  /** `lda_analysis` on one cluster: every scored sentence's record gets the
      topic chosen for its lemmas; `None` where a choice raises. */
  ghost function AnalyzedCluster(c: Cluster, table: TermWeights, n: nat): Option<Cluster>
    requires c.Valid()
  {
    if !Rankable(c, table, n) then None else Some(ApplyPicks(c, SenRanker(c, table, n)))
  }

  /** The topic choice for a sentence's lemmas, as a function value. */
  ghost function Chooser(table: TermWeights, n: nat): seq<string> -> Option<(int, real)>
  {
    lemmas => BestTopic(lemmas, table, n)
  }

  /** The first loop of `lda_analysis` after the first `i` sentences, for a
      topic choice `best`: every scored sentence so far got a topic, and
      `senRanker` holds their picks in order. */
  ghost predicate RankedUpTo(c: Cluster, best: seq<string> -> Option<(int, real)>, i: nat, senRanker: seq<TopicPick>)
    requires c.Valid() && i <= |c.keys|
  {
    && (forall k :: k in c.keys[..i] && Scored(k) ==> best(c.vals[k].lemmas).Some?)
    && var sens := Filter(c.keys[..i], Scored);
       && |senRanker| == |sens|
       && forall j :: 0 <= j < |sens| ==>
            sens[j] in c.vals
            && best(c.vals[sens[j]].lemmas).Some?
            && senRanker[j] == TopicPick(sens[j], best(c.vals[sens[j]].lemmas).value.0,
                                         best(c.vals[sens[j]].lemmas).value.1)
  }

  /** One step of the first loop: a sentence of at most seven pieces is
      skipped, a scored one appends its pick. */
  lemma RankStep(c: Cluster, best: seq<string> -> Option<(int, real)>, i: nat, senRanker: seq<TopicPick>)
    requires c.Valid() && i < |c.keys| && RankedUpTo(c, best, i, senRanker)
    ensures !Scored(c.keys[i]) ==> RankedUpTo(c, best, i + 1, senRanker)
    ensures Scored(c.keys[i]) && best(c.vals[c.keys[i]].lemmas).Some? ==>
              var b := best(c.vals[c.keys[i]].lemmas).value;
              RankedUpTo(c, best, i + 1, senRanker + [TopicPick(c.keys[i], b.0, b.1)])
  {
    var sen := c.keys[i];
    assert c.keys[..i + 1] == c.keys[..i] + [sen];
    FilterAppend(c.keys[..i], [sen], Scored);
    FilterSubset(c.keys[..i], Scored);
  }

  /** After the first loop, the cluster is rankable and `senRanker` is the
      full ranker. */
  lemma RankDone(c: Cluster, table: TermWeights, n: nat, senRanker: seq<TopicPick>)
    requires c.Valid() && RankedUpTo(c, Chooser(table, n), |c.keys|, senRanker)
    ensures Rankable(c, table, n) && senRanker == SenRanker(c, table, n)
  {
    assert c.keys[..|c.keys|] == c.keys;
  }

  /** The first loop of `lda_analysis` for one cluster: the topic of each
      scored sentence; `None` where a choice raises. */
  method RankCluster(c: Cluster, table: TermWeights, n: nat) returns (r: Option<seq<TopicPick>>)
    requires c.Valid()
    ensures r.Some? <==> Rankable(c, table, n)
    ensures r.Some? ==> r.value == SenRanker(c, table, n)
  {
    var senRanker: seq<TopicPick> := [];
    var i := 0;
    while i < |c.keys|
      invariant i <= |c.keys| && RankedUpTo(c, Chooser(table, n), i, senRanker)
    {
      var sen := c.keys[i];
      RankStep(c, Chooser(table, n), i, senRanker);
      if SentenceLength(sen) > 7 {
        var best := ChooseTopic(c.vals[sen].lemmas, table, n);
        if best.None? {
          return None;
        }
        senRanker := senRanker + [TopicPick(sen, best.value.0, best.value.1)];
      }
      i := i + 1;
    }
    RankDone(c, table, n, senRanker);
    r := Some(senRanker);
  }

  /** The second loop of `lda_analysis`: each pick written into the record
      of its sentence, which no earlier pick has touched. */
  method ApplyRanker(c: Cluster, senRanker: seq<TopicPick>) returns (r: Cluster)
    requires c.Valid()
    requires forall j :: 0 <= j < |senRanker| ==> senRanker[j].sen in c.vals
    requires forall a, b :: 0 <= a < b < |senRanker| ==> senRanker[a].sen != senRanker[b].sen
    ensures r == ApplyPicks(c, senRanker)
  {
    ghost var sens := SensOf(senRanker);
    ghost var recs := PickedRecords(c, senRanker);
    r := c;
    var j := 0;
    while j < |senRanker|
      invariant j <= |senRanker| && r.Valid()
      invariant forall j' :: j <= j' < |sens| ==> sens[j'] in r.vals && r.vals[sens[j']] == c.vals[sens[j']]
      invariant PutAll(r, sens[j..], recs[j..]) == PutAll(c, sens, recs)
    {
      var p := senRanker[j];
      var info := r.vals[p.sen];
      assert sens[j..][1..] == sens[j + 1..] && recs[j..][1..] == recs[j + 1..];
      r := Put(r, p.sen, Annotated(info, p.topic, p.score));
      j := j + 1;
    }
  }

  /** The sentences of `sen_ranker` are distinct. */
  lemma SenRankerDistinct(c: Cluster, table: TermWeights, n: nat)
    requires c.Valid() && Rankable(c, table, n)
    ensures var r := SenRanker(c, table, n);
            forall a, b :: 0 <= a < b < |r| ==> r[a].sen != r[b].sen
  {
    FilterSubset(c.keys, Scored);
    FilterDistinct(c.keys, Scored);
  }

  /** `lda_analysis` on one cluster: rank, then write. */
  method AnalyzeCluster(c: Cluster, table: TermWeights, n: nat) returns (r: Option<Cluster>)
    requires c.Valid()
    ensures r == AnalyzedCluster(c, table, n)
  {
    var senRanker := RankCluster(c, table, n);
    if senRanker.None? {
      return None;
    }
    SenRankerDistinct(c, table, n);
    var out := ApplyRanker(c, senRanker.value);
    r := Some(out);
  }

  /** `lda_analysis` succeeds on a cluster exactly when every scored
      sentence gets a topic, and the sentences then stay the same, in the
      same order. */
  lemma AnalyzedClusterKeys(c: Cluster, table: TermWeights, n: nat)
    requires c.Valid()
    ensures AnalyzedCluster(c, table, n).Some? <==> Rankable(c, table, n)
    ensures AnalyzedCluster(c, table, n).Some? ==> AnalyzedCluster(c, table, n).value.keys == c.keys
  {
    if Rankable(c, table, n) {
      var picks := SenRanker(c, table, n);
      PutAllExisting(c, SensOf(picks), PickedRecords(c, picks));
    }
  }

  /** A scored sentence's record gains its chosen topic and that topic's
      score; the record of a sentence of at most seven pieces is untouched. */
  lemma AnalyzedClusterRecord(c: Cluster, table: TermWeights, n: nat, k: string)
    requires c.Valid() && k in c.vals
    requires AnalyzedCluster(c, table, n).Some?
    ensures var r := AnalyzedCluster(c, table, n).value;
            && k in r.vals
            && (Scored(k) ==>
                  var b := BestTopic(c.vals[k].lemmas, table, n).value;
                  r.vals[k] == Annotated(c.vals[k], b.0, b.1))
            && (!Scored(k) ==> r.vals[k] == c.vals[k])
  {
    SenRankerDistinct(c, table, n);
    if Scored(k) {
      RankedRecord(c, table, n, k);
    } else {
      UnrankedRecord(c, table, n, k);
    }
  }

  /** The record of a scored sentence after the ranker is written. */
  lemma RankedRecord(c: Cluster, table: TermWeights, n: nat, k: string)
    requires c.Valid() && k in c.vals && Scored(k) && Rankable(c, table, n)
    requires var r := SenRanker(c, table, n);
             forall a, b :: 0 <= a < b < |r| ==> r[a].sen != r[b].sen
    ensures var r := ApplyPicks(c, SenRanker(c, table, n));
            k in r.vals && r.vals[k] == Annotated(c.vals[k], PickOf(c, table, n, k).topic, PickOf(c, table, n, k).score)
  {
    var picks := SenRanker(c, table, n);
    var sens := Filter(c.keys, Scored);
    FilterSubset(c.keys, Scored);
    FilterMembers(c.keys, Scored, k);
    var ks := SensOf(picks);
    var j :| 0 <= j < |sens| && sens[j] == k;
    assert ks[j] == k && picks[j] == PickOf(c, table, n, k);
    assert k !in ks[j + 1..];
    PutAllLast(c, ks, PickedRecords(c, picks), j);
  }

  /** The record of a sentence of at most seven pieces is untouched. */
  lemma UnrankedRecord(c: Cluster, table: TermWeights, n: nat, k: string)
    requires c.Valid() && k in c.vals && !Scored(k) && Rankable(c, table, n)
    ensures var r := ApplyPicks(c, SenRanker(c, table, n));
            k in r.vals && r.vals[k] == c.vals[k]
  {
    var picks := SenRanker(c, table, n);
    FilterSubset(c.keys, Scored);
    FilterMembers(c.keys, Scored, k);
    var ks := SensOf(picks);
    assert k !in ks;
    PutAllKeeps(c, ks, PickedRecords(c, picks), k);
  }

  // ---------------------------------------------------------------------
  // update_scores: max-normalisation and the fused total
  // ---------------------------------------------------------------------

  /** Whether every record has a tf-idf and a concreteness score (the first
      loop of `update_scores` raises `KeyError` otherwise). */
  predicate HasScores(c: Cluster)
    requires c.Valid()
  {
    forall k :: k in c.keys ==> c.vals[k].tfIdf.Some? && c.vals[k].concreteness.Some?
  }

  /** The list `tf_idf` of a cluster, in sentence order. */
  function TfIdfs(c: Cluster): (r: seq<real>)
    requires c.Valid() && HasScores(c)
    ensures |r| == |c.keys| && forall j :: 0 <= j < |r| ==> r[j] == c.vals[c.keys[j]].tfIdf.value
  {
    seq(|c.keys|, j requires 0 <= j < |c.keys| => c.vals[c.keys[j]].tfIdf.value)
  }

  /** The list `concreteness` of a cluster, in sentence order. */
  function Concretenesses(c: Cluster): (r: seq<real>)
    requires c.Valid() && HasScores(c)
    ensures |r| == |c.keys| && forall j :: 0 <= j < |r| ==> r[j] == c.vals[c.keys[j]].concreteness.value
  {
    seq(|c.keys|, j requires 0 <= j < |c.keys| => c.vals[c.keys[j]].concreteness.value)
  }

  /** A record of a sentence longer than seven tokens with its scores divided
      by the cluster maxima and its `total` set. */
  function Normalized(info: SentenceInfo, mt: real, mc: real): SentenceInfo
    requires info.tfIdf.Some? && info.concreteness.Some? && info.ldaScore.Some?
    requires mt != 0.0 && mc != 0.0 && info.length > 7
  {
    var tf := info.tfIdf.value / mt;
    var cc := info.concreteness.value / mc;
    info.(tfIdf := Some(tf), concreteness := Some(cc), total := Some(tf * cc * info.ldaScore.value / info.length as real))
  }

  /** Whether a sentence reaches the output of `update_scores`: longer than
      seven tokens, with an LDA score. */
  function KeptIn(c: Cluster): string -> bool
  {
    k => k in c.vals && c.vals[k].length > 7 && c.vals[k].ldaScore.Some?
  }

  /** Whether normalising raises `ZeroDivisionError`: a maximum is zero and
      some sentence is longer than seven tokens. */
  predicate ZeroMax(c: Cluster, mt: real, mc: real)
    requires c.Valid()
  {
    (mt == 0.0 || mc == 0.0) && exists k :: k in c.keys && c.vals[k].length > 7
  }

  /** The normalised records of the kept sentences `ks`. */
  function NormRecs(c: Cluster, mt: real, mc: real, ks: seq<string>): (r: seq<SentenceInfo>)
    requires c.Valid() && HasScores(c) && !ZeroMax(c, mt, mc)
    requires forall j :: 0 <= j < |ks| ==> ks[j] in c.keys && c.vals[ks[j]].length > 7 && c.vals[ks[j]].ldaScore.Some?
    ensures |r| == |ks| && forall j :: 0 <= j < |ks| ==> r[j] == Normalized(c.vals[ks[j]], mt, mc)
  {
    seq(|ks|, j requires 0 <= j < |ks| => Normalized(c.vals[ks[j]], mt, mc))
  }

  /** `update_scores` on one cluster: the kept sentences, in order, with
      their normalised records; `None` where it raises: a missing score, an
      empty cluster (`max` of nothing) or a zero maximum. */
  function UpdatedCluster(c: Cluster): Option<Cluster>
    requires c.Valid()
  {
    if !HasScores(c) || |c.keys| == 0 then None
    else
      var mt := Max(TfIdfs(c));
      var mc := Max(Concretenesses(c));
      if ZeroMax(c, mt, mc) then None else Some(NormalizedFrom(c, mt, mc, 0, EmptyDict()))
  }

  /** The kept sentences from position `i` on, normalised and added to `out`. */
  function NormalizedFrom(c: Cluster, mt: real, mc: real, i: nat, out: Cluster): (r: Cluster)
    requires c.Valid() && HasScores(c) && !ZeroMax(c, mt, mc) && i <= |c.keys| && out.Valid()
    ensures r.Valid()
  {
    var ks := Filter(c.keys[i..], KeptIn(c));
    FilterSubset(c.keys[i..], KeptIn(c));
    assert forall j :: 0 <= j < |ks| ==> ks[j] in c.keys && c.vals[ks[j]].length > 7 && c.vals[ks[j]].ldaScore.Some?;
    PutAll(out, ks, NormRecs(c, mt, mc, ks))
  }

  /** The first loop of `update_scores`: the lists `tf_idf` and
      `concreteness`; `None` where a record lacks either score. */
  method CollectScores(c: Cluster) returns (r: Option<(seq<real>, seq<real>)>)
    requires c.Valid()
    ensures r.Some? <==> HasScores(c)
    ensures r.Some? ==> r.value.0 == TfIdfs(c) && r.value.1 == Concretenesses(c)
  {
    var tfIdf: seq<real> := [];
    var concreteness: seq<real> := [];
    var i := 0;
    while i < |c.keys|
      invariant i <= |c.keys|
      invariant forall j :: 0 <= j < i ==> c.vals[c.keys[j]].tfIdf.Some? && c.vals[c.keys[j]].concreteness.Some?
      invariant |tfIdf| == |concreteness| == i
      invariant forall j :: 0 <= j < i ==> tfIdf[j] == c.vals[c.keys[j]].tfIdf.value && concreteness[j] == c.vals[c.keys[j]].concreteness.value
    {
      var info := c.vals[c.keys[i]];
      if info.tfIdf.None? || info.concreteness.None? {
        return None;
      }
      tfIdf := tfIdf + [info.tfIdf.value];
      concreteness := concreteness + [info.concreteness.value];
      i := i + 1;
    }
    assert tfIdf == TfIdfs(c) && concreteness == Concretenesses(c);
    r := Some((tfIdf, concreteness));
  }

  /** `update_scores` on one cluster: collect the scores, take their maxima,
      then normalise and total the kept sentences. */
  method UpdateCluster(c: Cluster) returns (r: Option<Cluster>)
    requires c.Valid()
    ensures r == UpdatedCluster(c)
  {
    var scores := CollectScores(c);
    if scores.None? {
      return None;
    }
    var (tfIdf, concreteness) := scores.value;
    if |tfIdf| == 0 {
      return None;
    }
    var mTfIdf := Max(tfIdf);
    var mConcrete := Max(concreteness);
    r := NormalizeCluster(c, mTfIdf, mConcrete);
  }

  /** The second loop of `update_scores`: each sentence longer than seven
      tokens is normalised, and kept when it has an LDA score. */
  method NormalizeCluster(c: Cluster, mt: real, mc: real) returns (r: Option<Cluster>)
    requires c.Valid() && HasScores(c)
    ensures ZeroMax(c, mt, mc) ==> r.None?
    ensures !ZeroMax(c, mt, mc) ==> r == Some(NormalizedFrom(c, mt, mc, 0, EmptyDict()))
  {
    var out := EmptyDict();
    var i := 0;
    while i < |c.keys|
      invariant i <= |c.keys| && out.Valid()
      invariant (mt == 0.0 || mc == 0.0) ==> forall j :: 0 <= j < i ==> c.vals[c.keys[j]].length <= 7
      invariant !ZeroMax(c, mt, mc) ==> NormalizedFrom(c, mt, mc, i, out) == NormalizedFrom(c, mt, mc, 0, EmptyDict())
    {
      var key := c.keys[i];
      var info := c.vals[key];
      if info.length > 7 && (mt == 0.0 || mc == 0.0) {
        return None;
      }
      if info.length > 7 && info.ldaScore.Some? {
        if !ZeroMax(c, mt, mc) {
          NormalizeStepKept(c, mt, mc, i, out);
        }
        out := Put(out, key, Normalized(info, mt, mc));
      } else if !ZeroMax(c, mt, mc) {
        NormalizeStepSkipped(c, mt, mc, i, out);
      }
      i := i + 1;
    }
    assert c.keys[i..] == [];
    r := Some(out);
  }

  /** One step of the second loop, for a kept sentence. */
  lemma NormalizeStepKept(c: Cluster, mt: real, mc: real, i: nat, out: Cluster)
    requires c.Valid() && HasScores(c) && !ZeroMax(c, mt, mc) && i < |c.keys| && out.Valid()
    requires KeptIn(c)(c.keys[i])
    ensures var key := c.keys[i];
            NormalizedFrom(c, mt, mc, i, out) == NormalizedFrom(c, mt, mc, i + 1, Put(out, key, Normalized(c.vals[key], mt, mc)))
  {
    var key := c.keys[i];
    assert c.keys[i..] == [key] + c.keys[i + 1..];
    FilterAppend([key], c.keys[i + 1..], KeptIn(c));
    FilterSubset(c.keys[i + 1..], KeptIn(c));
    var rest := Filter(c.keys[i + 1..], KeptIn(c));
    var ks := [key] + rest;
    assert Filter(c.keys[i..], KeptIn(c)) == ks;
    var recs := NormRecs(c, mt, mc, ks);
    NormRecsTail(c, mt, mc, key, rest);
    assert ks[1..] == rest;
    assert NormalizedFrom(c, mt, mc, i, out) == PutAll(out, ks, recs);
  }

  /** The normalised records of `[k] + rest`: `k`'s, then those of `rest`. */
  lemma NormRecsTail(c: Cluster, mt: real, mc: real, k: string, rest: seq<string>)
    requires c.Valid() && HasScores(c) && !ZeroMax(c, mt, mc)
    requires k in c.keys && c.vals[k].length > 7 && c.vals[k].ldaScore.Some?
    requires forall j :: 0 <= j < |rest| ==> rest[j] in c.keys && c.vals[rest[j]].length > 7 && c.vals[rest[j]].ldaScore.Some?
    ensures var recs := NormRecs(c, mt, mc, [k] + rest);
            recs[0] == Normalized(c.vals[k], mt, mc) && recs[1..] == NormRecs(c, mt, mc, rest)
  {
  }

  /** One step of the second loop, for a sentence left out. */
  lemma NormalizeStepSkipped(c: Cluster, mt: real, mc: real, i: nat, out: Cluster)
    requires c.Valid() && HasScores(c) && !ZeroMax(c, mt, mc) && i < |c.keys| && out.Valid()
    requires !KeptIn(c)(c.keys[i])
    ensures NormalizedFrom(c, mt, mc, i, out) == NormalizedFrom(c, mt, mc, i + 1, out)
  {
    var key := c.keys[i];
    assert c.keys[i..] == [key] + c.keys[i + 1..];
    FilterAppend([key], c.keys[i + 1..], KeptIn(c));
    assert Filter(c.keys[i..], KeptIn(c)) == Filter(c.keys[i + 1..], KeptIn(c));
  }

  /** What `update_scores` keeps of a cluster, given the maxima `mt` and
      `mc`: exactly the sentences longer than seven tokens that have an LDA
      score, in order, each with tf-idf and concreteness divided by the
      maxima and `total` their product with the LDA score over the length. */
  lemma NormalizedKeys(c: Cluster, mt: real, mc: real, k: string)
    requires c.Valid() && HasScores(c) && !ZeroMax(c, mt, mc)
    ensures var r := NormalizedFrom(c, mt, mc, 0, EmptyDict());
            && r.keys == Filter(c.keys, KeptIn(c))
            && (k in r.vals <==> KeptIn(c)(k))
  {
    assert c.keys[0..] == c.keys;
    var kept := Filter(c.keys, KeptIn(c));
    FilterSubset(c.keys, KeptIn(c));
    FilterDistinct(c.keys, KeptIn(c));
    var recs := NormRecs(c, mt, mc, kept);
    PutAllFresh(EmptyDict(), kept, recs);
    PutAllMembers(EmptyDict(), kept, recs, k);
    FilterMembers(c.keys, KeptIn(c), k);
  }

  /** Each kept sentence holds its normalised record. */
  lemma NormalizedValue(c: Cluster, mt: real, mc: real, k: string)
    requires c.Valid() && HasScores(c) && !ZeroMax(c, mt, mc)
    requires KeptIn(c)(k)
    ensures var r := NormalizedFrom(c, mt, mc, 0, EmptyDict());
            k in r.vals && r.vals[k] == Normalized(c.vals[k], mt, mc)
  {
    assert c.keys[0..] == c.keys;
    var kept := Filter(c.keys, KeptIn(c));
    FilterSubset(c.keys, KeptIn(c));
    FilterDistinct(c.keys, KeptIn(c));
    FilterMembers(c.keys, KeptIn(c), k);
    var recs := NormRecs(c, mt, mc, kept);
    var j :| 0 <= j < |kept| && kept[j] == k;
    assert k !in kept[j + 1..];
    PutAllLast(EmptyDict(), kept, recs, j);
  }

  /** Scores between zero and their maximum normalise into [0, 1]. */
  lemma NormalizedBounds(c: Cluster, mt: real, mc: real, k: string)
    requires c.Valid() && HasScores(c) && !ZeroMax(c, mt, mc)
    requires forall k :: k in c.keys ==> 0.0 <= c.vals[k].tfIdf.value <= mt && 0.0 <= c.vals[k].concreteness.value <= mc
    requires k in NormalizedFrom(c, mt, mc, 0, EmptyDict()).vals
    ensures var info := NormalizedFrom(c, mt, mc, 0, EmptyDict()).vals[k];
            && info.tfIdf.Some? && 0.0 <= info.tfIdf.value <= 1.0
            && info.concreteness.Some? && 0.0 <= info.concreteness.value <= 1.0
  {
    NormalizedKeys(c, mt, mc, k);
    NormalizedValue(c, mt, mc, k);
    UnitRatio(c.vals[k].tfIdf.value, mt);
    UnitRatio(c.vals[k].concreteness.value, mc);
  }

  /** For non-negative scores, `update_scores` leaves every kept sentence's
      tf-idf and concreteness in [0, 1]. */
  lemma UpdatedClusterBounds(c: Cluster, k: string)
    requires c.Valid() && UpdatedCluster(c).Some?
    requires forall k :: k in c.keys ==> c.vals[k].tfIdf.Some? && c.vals[k].tfIdf.value >= 0.0
    requires forall k :: k in c.keys ==> c.vals[k].concreteness.Some? && c.vals[k].concreteness.value >= 0.0
    requires k in UpdatedCluster(c).value.vals
    ensures var info := UpdatedCluster(c).value.vals[k];
            && info.tfIdf.Some? && 0.0 <= info.tfIdf.value <= 1.0
            && info.concreteness.Some? && 0.0 <= info.concreteness.value <= 1.0
  {
    var tfs := TfIdfs(c);
    var ccs := Concretenesses(c);
    var mt := Max(tfs);
    var mc := Max(ccs);
    forall k' | k' in c.keys
      ensures 0.0 <= c.vals[k'].tfIdf.value <= mt && 0.0 <= c.vals[k'].concreteness.value <= mc
    {
      var j :| 0 <= j < |c.keys| && c.keys[j] == k';
      assert tfs[j] == c.vals[k'].tfIdf.value && ccs[j] == c.vals[k'].concreteness.value;
    }
    NormalizedBounds(c, mt, mc, k);
  }

  /** A non-negative value over a non-zero maximum at least as large lies in [0, 1]. */
  lemma UnitRatio(x: real, m: real)
    requires 0.0 <= x <= m && m != 0.0
    ensures 0.0 <= x / m <= 1.0
  {
  }

  // ---------------------------------------------------------------------
  // select_sent: at most a third from each LDA topic group
  // ---------------------------------------------------------------------

  /** `int(num_sentences / 3)`: a third, truncated toward zero. */
  function Third(n: int): (r: int)
    ensures n >= 0 ==> 0 <= r && 3 * r <= n < 3 * r + 3
    ensures n < 0 ==> r <= 0 && 3 * r >= n > 3 * r - 3
  {
    if n >= 0 then n / 3 else -((-n) / 3)
  }

  /** The group a record joins: 0 for LDA topic 0, 1 for topic 1, 2 for any
      other topic; `None` where it lacks `total` or a topic (`KeyError`,
      skipped). */
  function GroupOf(info: SentenceInfo): Option<nat>
  {
    if info.total.None? || info.ldaTopicId.None? then None
    else if info.ldaTopicId.value == 0 then Some(0)
    else if info.ldaTopicId.value == 1 then Some(1)
    else Some(2)
  }

  /** Whether sentence `k` of the cluster joins group `g`. */
  function InGroup(c: Cluster, g: nat): string -> bool
  {
    k => k in c.vals && GroupOf(c.vals[k]) == Some(g)
  }

  /** A `(sentence, total)` pair of a group. */
  type Entry = (string, real)

  function EntryScore(e: Entry): real
  {
    e.1
  }

  /** The pairs of the sentences `ks`, each with its total. */
  function Entries(c: Cluster, ks: seq<string>): (r: seq<Entry>)
    requires forall j :: 0 <= j < |ks| ==> ks[j] in c.vals && c.vals[ks[j]].total.Some?
    ensures |r| == |ks| && forall j :: 0 <= j < |ks| ==> r[j] == (ks[j], c.vals[ks[j]].total.value)
  {
    seq(|ks|, j requires 0 <= j < |ks| => (ks[j], c.vals[ks[j]].total.value))
  }

  /** The sentences of group `g` among `ks`, in order, with their totals. */
  function GroupFrom(c: Cluster, g: nat, ks: seq<string>): seq<Entry>
  {
    var members := Filter(ks, InGroup(c, g));
    FilterSubset(ks, InGroup(c, g));
    Entries(c, members)
  }

  /** `sorted_1 + sorted_2 + sorted_3`: the best `int(n/3)` of each group by
      total, stably, groups in order. */
  function Picked(c: Cluster, n: int): seq<Entry>
  {
    TopK(GroupFrom(c, 0, c.keys), EntryScore, Third(n))
      + TopK(GroupFrom(c, 1, c.keys), EntryScore, Third(n))
      + TopK(GroupFrom(c, 2, c.keys), EntryScore, Third(n))
  }

  /** Every entry of a group names a sentence of the group, with its total. */
  lemma GroupMembers(c: Cluster, g: nat, ks: seq<string>, e: Entry)
    ensures e in GroupFrom(c, g, ks) <==> e.0 in ks && InGroup(c, g)(e.0) && e.1 == c.vals[e.0].total.value
  {
    var members := Filter(ks, InGroup(c, g));
    FilterSubset(ks, InGroup(c, g));
    FilterMembers(ks, InGroup(c, g), e.0);
    var es := GroupFrom(c, g, ks);
    if e.0 in members && e.1 == c.vals[e.0].total.value {
      var j :| 0 <= j < |members| && members[j] == e.0;
      assert es[j] == e;
    }
  }

  /** Every picked entry names a sentence of the cluster, with its total. */
  lemma PickedMembers(c: Cluster, n: int, e: Entry)
    requires e in Picked(c, n)
    ensures e.0 in c.vals && c.vals[e.0].total.Some? && e.1 == c.vals[e.0].total.value
    ensures GroupOf(c.vals[e.0]).Some? && e in TopK(GroupFrom(c, GroupOf(c.vals[e.0]).value, c.keys), EntryScore, Third(n))
  {
    var g :| 0 <= g < 3 && e in TopK(GroupFrom(c, g, c.keys), EntryScore, Third(n));
    TopKIn(GroupFrom(c, g, c.keys), EntryScore, Third(n), e);
    GroupMembers(c, g, c.keys, e);
  }

  /** The records of the picked entries, each with its total written back. */
  function PickedInfos(c: Cluster, picked: seq<Entry>): (r: seq<SentenceInfo>)
    requires forall j :: 0 <= j < |picked| ==> picked[j].0 in c.vals
    ensures |r| == |picked| && forall j :: 0 <= j < |picked| ==> r[j] == c.vals[picked[j].0].(total := Some(picked[j].1))
  {
    seq(|picked|, j requires 0 <= j < |picked| => c.vals[picked[j].0].(total := Some(picked[j].1)))
  }

  /** The sentences of a list of entries. */
  function EntrySens(es: seq<Entry>): (r: seq<string>)
    ensures |r| == |es| && forall j :: 0 <= j < |es| ==> r[j] == es[j].0
  {
    seq(|es|, j requires 0 <= j < |es| => es[j].0)
  }

  /** `select_sent` on one cluster: the picked sentences with their records. */
  function SelectedCluster(c: Cluster, n: int): Cluster
    requires c.Valid()
  {
    var picked := Picked(c, n);
    assert forall j :: 0 <= j < |picked| ==> picked[j].0 in c.vals by {
      forall j | 0 <= j < |picked| ensures picked[j].0 in c.vals {
        PickedMembers(c, n, picked[j]);
      }
    }
    PutAll(EmptyDict(), EntrySens(picked), PickedInfos(c, picked))
  }

  /** The grouping loop after the first `i` sentences. */
  lemma GroupStep(c: Cluster, g: nat, i: nat)
    requires c.Valid() && i < |c.keys|
    ensures var k := c.keys[i];
            GroupFrom(c, g, c.keys[..i + 1]) ==
              GroupFrom(c, g, c.keys[..i]) + (if InGroup(c, g)(k) then [(k, c.vals[k].total.value)] else [])
  {
    var k := c.keys[i];
    assert c.keys[..i + 1] == c.keys[..i] + [k];
    FilterAppend(c.keys[..i], [k], InGroup(c, g));
    FilterSubset(c.keys[..i], InGroup(c, g));
    var a := Filter(c.keys[..i], InGroup(c, g));
    if InGroup(c, g)(k) {
      assert Filter(c.keys[..i + 1], InGroup(c, g)) == a + [k];
    } else {
      assert Filter(c.keys[..i + 1], InGroup(c, g)) == a;
    }
  }

  /** The grouping loop of `select_sent`: the `(sentence, total)` pairs of
      each group, in cluster order. */
  method GroupSentences(c: Cluster) returns (group1: seq<Entry>, group2: seq<Entry>, group3: seq<Entry>)
    requires c.Valid()
    ensures group1 == GroupFrom(c, 0, c.keys)
    ensures group2 == GroupFrom(c, 1, c.keys)
    ensures group3 == GroupFrom(c, 2, c.keys)
  {
    group1, group2, group3 := [], [], [];
    var i := 0;
    while i < |c.keys|
      invariant i <= |c.keys|
      invariant group1 == GroupFrom(c, 0, c.keys[..i])
      invariant group2 == GroupFrom(c, 1, c.keys[..i])
      invariant group3 == GroupFrom(c, 2, c.keys[..i])
    {
      var key := c.keys[i];
      var info := c.vals[key];
      GroupStep(c, 0, i);
      GroupStep(c, 1, i);
      GroupStep(c, 2, i);
      if info.total.Some? && info.ldaTopicId.Some? {
        var total := info.total.value;
        if info.ldaTopicId.value == 0 {
          group1 := group1 + [(key, total)];
        } else if info.ldaTopicId.value == 1 {
          group2 := group2 + [(key, total)];
        } else {
          group3 := group3 + [(key, total)];
        }
      }
      i := i + 1;
    }
    assert c.keys[..i] == c.keys;
  }

  /** The collecting loop of `select_sent`: each picked sentence's record,
      with its total written back, put into a fresh dict. */
  method CollectPicked(c: Cluster, picked: seq<Entry>) returns (r: Cluster)
    requires forall j :: 0 <= j < |picked| ==> picked[j].0 in c.vals
    ensures r == PutAll(EmptyDict(), EntrySens(picked), PickedInfos(c, picked))
  {
    ghost var sens := EntrySens(picked);
    ghost var infos := PickedInfos(c, picked);
    r := EmptyDict();
    var j := 0;
    while j < |picked|
      invariant j <= |picked| && r.Valid()
      invariant PutAll(r, sens[j..], infos[j..]) == PutAll(EmptyDict(), sens, infos)
    {
      var (sentence, score) := picked[j];
      var sentInfo := c.vals[sentence];
      sentInfo := sentInfo.(total := Some(score));
      assert sens[j..][1..] == sens[j + 1..] && infos[j..][1..] == infos[j + 1..];
      r := Put(r, sentence, sentInfo);
      j := j + 1;
    }
  }

  /** `select_sent` on one cluster: group, sort and cut each group, then
      collect the picked records. */
  method SelectCluster(c: Cluster, n: int) returns (r: Cluster)
    requires c.Valid()
    ensures r == SelectedCluster(c, n)
  {
    var group1, group2, group3 := GroupSentences(c);
    var third := Third(n);
    var sorted1 := PyTake(SortDesc(group1, EntryScore), third);
    var sorted2 := PyTake(SortDesc(group2, EntryScore), third);
    var sorted3 := PyTake(SortDesc(group3, EntryScore), third);
    var sortedSentences := sorted1 + sorted2 + sorted3;
    assert sortedSentences == Picked(c, n);
    assert forall j :: 0 <= j < |sortedSentences| ==> sortedSentences[j].0 in c.vals by {
      forall j | 0 <= j < |sortedSentences| ensures sortedSentences[j].0 in c.vals {
        PickedMembers(c, n, sortedSentences[j]);
      }
    }
    r := CollectPicked(c, sortedSentences);
  }

  /** A dictionary filled from pairs whose value is always `f` of the key
      holds `f(k)` at each key it was given. */
  lemma PutAllOfKey(ks: seq<string>, vs: seq<SentenceInfo>, c: Cluster, k: string)
    requires |ks| == |vs| && c.Valid()
    requires forall j :: 0 <= j < |ks| ==> ks[j] in c.vals && vs[j] == c.vals[ks[j]]
    requires k in ks
    ensures k in PutAll(EmptyDict(), ks, vs).vals && PutAll(EmptyDict(), ks, vs).vals[k] == c.vals[k]
  {
    var j := LastIndex(ks, k);
    PutAllLast(EmptyDict(), ks, vs, j);
  }

  /** Writing back the total a record already has leaves it unchanged. */
  lemma TotalWrittenBack(info: SentenceInfo, t: real)
    requires info.total == Some(t)
    ensures info.(total := Some(t)) == info
  {
  }

  /** Every picked entry's record, with its total written back, is the
      record the cluster already holds, and lies in a group. */
  lemma PickedInfosUnchanged(c: Cluster, n: int)
    requires c.Valid()
    ensures var picked := Picked(c, n);
            && (forall j :: 0 <= j < |picked| ==> picked[j].0 in c.vals && GroupOf(c.vals[picked[j].0]).Some?)
            && PickedInfos(c, picked) == seq(|picked|, j requires 0 <= j < |picked| => c.vals[picked[j].0])
  {
    var picked := Picked(c, n);
    forall j | 0 <= j < |picked|
      ensures picked[j].0 in c.vals && c.vals[picked[j].0].total == Some(picked[j].1) && GroupOf(c.vals[picked[j].0]).Some?
    {
      PickedMembers(c, n, picked[j]);
    }
    var infos := PickedInfos(c, picked);
    forall j | 0 <= j < |picked| ensures infos[j] == c.vals[picked[j].0] {
      TotalWrittenBack(c.vals[picked[j].0], picked[j].1);
    }
  }

  /** The sentences `select_sent` keeps of a cluster are exactly the picked
      ones. */
  lemma SelectedClusterMembers(c: Cluster, n: int, k: string)
    requires c.Valid()
    ensures k in SelectedCluster(c, n).vals <==> exists e :: e in Picked(c, n) && e.0 == k
  {
    var picked := Picked(c, n);
    PickedInfosUnchanged(c, n);
    var sens := EntrySens(picked);
    PutAllMembers(EmptyDict(), sens, PickedInfos(c, picked), k);
    if k in sens {
      var j :| 0 <= j < |sens| && sens[j] == k;
      assert picked[j] in picked;
    } else {
      forall e | e in picked ensures e.0 != k {
        var j :| 0 <= j < |picked| && picked[j] == e;
        assert sens[j] == e.0;
      }
    }
  }

  /** Each sentence `select_sent` keeps has its own record unchanged (the
      total written back is the one it had) and lies in one of the three
      groups. */
  lemma SelectedClusterRecords(c: Cluster, n: int, k: string)
    requires c.Valid() && k in SelectedCluster(c, n).vals
    ensures k in c.vals && SelectedCluster(c, n).vals[k] == c.vals[k] && GroupOf(c.vals[k]).Some?
  {
    var picked := Picked(c, n);
    PickedInfosUnchanged(c, n);
    var sens := EntrySens(picked);
    var infos := PickedInfos(c, picked);
    PutAllMembers(EmptyDict(), sens, infos, k);
    var j :| 0 <= j < |sens| && sens[j] == k;
    PutAllOfKey(sens, infos, c, k);
  }

  /** The picks of group `g` (topic 0, topic 1, any other topic): at most a
      third of `num_sentences`, and only sentences of that group with their
      totals. Their order and that no sentence of the group left out has a
      higher total is `Sorting.TopKSelects`. */
  lemma GroupPicks(c: Cluster, n: int, g: nat, e: Entry)
    requires c.Valid()
    ensures var p := TopK(GroupFrom(c, g, c.keys), EntryScore, Third(n));
            && (n >= 0 ==> |p| <= n / 3)
            && (e in p ==> e.0 in c.vals && GroupOf(c.vals[e.0]) == Some(g) && c.vals[e.0].total == Some(e.1))
  {
    var xs := GroupFrom(c, g, c.keys);
    TopKSelects(xs, EntryScore, Third(n));
    if e in TopK(xs, EntryScore, Third(n)) {
      TopKIn(xs, EntryScore, Third(n), e);
      GroupMembers(c, g, c.keys, e);
    }
  }

  // ---------------------------------------------------------------------
  // The loops over clusters and `sentence_selection_wrapper`
  // ---------------------------------------------------------------------

  /** Every cluster of the collection is a well-formed dict. */
  ghost predicate ClustersValid(d: Collection)
  {
    d.Valid() && forall k :: k in d.vals ==> d.vals[k].Valid()
  }

  /** One turn of `lda_analysis`'s loop over clusters: parse the topic terms
      listed by the cluster's fitted model (`showTopics`, with `toReal` as
      `float`), then annotate the cluster; `None` where either raises. */
  ghost function AnalyzeEach(showTopics: string -> seq<(int, string)>, toReal: string -> Option<real>, n: nat)
    : (string, Cluster) --> Option<Cluster>
  {
    (key: string, c: Cluster) requires c.Valid() =>
      match TopicTable(showTopics(key), toReal)
      case None => None
      case Some(table) => AnalyzedCluster(c, table, n)
  }

  /** `lda_analysis`: every cluster annotated by the LDA model fitted on it,
      the clusters keeping their order. */
  method LdaAnalysis(inputData: Collection, showTopics: string -> seq<(int, string)>, toReal: string -> Option<real>, n: nat)
    returns (r: Option<Collection>)
    requires ClustersValid(inputData)
    ensures r == MapDict(inputData, AnalyzeEach(showTopics, toReal, n))
  {
    ghost var f := AnalyzeEach(showTopics, toReal, n);
    var out: Collection := EmptyDict();
    var i := 0;
    while i < |inputData.keys|
      invariant i <= |inputData.keys| && out.Valid()
      invariant MapDictFrom(inputData, f, i, out) == MapDict(inputData, f)
    {
      var key := inputData.keys[i];
      var table := TopicTable(showTopics(key), toReal);
      if table.None? {
        return None;
      }
      var a := AnalyzeCluster(inputData.vals[key], table.value, n);
      if a.None? {
        return None;
      }
      out := Put(out, key, a.value);
      i := i + 1;
    }
    return Some(out);
  }

  /** One turn of `update_scores`'s loop over clusters. */
  function UpdateEach(key: string, c: Cluster): Option<Cluster>
    requires c.Valid()
  {
    UpdatedCluster(c)
  }

  /** `update_scores`: every cluster normalised, in order; `None` where one
      of them raises. */
  method UpdateScores(dic: Collection) returns (r: Option<Collection>)
    requires ClustersValid(dic)
    ensures r == MapDict(dic, UpdateEach)
  {
    var out: Collection := EmptyDict();
    var i := 0;
    while i < |dic.keys|
      invariant i <= |dic.keys| && out.Valid()
      invariant MapDictFrom(dic, UpdateEach, i, out) == MapDict(dic, UpdateEach)
    {
      var key := dic.keys[i];
      var u := UpdateCluster(dic.vals[key]);
      if u.None? {
        return None;
      }
      out := Put(out, key, u.value);
      i := i + 1;
    }
    return Some(out);
  }

  /** One turn of `select_sent`'s loop over clusters; it never raises. */
  function SelectEach(numSentences: int): (string, Cluster) --> Option<Cluster>
  {
    (key: string, c: Cluster) requires c.Valid() => Some(SelectedCluster(c, numSentences))
  }

  /** `select_sent`: the picks of every cluster, in order. */
  method SelectSent(data: Collection, numSentences: int) returns (r: Collection)
    requires ClustersValid(data)
    ensures MapDict(data, SelectEach(numSentences)) == Some(r)
  {
    ghost var f := SelectEach(numSentences);
    var out: Collection := EmptyDict();
    var i := 0;
    while i < |data.keys|
      invariant i <= |data.keys| && out.Valid()
      invariant MapDictFrom(data, f, i, out) == MapDict(data, f)
    {
      var key := data.keys[i];
      var s := SelectCluster(data.vals[key], numSentences);
      out := Put(out, key, s);
      i := i + 1;
    }
    return out;
  }

  /** The three steps of `sentence_selection_wrapper`, in order. */
  ghost function SentenceSelection(inputData: Collection, showTopics: string -> seq<(int, string)>, toReal: string -> Option<real>,
                                   numSentences: int): (r: Option<Collection>)
    requires ClustersValid(inputData)
    ensures r.Some? ==> ClustersValid(r.value)
  {
    var analyzed := MapDict(inputData, AnalyzeEach(showTopics, toReal, 3));
    if analyzed.None? then None
    else
      AnalyzedValid(inputData, showTopics, toReal, 3);
      var updated := MapDict(analyzed.value, UpdateEach);
      if updated.None? then None
      else
        UpdatedValid(analyzed.value);
        SelectedValid(updated.value, numSentences);
        MapDict(updated.value, SelectEach(numSentences))
  }

  /** `sentence_selection_wrapper` without its file cache, with three topics
      per cluster. */
  method SentenceSelectionWrapper(inputData: Collection, showTopics: string -> seq<(int, string)>, toReal: string -> Option<real>,
                                  numSentences: int) returns (r: Option<Collection>)
    requires ClustersValid(inputData)
    ensures r == SentenceSelection(inputData, showTopics, toReal, numSentences)
  {
    var analyzed := LdaAnalysis(inputData, showTopics, toReal, 3);
    if analyzed.None? {
      return None;
    }
    AnalyzedValid(inputData, showTopics, toReal, 3);
    var updated := UpdateScores(analyzed.value);
    if updated.None? {
      return None;
    }
    UpdatedValid(analyzed.value);
    var picked := SelectSent(updated.value, numSentences);
    return Some(picked);
  }

  /** End to end: every sentence `sentence_selection_wrapper` picks for a
      cluster is a sentence of that input cluster, keeps its token count,
      which is above seven, carries a `total`, and, unless its input record
      already had an LDA score, splits into more than seven pieces. */
  lemma SentenceSelectionPicks(inputData: Collection, showTopics: string -> seq<(int, string)>, toReal: string -> Option<real>,
                               numSentences: int, t: string, k: string)
    requires ClustersValid(inputData)
    requires SentenceSelection(inputData, showTopics, toReal, numSentences).Some?
    requires t in SentenceSelection(inputData, showTopics, toReal, numSentences).value.vals
    requires k in SentenceSelection(inputData, showTopics, toReal, numSentences).value.vals[t].vals
    ensures t in inputData.vals && k in inputData.vals[t].vals
    ensures var info := SentenceSelection(inputData, showTopics, toReal, numSentences).value.vals[t].vals[k];
            && info.length == inputData.vals[t].vals[k].length > 7
            && info.total.Some?
            && (inputData.vals[t].vals[k].ldaScore.None? ==> Scored(k))
  {
    var f := AnalyzeEach(showTopics, toReal, 3);
    var a := MapDict(inputData, f).value;
    AnalyzedValid(inputData, showTopics, toReal, 3);
    var u := MapDict(a, UpdateEach).value;
    UpdatedValid(a);
    SelectedValid(u, numSentences);
    MapDictEntry(u, SelectEach(numSentences), t);
    MapDictEntry(a, UpdateEach, t);
    MapDictEntry(inputData, f, t);
    var c0 := inputData.vals[t];
    var table := TopicTable(showTopics(t), toReal).value;
    var c1 := a.vals[t];
    assert c1 == AnalyzedCluster(c0, table, 3).value;
    var c2 := u.vals[t];
    SelectedClusterRecords(c2, numSentences, k);
    var mt := Max(TfIdfs(c1));
    var mc := Max(Concretenesses(c1));
    assert c2 == NormalizedFrom(c1, mt, mc, 0, EmptyDict());
    NormalizedKeys(c1, mt, mc, k);
    NormalizedValue(c1, mt, mc, k);
    AnalyzedClusterKeys(c0, table, 3);
    AnalyzedClusterRecord(c0, table, 3, k);
  }

  lemma AnalyzedValid(d: Collection, showTopics: string -> seq<(int, string)>, toReal: string -> Option<real>, n: nat)
    requires ClustersValid(d) && MapDict(d, AnalyzeEach(showTopics, toReal, n)).Some?
    ensures ClustersValid(MapDict(d, AnalyzeEach(showTopics, toReal, n)).value)
  {
    var f := AnalyzeEach(showTopics, toReal, n);
    forall k | k in MapDict(d, f).value.vals
      ensures MapDict(d, f).value.vals[k].Valid()
    {
      MapDictEntry(d, f, k);
    }
  }

  lemma UpdatedValid(d: Collection)
    requires ClustersValid(d) && MapDict(d, UpdateEach).Some?
    ensures ClustersValid(MapDict(d, UpdateEach).value)
  {
    forall k | k in MapDict(d, UpdateEach).value.vals
      ensures MapDict(d, UpdateEach).value.vals[k].Valid()
    {
      MapDictEntry(d, UpdateEach, k);
    }
  }

  lemma SelectedValid(d: Collection, numSentences: int)
    requires ClustersValid(d)
    ensures MapDict(d, SelectEach(numSentences)).Some?
    ensures ClustersValid(MapDict(d, SelectEach(numSentences)).value)
  {
    var f := SelectEach(numSentences);
    MapDictFromSome(d, f, 0, EmptyDict());
    forall k | k in MapDict(d, f).value.vals
      ensures MapDict(d, f).value.vals[k].Valid()
    {
      MapDictEntry(d, f, k);
    }
  }
}
