/** Summary assembly of the generator: for one topic, the candidate
    sentences are ranked by LDA score, and a greedy scan fills a 100-token
    budget. Candidates whose annotated length is not in 9..50 are skipped;
    the others are cleaned (sentence rewrites, tokenization, adverb
    removal) and taken if they still fit. A candidate that does not fit is
    passed over and the scan goes on; the scan stops for good once the
    budget is reached. Also the output file name of a topic's summary. */
module SummaryAssembly {
  import opened Text
  import opened Collections
  import opened Sorting
  import opened SentenceHeuristics

  /** One entry of a topic's candidate dictionary: the sentence (its key),
      its annotated `length` and its `LDAscore`. */
  datatype Candidate = Candidate(text: string, length: int, ldaScore: real)

  /** The library calls the generator makes: `word_tokenize`, `pos_tag`
      (one tag per token) and the Treebank detokenizer. */
  datatype Nlp = Nlp(tokenize: string -> seq<string>, posTag: seq<string> -> seq<string>, detokenize: seq<string> -> string)

  ghost predicate TagsAlign(nlp: Nlp)
  {
    forall t :: |nlp.posTag(t)| == |t|
  }

  /** The summary budget in tokens. */
  const Budget: nat := 100

  /** A candidate is considered only if its annotated length is in 9..50. */
  predicate Eligible(length: int)
  {
    !(length <= 8 || length > 50)
  }

  function LdaKey(c: Candidate): real { c.ldaScore }

  /** `sorted(candidates, key=LDAscore, reverse=True)` */
  function Ranked(cands: seq<Candidate>): seq<Candidate>
  {
    SortDesc(cands, LdaKey)
  }

  /** The token list a candidate turns into, or `None` where the cleaning
      raises because no token survives. */
  function Cleaned(c: Candidate, nlp: Nlp): Option<seq<string>>
  {
    var tokens := nlp.tokenize(ApplyHeuristicsToSentence(c.text));
    CleanTokens(tokens, nlp.posTag(tokens))
  }

  /** The cleaning the generator applies, as a function value. The scan
      and its properties below hold for any cleaning function. */
  function Cleaner(nlp: Nlp): Candidate -> Option<seq<string>>
  {
    (c: Candidate) => Cleaned(c, nlp)
  }

  /** The number of tokens a candidate adds when taken. */
  function CleanLength(c: Candidate, clean: Candidate -> Option<seq<string>>): nat
  {
    match clean(c)
    case Some(t) => |t|
    case None => 0
  }

  /** The result of the scan: the summary sentences, with the positions in
      the ranking they come from and the running token count; `Crash` where
      the source raises. */
  datatype Outcome = Summary(sentences: seq<string>, picked: seq<nat>, length: nat) | Crash

  /** The scan from ranking position `i`, with the summary built so far. */
  function Scan(xs: seq<Candidate>, clean: Candidate -> Option<seq<string>>, detok: seq<string> -> string, i: nat, sents: seq<string>, picked: seq<nat>, total: nat): Outcome
    requires i <= |xs|
    decreases |xs| - i
  {
    if i == |xs| || total >= Budget then Summary(sents, picked, total)
    else if !Eligible(xs[i].length) then Scan(xs, clean, detok, i + 1, sents, picked, total)
    else
      match clean(xs[i])
      case None => Crash
      case Some(tokens) =>
        if total + |tokens| <= Budget then
          Scan(xs, clean, detok, i + 1, sents + [detok(tokens)], picked + [i], total + |tokens|)
        else Scan(xs, clean, detok, i + 1, sents, picked, total)
  }

  /** The summary of one topic, before information ordering. */
  function AssembleTopic(cands: seq<Candidate>, nlp: Nlp): Outcome
  {
    Scan(Ranked(cands), Cleaner(nlp), nlp.detokenize, 0, [], [], 0)
  }

  /** Lines 54-56 of the loop: the sentence rewrites, tokenization and the
      token heuristics. */
  method CleanCandidate(c: Candidate, nlp: Nlp) returns (tokens: Option<seq<string>>)
    requires TagsAlign(nlp)
    ensures tokens == Cleaner(nlp)(c)
  {
    var sentence := ApplyHeuristicsToSentence(c.text);
    var words := nlp.tokenize(sentence);
    tokens := ApplyHeuristicsToTokens(words, nlp.posTag(words));
  }

  /** The selection loop of `make_summaries` for one topic, over the ranked
      candidates and for any cleaning: `None` where the cleaning raises. */
  method ScanTopic(xs: seq<Candidate>, clean: Candidate -> Option<seq<string>>, detok: seq<string> -> string) returns (summary: Option<seq<string>>)
    ensures summary.None? <==> Scan(xs, clean, detok, 0, [], [], 0).Crash?
    ensures summary.Some? ==> summary.value == Scan(xs, clean, detok, 0, [], [], 0).sentences
  {
    var sents: seq<string> := [];
    var summLength: nat := 0;
    ghost var picked: seq<nat> := [];
    var i := 0;
    while i < |xs|
      invariant i <= |xs|
      invariant Scan(xs, clean, detok, i, sents, picked, summLength) == Scan(xs, clean, detok, 0, [], [], 0)
    {
      if summLength >= Budget {
        break;
      }
      var senLength := xs[i].length;
      if senLength <= 8 || senLength > 50 {
        i := i + 1;
        continue;
      }
      var tokens := clean(xs[i]);
      if tokens.None? {
        return None;
      }
      if summLength + |tokens.value| <= Budget {
        summLength := summLength + |tokens.value|;
        sents := sents + [detok(tokens.value)];
        picked := picked + [i];
      }
      i := i + 1;
    }
    return Some(sents);
  }

  /** `make_summaries` for one topic: rank the candidates, then scan them
      with the generator's cleaning. */
  method SummarizeTopic(cands: seq<Candidate>, nlp: Nlp) returns (summary: Option<seq<string>>)
    ensures summary.None? <==> AssembleTopic(cands, nlp).Crash?
    ensures summary.Some? ==> summary.value == AssembleTopic(cands, nlp).sentences
  {
    var sortedKeys := Ranked(cands);
    summary := ScanTopic(sortedKeys, Cleaner(nlp), nlp.detokenize);
  }

  /** The scan of one topic's ranked candidates, as a function value. */
  function TopicScanner(clean: Candidate -> Option<seq<string>>, detok: seq<string> -> string): seq<Candidate> -> Outcome
  {
    cands => Scan(Ranked(cands), clean, detok, 0, [], [], 0)
  }

  /** The summaries of all topics, in dictionary order, each the outcome of
      `scan` on its candidates; `None` as soon as one topic raises. */
  function ScanAll(topics: seq<(string, seq<Candidate>)>, scan: seq<Candidate> -> Outcome): Option<seq<(string, seq<string>)>>
  {
    if |topics| == 0 then Some([])
    else
      match ScanAll(topics[..|topics| - 1], scan)
      case None => None
      case Some(done) =>
        var last := topics[|topics| - 1];
        var o := scan(last.1);
        if o.Crash? then None else Some(done + [(last.0, o.sentences)])
  }

  lemma ScanAllSnoc(topics: seq<(string, seq<Candidate>)>, scan: seq<Candidate> -> Outcome, k: nat)
    requires k < |topics|
    ensures ScanAll(topics[..k + 1], scan) ==
              match ScanAll(topics[..k], scan)
              case None => None
              case Some(done) => if scan(topics[k].1).Crash? then None else Some(done + [(topics[k].0, scan(topics[k].1).sentences)])
  {
    assert topics[..k + 1][..k] == topics[..k];
  }

  lemma ScanAllStuck(topics: seq<(string, seq<Candidate>)>, scan: seq<Candidate> -> Outcome, k: nat, n: nat)
    requires k <= n <= |topics| && ScanAll(topics[..k], scan).None?
    ensures ScanAll(topics[..n], scan).None?
    decreases n - k
  {
    if k < n {
      ScanAllSnoc(topics, scan, k);
      ScanAllStuck(topics, scan, k + 1, n);
    }
  }

  /** The summaries exist exactly when no topic raises; then there is one
      per topic, in order, holding the topic id and its scan's sentences. */
  lemma {:induction false} ScanAllSpec(topics: seq<(string, seq<Candidate>)>, scan: seq<Candidate> -> Outcome)
    ensures ScanAll(topics, scan).None? <==> exists k :: 0 <= k < |topics| && scan(topics[k].1).Crash?
    ensures ScanAll(topics, scan).Some? ==>
              var r := ScanAll(topics, scan).value;
              |r| == |topics| &&
              forall k :: 0 <= k < |topics| ==> r[k].0 == topics[k].0 && r[k].1 == scan(topics[k].1).sentences
    decreases |topics|
  {
    if |topics| > 0 {
      ScanAllSpec(topics[..|topics| - 1], scan);
    }
  }

  /** One turn of the loop over topics: a topic that raises ends the
      summaries with `None`, another one adds its summary. */
  lemma ScanTopicsStep(topics: seq<(string, seq<Candidate>)>, clean: Candidate -> Option<seq<string>>, detok: seq<string> -> string,
                       k: nat, done: seq<(string, seq<string>)>, summary: Option<seq<string>>)
    requires k < |topics| && ScanAll(topics[..k], TopicScanner(clean, detok)) == Some(done)
    requires var o := Scan(Ranked(topics[k].1), clean, detok, 0, [], [], 0);
             (summary.None? <==> o.Crash?) && (summary.Some? ==> summary.value == o.sentences)
    ensures summary.None? ==> ScanAll(topics, TopicScanner(clean, detok)).None?
    ensures summary.Some? ==> ScanAll(topics[..k + 1], TopicScanner(clean, detok)) == Some(done + [(topics[k].0, summary.value)])
  {
    var scan := TopicScanner(clean, detok);
    assert scan(topics[k].1) == Scan(Ranked(topics[k].1), clean, detok, 0, [], [], 0);
    ScanAllSnoc(topics, scan, k);
    if summary.None? {
      ScanAllStuck(topics, scan, k + 1, |topics|);
      assert topics[..|topics|] == topics;
    }
  }

  /** The selection loop of `make_summaries` over all topics, in dictionary
      order, for any cleaning. */
  method ScanTopics(topics: seq<(string, seq<Candidate>)>, clean: Candidate -> Option<seq<string>>, detok: seq<string> -> string) returns (r: Option<seq<(string, seq<string>)>>)
    ensures r == ScanAll(topics, TopicScanner(clean, detok))
  {
    var done: seq<(string, seq<string>)> := [];
    var k := 0;
    assert topics[..0] == [];
    while k < |topics|
      invariant k <= |topics| && ScanAll(topics[..k], TopicScanner(clean, detok)) == Some(done)
    {
      var summary := ScanTopic(Ranked(topics[k].1), clean, detok);
      ScanTopicsStep(topics, clean, detok, k, done, summary);
      if summary.None? {
        return None;
      }
      done := done + [(topics[k].0, summary.value)];
      k := k + 1;
    }
    assert topics[..k] == topics;
    return Some(done);
  }

  /** `make_summaries` with the generator's cleaning, up to the summary
      dictionary: each topic keeps the scan's list (the coherence scoring
      that follows in the source is not modelled). */
  method MakeSummaries(topics: seq<(string, seq<Candidate>)>, nlp: Nlp) returns (r: Option<seq<(string, seq<string>)>>)
    ensures r.None? <==> exists k :: 0 <= k < |topics| && AssembleTopic(topics[k].1, nlp).Crash?
    ensures r.Some? ==> |r.value| == |topics|
    ensures r.Some? ==> forall k :: 0 <= k < |topics| ==>
              r.value[k].0 == topics[k].0 && r.value[k].1 == AssembleTopic(topics[k].1, nlp).sentences
  {
    r := ScanTopics(topics, Cleaner(nlp), nlp.detokenize);
    ScanAllSpec(topics, TopicScanner(Cleaner(nlp), nlp.detokenize));
  }

  // ---------------------------------------------------------------------
  // What the scan guarantees
  // ---------------------------------------------------------------------

  /** Tokens taken by the positions in `ps`. */
  function SumLengths(xs: seq<Candidate>, clean: Candidate -> Option<seq<string>>, ps: seq<nat>): nat
    requires forall t :: 0 <= t < |ps| ==> ps[t] < |xs|
  {
    if |ps| == 0 then 0 else CleanLength(xs[ps[0]], clean) + SumLengths(xs, clean, ps[1..])
  }

  /** Tokens taken by the positions in `ps` that come before position `j`. */
  function TakenBefore(xs: seq<Candidate>, clean: Candidate -> Option<seq<string>>, ps: seq<nat>, j: nat): nat
    requires forall t :: 0 <= t < |ps| ==> ps[t] < |xs|
  {
    if |ps| == 0 then 0
    else (if ps[0] < j then CleanLength(xs[ps[0]], clean) else 0) + TakenBefore(xs, clean, ps[1..], j)
  }

  lemma {:induction false} SumLengthsAppend(xs: seq<Candidate>, clean: Candidate -> Option<seq<string>>, ps: seq<nat>, p: nat)
    requires forall t :: 0 <= t < |ps| ==> ps[t] < |xs|
    requires p < |xs|
    ensures SumLengths(xs, clean, ps + [p]) == SumLengths(xs, clean, ps) + CleanLength(xs[p], clean)
    decreases |ps|
  {
    if |ps| > 0 {
      assert (ps + [p])[1..] == ps[1..] + [p];
      SumLengthsAppend(xs, clean, ps[1..], p);
    }
  }

  /** Splitting the positions at `j`: all before counts fully, all after not at all. */
  lemma {:induction false} TakenBeforeSplit(xs: seq<Candidate>, clean: Candidate -> Option<seq<string>>, a: seq<nat>, b: seq<nat>, j: nat)
    requires forall t :: 0 <= t < |a| ==> a[t] < j && a[t] < |xs|
    requires forall t :: 0 <= t < |b| ==> j <= b[t] < |xs|
    ensures TakenBefore(xs, clean, a + b, j) == SumLengths(xs, clean, a)
    decreases |a| + |b|
  {
    if |a| > 0 {
      assert (a + b)[1..] == a[1..] + b;
      TakenBeforeSplit(xs, clean, a[1..], b, j);
    } else if |b| > 0 {
      assert (a + b) == b;
      TakenBeforeSplit(xs, clean, a, b[1..], j);
      assert b[1..] == a + b[1..];
    }
  }

  /** The scan only appends: the positions it adds lie past `i`, increase,
      and come with the detokenized cleaned tokens of the candidate there. */
  lemma {:induction false} ScanAppends(xs: seq<Candidate>, clean: Candidate -> Option<seq<string>>, detok: seq<string> -> string, i: nat, sents: seq<string>, picked: seq<nat>, total: nat)
    requires i <= |xs|
    requires |sents| == |picked| && Increasing(picked)
    requires forall t :: 0 <= t < |picked| ==> picked[t] < i
    ensures var o := Scan(xs, clean, detok, i, sents, picked, total);
            o.Summary? ==>
              && |o.sentences| == |o.picked| >= |picked|
              && o.picked[..|picked|] == picked && o.sentences[..|sents|] == sents
              && Increasing(o.picked)
              && (forall t :: |picked| <= t < |o.picked| ==> i <= o.picked[t] < |xs|)
              && (forall t :: |picked| <= t < |o.picked| ==>
                    Eligible(xs[o.picked[t]].length) && clean(xs[o.picked[t]]).Some? &&
                    o.sentences[t] == detok(clean(xs[o.picked[t]]).value))
    decreases |xs| - i
  {
    if i < |xs| && total < Budget {
      if !Eligible(xs[i].length) {
        ScanAppends(xs, clean, detok, i + 1, sents, picked, total);
      } else if clean(xs[i]).Some? {
        var tokens := clean(xs[i]).value;
        if total + |tokens| <= Budget {
          ScanAppends(xs, clean, detok, i + 1, sents + [detok(tokens)], picked + [i], total + |tokens|);
          var o := Scan(xs, clean, detok, i + 1, sents + [detok(tokens)], picked + [i], total + |tokens|);
          if o.Summary? {
          assert o.picked[..|picked| + 1][..|picked|] == o.picked[..|picked|];
          assert o.sentences[..|sents| + 1][..|sents|] == o.sentences[..|sents|];
          assert o.picked[|picked|] == i;
          }
        } else {
          ScanAppends(xs, clean, detok, i + 1, sents, picked, total);
        }
      }
    }
  }

  /** The token count the scan reports is the sum over the sentences it
      took, and never exceeds the budget. */
  lemma {:induction false} ScanTotal(xs: seq<Candidate>, clean: Candidate -> Option<seq<string>>, detok: seq<string> -> string, i: nat, sents: seq<string>, picked: seq<nat>, total: nat)
    requires i <= |xs|
    requires forall t :: 0 <= t < |picked| ==> picked[t] < |xs|
    requires total == SumLengths(xs, clean, picked) && total <= Budget
    ensures var o := Scan(xs, clean, detok, i, sents, picked, total);
            o.Summary? ==>
              && (forall t :: 0 <= t < |o.picked| ==> o.picked[t] < |xs|)
              && o.length == SumLengths(xs, clean, o.picked) <= Budget
    decreases |xs| - i
  {
    if i < |xs| && total < Budget {
      if !Eligible(xs[i].length) {
        ScanTotal(xs, clean, detok, i + 1, sents, picked, total);
      } else if clean(xs[i]).Some? {
        var tokens := clean(xs[i]).value;
        if total + |tokens| <= Budget {
          SumLengthsAppend(xs, clean, picked, i);
          ScanTotal(xs, clean, detok, i + 1, sents + [detok(tokens)], picked + [i], total + |tokens|);
        } else {
          ScanTotal(xs, clean, detok, i + 1, sents, picked, total);
        }
      }
    }
  }

  /** The positions the scan reports: the ones before `i` it was given,
      then positions from `i` on; all of them within the ranking. */
  lemma PickedSplit(xs: seq<Candidate>, clean: Candidate -> Option<seq<string>>, detok: seq<string> -> string, i: nat, sents: seq<string>, picked: seq<nat>, total: nat)
    requires i <= |xs|
    requires |sents| == |picked| && Increasing(picked)
    requires forall t :: 0 <= t < |picked| ==> picked[t] < i
    ensures var o := Scan(xs, clean, detok, i, sents, picked, total);
            o.Summary? ==>
              && |o.picked| >= |picked| && o.picked == picked + o.picked[|picked|..]
              && (forall t :: 0 <= t < |o.picked| ==> o.picked[t] < |xs|)
              && (forall t :: |picked| <= t < |o.picked| ==> i <= o.picked[t])
              && (i !in picked)
  {
    ScanAppends(xs, clean, detok, i, sents, picked, total);
  }

  /** The greedy rule at the position the scan has reached: with `total`
      tokens taken so far, candidate `i` is taken exactly when it is
      eligible, the budget is not yet reached and it fits. */
  lemma GreedyAt(xs: seq<Candidate>, clean: Candidate -> Option<seq<string>>, detok: seq<string> -> string, i: nat, sents: seq<string>, picked: seq<nat>, total: nat)
    requires i < |xs|
    requires |sents| == |picked| && Increasing(picked)
    requires forall t :: 0 <= t < |picked| ==> picked[t] < i
    ensures var o := Scan(xs, clean, detok, i, sents, picked, total);
            o.Summary? ==>
              && (i in o.picked <==>
                    Eligible(xs[i].length) && total < Budget && total + CleanLength(xs[i], clean) <= Budget)
              && (Eligible(xs[i].length) && total < Budget ==> clean(xs[i]).Some?)
  {
    var o := Scan(xs, clean, detok, i, sents, picked, total);
    if o.Summary? {
      if total >= Budget {
        assert o.picked == picked;
      } else if !Eligible(xs[i].length) || total + CleanLength(xs[i], clean) > Budget {
        PickedSplit(xs, clean, detok, i + 1, sents, picked, total);
      } else {
        var tokens := clean(xs[i]).value;
        PickedSplit(xs, clean, detok, i + 1, sents + [detok(tokens)], picked + [i], total + |tokens|);
        assert o.picked[|picked|] == (picked + [i])[|picked|];
      }
    }
  }

  /** The greedy rule at position `j`, for the positions `ps` taken: `j`
      is taken exactly when it is eligible, the sentences taken before it
      leave the budget not yet reached, and its cleaned tokens still fit;
      and it cleans without raising when the scan reaches it eligible. */
  predicate GreedyAtPos(xs: seq<Candidate>, clean: Candidate -> Option<seq<string>>, ps: seq<nat>, j: nat)
    requires j < |xs| && forall t :: 0 <= t < |ps| ==> ps[t] < |xs|
  {
    && (j in ps <==>
          Eligible(xs[j].length) && TakenBefore(xs, clean, ps, j) < Budget &&
          TakenBefore(xs, clean, ps, j) + CleanLength(xs[j], clean) <= Budget)
    && (Eligible(xs[j].length) && TakenBefore(xs, clean, ps, j) < Budget ==> clean(xs[j]).Some?)
  }

  /** The greedy rule holds at the position the scan has reached. */
  lemma ScanGreedyAt(xs: seq<Candidate>, clean: Candidate -> Option<seq<string>>, detok: seq<string> -> string, i: nat, sents: seq<string>, picked: seq<nat>, total: nat)
    requires i < |xs|
    requires |sents| == |picked| && Increasing(picked)
    requires forall t :: 0 <= t < |picked| ==> picked[t] < i
    requires total == SumLengths(xs, clean, picked)
    ensures var o := Scan(xs, clean, detok, i, sents, picked, total);
            o.Summary? ==> (forall t :: 0 <= t < |o.picked| ==> o.picked[t] < |xs|) && GreedyAtPos(xs, clean, o.picked, i)
  {
    var o := Scan(xs, clean, detok, i, sents, picked, total);
    PickedSplit(xs, clean, detok, i, sents, picked, total);
    if o.Summary? {
      TakenBeforeSplit(xs, clean, picked, o.picked[|picked|..], i);
      GreedyAt(xs, clean, detok, i, sents, picked, total);
    }
  }

  /** Once the budget is reached nothing further is taken, and the greedy
      rule holds at every later position. */
  lemma ScanGreedyFull(xs: seq<Candidate>, clean: Candidate -> Option<seq<string>>, i: nat, picked: seq<nat>, total: nat)
    requires i <= |xs|
    requires forall t :: 0 <= t < |picked| ==> picked[t] < i
    requires total == SumLengths(xs, clean, picked) && total >= Budget
    ensures forall j :: i <= j < |xs| ==> GreedyAtPos(xs, clean, picked, j)
  {
    forall j | i <= j < |xs|
      ensures GreedyAtPos(xs, clean, picked, j)
    {
      TakenBeforeSplit(xs, clean, picked, [], j);
      assert picked + [] == picked;
    }
  }

  /** The greedy rule: a candidate at position `j` is in the summary exactly
      when it is eligible, the sentences taken before it leave the budget
      not yet reached, and its cleaned tokens still fit; and every candidate
      the scan reaches cleans without raising. */
  lemma {:induction false} ScanGreedy(xs: seq<Candidate>, clean: Candidate -> Option<seq<string>>, detok: seq<string> -> string, i: nat, sents: seq<string>, picked: seq<nat>, total: nat)
    requires i <= |xs|
    requires |sents| == |picked| && Increasing(picked)
    requires forall t :: 0 <= t < |picked| ==> picked[t] < i
    requires total == SumLengths(xs, clean, picked)
    ensures var o := Scan(xs, clean, detok, i, sents, picked, total);
            o.Summary? ==>
              (forall t :: 0 <= t < |o.picked| ==> o.picked[t] < |xs|) &&
              forall j :: i <= j < |xs| ==> GreedyAtPos(xs, clean, o.picked, j)
    decreases |xs| - i
  {
    var o := Scan(xs, clean, detok, i, sents, picked, total);
    PickedSplit(xs, clean, detok, i, sents, picked, total);
    if o.Summary? && i < |xs| {
      ScanGreedyAt(xs, clean, detok, i, sents, picked, total);
      if total >= Budget {
        ScanGreedyFull(xs, clean, i, picked, total);
      } else {
        if Eligible(xs[i].length) && total + CleanLength(xs[i], clean) <= Budget {
          var tokens := clean(xs[i]).value;
          assert o == Scan(xs, clean, detok, i + 1, sents + [detok(tokens)], picked + [i], total + |tokens|);
          SumLengthsAppend(xs, clean, picked, i);
          ScanGreedy(xs, clean, detok, i + 1, sents + [detok(tokens)], picked + [i], total + |tokens|);
        } else {
          assert o == Scan(xs, clean, detok, i + 1, sents, picked, total);
          ScanGreedy(xs, clean, detok, i + 1, sents, picked, total);
        }
        forall j | i <= j < |xs| ensures GreedyAtPos(xs, clean, o.picked, j) {
        }
      }
    }
  }

  /** For one topic: the summary holds at most 100 tokens, counted over the
      cleaned sentences it took; every sentence taken has annotated length
      in 9..50 and is the detokenized clean-up of its candidate; sentences
      come in non-increasing LDA score; and a candidate is taken exactly
      when the budget is not yet reached and it still fits. This holds for
      any cleaning, so in particular of `AssembleTopic`, which is this scan
      with the generator's cleaning `Cleaner(nlp)`. */
  lemma SelectionSpec(cands: seq<Candidate>, clean: Candidate -> Option<seq<string>>, detok: seq<string> -> string)
    ensures var xs := Ranked(cands);
            var o := Scan(xs, clean, detok, 0, [], [], 0);
            o.Summary? ==>
              && |o.sentences| == |o.picked|
              && (forall t :: 0 <= t < |o.picked| ==> o.picked[t] < |xs|)
              && o.length == SumLengths(xs, clean, o.picked) <= Budget
              && (forall t :: 0 <= t < |o.picked| ==>
                    9 <= xs[o.picked[t]].length <= 50 && clean(xs[o.picked[t]]).Some? &&
                    o.sentences[t] == detok(clean(xs[o.picked[t]]).value))
              && (forall a, b :: 0 <= a < b < |o.picked| ==> xs[o.picked[a]].ldaScore >= xs[o.picked[b]].ldaScore)
              && (forall j :: 0 <= j < |xs| ==> GreedyAtPos(xs, clean, o.picked, j))
  {
    var xs := Ranked(cands);
    ScanAppends(xs, clean, detok, 0, [], [], 0);
    ScanTotal(xs, clean, detok, 0, [], [], 0);
    ScanGreedy(xs, clean, detok, 0, [], [], 0);
    SortDescSorted(cands, LdaKey);
  }

  // ---------------------------------------------------------------------
  // Output file name
  // ---------------------------------------------------------------------

  /** `"{id_part_1}-A.M.100.{id_part_2}.{run_id}"` with the topic id split
      before its last character; `None` for an empty topic id, where
      `topic_id[-1]` raises. */
  function OutputName(topicId: string, runId: string): Option<string>
  {
    if |topicId| == 0 then None
    else Some(topicId[..|topicId| - 1] + "-A.M.100." + [topicId[|topicId| - 1]] + "." + runId)
  }

  /** The name is the topic id less its last character, `-A.M.100.`, that
      character, a period and the run id; so for topic ids of one length,
      the name determines both the topic id and the run id. */
  lemma OutputNameParts(topicId: string, runId: string, topicId': string, runId': string)
    requires |topicId| > 0 && |topicId'| == |topicId|
    ensures var n := OutputName(topicId, runId).value;
            var m := |topicId|;
            && |n| == m + 10 + |runId|
            && n[..m - 1] == topicId[..m - 1]
            && n[m - 1..m + 8] == "-A.M.100."
            && n[m + 8] == topicId[m - 1] && n[m + 9] == '.'
            && n[m + 10..] == runId
    ensures OutputName(topicId, runId) == OutputName(topicId', runId') ==> topicId == topicId' && runId == runId'
  {
    var m := |topicId|;
    var n := OutputName(topicId, runId).value;
    if OutputName(topicId, runId) == OutputName(topicId', runId') {
      assert n[..m - 1] == topicId'[..m - 1];
      assert topicId == topicId[..m - 1] + [topicId[m - 1]];
      assert topicId' == topicId'[..m - 1] + [topicId'[m - 1]];
      assert n[m + 10..] == runId';
    }
  }
}
