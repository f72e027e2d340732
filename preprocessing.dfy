/** Sentence-record construction: the token and lemma filters over a
    spaCy-annotated sentence, and the per-topic dictionary of sentence
    records keyed by sentence text. spaCy itself (sentence splitting,
    lemmas, part-of-speech tags, stop words) is outside the model: its
    output is given as `SpacySentence` values. */
module Preprocessing {
  import opened Text
  import opened Collections
  import opened Records

  /** The spaCy token attributes the code reads. `isAlpha` is
      `token.text.isalpha()`. */
  datatype Token = Token(text: string, lemmaForm: string, isAlpha: bool, isStop: bool, isPunct: bool, pos: string)

  /** A spaCy sentence: its text (`str(sentence)`) and its tokens. */
  datatype SpacySentence = SpacySentence(text: string, tokens: seq<Token>)

  /** The tokens `get_lemmas` takes: without a tag, alphabetic tokens that
      are neither stop words nor punctuation; with a tag, those of that part
      of speech. */
  predicate LemmaKept(t: Token, tag: Option<string>)
  {
    match tag
    case None => t.isAlpha && !(t.isStop || t.isPunct)
    case Some(pos) => t.pos == pos
  }

  /** `get_lemmas`: the lower-cased lemmas of the kept tokens, in order. */
  function GetLemmas(tokens: seq<Token>, tag: Option<string>): (r: seq<string>)
    ensures |r| <= |tokens|
  {
    if |tokens| == 0 then []
    else (if LemmaKept(tokens[0], tag) then [Lower(tokens[0].lemmaForm)] else []) + GetLemmas(tokens[1..], tag)
  }

  /** `get_lemmas` works token by token and keeps the order: on a
      concatenation it concatenates. */
  lemma {:induction false} GetLemmasAppend(a: seq<Token>, b: seq<Token>, tag: Option<string>)
    ensures GetLemmas(a + b, tag) == GetLemmas(a, tag) + GetLemmas(b, tag)
    decreases |a|
  {
    if |a| == 0 {
      assert a + b == b;
    } else {
      GetLemmasAppend(a[1..], b, tag);
      assert (a + b)[1..] == a[1..] + b;
      var h := if LemmaKept(a[0], tag) then [Lower(a[0].lemmaForm)] else [];
      assert GetLemmas(a + b, tag) == h + GetLemmas(a[1..] + b, tag);
      AppendAssoc(h, GetLemmas(a[1..], tag), GetLemmas(b, tag));
    }
  }

  /** On one token `get_lemmas` gives that token's lower-cased lemma
      exactly when the token is kept. */
  lemma GetLemmasOne(t: Token, tag: Option<string>)
    ensures GetLemmas([t], tag) == if LemmaKept(t, tag) then [Lower(t.lemmaForm)] else []
  {
    assert [t][1..] == [];
  }

  /** Every lemma returned comes from a kept token, and every kept token's
      lemma is returned. */
  lemma {:induction false} GetLemmasMembers(tokens: seq<Token>, tag: Option<string>, l: string)
    ensures l in GetLemmas(tokens, tag) <==> exists t :: t in tokens && LemmaKept(t, tag) && Lower(t.lemmaForm) == l
    decreases |tokens|
  {
    if |tokens| > 0 {
      GetLemmasMembers(tokens[1..], tag, l);
      assert tokens == [tokens[0]] + tokens[1..];
      if exists t :: t in tokens && LemmaKept(t, tag) && Lower(t.lemmaForm) == l {
        var t :| t in tokens && LemmaKept(t, tag) && Lower(t.lemmaForm) == l;
        if t != tokens[0] {
          assert t in tokens[1..];
        }
      }
    }
  }

  /** Whether a sentence is kept by `get_sents_noquest`: its text does not
      end in a question mark. */
  predicate NotQuestion(s: SpacySentence)
  {
    |s.text| > 0 && s.text[|s.text| - 1] != '?'
  }

  /** `get_sents_noquest`; `None` where a sentence has empty text
      (`str(sent)[-1]` raises). */
  function GetSentsNoQuest(sents: seq<SpacySentence>): Option<seq<SpacySentence>>
  {
    if exists k :: 0 <= k < |sents| && |sents[k].text| == 0 then None
    else Some(Filter(sents, NotQuestion))
  }

  /** The kept sentences are exactly the non-questions, in order. */
  lemma GetSentsNoQuestSpec(sents: seq<SpacySentence>, s: SpacySentence)
    ensures GetSentsNoQuest(sents).Some? <==> forall k :: 0 <= k < |sents| ==> |sents[k].text| > 0
    ensures GetSentsNoQuest(sents).Some? ==>
              (s in GetSentsNoQuest(sents).value <==> s in sents && s.text[|s.text| - 1] != '?')
  {
    FilterMembers(sents, NotQuestion, s);
  }

  /** `tokens_per_sentence`: every token's text, lower-cased. */
  function TokensPerSentence(s: SpacySentence): (r: seq<string>)
    ensures |r| == |s.tokens|
    ensures forall i :: 0 <= i < |r| ==> r[i] == Lower(s.tokens[i].text)
  {
    seq(|s.tokens|, i requires 0 <= i < |s.tokens| => Lower(s.tokens[i].text))
  }

  /** One document of a topic: its non-question sentences and its id. */
  type Document = (seq<SpacySentence>, string)

  /** The record `process_document` makes for the sentence at `index`. */
  function SentenceRecord(doc: Document, docIndex: nat, topicId: string, index: nat): SentenceInfo
    requires index < |doc.0|
  {
    var sentence := doc.0[index];
    SentenceInfo(doc.1, docIndex, topicId, index, GetLemmas(sentence.tokens, None),
                 |TokensPerSentence(sentence)|, |doc.0|, None, None, None, None, None)
  }

  /** The texts of a document's sentences, the keys `process_document` assigns. */
  function Texts(doc: Document): (r: seq<string>)
    ensures |r| == |doc.0| && forall k :: 0 <= k < |r| ==> r[k] == doc.0[k].text
  {
    seq(|doc.0|, k requires 0 <= k < |doc.0| => doc.0[k].text)
  }

  /** The records of a document's sentences, in order. */
  function RecordsOf(doc: Document, docIndex: nat, topicId: string): (r: seq<SentenceInfo>)
    ensures |r| == |doc.0| && forall k :: 0 <= k < |r| ==> r[k] == SentenceRecord(doc, docIndex, topicId, k)
  {
    seq(|doc.0|, k requires 0 <= k < |doc.0| => SentenceRecord(doc, docIndex, topicId, k))
  }

  /** `process_document`: the loop that records each sentence of a document
      into the topic's dictionary under its text, in order. */
  method ProcessDocument(doc: Document, docIndex: nat, topicId: string, sentences: Cluster) returns (r: Cluster)
    requires sentences.Valid()
    ensures r == PutAll(sentences, Texts(doc), RecordsOf(doc, docIndex, topicId))
  {
    ghost var texts := Texts(doc);
    ghost var recs := RecordsOf(doc, docIndex, topicId);
    r := sentences;
    var totalSents := |doc.0|;
    var index := 0;
    while index < totalSents
      invariant index <= totalSents == |doc.0| && r.Valid()
      invariant PutAll(r, texts[index..], recs[index..]) == PutAll(sentences, texts, recs)
    {
      var sentence := doc.0[index];
      var tokens := TokensPerSentence(sentence);
      var info := SentenceInfo(doc.1, docIndex, topicId, index, GetLemmas(sentence.tokens, None),
                               |tokens|, totalSents, None, None, None, None, None);
      assert texts[index..][1..] == texts[index + 1..] && recs[index..][1..] == recs[index + 1..];
      assert info == recs[index];
      r := Put(r, sentence.text, info);
      index := index + 1;
    }
  }

  /** Whether `k` is the last sentence of `doc` with text `text`. */
  predicate LastWithText(doc: Document, text: string, k: nat)
  {
    k < |doc.0| && doc.0[k].text == text && forall k' :: k < k' < |doc.0| ==> doc.0[k'].text != text
  }

  /** What `process_document` leaves in the topic's dictionary: the keys
      already there stay first; every sentence text is a key; the record
      under a text is that of the last sentence with that text, giving its
      position, the document's sentence count and its token count; keys
      that are not sentence texts keep their records. */
  lemma ProcessDocumentSpec(doc: Document, docIndex: nat, topicId: string, sentences: Cluster, k: nat, t: string)
    requires sentences.Valid()
    ensures var r := PutAll(sentences, Texts(doc), RecordsOf(doc, docIndex, topicId));
            && sentences.keys <= r.keys
            && (t in r.vals <==> t in sentences.vals || exists k' :: 0 <= k' < |doc.0| && doc.0[k'].text == t)
            && (LastWithText(doc, t, k) ==>
                  t in r.vals && r.vals[t] == SentenceRecord(doc, docIndex, topicId, k)
                  && r.vals[t].index == k && r.vals[t].totalSent == |doc.0|
                  && r.vals[t].length == |doc.0[k].tokens| && r.vals[t].docIndex == docIndex)
            && (t in sentences.vals && (forall k' :: 0 <= k' < |doc.0| ==> doc.0[k'].text != t) ==>
                  t in r.vals && r.vals[t] == sentences.vals[t])
  {
    var texts := Texts(doc);
    var recs := RecordsOf(doc, docIndex, topicId);
    PutAllPrefix(sentences, texts, recs);
    PutAllMembers(sentences, texts, recs, t);
    if t in texts {
      var j :| 0 <= j < |texts| && texts[j] == t;
    }
    if LastWithText(doc, t, k) {
      var later := texts[k + 1..];
      forall j | 0 <= j < |later| ensures later[j] != t {
        assert later[j] == doc.0[k + 1 + j].text;
      }
      PutAllLast(sentences, texts, recs, k);
    }
    if t in sentences.vals && (forall k' :: 0 <= k' < |doc.0| ==> doc.0[k'].text != t) {
      PutAllKeeps(sentences, texts, recs, t);
    }
  }

  /** The documents of a topic from `i` on, recorded into `acc`. */
  function TopicRecordsFrom(docs: seq<Document>, topicId: string, i: nat, acc: Cluster): (r: Cluster)
    requires i <= |docs| && acc.Valid()
    ensures r.Valid()
    decreases |docs| - i
  {
    if i == |docs| then acc
    else TopicRecordsFrom(docs, topicId, i + 1, PutAll(acc, Texts(docs[i]), RecordsOf(docs[i], i, topicId)))
  }

  /** `process_document` for every document of one topic, in order, each
      with its position: the inner loop of `process_documents_by_topic`. */
  method ProcessTopic(docs: seq<Document>, topicId: string) returns (r: Cluster)
    ensures r == TopicRecordsFrom(docs, topicId, 0, EmptyDict())
  {
    r := EmptyDict();
    var i := 0;
    while i < |docs|
      invariant i <= |docs| && r.Valid()
      invariant TopicRecordsFrom(docs, topicId, i, r) == TopicRecordsFrom(docs, topicId, 0, EmptyDict())
    {
      r := ProcessDocument(docs[i], i, topicId, r);
      i := i + 1;
    }
  }

  /** Whether a record is the record of sentence `rec.index` of document
      `rec.docIndex` of the topic, under that sentence's text. */
  predicate RecordOf(docs: seq<Document>, topicId: string, text: string, rec: SentenceInfo)
  {
    && rec.docIndex < |docs|
    && rec.index < |docs[rec.docIndex].0|
    && docs[rec.docIndex].0[rec.index].text == text
    && rec == SentenceRecord(docs[rec.docIndex], rec.docIndex, topicId, rec.index)
  }

  /** One document step keeps every record a record of its own sentence. */
  lemma DocumentStepRecords(docs: seq<Document>, topicId: string, i: nat, acc: Cluster, t: string)
    requires i < |docs| && acc.Valid()
    requires forall t :: t in acc.vals ==> RecordOf(docs, topicId, t, acc.vals[t])
    ensures var r := PutAll(acc, Texts(docs[i]), RecordsOf(docs[i], i, topicId));
            t in r.vals ==> RecordOf(docs, topicId, t, r.vals[t])
  {
    var texts := Texts(docs[i]);
    var recs := RecordsOf(docs[i], i, topicId);
    PutAllMembers(acc, texts, recs, t);
    if t in texts {
      var j := LastIndex(texts, t);
      PutAllLast(acc, texts, recs, j);
    } else if t in acc.vals {
      PutAllKeeps(acc, texts, recs, t);
    }
  }

  /** Every record of a topic is the record of a sentence of that topic with
      that text: its document's position, the document's id and sentence
      count, its own position, token count and lemmas. */
  lemma {:induction false} TopicRecordsFromSpec(docs: seq<Document>, topicId: string, i: nat, acc: Cluster)
    requires i <= |docs| && acc.Valid()
    requires forall t :: t in acc.vals ==> RecordOf(docs, topicId, t, acc.vals[t])
    ensures var r := TopicRecordsFrom(docs, topicId, i, acc);
            forall t :: t in r.vals ==> RecordOf(docs, topicId, t, r.vals[t])
    decreases |docs| - i
  {
    if i < |docs| {
      var acc' := PutAll(acc, Texts(docs[i]), RecordsOf(docs[i], i, topicId));
      forall t | t in acc'.vals ensures RecordOf(docs, topicId, t, acc'.vals[t]) {
        DocumentStepRecords(docs, topicId, i, acc, t);
      }
      TopicRecordsFromSpec(docs, topicId, i + 1, acc');
      assert TopicRecordsFrom(docs, topicId, i, acc) == TopicRecordsFrom(docs, topicId, i + 1, acc');
    }
  }

  /** The dictionary of every topic, in the order of the topics. */
  function Clusters(documents: ODict<seq<Document>>): (r: seq<Cluster>)
    requires documents.Valid()
    ensures |r| == |documents.keys|
    ensures forall k :: 0 <= k < |r| ==> r[k] == TopicRecordsFrom(documents.vals[documents.keys[k]], documents.keys[k], 0, EmptyDict())
  {
    seq(|documents.keys|, k requires 0 <= k < |documents.keys| =>
      TopicRecordsFrom(documents.vals[documents.keys[k]], documents.keys[k], 0, EmptyDict()))
  }

  /** `process_documents_by_topic`: one dictionary per topic. */
  method ProcessDocumentsByTopic(documents: ODict<seq<Document>>) returns (r: Collection)
    requires documents.Valid()
    ensures r == PutAll(EmptyDict(), documents.keys, Clusters(documents))
  {
    ghost var clusters := Clusters(documents);
    r := EmptyDict();
    var i := 0;
    while i < |documents.keys|
      invariant i <= |documents.keys| && r.Valid()
      invariant PutAll(r, documents.keys[i..], clusters[i..]) == PutAll(EmptyDict(), documents.keys, clusters)
    {
      var topicId := documents.keys[i];
      var info := ProcessTopic(documents.vals[topicId], topicId);
      PutAllStep(r, documents.keys, clusters, i);
      r := Put(r, topicId, info);
      i := i + 1;
    }
  }

  /** The collection has the topics of the input, in their order. */
  lemma ProcessDocumentsByTopicKeys(documents: ODict<seq<Document>>)
    requires documents.Valid()
    ensures PutAll(EmptyDict(), documents.keys, Clusters(documents)).keys == documents.keys
  {
    PutAllFresh(EmptyDict(), documents.keys, Clusters(documents));
  }

  /** Each topic's dictionary holds only records of that topic's own
      sentences, each under its sentence's text. */
  lemma ProcessDocumentsByTopicRecords(documents: ODict<seq<Document>>, t: string, text: string)
    requires documents.Valid()
    ensures var r := PutAll(EmptyDict(), documents.keys, Clusters(documents));
            t in documents.vals && t in r.vals && text in r.vals[t].vals ==>
              RecordOf(documents.vals[t], t, text, r.vals[t].vals[text])
  {
    var clusters := Clusters(documents);
    var r := PutAll(EmptyDict(), documents.keys, clusters);
    PutAllMembers(EmptyDict(), documents.keys, clusters, t);
    if t in r.vals {
      var k := LastIndex(documents.keys, t);
      PutAllLast(EmptyDict(), documents.keys, clusters, k);
      assert r.vals[t] == TopicRecordsFrom(documents.vals[t], t, 0, EmptyDict());
      TopicRecordsFromSpec(documents.vals[t], t, 0, EmptyDict());
    }
  }
}
