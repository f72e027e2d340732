/** The record the content-selection stages keep for each sentence of a
    topic, keyed by the sentence's text. Python keeps it as a dict whose
    keys are added stage by stage; a key not yet added is `None` here. */
module Records {
  import opened Collections

  datatype SentenceInfo = SentenceInfo(
    docId: string,
    docIndex: nat,
    topicId: string,
    index: nat,
    lemmas: seq<string>,
    length: nat,
    totalSent: nat,
    tfIdf: Option<real>,
    concreteness: Option<real>,
    ldaScore: Option<real>,
    ldaTopicId: Option<int>,
    total: Option<real>)

  /** The sentences of one topic: text to record, in insertion order. */
  type Cluster = ODict<SentenceInfo>

  /** All topics: topic id to its sentences. */
  type Collection = ODict<Cluster>
}
