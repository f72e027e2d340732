/** Placeholder summaries: the baseline that takes the leading sentences of
    a document while their tokens fit a 100-token budget. The scan stops at
    the first sentence that would overflow (unlike the summary assembler,
    which passes over it and goes on). One record per taken sentence is
    returned; the summary file of a topic holds the taken sentences of its
    first document, one per line.

    Two copies of the scan exist: the helper script skips the first two
    sentences of each document (the topic and date lines), the
    content-selection script does not. Both are the scan below with a
    different `skip`. */
module Placeholders {
  import opened Text
  import opened Collections
  import opened DataLoader
  import SummaryAssembly

  /** The library calls the scan makes: `sent_tokenize`, `word_tokenize`,
      `pos_tag` (its tags only) and the subtopic draws. The script seeds the
      generator with 100 on every call, so `draw(j)` is the same number for
      the `j`-th sentence of every document: the `j`-th
      `random.randint(0, 5)` after `random.seed(100)`. */
  datatype Tools = Tools(sentTokenize: string -> seq<string>, wordTokenize: string -> seq<string>,
                         posTag: seq<string> -> seq<string>, draw: nat -> int)

  /** One sentence dict of the output: `words`, `pos_tags`, `topic_id`,
      `doc_id`, `subtopic_id`. */
  datatype SentenceRecord = SentenceRecord(words: seq<string>, posTags: seq<string>, topicId: string, docId: string, subtopicId: int)

  /** What the scan of one document produces: the sentence records and
      the stripped lines of the summary file. */
  datatype Placeholder = Placeholder(records: seq<SentenceRecord>, lines: seq<string>)

  // ---------------------------------------------------------------------
  // The budget scan of one document
  // ---------------------------------------------------------------------

  /** The sentences that are scanned: all but the first `skip`. */
  function Sentences(doc: string, tools: Tools, skip: nat): seq<string>
  {
    PyDrop(tools.sentTokenize(doc), skip)
  }

  /** The token list of each sentence. */
  function TokenLists(sents: seq<string>, tools: Tools): (r: seq<seq<string>>)
    ensures |r| == |sents| && forall j :: 0 <= j < |sents| ==> r[j] == tools.wordTokenize(sents[j])
  {
    seq(|sents|, j requires 0 <= j < |sents| => tools.wordTokenize(sents[j]))
  }

  /** The number of tokens in the given token lists together: the length
      of `summary_tokens` once they are taken. */
  function TokenCount(toks: seq<seq<string>>): nat
  {
    if |toks| == 0 then 0 else |toks[0]| + TokenCount(toks[1..])
  }

  /** The number of sentences taken when `used` tokens are already in the
      summary: sentences are taken in order until one would bring the total
      over the budget. */
  function Accepted(toks: seq<seq<string>>, used: nat): (n: nat)
    ensures n <= |toks|
  {
    if |toks| == 0 then 0
    else if |toks[0]| + used > SummaryAssembly.Budget then 0
    else 1 + Accepted(toks[1..], used + |toks[0]|)
  }

  function MakeRecord(tools: Tools, topicId: string, docId: string, tokens: seq<string>, j: nat): SentenceRecord
  {
    SentenceRecord(tokens, tools.posTag(tokens), topicId, docId, tools.draw(j))
  }

  /** The records of the given token lists, the `j`-th with the `j`-th draw. */
  function Records(toks: seq<seq<string>>, tools: Tools, topicId: string, docId: string): (r: seq<SentenceRecord>)
    ensures |r| == |toks|
  {
    if |toks| == 0 then []
    else Records(toks[..|toks| - 1], tools, topicId, docId) + [MakeRecord(tools, topicId, docId, toks[|toks| - 1], |toks| - 1)]
  }

  /** Every record carries the given topic and document ids. */
  lemma {:induction false} RecordsOwn(toks: seq<seq<string>>, tools: Tools, topicId: string, docId: string, r: SentenceRecord)
    requires r in Records(toks, tools, topicId, docId)
    ensures r.topicId == topicId && r.docId == docId
    decreases |toks|
  {
    if r !in Records(toks[..|toks| - 1], tools, topicId, docId) {
      assert r == MakeRecord(tools, topicId, docId, toks[|toks| - 1], |toks| - 1);
    } else {
      RecordsOwn(toks[..|toks| - 1], tools, topicId, docId, r);
    }
  }

  /** The summary line of each sentence: `strip` applied to it. The scan
      strips, so `strip` is `Strip` throughout; it is passed as a value so
      that the proofs about the scan reason about its result only. */
  function Lines(sents: seq<string>, strip: string -> string): (r: seq<string>)
    ensures |r| == |sents|
  {
    if |sents| == 0 then [] else Lines(sents[..|sents| - 1], strip) + [strip(sents[|sents| - 1])]
  }

  /** `_create_placeholders` of one document: the records and lines of the
      sentences the scan takes. */
  function CreatePlaceholders(topicId: string, docId: string, doc: string, tools: Tools, skip: nat): Placeholder
  {
    var sents := Sentences(doc, tools, skip);
    var toks := TokenLists(sents, tools);
    var n := Accepted(toks, 0);
    Placeholder(Records(toks[..n], tools, topicId, docId), Lines(sents[..n], Strip))
  }

  lemma RecordsSnoc(toks: seq<seq<string>>, i: nat, tools: Tools, topicId: string, docId: string)
    requires i < |toks|
    ensures Records(toks[..i + 1], tools, topicId, docId) == Records(toks[..i], tools, topicId, docId) + [MakeRecord(tools, topicId, docId, toks[i], i)]
  {
    assert toks[..i + 1][..i] == toks[..i];
  }

  lemma LinesSnoc(sents: seq<string>, strip: string -> string, i: nat)
    requires i < |sents|
    ensures Lines(sents[..i + 1], strip) == Lines(sents[..i], strip) + [strip(sents[i])]
  {
    assert sents[..i + 1][..i] == sents[..i];
  }

  /** The `j`-th record is made from the `j`-th token list and draw. */
  lemma {:induction false} RecordsAt(toks: seq<seq<string>>, tools: Tools, topicId: string, docId: string, j: nat)
    requires j < |toks|
    ensures Records(toks, tools, topicId, docId)[j] == MakeRecord(tools, topicId, docId, toks[j], j)
    decreases |toks|
  {
    if j < |toks| - 1 {
      RecordsAt(toks[..|toks| - 1], tools, topicId, docId, j);
    }
  }

  /** The `j`-th line is the `j`-th sentence stripped. */
  lemma {:induction false} LinesAt(sents: seq<string>, strip: string -> string, j: nat)
    requires j < |sents|
    ensures Lines(sents, strip)[j] == strip(sents[j])
    decreases |sents|
  {
    if j < |sents| - 1 {
      LinesAt(sents[..|sents| - 1], strip, j);
    }
  }

  /** One turn of the scan: a sentence that fits is taken, and the rest of
      the scan goes on from it; one that does not fit ends the scan. */
  lemma AcceptedStep(toks: seq<seq<string>>, i: nat, used: nat)
    requires i < |toks|
    ensures |toks[i]| + used > SummaryAssembly.Budget ==> Accepted(toks[i..], used) == 0
    ensures |toks[i]| + used <= SummaryAssembly.Budget ==>
              Accepted(toks[i..], used) == 1 + Accepted(toks[i + 1..], used + |toks[i]|)
  {
    assert toks[i..][0] == toks[i] && toks[i..][1..] == toks[i + 1..];
  }

  lemma {:induction false} TokenCountSnoc(toks: seq<seq<string>>, i: nat)
    requires i < |toks|
    ensures TokenCount(toks[..i + 1]) == TokenCount(toks[..i]) + |toks[i]|
    decreases i
  {
    if i > 0 {
      TokenCountSnoc(toks[1..], i - 1);
      assert toks[..i + 1][1..] == toks[1..][..i];
      assert toks[..i][1..] == toks[1..][..i - 1];
      assert toks[1..][i - 1] == toks[i];
    } else {
      assert toks[..1] == [toks[0]] && toks[..0] == [];
    }
  }

  /** The scan from sentence `i` on, with `used` tokens taken and the
      records and lines built so far: it stops at the end or at the first
      sentence that would bring the total over the budget. */
  function ScanFrom(toks: seq<seq<string>>, sents: seq<string>, tools: Tools, strip: string -> string, topicId: string, docId: string,
                    i: nat, used: nat, data: seq<SentenceRecord>, lines: seq<string>): Placeholder
    requires |toks| == |sents| && i <= |toks|
    decreases |toks| - i
  {
    if i == |toks| || |toks[i]| + used > SummaryAssembly.Budget then Placeholder(data, lines)
    else ScanFrom(toks, sents, tools, strip, topicId, docId, i + 1, used + |toks[i]|,
                  data + [MakeRecord(tools, topicId, docId, toks[i], i)], lines + [strip(sents[i])])
  }

  /** `Accepted` counted from position `i` of the token lists. */
  function AcceptedFrom(toks: seq<seq<string>>, i: nat, used: nat): (m: nat)
    requires i <= |toks|
    ensures i + m <= |toks|
    decreases |toks| - i
  {
    if i == |toks| || |toks[i]| + used > SummaryAssembly.Budget then 0
    else 1 + AcceptedFrom(toks, i + 1, used + |toks[i]|)
  }

  lemma {:induction false} AcceptedFromSlice(toks: seq<seq<string>>, i: nat, used: nat)
    requires i <= |toks|
    ensures AcceptedFrom(toks, i, used) == Accepted(toks[i..], used)
    decreases |toks| - i
  {
    if i < |toks| {
      AcceptedStep(toks, i, used);
      AcceptedFromSlice(toks, i + 1, used + |toks[i]|);
    }
  }

  /** The scan from sentence `i`, started with the records of the
      sentences before it, ends with those of the sentences before
      `i + AcceptedFrom`. */
  lemma {:induction false} ScanFromRecords(toks: seq<seq<string>>, sents: seq<string>, tools: Tools, strip: string -> string, topicId: string, docId: string,
                                           i: nat, used: nat, lines: seq<string>)
    requires |toks| == |sents| && i <= |toks|
    ensures ScanFrom(toks, sents, tools, strip, topicId, docId, i, used, Records(toks[..i], tools, topicId, docId), lines).records ==
              Records(toks[..i + AcceptedFrom(toks, i, used)], tools, topicId, docId)
    decreases |toks| - i
  {
    if i < |toks| && |toks[i]| + used <= SummaryAssembly.Budget {
      RecordsSnoc(toks, i, tools, topicId, docId);
      ScanFromRecords(toks, sents, tools, strip, topicId, docId, i + 1, used + |toks[i]|, lines + [strip(sents[i])]);
    }
  }

  /** The scan from sentence `i`, started with the lines of the sentences
      before it, ends with those of the sentences before `i + AcceptedFrom`. */
  lemma {:induction false} ScanFromLines(toks: seq<seq<string>>, sents: seq<string>, tools: Tools, strip: string -> string, topicId: string, docId: string,
                                         i: nat, used: nat, data: seq<SentenceRecord>)
    requires |toks| == |sents| && i <= |toks|
    ensures ScanFrom(toks, sents, tools, strip, topicId, docId, i, used, data, Lines(sents[..i], strip)).lines ==
              Lines(sents[..i + AcceptedFrom(toks, i, used)], strip)
    decreases |toks| - i
  {
    if i < |toks| && |toks[i]| + used <= SummaryAssembly.Budget {
      LinesSnoc(sents, strip, i);
      ScanFromLines(toks, sents, tools, strip, topicId, docId, i + 1, used + |toks[i]|, data + [MakeRecord(tools, topicId, docId, toks[i], i)]);
    }
  }

  /** The method form of the scan: `summary_tokens`, `summary_lines` and
      `sentence_data` grow together and the loop breaks at the first
      sentence that would overflow the budget. */
  method CreatePlaceholdersLoop(topicId: string, docId: string, doc: string, tools: Tools, skip: nat)
    returns (r: Placeholder)
    ensures r == CreatePlaceholders(topicId, docId, doc, tools, skip)
  {
    var sentences := PyDrop(tools.sentTokenize(doc), skip);
    r := ScanSentences(topicId, docId, sentences, tools);
    ghost var toks := TokenLists(sentences, tools);
    ScanFromRecords(toks, sentences, tools, Strip, topicId, docId, 0, 0, []);
    ScanFromLines(toks, sentences, tools, Strip, topicId, docId, 0, 0, []);
    assert toks[..0] == [] && sentences[..0] == [];
    AcceptedFromSlice(toks, 0, 0);
    assert toks[0..] == toks;
  }

  /** The loop of `_create_placeholders` over the sentences kept. */
  method ScanSentences(topicId: string, docId: string, sentences: seq<string>, tools: Tools) returns (r: Placeholder)
    ensures r == ScanFrom(TokenLists(sentences, tools), sentences, tools, Strip, topicId, docId, 0, 0, [], [])
  {
    ghost var toks := TokenLists(sentences, tools);
    var summaryTokens: seq<string> := [];
    var summaryLines: seq<string> := [];
    var sentenceData: seq<SentenceRecord> := [];
    var i := 0;
    while i < |sentences|
      invariant i <= |sentences|
      invariant ScanFrom(toks, sentences, tools, Strip, topicId, docId, i, |summaryTokens|, sentenceData, summaryLines) ==
                ScanFrom(toks, sentences, tools, Strip, topicId, docId, 0, 0, [], [])
    {
      var sent := sentences[i];
      var subtopicId := tools.draw(i);
      var tokens := tools.wordTokenize(sent);
      assert tokens == toks[i];
      var posTags := tools.posTag(tokens);
      if |tokens| + |summaryTokens| > SummaryAssembly.Budget {
        break;
      }
      summaryTokens := summaryTokens + tokens;
      summaryLines := summaryLines + [Strip(sent)];
      sentenceData := sentenceData + [SentenceRecord(tokens, posTags, topicId, docId, subtopicId)];
      i := i + 1;
    }
    r := Placeholder(sentenceData, summaryLines);
  }

  /** The taken sentences fit the budget together. */
  lemma {:induction false} AcceptedFits(toks: seq<seq<string>>, used: nat)
    requires used <= SummaryAssembly.Budget
    ensures used + TokenCount(toks[..Accepted(toks, used)]) <= SummaryAssembly.Budget
    decreases |toks|
  {
    var n := Accepted(toks, used);
    if n > 0 {
      AcceptedFits(toks[1..], used + |toks[0]|);
      assert toks[..n][0] == toks[0] && toks[..n][1..] == toks[1..][..n - 1];
    } else {
      assert toks[..0] == [];
    }
  }

  /** The first sentence not taken does not fit. */
  lemma {:induction false} AcceptedStops(toks: seq<seq<string>>, used: nat)
    requires Accepted(toks, used) < |toks|
    ensures used + TokenCount(toks[..Accepted(toks, used) + 1]) > SummaryAssembly.Budget
    decreases |toks|
  {
    var n := Accepted(toks, used);
    if n > 0 {
      AcceptedStops(toks[1..], used + |toks[0]|);
      assert toks[..n + 1][0] == toks[0] && toks[..n + 1][1..] == toks[1..][..n];
    } else {
      assert toks[..1] == [toks[0]];
    }
  }

  /** Adding sentences never lowers the token count. */
  lemma {:induction false} TokenCountGrows(toks: seq<seq<string>>, a: nat, b: nat)
    requires a <= b <= |toks|
    ensures TokenCount(toks[..a]) <= TokenCount(toks[..b])
    decreases b - a
  {
    if a < b {
      TokenCountSnoc(toks, a);
      TokenCountGrows(toks, a + 1, b);
    }
  }

  /** The taken sentences are the longest run of leading sentences whose
      tokens fit the budget: they fit, and every longer run overflows. */
  lemma AcceptedLongest(toks: seq<seq<string>>)
    ensures TokenCount(toks[..Accepted(toks, 0)]) <= SummaryAssembly.Budget
    ensures forall k :: Accepted(toks, 0) < k <= |toks| ==> TokenCount(toks[..k]) > SummaryAssembly.Budget
  {
    var n := Accepted(toks, 0);
    AcceptedFits(toks, 0);
    forall k | n < k <= |toks| ensures TokenCount(toks[..k]) > SummaryAssembly.Budget {
      AcceptedStops(toks, 0);
      TokenCountGrows(toks, n + 1, k);
    }
  }

  /** The scan of one document, in the sentences' terms: the records and
      lines are those of the leading scanned sentences (after the skipped
      ones), one of each per sentence and in order; their tokens fit the
      budget, and taking one more scanned sentence would overflow it. */
  lemma CreatePlaceholdersSpec(topicId: string, docId: string, doc: string, tools: Tools, skip: nat)
    ensures var p := CreatePlaceholders(topicId, docId, doc, tools, skip);
            |p.records| == |p.lines| && (|p.records| > 0 ==> skip + |p.records| <= |tools.sentTokenize(doc)|)
    ensures var p := CreatePlaceholders(topicId, docId, doc, tools, skip);
            var all := tools.sentTokenize(doc);
            forall j :: 0 <= j < |p.records| && skip + j < |all| ==>
              && p.lines[j] == Strip(all[skip + j])
              && p.records[j].words == tools.wordTokenize(all[skip + j])
              && p.records[j].posTags == tools.posTag(p.records[j].words)
              && p.records[j].topicId == topicId && p.records[j].docId == docId
              && p.records[j].subtopicId == tools.draw(j)
    ensures var toks := TokenLists(Sentences(doc, tools, skip), tools);
            var n := |CreatePlaceholders(topicId, docId, doc, tools, skip).records|;
            && TokenCount(toks[..n]) <= SummaryAssembly.Budget
            && forall k :: n < k <= |toks| ==> TokenCount(toks[..k]) > SummaryAssembly.Budget
  {
    var all := tools.sentTokenize(doc);
    var sents := Sentences(doc, tools, skip);
    var toks := TokenLists(sents, tools);
    var n := Accepted(toks, 0);
    var p := CreatePlaceholders(topicId, docId, doc, tools, skip);
    if n > 0 {
      assert skip <= |all|;
    }
    forall j | 0 <= j < n
      ensures p.lines[j] == Strip(all[skip + j])
      ensures p.records[j] == MakeRecord(tools, topicId, docId, tools.wordTokenize(all[skip + j]), j)
    {
      assert sents[j] == all[skip + j];
      LinesAt(sents[..n], Strip, j);
      RecordsAt(toks[..n], tools, topicId, docId, j);
    }
    AcceptedLongest(toks);
  }

  // ---------------------------------------------------------------------
  // The summary file
  // ---------------------------------------------------------------------

  /** The text of a summary file: each line followed by a newline. */
  function SummaryFile(lines: seq<string>): string
  {
    if |lines| == 0 then "" else lines[0] + "\n" + SummaryFile(lines[1..])
  }

  lemma {:induction false} SummaryFileJoin(lines: seq<string>)
    ensures SummaryFile(lines) == Join(lines + [""], '\n')
    decreases |lines|
  {
    if |lines| > 0 {
      SummaryFileJoin(lines[1..]);
      assert (lines + [""])[1..] == lines[1..] + [""];
    }
  }

  /** Reading a summary file back line by line gives its lines (and the
      empty rest after the last newline), when no line holds a newline. */
  lemma SummaryFileLines(lines: seq<string>)
    requires forall j :: 0 <= j < |lines| ==> '\n' !in lines[j]
    ensures Split(SummaryFile(lines), '\n') == lines + [""]
  {
    SummaryFileJoin(lines);
    SplitJoin(lines + [""], '\n');
  }

  // ---------------------------------------------------------------------
  // The loops over topics and documents
  // ---------------------------------------------------------------------

  /** A loaded collection whose dicts are well formed. */
  ghost predicate DataValid(data: ODict<TopicData>)
  {
    data.Valid() && forall t :: t in data.vals ==> data.vals[t].docs.Valid()
  }

  /** The scan of one document (topic id, document id, text) as a function
      value: the loops below hold for any scan. */
  type Scan = (string, string, string) -> Placeholder

  /** The scan of either script, `skip` being 2 for the helper script and 0
      for the content-selection script. */
  function Scanner(tools: Tools, skip: nat): Scan
  {
    (topicId: string, docId: string, doc: string) => CreatePlaceholders(topicId, docId, doc, tools, skip)
  }

  /** A scan whose records carry the ids they were made for. */
  ghost predicate ScanOwn(scan: Scan)
  {
    forall topicId, docId, doc, r :: r in scan(topicId, docId, doc).records ==> r.topicId == topicId && r.docId == docId
  }

  lemma ScannerOwn(tools: Tools, skip: nat)
    ensures ScanOwn(Scanner(tools, skip))
  {
    forall topicId, docId, doc, r | r in Scanner(tools, skip)(topicId, docId, doc).records
      ensures r.topicId == topicId && r.docId == docId
    {
      PlaceholdersOwn(topicId, docId, doc, tools, skip, r);
    }
  }

  /** The records of one document carry its topic and document ids. */
  lemma PlaceholdersOwn(topicId: string, docId: string, doc: string, tools: Tools, skip: nat, r: SentenceRecord)
    requires r in CreatePlaceholders(topicId, docId, doc, tools, skip).records
    ensures r.topicId == topicId && r.docId == docId
  {
    var toks := TokenLists(Sentences(doc, tools, skip), tools);
    RecordsOwn(toks[..Accepted(toks, 0)], tools, topicId, docId, r);
  }

  /** The records of the first `k` documents of one topic, in order. */
  function DocsOutput(topicId: string, docs: ODict<string>, scan: Scan, k: nat): seq<SentenceRecord>
    requires docs.Valid() && k <= |docs.keys|
  {
    if k == 0 then []
    else
      var docId := docs.keys[k - 1];
      DocsOutput(topicId, docs, scan, k - 1) + scan(topicId, docId, docs.vals[docId]).records
  }

  /** `make_placeholder_output` over the first `t` topics. */
  function PlaceholderOutput(data: ODict<TopicData>, scan: Scan, t: nat): seq<SentenceRecord>
    requires DataValid(data) && t <= |data.keys|
  {
    if t == 0 then []
    else
      var topicId := data.keys[t - 1];
      var docs := data.vals[topicId].docs;
      PlaceholderOutput(data, scan, t - 1) + DocsOutput(topicId, docs, scan, |docs.keys|)
  }

  /** `make_placeholder_output`: `all_data` extended with the records of
      every document of every topic. */
  method MakePlaceholderOutput(data: ODict<TopicData>, scan: Scan) returns (allData: seq<SentenceRecord>)
    requires DataValid(data)
    ensures allData == PlaceholderOutput(data, scan, |data.keys|)
  {
    allData := [];
    var t := 0;
    while t < |data.keys|
      invariant t <= |data.keys| && allData == PlaceholderOutput(data, scan, t)
    {
      var topicId := data.keys[t];
      PlaceholderOutputNext(data, scan, t);
      allData := AppendDocs(allData, topicId, data.vals[topicId].docs, scan);
      t := t + 1;
    }
  }

  /** One more topic appends the records of its documents. */
  lemma PlaceholderOutputNext(data: ODict<TopicData>, scan: Scan, t: nat)
    requires DataValid(data) && t < |data.keys|
    ensures data.keys[t] in data.vals && data.vals[data.keys[t]].docs.Valid()
    ensures var docs := data.vals[data.keys[t]].docs;
            PlaceholderOutput(data, scan, t + 1) == PlaceholderOutput(data, scan, t) + DocsOutput(data.keys[t], docs, scan, |docs.keys|)
  {
  }

  /** The document loop of `make_placeholder_output` for one topic:
      `all_data` extended with the records of each document in turn. */
  method AppendDocs(before: seq<SentenceRecord>, topicId: string, docs: ODict<string>, scan: Scan) returns (allData: seq<SentenceRecord>)
    requires docs.Valid()
    ensures allData == before + DocsOutput(topicId, docs, scan, |docs.keys|)
  {
    allData := before;
    var k := 0;
    while k < |docs.keys|
      invariant k <= |docs.keys| && allData == before + DocsOutput(topicId, docs, scan, k)
    {
      var docId := docs.keys[k];
      var docData := scan(topicId, docId, docs.vals[docId]).records;
      AppendAssoc(before, DocsOutput(topicId, docs, scan, k), docData);
      allData := allData + docData;
      k := k + 1;
    }
  }

  /** Every record of the output belongs to a document of its topic in the
      collection. */
  lemma {:induction false} DocsOutputFrom(topicId: string, docs: ODict<string>, scan: Scan, k: nat, r: SentenceRecord)
    requires docs.Valid() && k <= |docs.keys| && ScanOwn(scan)
    requires r in DocsOutput(topicId, docs, scan, k)
    ensures r.topicId == topicId && r.docId in docs.vals
  {
    var docId := docs.keys[k - 1];
    if r !in scan(topicId, docId, docs.vals[docId]).records {
      DocsOutputFrom(topicId, docs, scan, k - 1, r);
    }
  }

  lemma {:induction false} PlaceholderOutputFrom(data: ODict<TopicData>, scan: Scan, t: nat, r: SentenceRecord)
    requires DataValid(data) && t <= |data.keys| && ScanOwn(scan)
    requires r in PlaceholderOutput(data, scan, t)
    ensures r.topicId in data.vals && r.docId in data.vals[r.topicId].docs.vals
  {
    var topicId := data.keys[t - 1];
    var docs := data.vals[topicId].docs;
    if r in DocsOutput(topicId, docs, scan, |docs.keys|) {
      DocsOutputFrom(topicId, docs, scan, |docs.keys|, r);
    } else {
      PlaceholderOutputFrom(data, scan, t - 1, r);
    }
  }

  /** The summary file written for a topic from its first document:
      its name and text; `None` where the name raises (empty topic id). */
  function TopicFile(topicId: string, docs: ODict<string>, scan: Scan, runId: string): Option<(string, string)>
    requires docs.Valid() && |docs.keys| > 0
  {
    var docId := docs.keys[0];
    match SummaryAssembly.OutputName(topicId, runId)
    case None => None
    case Some(name) => Some((name, SummaryFile(scan(topicId, docId, docs.vals[docId]).lines)))
  }

  /** The files `make_placeholder_summaries` writes for the first `t`
      topics, in order: one per topic with at least one document, made from
      that topic's first document; `None` where a name raises. */
  function SummaryWrites(data: ODict<TopicData>, scan: Scan, runId: string, t: nat): Option<seq<(string, string)>>
    requires DataValid(data) && t <= |data.keys|
  {
    if t == 0 then Some([])
    else
      var topicId := data.keys[t - 1];
      var docs := data.vals[topicId].docs;
      match SummaryWrites(data, scan, runId, t - 1)
      case None => None
      case Some(writes) =>
        if |docs.keys| == 0 then Some(writes)
        else
          match TopicFile(topicId, docs, scan, runId)
          case None => None
          case Some(file) => Some(writes + [file])
  }

  /** Once a name has raised, no later topic writes anything. */
  lemma {:induction false} SummaryWritesStuck(data: ODict<TopicData>, scan: Scan, runId: string, t: nat, u: nat)
    requires DataValid(data) && t <= u <= |data.keys|
    requires SummaryWrites(data, scan, runId, t).None?
    ensures SummaryWrites(data, scan, runId, u).None?
    decreases u - t
  {
    if t < u {
      SummaryWritesStuck(data, scan, runId, t + 1, u);
    }
  }

  /** One turn of the loop over topics: a topic without documents writes
      nothing, one whose name raises ends the writes with `None`, another
      one writes the file of its first document. */
  lemma SummaryWritesNext(data: ODict<TopicData>, scan: Scan, runId: string, t: nat, writes: seq<(string, string)>)
    requires DataValid(data) && t < |data.keys| && SummaryWrites(data, scan, runId, t) == Some(writes)
    ensures var docs := data.vals[data.keys[t]].docs;
            && (|docs.keys| == 0 ==> SummaryWrites(data, scan, runId, t + 1) == Some(writes))
            && (|docs.keys| > 0 ==>
                  var file := TopicFile(data.keys[t], docs, scan, runId);
                  && (file.None? ==> SummaryWrites(data, scan, runId, |data.keys|).None?)
                  && (file.Some? ==> SummaryWrites(data, scan, runId, t + 1) == Some(writes + [file.value])))
  {
    var docs := data.vals[data.keys[t]].docs;
    if |docs.keys| > 0 && TopicFile(data.keys[t], docs, scan, runId).None? {
      SummaryWritesStuck(data, scan, runId, t + 1, |data.keys|);
    }
  }

  /** The file of one topic, from its first document. */
  method WriteTopic(topicId: string, docs: ODict<string>, scan: Scan, runId: string) returns (file: Option<(string, string)>)
    requires docs.Valid() && |docs.keys| > 0
    ensures file == TopicFile(topicId, docs, scan, runId)
  {
    var docId := docs.keys[0];
    var lines := scan(topicId, docId, docs.vals[docId]).lines;
    var name := SummaryAssembly.OutputName(topicId, runId);
    if name.None? {
      return None;
    }
    file := Some((name.value, SummaryFile(lines)));
  }

  /** `make_placeholder_summaries` of the helper script (whose scan skips
      two sentences): the document loop stops after the first document. */
  method MakePlaceholderSummaries(data: ODict<TopicData>, scan: Scan, runId: string) returns (r: Option<seq<(string, string)>>)
    requires DataValid(data)
    ensures r == SummaryWrites(data, scan, runId, |data.keys|)
  {
    var writes: seq<(string, string)> := [];
    var t := 0;
    while t < |data.keys|
      invariant t <= |data.keys| && SummaryWrites(data, scan, runId, t) == Some(writes)
    {
      var docs := data.vals[data.keys[t]].docs;
      SummaryWritesNext(data, scan, runId, t, writes);
      if |docs.keys| > 0 {
        var file := WriteTopic(data.keys[t], docs, scan, runId);
        if file.None? {
          return None;
        }
        writes := writes + [file.value];
      }
      t := t + 1;
    }
    r := Some(writes);
  }

  /** The files are written while no topic with documents has an empty id. */
  lemma {:induction false} SummaryWritesSome(data: ODict<TopicData>, scan: Scan, runId: string, t: nat)
    requires DataValid(data) && t <= |data.keys|
    ensures SummaryWrites(data, scan, runId, t).Some? <==>
              forall j :: 0 <= j < t && |data.vals[data.keys[j]].docs.keys| > 0 ==> |data.keys[j]| > 0
  {
    if t > 0 {
      SummaryWritesSome(data, scan, runId, t - 1);
    }
  }

  /** Each file written is named after a topic with documents. */
  lemma {:induction false} SummaryWritesNames(data: ODict<TopicData>, scan: Scan, runId: string, t: nat)
    requires DataValid(data) && t <= |data.keys|
    ensures SummaryWrites(data, scan, runId, t).Some? ==>
              forall w :: w in SummaryWrites(data, scan, runId, t).value ==>
                exists j :: 0 <= j < t && |data.vals[data.keys[j]].docs.keys| > 0 &&
                            Some(w.0) == SummaryAssembly.OutputName(data.keys[j], runId)
  {
    if t > 0 {
      SummaryWritesNames(data, scan, runId, t - 1);
    }
  }

  /** `make_placeholder_summaries` of the content-selection script: the
      path of the file to write is built from a name that is not defined
      there, so the first topic with a document raises, and no file is ever
      written. */
  method MakePlaceholderSummariesUnbound(data: ODict<TopicData>, tools: Tools) returns (r: Option<seq<(string, string)>>)
    requires DataValid(data)
    ensures r.None? <==> exists j :: 0 <= j < |data.keys| && |data.vals[data.keys[j]].docs.keys| > 0
    ensures r.Some? ==> r.value == []
  {
    var t := 0;
    while t < |data.keys|
      invariant t <= |data.keys|
      invariant forall j :: 0 <= j < t ==> |data.vals[data.keys[j]].docs.keys| == 0
    {
      var topicId := data.keys[t];
      var docs := data.vals[topicId].docs;
      if |docs.keys| > 0 {
        var docId := docs.keys[0];
        var p := CreatePlaceholdersLoop(topicId, docId, docs.vals[docId], tools, 0);
        return None;
      }
      t := t + 1;
    }
    r := Some([]);
  }
}
