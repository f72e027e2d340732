# Extractive summarizer: selection and string logic

This project models the deterministic core of a multi-document extractive
summarizer for the TAC shared task. The core is the logic that sits between
the NLP libraries:

- **Corpus loading.** Document ids are turned into ACQUAINT, ACQUAINT-2 or
  evaltest paths. The topic file is located, the cache file is named, and
  each document is read with the parser the code dispatches to
  (`src/data_loader.py`). As written, that dispatch also calls the ACQUAINT
  parser on every ACQUAINT-2 document, after the ACQUAINT-2 parser. The read
  then fails where that parser raises (a file with no `<docno>` equal to
  the id); otherwise the document keeps its text (see "## Findings").
- **Sentence records.** Every sentence of a topic gets a record keyed by its
  text: position, sentence count, token count and lemmas
  (`src/content_selection/preprocessing.py`).
- **Topic scoring and selection.** There are three variants:
  - `LDA.py`: the best LDA topic per sentence, max-normalisation into a fused
    `total`, and a three-way selection by topic;
  - `lda.py`: an overlap count and a top-10 cut;
  - `lda_run_test.py`: idf-weighted topic scores and a top-10 cut.

  All three work over the parsed `weight*"term" + ...` strings of the topic
  model.
- **Summary assembly.** Candidates are ranked by LDA score and cleaned:
  - regular-expression rewrites of the sentence;
  - adverb removal;
  - capitalisation.

  A greedy scan then fills a 100-token budget and passes over any sentence
  that does not fit. Trailing attribution clauses are stripped from output
  lines, and the output file is named (`src/generate_summaries.py`).
- **Placeholder summaries.** Leading sentences are taken while they fit the
  100-token budget, and the scan stops at the first one that overflows
  (`src/helpers/generate_placeholders.py`, `src/content_selection.py`).
- **ROUGE configuration.** The EVAL/PEER/MODEL element tree is built, and the
  recursive `indent` pretty-printer is applied (`src/generate_eval_config.py`).

Library calls are parameters of the model. This covers `word_tokenize`,
`sent_tokenize`, `pos_tag`, the detokenizer, spaCy token attributes,
`show_topics`, `float()`, `math.log` and file reading. Python dictionaries
keep insertion order, so they are modelled as `ODict`, a key sequence plus a
map (`Collections`). A Python exception becomes `None` of an `Option`.
`Text` models the string operations the code relies on:

- slices with clamped bounds;
- `split`, `join` and `strip`;
- `lower` and `capitalize`;
- `str.replace` and a regular-expression substitution engine.

`Sorting` models the stable descending `sorted(..., reverse=True)[:k]`.

Each loop of the source is a method, and the method is proved equal to a
recursive specification function. The properties the code promises are
lemmas about those functions.

## Model

| member | source | states |
|---|---|---|
| SummaryAssembly.CleanCandidate | src/generate_summaries.py:54-56 | a candidate's cleaned tokens are the sentence rewrites, then `word_tokenize`, then adverb removal and capitalisation; `None` when no token survives (the `tokens[0]` IndexError) |
| SummaryAssembly.ScanTopic | src/generate_summaries.py:45-64 | the loop over ranked candidates yields exactly the summary of the greedy scan, and raises exactly when the scan does |
| SummaryAssembly.SummarizeTopic | src/generate_summaries.py:39-64 | one topic's summary: the candidates sorted by descending `LDAscore`, then scanned |
| SummaryAssembly.ScanAllSpec | src/generate_summaries.py:36-72 | the summary dictionary fails iff some topic's scan raises; otherwise it has one entry per topic, in key order, holding that topic's summary |
| SummaryAssembly.ScanTopics | src/generate_summaries.py:37-72 | the loop over topics builds exactly that summary dictionary |
| SummaryAssembly.MakeSummaries | src/generate_summaries.py:36-72 | `make_summaries` up to `score_coherence`: `None` iff some topic's scan raises; otherwise one (topic, summary) pair per topic, in order, holding the scan's list |
| SummaryAssembly.ScanAppends | src/generate_summaries.py:45-64 | the scan only appends: earlier picks stay; new picks are increasing positions from the current one on; each has length in 9..50 and contributes its detokenized cleaned tokens |
| SummaryAssembly.ScanTotal | src/generate_summaries.py:59-60 | the running length is the sum of the picked candidates' cleaned token counts and never exceeds 100 |
| SummaryAssembly.GreedyAt | src/generate_summaries.py:46-64 | candidate `i` is picked iff its length is in 9..50, the budget was not yet reached, and its tokens still fit; a skipped-but-eligible candidate was still cleaned |
| SummaryAssembly.ScanGreedy | src/generate_summaries.py:45-64 | every candidate from the current one on obeys the greedy rule with respect to the picks before it |
| SummaryAssembly.SelectionSpec | src/generate_summaries.py:41-64 | the whole selection: lengths 9..50 (8 and 51 skipped), total at most 100, picks in descending `LDAscore`, and every candidate picked exactly when the greedy rule says so |
| SummaryAssembly.OutputNameParts | src/generate_summaries.py:246-252 | the file name is the topic id without its last char + `-A.M.100.` + the last char + `.` + the run id; for equal-length topic ids the name determines topic and run |
| SentenceHeuristics.BracketMatchShape | src/generate_summaries.py:198 | the `[\(\[].*?[\)\]]` matcher takes `k` chars iff they run from an opener to the nearest closer with no newline between |
| SentenceHeuristics.NoBracketLeft | src/generate_summaries.py:198 | after the substitution no bracket match remains anywhere in the sentence |
| SentenceHeuristics.DashMatchShape | src/generate_summaries.py:201-202 | the greedy `--.*--` matcher takes the longest stretch that starts and ends with `--` and holds no newline |
| SentenceHeuristics.AgeMatchShape | src/generate_summaries.py:212 | the `, aged \d+,` matcher takes `k` chars iff they are `, aged `, one or more digits, and a comma |
| SentenceHeuristics.GerundMatchShape | src/generate_summaries.py:215 | the gerund pattern matches `k` chars iff `, `, lower-case letters ending in one of `i`, `n`, `g`, a run of letters, digits and spaces, and a comma, with backtracking resolved as Python does |
| SentenceHeuristics.SentenceTrimmed | src/generate_summaries.py:217 | the rewritten sentence has no leading or trailing whitespace |
| SentenceHeuristics.SentenceNeverLonger | src/generate_summaries.py:205-217 | the age and gerund deletions and the final strip never lengthen the sentence |
| SentenceHeuristics.DeletionsShorten | src/generate_summaries.py:212-215 | each deletion leaves the sentence unchanged iff its pattern matches nowhere, and never lengthens it |
| SentenceHeuristics.AttributionSpanExact | src/generate_summaries.py:15-16 | the search finds span `(i, k)` iff `line[i]` is a comma, `line[k]` a final period (before at most a newline), and nothing between is a comma or quote |
| SentenceHeuristics.StripAttributionChanges | src/generate_summaries.py:14-22 | `strip_attribution` changes the line iff it ends in such a clause that contains `said`, `stated` or `according` and has at most `n` tokens |
| SentenceHeuristics.StripAttributionResult | src/generate_summaries.py:21 | when it does, the line becomes the text before the comma, then `.`, then what followed the period |
| SentenceHeuristics.AdverbIndices | src/generate_summaries.py:223 | the adverb indices are exactly the positions whose tag contains `RB`, in increasing order |
| SentenceHeuristics.RemoveValue | src/generate_summaries.py:226-227 | removing position `len-2` keeps every other index and the increasing order |
| SentenceHeuristics.AdverbsToPop | src/generate_summaries.py:223-227 | the indices popped are exactly the `RB` positions other than `len-2` |
| SentenceHeuristics.ApplyHeuristicsToTokens | src/generate_summaries.py:219-242 | the in-place pops in reverse order, then capitalisation of `tokens[0]`, produce exactly the cleaned token list |
| SentenceHeuristics.CleanTokensSpec | src/generate_summaries.py:223-240 | the output is the input minus the dropped positions, in order; its length is the input length minus the dropped count; position `len-2` is kept; the first token is capitalised; `None` iff nothing survives |
| DataLoader.PathDefined | src/data_loader.py:11-37 | a path is derived iff the corpus directory is configured and an id with `_` has at least three fields, the third containing `.` |
| DataLoader.PathInCorpus | src/data_loader.py:11-37 | every derived path starts with its corpus' configured directory and ends in `.xml` (ACQUAINT-2), `.gz` (evaltest), or `_` + the publication suffix (ACQUAINT) |
| DataLoader.NewsPathParts | src/data_loader.py:12-25 | an ACQUAINT-2 or evaltest path is dir + lower(f0_f1) + `/` + lower(f0_f1) + `_` + date less two chars + `.xml` or `.gz`, the date being the third field before its `.` |
| DataLoader.AcquaintPathParts | src/data_loader.py:26-37 | an ACQUAINT path is dir + lower(pub) + `/` + year + `/` + date + `_` + the suffix (`NYT`, `XIN_ENG`, or pub + `_ENG`) |
| DataLoader.SplitYear | src/data_loader.py:196-201 | a year exists exactly for devtest, training and evaltest; it lies in 2009..2011 and is 2009 exactly for training |
| DataLoader.DataDirShape | src/data_loader.py:203-205 | the listed directory is the data type's directory joined with the split, and only training adds `/2009` |
| DataLoader.SelectXmlFileSpec | src/data_loader.py:206-208 | the topic file is found iff exactly one listed name ends in `.xml`, and it is that name joined to the directory |
| DataLoader.CachePathShape | src/data_loader.py:136-138 | the cache of `<stem>.xml` is `<stem>.json` in the working directory, plus `.small` in test mode |
| DataLoader.StoredParserAsWrittenMismatch | src/data_loader.py:171-178 | as written, the stored text comes from the document's own corpus parser iff the document is not ACQUAINT-2; ACQUAINT-2 documents are parsed twice |
| DataLoader.StoredParserAsWrittenCounterexample | src/data_loader.py:171-176 | for a training-split `AFP_ENG_...` id the last parser called, whose text is stored, is the ACQUAINT-1 parser |
| DataLoader.StoredParserMatchesCorpus | src/data_loader.py:171-178 | with `elif`, each document is read by the parser of the corpus its path was derived for |
| DataLoader.ParsersCalled | src/data_loader.py:171-176 | with `elif`, the only parser called for a document is its corpus' parser |
| DataLoader.RunParsers | src/data_loader.py:171-176 | running the called parsers in order succeeds iff none raises, and then gives the last one's text |
| DataLoader.DocTextAsWritten | src/data_loader.py:170-176 | as written, an ACQUAINT-2 document's read succeeds iff both `process_acquaint2` and `process_acquaint1` succeed on its path, and then gives `process_acquaint1`'s text; any other document gets its corpus parser's result |
| DataLoader.ReadDocsSpec | src/data_loader.py:166-178 | for any parser dispatch, a topic's docs hold exactly its listed ids, each the text the dispatched parsers read from the id's own path; `None` iff some id has no path or a parser raises on it |
| DataLoader.ReadDocsAsWritten | src/data_loader.py:170-178 | with the dispatch as written, an ACQUAINT-2 document holds the text `process_acquaint1` reads from its ACQUAINT-2 path (after `process_acquaint2` read it without raising), and the topic's read fails when `process_acquaint1` raises there; every other document holds its own corpus parser's text |
| DataLoader.ReadDocsCorrected | src/data_loader.py:170-178 | with the `elif` dispatch, every document holds its own corpus parser's text, and the read fails when that parser raises |
| DataLoader.ReadTopicDocs | src/data_loader.py:166-178 | the document loop of one topic, with the dispatch as written, builds exactly that topic's document dictionary |
| DataLoader.ReadTopicsKeys | src/data_loader.py:154-178 | the loaded topic ids are exactly those of the topic file, and already loaded topics are not overwritten |
| DataLoader.ReadTopicsFirst | src/data_loader.py:155-178 | for any parser dispatch, each topic holds what its first occurrence in the topic file gives: that position's title, a narrative exactly when the split is neither devtest nor evaltest, and its documents as read |
| DataLoader.ReadTopicsNone | src/data_loader.py:155-178 | `read_data` fails when the documents of some topic cannot be read |
| DataLoader.ReadTopicsAsWritten | src/data_loader.py:155-178 | in the collection `read_data` builds, every ACQUAINT-2 document of a topic holds the text `process_acquaint1` reads from its ACQUAINT-2 path, and `read_data` fails when `process_acquaint1` raises on that path |
| DataLoader.ReadData | src/data_loader.py:149-178 | the loop fills the collection exactly as the topic reader defines, with cleaned titles and narratives and the parser dispatch as written |
| Preprocessing.GetLemmasMembers | src/content_selection/preprocessing.py:21-25 | a lemma is returned iff some token passes the filter (alphabetic, not stop, not punctuation; or of the given POS) and its lower-cased lemma is that string |
| Preprocessing.GetLemmasAppend | src/content_selection/preprocessing.py:21-25 | the lemma list of concatenated tokens is the concatenation, so token order is kept |
| Preprocessing.GetSentsNoQuestSpec | src/content_selection/preprocessing.py:36 | the kept sentences are exactly those whose last char is not `?`; `None` iff some sentence is empty (`[-1]` IndexError) |
| Preprocessing.TokensPerSentence | src/content_selection/preprocessing.py:41 | one lower-cased text per token, in order |
| Preprocessing.ProcessDocument | src/content_selection/preprocessing.py:55-67 | the loop stores each sentence's record under its text, in order |
| Preprocessing.ProcessDocumentSpec | src/content_selection/preprocessing.py:58-66 | the last sentence with a given text wins; its record has `index` = its position, `total_sent` = the sentence count and `length` = its token count; other keys are untouched |
| Preprocessing.ProcessTopic | src/content_selection/preprocessing.py:72-75 | one topic's documents are processed in order into one dictionary, with `doc_index` the position |
| Preprocessing.TopicRecordsFromSpec | src/content_selection/preprocessing.py:72-75 | every record of a topic is the record of some sentence of some document of that topic, with that document's index |
| Preprocessing.ProcessDocumentsByTopic | src/content_selection/preprocessing.py:69-76 | one dictionary per topic, in topic order |
| Preprocessing.ProcessDocumentsByTopicKeys | src/content_selection/preprocessing.py:69-76 | the result has exactly the input's topic ids, in the input's order |
| Preprocessing.ProcessDocumentsByTopicRecords | src/content_selection/preprocessing.py:69-76 | every record of a topic's dictionary is the record of a sentence of one of that topic's own documents, stored under the sentence's text |
| TopicTerms.ParseTermPieceSpec | src/content_selection/LDA.py:67-69 | a piece parses iff it contains `*`; the weight is the text before the first `*`, and the term has no `"` and no surrounding whitespace |
| TopicTerms.ParsePiecesSpec | src/content_selection/LDA.py:67-70 | a topic string parses iff every `+` piece contains `*`, and then piece by piece |
| TopicTerms.ParseShowTopic | src/content_selection/LDA.py:67-70 | parsing inverts the `weight*"term" + ...` rendering of any nonempty list of well-formed pairs |
| TopicTerms.TermTableSpec | src/content_selection/LDA.py:67-70 | a topic's term table succeeds iff every weight converts; its keys are the terms, and a repeated term keeps its last weight |
| TopicTerms.TopicTableFromSpec | src/content_selection/LDA.py:63-70 | the topic table has one entry per topic id, the last listing of an id winning |
| TopicTerms.TopicTableFromSome | src/content_selection/LDA.py:63-70 | the topic table is built iff every listing parses and converts |
| TopicTerms.SharedTerms | src/content_selection/LDA.py:86 | the shared terms are exactly the lemmas in the table, each once |
| TopicTerms.SumWeights | src/content_selection/LDA.py:87-89 | the accumulation loop sums the weights of the set of shared terms |
| TopicTerms.ScoreTopic | src/content_selection/LDA.py:86-89 | a topic's score is the weight sum over the distinct lemmas in its table |
| TopicTerms.NewLemma | src/content_selection/LDA.py:86-89 | a new lemma adds its weight, or nothing when the topic lacks it |
| TopicTerms.RepeatedLemma | src/content_selection/LDA.py:86 | a repeated lemma adds nothing (set intersection) |
| LdaScoring.BestTopicSpec | src/content_selection/LDA.py:85-94 | the chosen topic exists iff all `n` topics are in the table and `n > 0`; it has the maximal score, and every lower topic id scores strictly less (ties go to the lowest id) |
| LdaScoring.TopicScores | src/content_selection/LDA.py:85-91 | `sen_topic` exists iff every topic `0..n-1` is in the table (KeyError otherwise) and holds, per topic in order, that topic's weight sum |
| LdaScoring.ChooseTopic | src/content_selection/LDA.py:85-94 | the per-topic loop and the stable sort pick exactly that topic |
| LdaScoring.RankCluster | src/content_selection/LDA.py:76-95 | `sen_ranker` holds, in order, one pick per sentence of more than seven pieces; it fails iff some topic is missing |
| LdaScoring.SenRankerDistinct | src/content_selection/LDA.py:76-95 | no sentence appears twice in `sen_ranker`, so the write-back updates each record at most once |
| LdaScoring.ApplyRanker | src/content_selection/LDA.py:97-103 | the `.update` loop writes each pick's score and topic into its record |
| LdaScoring.AnalyzedClusterKeys | src/content_selection/LDA.py:76-103 | the analysed cluster keeps the sentence keys and their order |
| LdaScoring.AnalyzedClusterRecord | src/content_selection/LDA.py:79-103 | a sentence of more than seven pieces gets its best topic and score; a shorter one is left unchanged |
| LdaScoring.AnalyzeCluster | src/content_selection/LDA.py:73-103 | given the cluster's topic table, ranking and then writing back yields exactly the analysed cluster |
| LdaScoring.LdaAnalysis | src/content_selection/LDA.py:41-105 | each cluster is analysed on its own, in order |
| LdaScoring.CollectScores | src/content_selection/LDA.py:116-121 | the tf-idf and concreteness lists are collected in key order; `None` iff some record lacks either (KeyError) |
| LdaScoring.NormalizeCluster | src/content_selection/LDA.py:127-143 | it raises (division by zero) iff a maximum is zero and some sentence is longer than seven tokens; otherwise the kept records are normalised in key order |
| LdaScoring.NormalizedKeys | src/content_selection/LDA.py:131-140 | the output keeps, in order, exactly the sentences of length above 7 that carry an `LDAscore` |
| LdaScoring.NormalizedValue | src/content_selection/LDA.py:133-138 | a kept record has tf-idf / max, concreteness / max, and `total` = tf-idf' x concreteness' x `LDAscore` / length |
| LdaScoring.NormalizedBounds | src/content_selection/LDA.py:127-135 | with non-negative scores under their maxima, the normalised tf-idf and concreteness lie in [0, 1] |
| LdaScoring.UpdateCluster | src/content_selection/LDA.py:114-143 | one cluster of `update_scores`: collect, take maxima, normalise |
| LdaScoring.UpdatedClusterBounds | src/content_selection/LDA.py:127-135 | for non-negative inputs every normalised score of the output lies in [0, 1] |
| LdaScoring.UpdateScores | src/content_selection/LDA.py:108-144 | every cluster is updated on its own, in order |
| LdaScoring.Third | src/content_selection/LDA.py:168 | `int(n / 3)` truncates toward zero, for negative `n` too |
| LdaScoring.GroupSentences | src/content_selection/LDA.py:155-166 | the three groups collect, in order, the sentences with a `total` of topic 0, topic 1, and any other topic |
| LdaScoring.GroupPicks | src/content_selection/LDA.py:168-170 | for `n >= 0` each group keeps at most `int(n/3)` entries; every kept entry is of its own group and carries its own `total` |
| LdaScoring.CollectPicked | src/content_selection/LDA.py:175-178 | the picked records are written in the order of the concatenated groups |
| LdaScoring.SelectCluster | src/content_selection/LDA.py:151-178 | one cluster of `select_sent`: group, sort, cut, then collect |
| LdaScoring.PickedMembers | src/content_selection/LDA.py:168-172 | every pick is among the top `int(n/3)` of its own group by descending `total` |
| LdaScoring.SelectedClusterMembers | src/content_selection/LDA.py:168-178 | a sentence is selected iff it is one of the picks |
| LdaScoring.SelectedClusterRecords | src/content_selection/LDA.py:175-178 | a selected record is the input record unchanged (its `total` is written back as it was), and it has a group |
| LdaScoring.PickedInfosUnchanged | src/content_selection/LDA.py:175-178 | the records written for the picks are the input records of those sentences, each of which has a group |
| LdaScoring.SelectSent | src/content_selection/LDA.py:147-179 | every cluster is selected on its own, in order |
| LdaScoring.SentenceSelectionWrapper | src/content_selection/LDA.py:182-192 | analysis, then update, then selection, with three topics per cluster |
| LdaScoring.SentenceSelectionPicks | src/content_selection/LDA.py:182-192 | each picked sentence comes from its own input cluster with its token count unchanged and above seven, and it has a `total`; a sentence with no `LDAscore` in the input is picked only if it has more than seven words |
| OverlapSelection.RelTermsFromMembers | src/content_selection/lda.py:48-56 | `rel_terms` holds exactly the terms of all topics' listings |
| OverlapSelection.RelTermsFromSome | src/content_selection/lda.py:48-56 | it is built iff every piece of every listing has a `*` |
| OverlapSelection.StringWeights | src/content_selection/lda.py:53-55 | the weights are kept as strings, so the term table is built exactly when `rel_terms` is |
| OverlapSelection.OverlapStep | src/content_selection/lda.py:65-66 | appending a lemma raises a sentence's score by one iff the lemma is new to the sentence and is a topic term, so the score counts distinct shared lemmas |
| OverlapSelection.OverlapBound | src/content_selection/lda.py:65-66 | the score is at most the number of lemmas |
| OverlapSelection.RankSentences | src/content_selection/lda.py:63-73 | `sen_ranker` has one (score, sentence) pair per sentence, in order |
| OverlapSelection.PickCluster | src/content_selection/lda.py:75-83 | the top ten are written back, in ranked order |
| OverlapSelection.WriteTop | src/content_selection/lda.py:77-81 | each picked record gets `LDAscore` set to its score |
| OverlapSelection.PickedKeys | src/content_selection/lda.py:75 | the picked keys are the sentences of the top ten ranks, `min(10, size)` of them |
| OverlapSelection.PickedOrder | src/content_selection/lda.py:75 | picks come in descending score |
| OverlapSelection.PickedRecord | src/content_selection/lda.py:77-81 | a picked record is the input record with `LDAscore` set to its overlap score |
| OverlapSelection.PickedBest | src/content_selection/lda.py:75 | a sentence left out scores no more than any pick |
| OverlapSelection.PickedTies | src/content_selection/lda.py:75 | for every score, the picks with that score are a prefix of the cluster's sentences with that score, in cluster order (stable sort) |
| OverlapSelection.TopDistinct | src/content_selection/lda.py:75-81 | the ten picked sentences are pairwise distinct |
| OverlapSelection.LdaAnalysis | src/content_selection/lda.py:44-83 | each cluster is picked on its own, in order |
| IdfScoring.GetDocumentCollection | src/content_selection/lda_run_test.py:28-44 | one list per cluster, with one space-joined lemma string per sentence, in order |
| IdfScoring.DocumentCollectionLemmas | src/content_selection/lda_run_test.py:38 | splitting a joined string on spaces gives back the lemmas |
| IdfScoring.CountsSpec | src/content_selection/lda_run_test.py:83-89 | the counts have exactly the tokens as keys, each mapped to its number of occurrences |
| IdfScoring.CountsValid | src/content_selection/lda_run_test.py:83-89 | every count is at least 1 |
| IdfScoring.FirstOccurrencesSpec | src/content_selection/lda_run_test.py:86-89 | the table's keys are exactly the tokens, each once |
| IdfScoring.CountTokens | src/content_selection/lda_run_test.py:83-89 | the triple increment loop computes exactly those counts |
| IdfScoring.GetIdfScores | src/content_selection/lda_run_test.py:74-95 | the in-place rewrite computes exactly the idf table |
| IdfScoring.IdfTableSpec | src/content_selection/lda_run_test.py:82-93 | a key is in the table iff it is a space-separated token of some sentence; its value is log10(number of clusters / its occurrences over all clusters), with both positive |
| IdfScoring.BestIdfTopicMax | src/content_selection/lda_run_test.py:193-203 | the chosen topic maximises the idf-weighted score divided by the piece count, and ties go to the lowest id |
| IdfScoring.BestIdfTopicSome | src/content_selection/lda_run_test.py:193-198 | it exists iff all three topics exist and every shared term has an idf (KeyError otherwise) |
| IdfScoring.IdfTopicScores | src/content_selection/lda_run_test.py:193-200 | `sen_topic` holds, for each of the three topics in order, the idf-weighted weight sum of the shared terms divided by the word count |
| IdfScoring.ChooseIdfTopic | src/content_selection/lda_run_test.py:193-203 | the loop picks exactly that topic |
| IdfScoring.RankIdfCluster | src/content_selection/lda_run_test.py:184-204 | `sen_ranker` holds the picks of the sentences with at least ten pieces, in order |
| IdfScoring.RankerFromEntries | src/content_selection/lda_run_test.py:187-204 | a pick is in the ranker iff its sentence has at least ten pieces and the pick is that sentence's best topic |
| IdfScoring.RankerFromSome | src/content_selection/lda_run_test.py:184-204 | the ranker is built iff every sentence of at least ten words has a best topic |
| IdfScoring.TopSensDistinct | src/content_selection/lda_run_test.py:210-218 | the ten picked sentences are pairwise distinct |
| IdfScoring.PickIdfCluster | src/content_selection/lda_run_test.py:210-221 | the top ten by descending score are recorded with topic, score and doc id |
| IdfScoring.PickedCandidatesKeys | src/content_selection/lda_run_test.py:210-218 | the picked keys are the sentences of the top ten picks by descending score, at most ten of them |
| IdfScoring.PickedCandidatesRecord | src/content_selection/lda_run_test.py:213-221 | each record holds its own best topic, score and document id |
| IdfScoring.PickedCandidatesBest | src/content_selection/lda_run_test.py:210 | a long sentence left out scores no more than any pick |
| IdfScoring.PickClusters | src/content_selection/lda_run_test.py:126-221 | each cluster is scored and picked on its own, in order |
| IdfScoring.SelectCandidates | src/content_selection/lda_run_test.py:118-221 | the script end to end: collection, idf table, per-cluster picks |
| Placeholders.CreatePlaceholdersLoop | src/helpers/generate_placeholders.py:42-68 | the loop's records and lines are exactly those of the budget scan |
| Placeholders.ScanSentences | src/content_selection.py:48-65 | the loop over sentences equals the scan from the first sentence |
| Placeholders.CreatePlaceholdersSpec | src/helpers/generate_placeholders.py:46-68 | one record and one line per taken sentence; the `j`-th comes from sentence `skip + j` (its stripped text, its words and tags, the topic and document ids, the `j`-th subtopic draw); the taken tokens total at most 100, and every longer prefix would exceed 100 |
| Placeholders.AcceptedLongest | src/content_selection.py:54-58 | the taken sentences are the longest prefix within the budget |
| Placeholders.AcceptedFits | src/content_selection.py:54-58 | whatever the tokens already used, the sentences taken keep the total within 100 |
| Placeholders.AcceptedStops | src/content_selection.py:54-55 | when the scan stops early, the next sentence would push the total over 100 |
| Placeholders.SummaryFileLines | src/helpers/generate_placeholders.py:84-85 | the summary file splits back into its lines plus a final empty piece |
| Placeholders.PlaceholdersOwn | src/helpers/generate_placeholders.py:63-68 | every record carries its topic and document ids |
| Placeholders.ScannerOwn | src/helpers/generate_placeholders.py:63-68 | the placeholder scanner gives every record the topic and document ids it was called with |
| Placeholders.DocsOutputFrom | src/content_selection.py:34-36 | every record produced for a topic carries that topic's id and one of its document ids |
| Placeholders.MakePlaceholderOutput | src/content_selection.py:19-37 | the records of all documents of all topics, concatenated in order |
| Placeholders.AppendDocs | src/content_selection.py:34-36 | one topic's documents are appended in order |
| Placeholders.PlaceholderOutputFrom | src/content_selection.py:32-37 | each output record names a topic of the input and one of its documents |
| Placeholders.MakePlaceholderSummaries | src/helpers/generate_placeholders.py:13-17 | one file per topic with documents, from its first document only |
| Placeholders.WriteTopic | src/helpers/generate_placeholders.py:70-85 | the file of a topic is the output name and its lines |
| Placeholders.SummaryWritesSome | src/helpers/generate_placeholders.py:13-17 | the files are written iff no topic with documents has an empty id |
| Placeholders.SummaryWritesNames | src/helpers/generate_placeholders.py:71-77 | every file is named from a topic with documents |
| Placeholders.MakePlaceholderSummariesUnbound | src/content_selection.py:12-16 | the content-selection copy raises at the first topic with a document (undefined `output_dir`) and writes nothing |
| EvalConfig.IndentText | src/generate_eval_config.py:11-14 | an element with children and blank text gets `\n` + two spaces per level + two more; otherwise the text is kept |
| EvalConfig.IndentTail | src/generate_eval_config.py:15-23 | a blank tail becomes `\n` + two spaces per level, unless the element is a root leaf, which is untouched; a non-blank tail is kept |
| EvalConfig.IndentChildTails | src/generate_eval_config.py:17-20 | since the loop rebinds `elem` to the last child, that child's blank tail ends as the parent's indentation; the other children's blank tails end one level deeper; non-blank tails are kept |
| EvalConfig.IndentChild | src/generate_eval_config.py:17-20 | each child is indented one level deeper, and only the last child's tail is then reset to the parent's level |
| EvalConfig.IndentTop | src/generate_eval_config.py:7-23 | tag, attributes and child count are kept; text and tail change only from blank to blank |
| EvalConfig.IndentWhitespaceOnly | src/generate_eval_config.py:7-23 | across the whole tree, `indent` changes only blank text and tails |
| EvalConfig.IndentIdempotent | src/generate_eval_config.py:7-23 | indenting twice gives the same tree as indenting once |
| EvalConfig.MatchingModelsSpec | src/generate_eval_config.py:57 | the models of an EVAL are exactly the names containing its id |
| EvalConfig.BuildEval | src/generate_eval_config.py:44-60 | the loop builds exactly the EVAL element |
| EvalConfig.EvalElementSpec | src/generate_eval_config.py:44-60 | EVAL id = the name minus its last 7 chars; PEER-ROOT and MODEL-ROOT hold the paths; one P with ID 1 and the name as text; one M per matching model, in order, with ID = its last char |
| EvalConfig.ModelElementsSpec | src/generate_eval_config.py:58-60 | the M elements exist iff no model name is empty (`m[-1]`), one per name in order |
| EvalConfig.EvalElementsSpec | src/generate_eval_config.py:43-60 | one EVAL per output file, in order |
| EvalConfig.BuildTree | src/generate_eval_config.py:40-64 | the root `ROUGE_EVAL` element holding all EVALs, then indented |
| Text.JoinSplit | src/content_selection/lda_run_test.py:85 | joining the pieces of `split(sep)` with `sep` gives back the string |
| Text.SplitJoin | src/content_selection/lda_run_test.py:38 | splitting a join of separator-free parts gives back the parts |
| Text.StripSpec | src/generate_summaries.py:217 | `strip` removes exactly the leading and trailing whitespace runs |
| Text.SubAllShrinks | src/generate_summaries.py:212-215 | a substitution whose matches are longer than its replacement never lengthens the string, and changes it iff the pattern matches somewhere |
| Text.ReplaceDeletes | src/generate_summaries.py:205-208 | deleting a nonempty phrase changes the sentence iff the phrase occurs in it |
| Sorting.TopKSelects | src/content_selection/lda.py:75 | `sorted(..., reverse=True)[:k]` keeps `k` elements (the whole sorted list when `k` reaches the length; for negative `k`, all but the last `-k`) in descending key order; with the dropped rest they are a permutation of the input, and no dropped key exceeds a kept one |
| Sorting.TopKStable | src/content_selection/lda.py:75 | for every key value, the kept elements with that key are a prefix, in input order, of the input's elements with that key |
| Sorting.SortDescSorted | src/generate_summaries.py:41 | `sorted(..., reverse=True)` yields keys in descending order |
| Sorting.SortDescStable | src/generate_summaries.py:41 | for every key value, the sort keeps the input order of the elements with that key (Python's sort is stable) |
| Sorting.TopKBest | src/content_selection/LDA.py:168-170 | no element left out of the top `k` has a larger key than a kept one |
| Sorting.TopKDistinct | src/content_selection/LDA.py:168-170 | the top `k` of distinct elements are distinct |
| Sorting.SortDescHead | src/content_selection/LDA.py:94 | the first element of the sort is the first element with the maximal key |

## Left out

- MakeSummaries: the model stores the scan's list for each topic, where the
  source stores the result of `score_coherence` (src/generate_summaries.py:83-126,
  resting on spaCy similarity). That result is:
  - the list unchanged for a single sentence;
  - a `ValueError` (`max` of an empty dict) for an empty summary, so a topic
    with no eligible candidate raises;
  - for two or more sentences, the 1-based number of the best permutation,
    an `int`, not a reordered list.
- The NLP and topic-model libraries are parameters, not code:
  - nltk tokenizers, tagger and detokenizer;
  - spaCy parsing, lemmas, stop words and punctuation flags;
  - gensim model fitting, `show_topics`, `get_corpus_topics` and
    `build_phrases`.
- Floating point: scores are `real`. `float()` and `math.log` are parameters,
  and nothing is claimed about rounding.
- `SetSum`: the order in which Python iterates a set is not modelled. Summing
  reals does not depend on that order.
- File I/O and caches:
  - reading and parsing the XML and gzip documents (`process_acquaint1/2`,
    `process_evaltest`);
  - the JSON caches;
  - `os.listdir`, `os.makedirs` and `os.path.exists`.

  File contents are given as values. A file write is the (name, text) pair
  it would write. The document parsers are the `DocReader` parameter, which
  returns `None` where a parser raises. Whether a parser raises on a given
  file depends on the file's markup, and that markup is not modelled.
- The line cleanups in `write_to_file` before `strip_attribution`: plain
  `str.replace` calls and a quote fix-up regex. Only `strip_attribution` and
  the file name are modelled.
- `random.randint` subtopic ids: the `j`-th draw after `random.seed(100)` is
  the parameter `draw(j)`.
- `Lower`, `Capitalize`, `UpperChar`: case mapping covers ASCII letters only. Python's `str.lower` and `str.capitalize` map every Unicode cased letter, so `capitalize()` turns a leading `é` into `É` where the model keeps `é`; this reaches `ApplyHeuristicsToTokens` and `CleanTokensSpec` through the first token's capitalisation.
- AgeMatchShape, GerundMatchShape: `\d` is modelled as the ASCII digits
  `0`-`9` (`IsAsciiDigit`). Python 3 also matches every other Unicode decimal
  digit, so `, aged ٣٥,` is deleted by the source and kept by the model.
  `\s` follows Python's full `isspace` set.
- Records are updated in place in the source. The model returns updated
  dictionaries (values), so aliasing between the input and output
  dictionaries is not captured. This covers:
  - `indent` on the element tree;
  - `.update` on sentence records;
  - the `total` written back by `select_sent`.
- Element-tree serialisation (`tree.write`) is not part of this model.
- Placeholders: `ScanSentences` keeps `summary_tokens` as a list, as the
  source does. The specification `ScanFrom` tracks only its length, which is
  all the budget test reads.
- Summary assembly: the cleaner and the detokenizer are passed to the scan as
  function values, and so are the parser and `strip` elsewhere.
- The command-line entry points and the pure-I/O helper scripts.
- The embedding and similarity scripts.

## Findings

| source | as written | input that shows it | evidently intended | confidence | as-written member | corrected member |
|---|---|---|---|---|---|---|
| src/data_loader.py:173 | the evaltest test is a fresh `if`, so its `else` also calls `process_acquaint1` on the ACQUAINT-2 path after `process_acquaint2`; that raises unless the file has a `<docno>` equal to the id (an `UnboundLocalError` at line 52), and otherwise replaces the document with its text | doc id `AFP_ENG_20050101.0001` on the training split | `elif`: each document parsed once, by its corpus' parser | high; not executed | DataLoader.StoredParserAsWrittenCounterexample | DataLoader.StoredParserMatchesCorpus |
